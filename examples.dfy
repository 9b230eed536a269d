/** Worked inputs for the two halves of the crate: settings lines that do and
    do not name the current theme, and a small extension cache. */
module Examples {
  import opened Wrappers
  import opened ThemePattern
  import opened VsCodeData
  import WhatTheme

  // ---------------------------------------------------------------------------
  // Settings lines
  // ---------------------------------------------------------------------------

  /** A settings line put together from its parts: indentation, the key, a
      space on either side of the colon, the name, a comma and trailing
      spaces. */
  const Padded: string := "  " + Key + " " + ":" + " " + "\"" + "Dracula" + "\"" + ",  "

  /** Indentation, spaces around the colon, a trailing comma and trailing
      spaces are all accepted. */
  lemma PaddedLineWithComma()
    ensures WhatTheme.GetCurrentThemeFrom(Padded) == Ok("Dracula")
  {
    assert LineEndsBlank(",  ", 1);
    UsualLineCaptured("  ", " ", " ", "Dracula", ",  ");
  }

  const LineA: string := "\"workbench.colorTheme\": \"A\","
  const LineB: string := "\"workbench.colorTheme\": \"B\""

  /** Of two lines that both set the theme, the first one counts. */
  lemma FirstOfTwoLines()
    ensures WhatTheme.GetCurrentThemeFrom(LineA + "\n" + LineB) == Ok("A")
  {
    LineAMatchesAtStart();
    assert LineA[25..26] == "A";
    EarlierLineWins(LineA, LineB);
  }

  lemma LineAMatchesAtStart()
    ensures MatchAt(LineA, 0) == Some(Span(0, 0, 22, 24, 26))
  {
    assert KeyAt(LineA, 0);
    assert SkipWhitespace(LineA, 22) == 22 && LineA[22] == ':';
    assert SkipWhitespace(LineA, 23) == 24 && LineA[24] == '"';
    assert LazyName(LineA, 26) == Some(26);
    assert LazyName(LineA, 25) == Some(26);
  }

  const OtherSeparator: string := "\"workbenchXcolorTheme\": \"X\""

  /** The dot of the key is not a wildcard. */
  lemma DotIsLiteral()
    ensures WhatTheme.GetCurrentThemeFrom(OtherSeparator) == Err(WhatTheme.CannotFindCurrentTheme)
  {
    OtherSeparatorNoMatchAtStart();
    assert '\n' !in "\"workbenchXcolorTheme\": \"X\"";
    SingleLineMatchesAtStart(OtherSeparator);
  }

  lemma OtherSeparatorNoMatchAtStart()
    ensures MatchAt(OtherSeparator, 0) == None
  {
    assert OtherSeparator[10] == 'X' && Key[10] == '.';
    assert !KeyAt(OtherSeparator, 0);
  }

  const LongerKey: string := "\"workbench.colorThemes\": \"X\""

  /** A key that only begins with `workbench.colorTheme` does not match. */
  lemma LongerKeyRejected()
    ensures WhatTheme.GetCurrentThemeFrom(LongerKey) == Err(WhatTheme.CannotFindCurrentTheme)
  {
    LongerKeyNoMatchAtStart();
    assert '\n' !in "\"workbench.colorThemes\": \"X\"";
    SingleLineMatchesAtStart(LongerKey);
  }

  lemma LongerKeyNoMatchAtStart()
    ensures MatchAt(LongerKey, 0) == None
  {
    assert LongerKey[21] == 's' && Key[21] == '"';
    assert !KeyAt(LongerKey, 0);
  }

  const SpaceBeforeComma: string := "\"workbench.colorTheme\": \"X\" ,"

  /** After the closing quote only a comma may come before the whitespace:
      a space in front of the comma makes the line fail. */
  lemma SpaceBeforeCommaRejected()
    ensures WhatTheme.GetCurrentThemeFrom(SpaceBeforeComma) == Err(WhatTheme.CannotFindCurrentTheme)
  {
    SpaceBeforeCommaNoMatchAtStart();
    assert '\n' !in "\"workbench.colorTheme\": \"X\" ,";
    SingleLineMatchesAtStart(SpaceBeforeComma);
  }

  lemma SpaceBeforeCommaNoMatchAtStart()
    ensures MatchAt(SpaceBeforeComma, 0) == None
  {
    assert KeyAt(SpaceBeforeComma, 0);
    assert SkipWhitespace(SpaceBeforeComma, 22) == 22 && SpaceBeforeComma[22] == ':';
    assert SkipWhitespace(SpaceBeforeComma, 23) == 24 && SpaceBeforeComma[24] == '"';
    assert !LineEndsBlank(SpaceBeforeComma, 27);
    assert LazyName(SpaceBeforeComma, 27) == None;
    assert LazyName(SpaceBeforeComma, 25) == None;
  }

  const TrailingComment: string := "\"workbench.colorTheme\": \"X\", //"

  /** Text after the comma makes the line fail. */
  lemma TrailingTextRejected()
    ensures WhatTheme.GetCurrentThemeFrom(TrailingComment) == Err(WhatTheme.CannotFindCurrentTheme)
  {
    TrailingNoMatchAtStart();
    assert '\n' !in "\"workbench.colorTheme\": \"X\", //";
    SingleLineMatchesAtStart(TrailingComment);
  }

  lemma TrailingNoMatchAtStart()
    ensures MatchAt(TrailingComment, 0) == None
  {
    assert KeyAt(TrailingComment, 0);
    assert SkipWhitespace(TrailingComment, 22) == 22 && TrailingComment[22] == ':';
    assert SkipWhitespace(TrailingComment, 23) == 24 && TrailingComment[24] == '"';
    TrailingNoClosingQuote();
  }

  lemma TrailingNoClosingQuote()
    ensures LazyName(TrailingComment, 25) == None
  {
    assert !LineEndsBlank(TrailingComment, 28);
    assert !LineEndsBlank(TrailingComment, 27);
    assert LazyName(TrailingComment, 29) == None;
    assert LazyName(TrailingComment, 28) == None;
    assert LazyName(TrailingComment, 27) == None;
    assert LazyName(TrailingComment, 26) == None;
  }

  const EmbeddedQuote: string := "\"workbench.colorTheme\": \"a\"b\""

  /** The name runs to the first quote after which the line may end, so it
      can hold a quote itself. */
  lemma EmbeddedQuoteKept()
    ensures WhatTheme.GetCurrentThemeFrom(EmbeddedQuote) == Ok("a\"b")
  {
    EmbeddedQuoteMatchesAtStart();
    assert EmbeddedQuote[25..28] == "a\"b";
  }

  lemma EmbeddedQuoteMatchesAtStart()
    ensures MatchAt(EmbeddedQuote, 0) == Some(Span(0, 0, 22, 24, 28))
  {
    assert KeyAt(EmbeddedQuote, 0);
    assert SkipWhitespace(EmbeddedQuote, 22) == 22 && EmbeddedQuote[22] == ':';
    assert SkipWhitespace(EmbeddedQuote, 23) == 24 && EmbeddedQuote[24] == '"';
    assert !ClosesValueAt(EmbeddedQuote, 26);
    assert LazyName(EmbeddedQuote, 27) == Some(28);
    assert LazyName(EmbeddedQuote, 25) == Some(28);
  }

  const EmptyName: string := "\"workbench.colorTheme\": \"\""

  /** An empty name is a name. */
  lemma EmptyNameAccepted()
    ensures WhatTheme.GetCurrentThemeFrom(EmptyName) == Ok("")
  {
    EmptyNameMatchesAtStart();
  }

  lemma EmptyNameMatchesAtStart()
    ensures MatchAt(EmptyName, 0) == Some(Span(0, 0, 22, 24, 25))
  {
    assert KeyAt(EmptyName, 0);
    assert SkipWhitespace(EmptyName, 22) == 22 && EmptyName[22] == ':';
    assert SkipWhitespace(EmptyName, 23) == 24 && EmptyName[24] == '"';
    assert LazyName(EmptyName, 25) == Some(25);
  }

  const KeyAcrossLines: string := "\"workbench.colorTheme\"\n:\n\"X\""

  /** `\s` matches line breaks too, so the colon and the value may sit on the
      lines after the key. */
  lemma KeyAndValueOnSeparateLines()
    ensures WhatTheme.GetCurrentThemeFrom(KeyAcrossLines) == Ok("X")
  {
    KeyAcrossLinesMatchesAtStart();
    assert KeyAcrossLines[26..27] == "X";
  }

  lemma KeyAcrossLinesMatchesAtStart()
    ensures MatchAt(KeyAcrossLines, 0) == Some(Span(0, 0, 23, 25, 27))
  {
    assert KeyAt(KeyAcrossLines, 0);
    assert SkipWhitespace(KeyAcrossLines, 23) == 23;
    assert SkipWhitespace(KeyAcrossLines, 22) == 23 && KeyAcrossLines[23] == ':';
    assert SkipWhitespace(KeyAcrossLines, 25) == 25;
    assert SkipWhitespace(KeyAcrossLines, 24) == 25 && KeyAcrossLines[25] == '"';
    assert LazyName(KeyAcrossLines, 26) == Some(27);
  }

  // ---------------------------------------------------------------------------
  // The extension cache
  // ---------------------------------------------------------------------------

  function ThemeExtension(id: string, themeLabel: string): VsCodeData.Result
  {
    Result(Identifier(id), Manifest(["Themes"], Contributes([Theme(themeLabel)])))
  }

  /** The extension found for a theme name links to its marketplace page. */
  lemma DraculaFound()
    ensures var found := WhatTheme.VsCodeSettings(Results([ThemeExtension("a.b", "Dracula")])).FindTheme("Dracula");
      && found == Some(WhatTheme.FoundTheme("a.b", "Dracula"))
      && found.value.Url() == WhatTheme.MarketplaceItemUrl + "a.b"
      && found.value.Display() == "'Dracula' from " + WhatTheme.MarketplaceItemUrl + "a.b"
    ensures WhatTheme.MarketplaceItemUrl == "https://marketplace.visualstudio.com/items?itemName="
  {
    var found := WhatTheme.FoundTheme("a.b", "Dracula");
    assert WhatTheme.Offers(ThemeExtension("a.b", "Dracula"), "Dracula");
    assert WhatTheme.FromWord == "' from ";
    assert "'" + "Dracula" + "' from " == "'Dracula' from ";
    assert found.Display() == "'" + "Dracula" + WhatTheme.FromWord + (WhatTheme.MarketplaceItemUrl + "a.b");
  }

  /** A name no extension contributes finds nothing, and that is not an error. */
  lemma UnknownNameNotFound()
    ensures WhatTheme.VsCodeSettings(Results([ThemeExtension("a.b", "Dracula")])).FindTheme("Nonexistent") == None
  {
    assert !WhatTheme.Offers(ThemeExtension("a.b", "Dracula"), "Nonexistent");
  }

  /** An extension outside the `Themes` category is passed over even when it
      contributes a theme of that name. */
  lemma CategoryRequired()
    ensures WhatTheme.VsCodeSettings(Results([
      Result(Identifier("c.d"), Manifest(["Other"], Contributes([Theme("Dracula")])))
    ])).FindTheme("Dracula") == None
  {
    assert !WhatTheme.Offers(Result(Identifier("c.d"), Manifest(["Other"], Contributes([Theme("Dracula")]))), "Dracula");
  }

  /** When two extensions contribute the same name, the one earlier in the
      cache is reported. */
  lemma EarlierExtensionWins()
    ensures WhatTheme.VsCodeSettings(Results([ThemeExtension("x.first", "Foo"), ThemeExtension("x.second", "Foo")])).FindTheme("Foo")
      == Some(WhatTheme.FoundTheme("x.first", "Foo"))
  {
    assert WhatTheme.Offers(ThemeExtension("x.first", "Foo"), "Foo");
  }
}
