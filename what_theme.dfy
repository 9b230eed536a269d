/** The crate's public surface in src/lib.rs once its file-system access is
    taken away: reading the current colour theme out of the text of
    `settings.json`, and finding which installed extension contributes a
    theme of a given name. */
module WhatTheme {
  import opened Wrappers
  import VsCodeData
  import ThemePattern

  /** The crate's `Error`. The model produces only `CannotFindCurrentTheme`;
      the others come from the file system and the JSON parser. */
  datatype Error = CannotFindBaseDir | Io | CannotFindCurrentTheme | Json

  /** The marketplace page of an extension is this prefix followed by its id. */
  const MarketplaceItemUrl: string := "https://marketplace.visualstudio.com/items?itemName="

  /** Between the quoted variant and the URL in the display string. */
  const FromWord: string := "' from "

  // ---------------------------------------------------------------------------
  // The current theme
  // ---------------------------------------------------------------------------

  /** `get_current_theme_from`: the name bound to `"workbench.colorTheme"` on
      the first line of `data` that the pattern matches, or
      `CannotFindCurrentTheme` when no line does. */
  function GetCurrentThemeFrom(data: string): (r: Result<string, Error>)
    ensures r.Err? <==> !ThemePattern.HasMatch(data)
    ensures r.Err? ==> r.error == CannotFindCurrentTheme
    ensures r.Ok? ==> exists m :: ThemePattern.Preferred(data, m) && r.value == ThemePattern.Name(data, m)
    ensures r.Ok? ==> '\n' !in r.value
  {
    match ThemePattern.Captures(data)
    case None => Err(CannotFindCurrentTheme)
    case Some(name) =>
      ThemePattern.CapturedNameOnOneLine(data);
      Ok(name)
  }

  // ---------------------------------------------------------------------------
  // The theme's extension
  // ---------------------------------------------------------------------------

  /** What `find_theme` returns: the id of the extension and the theme name it
      was asked for. */
  datatype FoundTheme = FoundTheme(id: string, variant: string)
  {
    /** `url`: the extension's marketplace page. */
    function Url(): (u: string)
      ensures |u| == |MarketplaceItemUrl| + |id|
      ensures u[..|MarketplaceItemUrl|] == MarketplaceItemUrl
      ensures u[|MarketplaceItemUrl|..] == id
    {
      MarketplaceItemUrl + id
    }

    /** `variant`: the theme name given to `find_theme`. */
    function Variant(): string
    {
      variant
    }

    /** `Display::fmt`: `'<variant>' from <url>`. */
    function Display(): (s: string)
      ensures |s| == 1 + |variant| + |FromWord| + |Url()|
      ensures s[0] == '\''
      ensures s[1..1 + |variant|] == Variant()
      ensures s[1 + |variant|..1 + |variant| + |FromWord|] == FromWord
      ensures s[1 + |variant| + |FromWord|..] == Url()
    {
      "'" + Variant() + FromWord + Url()
    }
  }

  /** The extension `entry` is in the `Themes` category and contributes a
      theme labelled `current`: the test of `find_theme`'s loop. */
  predicate Offers(entry: VsCodeData.Result, current: string)
  {
    entry.manifest.IsATheme() && entry.manifest.ContainsTheme(current)
  }

  /** `entries[j]` is the first entry that offers `current`. */
  ghost predicate FirstOffer(entries: seq<VsCodeData.Result>, current: string, j: nat)
  {
    && j < |entries|
    && Offers(entries[j], current)
    && forall k :: 0 <= k < j ==> !Offers(entries[k], current)
  }

  /** The loop of `find_theme` over the cached entries, in order, returning at
      the first entry that offers `current`. */
  function Find(entries: seq<VsCodeData.Result>, current: string): (r: Option<FoundTheme>)
    ensures r.None? <==> forall j :: 0 <= j < |entries| ==> !Offers(entries[j], current)
    ensures r.Some? ==>
      exists j: nat :: FirstOffer(entries, current, j) && r.value == FoundTheme(entries[j].identifier.id, current)
  {
    if entries == [] then None
    else if Offers(entries[0], current) then
      assert FirstOffer(entries, current, 0);
      Some(FoundTheme(entries[0].identifier.id, current))
    else
      var r := Find(entries[1..], current);
      assert r.None? ==> forall j :: 0 <= j < |entries| ==> !Offers(entries[j], current) by {
        if r.None? {
          assert forall j :: 1 <= j < |entries| ==> entries[j] == entries[1..][j - 1];
        }
      }
      assert r.Some? ==>
        exists j: nat :: FirstOffer(entries, current, j) && r.value == FoundTheme(entries[j].identifier.id, current)
      by {
        if r.Some? {
          var j: nat :| FirstOffer(entries[1..], current, j) && r.value == FoundTheme(entries[1..][j].identifier.id, current);
          FirstOfferAfterHead(entries, current, j);
        }
      }
      r
  }

  /** Past an entry that does not offer `current`, the first offer of the
      remaining entries is the first offer of them all. */
  lemma FirstOfferAfterHead(entries: seq<VsCodeData.Result>, current: string, j: nat)
    requires entries != [] && !Offers(entries[0], current)
    requires FirstOffer(entries[1..], current, j)
    ensures FirstOffer(entries, current, j + 1) && entries[j + 1] == entries[1..][j]
  {
    assert forall k :: 1 <= k <= j ==> entries[k] == entries[1..][k - 1];
  }

  /** `VsCodeSettings`: the parsed extension cache. It is never changed after
      it is built. */
  datatype VsCodeSettings = VsCodeSettings(result: VsCodeData.Results)
  {
    /** `find_theme`: the first cached extension, in cache order, that is a
        theme extension and contributes a theme labelled exactly `current`;
        `None` when there is none. */
    function FindTheme(current: string): (r: Option<FoundTheme>)
      ensures r.None? <==> forall j :: 0 <= j < |result.result| ==> !Offers(result.result[j], current)
      ensures r.Some? ==> r.value.Variant() == current
      ensures r.Some? ==>
        exists j: nat :: FirstOffer(result.result, current, j) && r.value.id == result.result[j].identifier.id
    {
      Find(result.result, current)
    }
  }

  // ---------------------------------------------------------------------------
  // Properties
  // ---------------------------------------------------------------------------

  /** Searching two runs of entries one after the other finds what the first
      run offers, and looks at the second run only when the first has none. */
  lemma {:induction false} FindConcat(a: seq<VsCodeData.Result>, b: seq<VsCodeData.Result>, current: string)
    ensures Find(a + b, current) == if Find(a, current).Some? then Find(a, current) else Find(b, current)
  {
    if a == [] {
      assert a + b == b;
    } else {
      assert (a + b)[0] == a[0];
      assert (a + b)[1..] == a[1..] + b;
      FindConcat(a[1..], b, current);
    }
  }

  /** Whether some extension offers a theme does not depend on the order of
      the cache; only which one is reported does. */
  lemma FindFoundInAnyOrder(a: seq<VsCodeData.Result>, b: seq<VsCodeData.Result>, current: string)
    requires multiset(a) == multiset(b)
    ensures Find(a, current).Some? <==> Find(b, current).Some?
  {
    OfferedSomewhere(a, b, current);
    OfferedSomewhere(b, a, current);
  }

  lemma OfferedSomewhere(a: seq<VsCodeData.Result>, b: seq<VsCodeData.Result>, current: string)
    requires multiset(a) == multiset(b)
    ensures Find(a, current).Some? ==> Find(b, current).Some?
  {
    if Find(a, current).Some? {
      var j: nat :| FirstOffer(a, current, j);
      assert a[j] in multiset(b);
      var k :| 0 <= k < |b| && b[k] == a[j];
      assert Offers(b[k], current);
    }
  }

  /** The marketplace URL tells extensions apart: two found themes have the
      same URL exactly when they name the same extension. */
  lemma UrlIdentifiesExtension(f: FoundTheme, g: FoundTheme)
    ensures f.Url() == g.Url() <==> f.id == g.id
  {
    if f.Url() == g.Url() {
      assert f.id == f.Url()[|MarketplaceItemUrl|..] == g.Url()[|MarketplaceItemUrl|..] == g.id;
    }
  }

  /** For one theme name, the display string tells extensions apart. */
  lemma DisplayIdentifiesExtension(f: FoundTheme, g: FoundTheme)
    requires f.variant == g.variant
    ensures f.Display() == g.Display() <==> f.id == g.id
  {
    var n := 1 + |f.variant| + |FromWord|;
    if f.Display() == g.Display() {
      assert f.Url() == f.Display()[n..] == g.Display()[n..] == g.Url();
      UrlIdentifiesExtension(f, g);
    }
  }
}
