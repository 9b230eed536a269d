/** The one regular expression of src/lib.rs, `WORKBENCH_COLOR_THEME`:

      (?m)^\s*"workbench\.colorTheme"\s*:\s*"(?P<name>.*?)",?\s*?$

    matched by a dedicated matcher instead of a regex engine. The matcher works
    on the whole settings text, not line by line: `\s` also matches `\n`, so the
    whitespace before the key and around the colon may cross line breaks, as it
    does in the regex crate.

    The first half of the module states what a match IS (`IsMatch`) and which
    match the crate's leftmost-first search reports (`Preferred`); the second
    half computes it (`Captures`) and proves that it computes exactly that. */
module ThemePattern {
  import opened Wrappers

  // ---------------------------------------------------------------------------
  // The pattern's pieces
  // ---------------------------------------------------------------------------

  /** `"workbench\.colorTheme"`: the key with its quotes; the dot is literal. */
  const Key: string := "\"workbench.colorTheme\""

  /** `\s` with the regex crate's default Unicode mode: the White_Space property. */
  predicate IsWhitespace(c: char)
  {
    || '\t' <= c <= '\r'
    || c == ' ' || c == '\U{85}' || c == '\U{A0}' || c == '\U{1680}'
    || '\U{2000}' <= c <= '\U{200A}'
    || c == '\U{2028}' || c == '\U{2029}' || c == '\U{202F}' || c == '\U{205F}' || c == '\U{3000}'
  }

  /** `^` in multi-line mode: the start of the text or just after a `\n`. */
  predicate LineStart(t: string, p: nat)
  {
    p == 0 || (p <= |t| && t[p - 1] == '\n')
  }

  /** `$` in multi-line mode: the end of the text or just before a `\n`. */
  predicate LineEnd(t: string, k: nat)
  {
    k == |t| || (k < |t| && t[k] == '\n')
  }

  /** Every character of `t[i..j]` is matched by `\s`. */
  ghost predicate AllWhitespace(t: string, i: nat, j: nat)
    requires i <= j <= |t|
  {
    forall k :: i <= k < j ==> IsWhitespace(t[k])
  }

  /** Every character of `t[i..j]` is matched by `.` (anything but `\n`). */
  ghost predicate NoNewline(t: string, i: nat, j: nat)
    requires i <= j <= |t|
  {
    forall k :: i <= k < j ==> t[k] != '\n'
  }

  /** `\s*?$` matches from `i`: some whitespace, then a line end. */
  ghost predicate BlankToLineEnd(t: string, i: nat)
    requires i <= |t|
  {
    exists k :: i <= k <= |t| && AllWhitespace(t, i, k) && LineEnd(t, k)
  }

  /** `",?\s*?$` matches from `e`: the closing quote, an optional comma, then
      nothing but whitespace up to the end of the line. */
  ghost predicate ClosesValue(t: string, e: nat)
  {
    && e < |t|
    && t[e] == '"'
    && (|| BlankToLineEnd(t, e + 1)
        || (e + 1 < |t| && t[e + 1] == ',' && BlankToLineEnd(t, e + 2)))
  }

  /** Where the parts of one match lie: the match starts at `start`, the quoted
      key at `key`, the colon at `colon`, the value's opening quote at `open`
      and its closing quote at `close`. */
  datatype Span = Span(start: nat, key: nat, colon: nat, open: nat, close: nat)

  /** The whole pattern matches `t` with the parts where `m` puts them. */
  ghost predicate IsMatch(t: string, m: Span)
  {
    && m.start <= m.key
    && m.key + |Key| <= m.colon < m.open < m.close < |t|
    && LineStart(t, m.start)
    && AllWhitespace(t, m.start, m.key)
    && t[m.key..m.key + |Key|] == Key
    && AllWhitespace(t, m.key + |Key|, m.colon)
    && t[m.colon] == ':'
    && AllWhitespace(t, m.colon + 1, m.open)
    && t[m.open] == '"'
    && NoNewline(t, m.open + 1, m.close)
    && ClosesValue(t, m.close)
  }

  /** The `name` group of a match: what lies between the two quotes. */
  function Name(t: string, m: Span): string
    requires m.open < m.close <= |t|
  {
    t[m.open + 1..m.close]
  }

  ghost predicate HasMatch(t: string)
  {
    exists m :: IsMatch(t, m)
  }

  /** The regex crate reports the match that starts leftmost; among matches at
      that start, backtracking order picks the one whose lazy `.*?` is shortest. */
  ghost predicate NotAfter(m: Span, m': Span)
  {
    m.start < m'.start || (m.start == m'.start && m.close <= m'.close)
  }

  /** `m` is the match `captures` reports. */
  ghost predicate Preferred(t: string, m: Span)
  {
    IsMatch(t, m) && forall m' :: IsMatch(t, m') ==> NotAfter(m, m')
  }

  // ---------------------------------------------------------------------------
  // The matcher
  // ---------------------------------------------------------------------------

  /** Greedy `\s*`: the end of the whitespace run that begins at `i`. */
  function SkipWhitespace(t: string, i: nat): (j: nat)
    requires i <= |t|
    ensures i <= j <= |t| && AllWhitespace(t, i, j)
    ensures j < |t| ==> !IsWhitespace(t[j])
    decreases |t| - i
  {
    if i < |t| && IsWhitespace(t[i]) then SkipWhitespace(t, i + 1) else i
  }

  /** The quoted key starts at `k`. */
  predicate KeyAt(t: string, k: nat)
  {
    k + |Key| <= |t| && t[k..k + |Key|] == Key
  }

  /** Lazy `\s*?` followed by `$`, tried one character at a time. */
  function LineEndsBlank(t: string, i: nat): (b: bool)
    requires i <= |t|
    ensures b <==> BlankToLineEnd(t, i)
    decreases |t| - i
  {
    if LineEnd(t, i) then
      assert AllWhitespace(t, i, i);
      true
    else if IsWhitespace(t[i]) then
      var b := LineEndsBlank(t, i + 1);
      assert b ==> BlankToLineEnd(t, i) by {
        if b {
          var k :| i + 1 <= k <= |t| && AllWhitespace(t, i + 1, k) && LineEnd(t, k);
          assert AllWhitespace(t, i, k);
        }
      }
      assert BlankToLineEnd(t, i) ==> b by {
        if BlankToLineEnd(t, i) {
          var k :| i <= k <= |t| && AllWhitespace(t, i, k) && LineEnd(t, k);
          assert k != i;
          assert AllWhitespace(t, i + 1, k);
        }
      }
      b
    else
      false
  }

  /** `",?\s*?$` tried at `e`. */
  function ClosesValueAt(t: string, e: nat): (b: bool)
    ensures b <==> ClosesValue(t, e)
  {
    && e < |t|
    && t[e] == '"'
    && (|| LineEndsBlank(t, e + 1)
        || (e + 1 < |t| && t[e + 1] == ',' && LineEndsBlank(t, e + 2)))
  }

  /** Lazy `(?P<name>.*?)` and the rest of the pattern: the first position at
      or after `i`, before any `\n`, where `",?\s*?$` succeeds. */
  function LazyName(t: string, i: nat): (r: Option<nat>)
    requires i <= |t|
    ensures r.Some? ==> i <= r.value < |t| && NoNewline(t, i, r.value) && ClosesValue(t, r.value)
    ensures r.Some? ==> forall e :: i <= e < r.value ==> !ClosesValue(t, e)
    ensures r.None? ==> forall e :: i <= e < |t| && NoNewline(t, i, e) ==> !ClosesValue(t, e)
    decreases |t| - i
  {
    if i == |t| then None
    else if ClosesValueAt(t, i) then Some(i)
    else if t[i] == '\n' then None
    else LazyName(t, i + 1)
  }

  /** The match that starts at `p`, if the pattern matches there: each greedy
      `\s*` runs to the end of its whitespace, each literal must follow. */
  function MatchAt(t: string, p: nat): Option<Span>
    requires p <= |t|
  {
    if !LineStart(t, p) then None
    else
      var key := SkipWhitespace(t, p);
      if !KeyAt(t, key) then None
      else
        var colon := SkipWhitespace(t, key + |Key|);
        if colon == |t| || t[colon] != ':' then None
        else
          var open := SkipWhitespace(t, colon + 1);
          if open == |t| || t[open] != '"' then None
          else
            match LazyName(t, open + 1)
            case None => None
            case Some(close) => Some(Span(p, key, colon, open, close))
  }

  lemma MatchAtSound(t: string, p: nat)
    requires p <= |t| && MatchAt(t, p).Some?
    ensures MatchAt(t, p).value.start == p && IsMatch(t, MatchAt(t, p).value)
  {
  }

  lemma MatchAtComplete(t: string, m: Span)
    requires IsMatch(t, m)
    ensures MatchAt(t, m.start).Some? && MatchAt(t, m.start).value.close <= m.close
  {
    PrefixDetermined(t, m);
    assert KeyAt(t, m.key);
  }

  /** `MatchAt` finds the match at `p` whose lazy name is shortest, and finds
      one whenever the pattern matches at `p`. */
  lemma MatchAtSpec(t: string, p: nat)
    requires p <= |t|
    ensures MatchAt(t, p).Some? ==> MatchAt(t, p).value.start == p && IsMatch(t, MatchAt(t, p).value)
    ensures MatchAt(t, p).Some? ==> forall m :: IsMatch(t, m) && m.start == p ==> MatchAt(t, p).value.close <= m.close
    ensures MatchAt(t, p).None? ==> forall m :: IsMatch(t, m) ==> m.start != p
  {
    if MatchAt(t, p).Some? {
      MatchAtSound(t, p);
    }
    forall m | IsMatch(t, m) && m.start == p
      ensures MatchAt(t, p).Some? && MatchAt(t, p).value.close <= m.close
    {
      MatchAtComplete(t, m);
    }
  }

  /** The leftmost match that starts at or after `p`. */
  function FirstMatchFrom(t: string, p: nat): (r: Option<Span>)
    requires p <= |t|
    ensures r.Some? ==> IsMatch(t, r.value) && p <= r.value.start
    ensures r.Some? ==> forall m :: IsMatch(t, m) && p <= m.start ==> NotAfter(r.value, m)
    ensures r.None? ==> forall m :: IsMatch(t, m) ==> m.start < p
    decreases |t| - p
  {
    MatchAtSpec(t, p);
    match MatchAt(t, p)
    case Some(m) => Some(m)
    case None => if p == |t| then None else FirstMatchFrom(t, p + 1)
  }

  /** `WORKBENCH_COLOR_THEME.captures(t)` followed by `cap["name"]`: the name
      captured by the match the crate reports, or `None` when nothing matches. */
  function Captures(t: string): (r: Option<string>)
    ensures r.None? <==> !HasMatch(t)
    ensures r.Some? ==> exists m :: Preferred(t, m) && r.value == Name(t, m)
  {
    match FirstMatchFrom(t, 0)
    case None => None
    case Some(m) => Some(Name(t, m))
  }

  // ---------------------------------------------------------------------------
  // Properties of the pattern
  // ---------------------------------------------------------------------------

  /** Where a run of whitespace from `i` stops is fixed. */
  lemma WhitespaceRunEnd(t: string, i: nat, j: nat)
    requires i <= j < |t| && AllWhitespace(t, i, j) && !IsWhitespace(t[j])
    ensures SkipWhitespace(t, i) == j
  {
  }

  /** A greedy `\s*` in front of a literal that is not whitespace can only
      match the whole run, so the start of a match fixes where its key, colon
      and opening quote are. */
  lemma PrefixDetermined(t: string, m: Span)
    requires IsMatch(t, m)
    ensures m.key == SkipWhitespace(t, m.start)
    ensures m.colon == SkipWhitespace(t, m.key + |Key|)
    ensures m.open == SkipWhitespace(t, m.colon + 1)
  {
    assert t[m.key] == t[m.key..m.key + |Key|][0] == '"';
    WhitespaceRunEnd(t, m.start, m.key);
    WhitespaceRunEnd(t, m.key + |Key|, m.colon);
    WhitespaceRunEnd(t, m.colon + 1, m.open);
  }

  /** Two matches the crate would both report are the same match, so the
      captured name is well defined. */
  lemma PreferredUnique(t: string, m1: Span, m2: Span)
    requires Preferred(t, m1) && Preferred(t, m2)
    ensures m1 == m2
  {
    PrefixDetermined(t, m1);
    PrefixDetermined(t, m2);
  }

  /** The quoted key's only quotes are its first and last characters. */
  lemma KeyQuotes()
    ensures |Key| == 22 && Key[0] == '"' && Key[1] == 'w' && Key[|Key| - 1] == '"'
    ensures forall d :: 0 < d < |Key| - 1 ==> Key[d] != '"'
  {
    assert Key[1..|Key| - 1] == "workbench.colorTheme";
    forall d | 0 < d < |Key| - 1
      ensures Key[d] != '"'
    {
      assert Key[d] == Key[1..|Key| - 1][d - 1];
    }
  }

  lemma KeyCharAt(t: string, k: nat, d: nat)
    requires KeyAt(t, k) && d < |Key|
    ensures t[k + d] == Key[d]
  {
    assert t[k + d] == t[k..k + |Key|][d];
  }

  /** Two occurrences of the quoted key overlap at most in one quote. */
  lemma KeyOverlap(t: string, k1: nat, k2: nat)
    requires KeyAt(t, k1) && KeyAt(t, k2)
    ensures k1 < k2 < k1 + |Key| ==> k2 == k1 + |Key| - 1
  {
    KeyQuotes();
    if k1 < k2 < k1 + |Key| {
      KeyCharAt(t, k2, 0);
      KeyCharAt(t, k1, k2 - k1);
    }
  }

  /** A match that starts no later than another has its opening quote no later
      either: its greedy whitespace cannot run past the other's quoted key. */
  lemma OpenNotAfter(t: string, m: Span, m': Span)
    requires IsMatch(t, m) && IsMatch(t, m') && m'.start <= m.start
    ensures m'.open <= m.open
  {
    KeyQuotes();
    KeyCharAt(t, m.key, 0);
    KeyCharAt(t, m.key, 1);
    KeyOverlap(t, m'.key, m.key);
    assert !IsWhitespace(t[m.key]) && !IsWhitespace(t[m.key + 1]);
    if m'.key == m.key {
      PrefixDetermined(t, m);
      PrefixDetermined(t, m');
    } else {
      // `m`'s key lies after `m'`'s, or overlaps it in the closing quote only,
      // where the letter that follows stops `m'` before its colon.
      assert t[m.key] != ':' && t[m.key + 1] != ':';
    }
  }

  /** Nothing is captured unless the exact quoted key occurs in the text, dot
      included: `"workbenchXcolorTheme"` or `"workbench.colorThemes"` never
      count as the key. */
  lemma KeyIsLiteral(t: string)
    ensures Captures(t).Some? ==> exists k :: KeyAt(t, k)
  {
    if Captures(t).Some? {
      var m :| IsMatch(t, m);
      assert KeyAt(t, m.key);
    }
  }

  /** The captured name never spans a line break. */
  lemma NameOnOneLine(t: string, m: Span)
    requires IsMatch(t, m)
    ensures '\n' !in Name(t, m)
  {
    forall k | 0 <= k < |Name(t, m)|
      ensures Name(t, m)[k] != '\n'
    {
      assert Name(t, m)[k] == t[m.open + 1 + k];
    }
  }

  lemma CapturedNameOnOneLine(t: string)
    ensures Captures(t).Some? ==> '\n' !in Captures(t).value
  {
    if Captures(t).Some? {
      var m :| Preferred(t, m) && Captures(t).value == Name(t, m);
      NameOnOneLine(t, m);
    }
  }

  /** In a text without line breaks only the first position can start a
      match, so the text matches exactly when it matches there. */
  lemma SingleLineMatchesAtStart(t: string)
    requires '\n' !in t
    ensures Captures(t).None? <==> MatchAt(t, 0).None?
  {
  }

  /** Appending a line break and more text leaves the end of a line at the
      end of the old text. */
  lemma {:induction false} LineEndsBlankInPrefix(a: string, b: string, i: nat)
    requires i <= |a|
    ensures LineEndsBlank(a, i) == LineEndsBlank(a + "\n" + b, i)
    decreases |a| - i
  {
    var c := a + "\n" + b;
    assert c[|a|] == '\n';
    if i < |a| {
      assert c[i] == a[i];
      if !LineEnd(a, i) && IsWhitespace(a[i]) {
        LineEndsBlankInPrefix(a, b, i + 1);
      }
    }
  }

  lemma AllWhitespaceInPrefix(a: string, b: string, i: nat, j: nat)
    requires i <= j <= |a|
    ensures AllWhitespace(a, i, j) == AllWhitespace(a + "\n" + b, i, j)
  {
    assert forall k :: i <= k < j ==> (a + "\n" + b)[k] == a[k];
  }

  lemma ClosesValueInPrefix(a: string, b: string, e: nat)
    requires e < |a|
    ensures ClosesValue(a, e) == ClosesValue(a + "\n" + b, e)
  {
    var c := a + "\n" + b;
    assert c[e] == a[e];
    assert c[|a|] == '\n';
    if e + 1 < |a| {
      assert c[e + 1] == a[e + 1];
      LineEndsBlankInPrefix(a, b, e + 2);
    }
    LineEndsBlankInPrefix(a, b, e + 1);
    assert ClosesValueAt(a, e) == ClosesValueAt(c, e);
  }

  /** A match that ends inside the first part of `a + "\n" + b` is a match of
      `a` and the other way round: the pattern never looks past a line end
      after the closing quote. */
  lemma MatchInPrefix(a: string, b: string, m: Span)
    requires m.close < |a|
    ensures IsMatch(a, m) <==> IsMatch(a + "\n" + b, m)
  {
    var c := a + "\n" + b;
    if m.start <= m.key && m.key + |Key| <= m.colon < m.open < m.close {
      assert c[..|a|] == a;
      assert c[m.key..m.key + |Key|] == a[m.key..m.key + |Key|];
      assert c[m.colon] == a[m.colon] && c[m.open] == a[m.open];
      assert LineStart(c, m.start) == LineStart(a, m.start);
      AllWhitespaceInPrefix(a, b, m.start, m.key);
      AllWhitespaceInPrefix(a, b, m.key + |Key|, m.colon);
      AllWhitespaceInPrefix(a, b, m.colon + 1, m.open);
      assert NoNewline(a, m.open + 1, m.close) == NoNewline(c, m.open + 1, m.close);
      ClosesValueInPrefix(a, b, m.close);
    }
  }

  /** No match of `a + "\n" + b` comes before the match reported for `a`. */
  lemma NoMatchBefore(a: string, b: string, m: Span, m': Span)
    requires Preferred(a, m) && IsMatch(a + "\n" + b, m')
    ensures NotAfter(m, m')
  {
    var c := a + "\n" + b;
    if m'.start <= m.start {
      assert c[|a|] == '\n';
      MatchInPrefix(a, b, m);
      OpenNotAfter(c, m, m');
      assert m'.close < |a|;
      MatchInPrefix(a, b, m');
    }
  }

  /** The match reported for `a` is the one reported for `a + "\n" + b`. */
  lemma PreferredInExtension(a: string, b: string, m: Span)
    requires Preferred(a, m)
    ensures Preferred(a + "\n" + b, m)
  {
    MatchInPrefix(a, b, m);
    forall m' | IsMatch(a + "\n" + b, m')
      ensures NotAfter(m, m')
    {
      NoMatchBefore(a, b, m, m');
    }
  }

  lemma NameInPrefix(a: string, b: string, m: Span)
    requires m.open < m.close < |a|
    ensures Name(a + "\n" + b, m) == Name(a, m)
  {
    var c := a + "\n" + b;
    assert c[..|a|] == a;
    assert Name(c, m) == c[..|a|][m.open + 1..m.close];
  }

  /** Whatever finds the match the crate reports finds its name. */
  lemma CapturesPreferred(t: string, m: Span)
    requires Preferred(t, m)
    ensures Captures(t) == Some(Name(t, m))
  {
    var n :| Preferred(t, n) && Captures(t).value == Name(t, n);
    PreferredUnique(t, m, n);
  }

  /** At the first position of the text, the match with the first quote
      after its opening one is the one reported. */
  lemma ShortestAtStart(t: string, m: Span)
    requires IsMatch(t, m) && m.start == 0
    requires forall k :: m.open < k < m.close ==> t[k] != '"'
    ensures Preferred(t, m)
  {
    forall m' | IsMatch(t, m')
      ensures NotAfter(m, m')
    {
      if m'.start == 0 {
        OpenNotAfter(t, m, m');
        OpenNotAfter(t, m', m);
      }
    }
  }

  /** What may follow the closing quote on its line: an optional comma, then
      whitespace up to the line end. */
  predicate ValueEnd(rest: string)
  {
    LineEndsBlank(rest, 0) || (|rest| > 0 && rest[0] == ',' && LineEndsBlank(rest, 1))
  }

  lemma {:induction false} LineEndsBlankShift(x: string, r: string, i: nat)
    requires i <= |r|
    ensures LineEndsBlank(x + r, |x| + i) == LineEndsBlank(r, i)
    decreases |r| - i
  {
    if i < |r| {
      assert (x + r)[|x| + i] == r[i];
      LineEndsBlankShift(x, r, i + 1);
    }
  }

  /** The part of the usual line up to the opening quote of the value. */
  lemma UsualHead(indent: string, before: string, after: string)
    requires AllWhitespace(indent, 0, |indent|) && AllWhitespace(before, 0, |before|) && AllWhitespace(after, 0, |after|)
    ensures var head := indent + Key + before + ":" + after;
      var colon := |indent| + |Key| + |before|;
      && |head| == colon + 1 + |after|
      && AllWhitespace(head, 0, |indent|)
      && KeyAt(head, |indent|)
      && AllWhitespace(head, |indent| + |Key|, colon)
      && head[colon] == ':'
      && AllWhitespace(head, colon + 1, |head|)
  {
    var head := indent + Key + before + ":" + after;
    var key := |indent|;
    var colon := key + |Key| + |before|;
    assert forall k :: 0 <= k < key ==> head[k] == indent[k];
    assert head[key..key + |Key|] == Key;
    assert forall k :: key + |Key| <= k < colon ==> head[k] == before[k - key - |Key|];
    assert forall k :: colon < k < |head| ==> head[k] == after[k - colon - 1];
  }

  /** The part of the usual line from the opening quote of the value on. */
  lemma UsualValue(x: string, name: string, rest: string)
    requires '"' !in name && '\n' !in name
    requires ValueEnd(rest)
    ensures var t := x + "\"" + name + "\"" + rest;
      var close := |x| + 1 + |name|;
      && close < |t|
      && t[|x|] == '"'
      && NoNewline(t, |x| + 1, close)
      && (forall k :: |x| < k < close ==> t[k] != '"')
      && ClosesValue(t, close)
      && t[|x| + 1..close] == name
  {
    var y := x + "\"" + name + "\"";
    var t := y + rest;
    var close := |x| + 1 + |name|;
    assert forall k :: |x| < k < close ==> t[k] == name[k - |x| - 1];
    assert t[|x| + 1..close] == name;
    if LineEndsBlank(rest, 0) {
      LineEndsBlankShift(y, rest, 0);
    } else {
      LineEndsBlankShift(y, rest, 1);
      assert t[close + 1] == ',';
    }
    assert ClosesValueAt(t, close);
  }

  /** Where the parts of the usual line lie. */
  function UsualSpan(indent: string, before: string, after: string, name: string): Span
  {
    var open := |indent| + |Key| + |before| + 1 + |after|;
    Span(0, |indent|, |indent| + |Key| + |before|, open, open + 1 + |name|)
  }

  lemma UsualLineMatch(indent: string, before: string, after: string, name: string, rest: string)
    requires AllWhitespace(indent, 0, |indent|) && AllWhitespace(before, 0, |before|) && AllWhitespace(after, 0, |after|)
    requires '"' !in name && '\n' !in name
    requires ValueEnd(rest)
    ensures var t := indent + Key + before + ":" + after + "\"" + name + "\"" + rest;
      var m := UsualSpan(indent, before, after, name);
      && IsMatch(t, m)
      && (forall k :: m.open < k < m.close ==> t[k] != '"')
      && Name(t, m) == name
  {
    var head := indent + Key + before + ":" + after;
    var t := head + "\"" + name + "\"" + rest;
    var m := UsualSpan(indent, before, after, name);
    UsualHead(indent, before, after);
    UsualValue(head, name, rest);
    assert forall k :: 0 <= k < |head| ==> t[k] == head[k];
    assert t[|indent|..|indent| + |Key|] == head[|indent|..|indent| + |Key|];
  }

  /** The usual shape of the setting: indentation, the quoted key, whitespace
      on either side of the colon, a quoted name without quotes or line
      breaks, then an optional comma and trailing whitespace. Such a text
      yields exactly that name, whatever lines follow it. */
  lemma UsualLineCaptured(indent: string, before: string, after: string, name: string, rest: string)
    requires AllWhitespace(indent, 0, |indent|) && AllWhitespace(before, 0, |before|) && AllWhitespace(after, 0, |after|)
    requires '"' !in name && '\n' !in name
    requires ValueEnd(rest)
    ensures Captures(indent + Key + before + ":" + after + "\"" + name + "\"" + rest) == Some(name)
  {
    var t := indent + Key + before + ":" + after + "\"" + name + "\"" + rest;
    var m := UsualSpan(indent, before, after, name);
    UsualLineMatch(indent, before, after, name, rest);
    ShortestAtStart(t, m);
    CapturesPreferred(t, m);
  }

  /** The first line that matches wins: once a text has a match, whatever
      lines follow it, another `"workbench.colorTheme"` among them included,
      the captured name stays the same. */
  lemma EarlierLineWins(a: string, b: string)
    requires Captures(a).Some?
    ensures Captures(a + "\n" + b) == Captures(a)
  {
    var m :| Preferred(a, m) && Captures(a).value == Name(a, m);
    PreferredInExtension(a, b, m);
    CapturesPreferred(a + "\n" + b, m);
    NameInPrefix(a, b, m);
  }
}
