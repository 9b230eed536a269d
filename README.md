# what_theme, modelled in Dafny

`what_theme` is a small Rust crate that tells you which colour theme Visual
Studio Code is using and which installed extension provides it. Its logic,
in `src/lib.rs`, has two parts. This project models both as pure functions
and proves properties of them.

- **Reading the current theme** (`get_current_theme_from`). The crate runs
  one multi-line regular expression over the text of `settings.json`:
  `^\s*"workbench\.colorTheme"\s*:\s*"(?P<name>.*?)",?\s*?$`. It returns the
  `name` group of the match that the regex crate reports, or
  `Error::CannotFindCurrentTheme` when nothing matches. The model
  (`ThemePattern`) does not use a regex engine. It has two parts:
  - **What a match is.** `IsMatch` says where each part of a match lies in
    the text. `Preferred` says which match is reported: the leftmost one,
    and among matches at that start the one whose lazy name is shortest.
  - **A dedicated matcher.** `MatchAt`, `FirstMatchFrom` and `Captures`
    compute the result, and the matcher is proved to return exactly the
    preferred match's name.

  `\s` is Unicode White_Space, as in the regex crate's default mode. `.`
  matches anything except `\n`. `^` and `$` recognise only `\n`. The matcher
  works on the whole text, not line by line: `\s` also matches `\n`, so the
  whitespace before the key and on either side of the colon may cross line
  breaks, as it does in the crate.
- **Finding the theme's extension** (`VsCodeSettings::find_theme`). The
  crate walks the parsed extension cache (`vscode_data::Results`) in order.
  It returns the first entry that is in the `Themes` category and
  contributes a theme whose label equals the requested name. The
  `FoundTheme` it returns gives the marketplace URL and a display string.

Module layout:
- `Wrappers`: `Option` and `Result`.
- `Seqs`: `Any`, i.e. `iter().any`.
- `VsCodeData`: the deserialised cache records.
- `ThemePattern`: the pattern and its matcher.
- `WhatTheme`: the crate's public functions and `Error`.
- `Examples`: concrete settings lines and caches.

`find_theme` is a plain sequential loop over the cache entries, and the
crate reads only the `workbench.colorTheme` key.

## Model

| member | source | states |
|---|---|---|
| Seqs.Any | src/lib.rs:164 | `iter().any(p)` holds exactly when some element satisfies `p` |
| VsCodeData.Manifest.IsATheme | src/lib.rs:163-165 | a manifest is a theme extension exactly when `"Themes"` is one of its categories |
| VsCodeData.Manifest.ContainsTheme | src/lib.rs:167-169 | true exactly when some contributed theme's label equals the query |
| ThemePattern.IsWhitespace | src/lib.rs:34 | `\s` in the regex crate's default Unicode mode: the White_Space characters U+0009-U+000D, U+0020, U+0085, U+00A0, U+1680, U+2000-U+200A, U+2028, U+2029, U+202F, U+205F and U+3000 |
| ThemePattern.LineStart | src/lib.rs:34 | multi-line `^`: the start of the text or just after a `\n` |
| ThemePattern.LineEnd | src/lib.rs:34 | multi-line `$`: the end of the text or just before a `\n` |
| ThemePattern.IsMatch | src/lib.rs:34 | the whole pattern matches with its parts at the given positions: line start, whitespace, the exact quoted key, whitespace, colon, whitespace, opening quote, a name without `\n`, closing quote, optional comma, whitespace to a line end |
| ThemePattern.Preferred | src/lib.rs:46 | the match `captures` reports: no other match starts earlier, or starts at the same place with a shorter name |
| ThemePattern.MatchAt | src/lib.rs:34 | the pattern tried at one start position: each greedy `\s*` runs to the end of its whitespace, each literal must follow, the lazy name takes the first closing quote that works (its contract is `MatchAtSpec`) |
| ThemePattern.SkipWhitespace | src/lib.rs:34 | greedy `\s*` stops at the first character that is not whitespace (or the end), and everything it skipped is whitespace |
| ThemePattern.LineEndsBlank | src/lib.rs:34 | `\s*?$` succeeds at `i` exactly when a run of whitespace from `i` reaches a line end |
| ThemePattern.ClosesValueAt | src/lib.rs:34 | `",?\s*?$` succeeds at `e` exactly when the declarative closing condition holds |
| ThemePattern.LazyName | src/lib.rs:34 | lazy `.*?` returns the first position, before any `\n`, at which the rest of the pattern succeeds; `None` exactly when no such position exists on the line |
| ThemePattern.MatchAtSpec | src/lib.rs:34 | the match computed at a position is a real match starting there with the shortest name, and it is found whenever the pattern matches there |
| ThemePattern.FirstMatchFrom | src/lib.rs:34 | returns a match starting at or after `p` that no other such match precedes; `None` exactly when every match starts before `p` |
| ThemePattern.Captures | src/lib.rs:45-48 | `None` exactly when the text has no match; otherwise the name of the leftmost, shortest match |
| ThemePattern.PrefixDetermined | src/lib.rs:34 | each greedy `\s*` sits before a literal that is not whitespace, so a match's start fixes where its key, colon and opening quote lie |
| ThemePattern.PreferredUnique | src/lib.rs:46-48 | the match the crate reports is unique, so the captured name is well defined |
| ThemePattern.OpenNotAfter | src/lib.rs:34 | a match that starts no later than another has its opening quote no later |
| ThemePattern.KeyIsLiteral | src/lib.rs:34 | a name is captured only if the exact quoted key (literal dot) occurs in the text |
| ThemePattern.NameOnOneLine | src/lib.rs:34 | the `name` group of any match contains no `\n` |
| ThemePattern.CapturedNameOnOneLine | src/lib.rs:48 | the captured name contains no `\n` |
| ThemePattern.SingleLineMatchesAtStart | src/lib.rs:34 | in a text with no line break, `^` allows only position 0, so the text matches exactly when it matches there |
| ThemePattern.MatchInPrefix | src/lib.rs:34 | a match that ends before an appended `"\n" + b` is a match with or without the appended lines |
| ThemePattern.PreferredInExtension | src/lib.rs:46 | the match reported for `a` is still the one reported for `a + "\n" + b` |
| ThemePattern.CapturesPreferred | src/lib.rs:46-48 | `Captures` returns the name of the preferred match |
| ThemePattern.ShortestAtStart | src/lib.rs:34 | a match at position 0 with no quote inside its name is the one reported |
| ThemePattern.UsualLineCaptured | src/lib.rs:34 | indentation, the key, whitespace around the colon, a quoted name with no quotes or line breaks, an optional comma, trailing whitespace, then any further lines: the result is exactly that name |
| ThemePattern.EarlierLineWins | src/lib.rs:44-48 | once a text has a match, appending more lines (including another `"workbench.colorTheme"` line) does not change the captured name |
| WhatTheme.GetCurrentThemeFrom | src/lib.rs:44-49 | `Err(CannotFindCurrentTheme)` exactly when no position matches; otherwise `Ok` of the preferred match's name, which has no line break |
| WhatTheme.FoundTheme.Url | src/lib.rs:14-19 | the marketplace item prefix followed by the extension id, and nothing else |
| WhatTheme.FoundTheme.Display | src/lib.rs:27-31 | `'`, the variant, `' from `, then the URL, in that layout |
| WhatTheme.Offers | src/lib.rs:93 | the test of `find_theme`'s loop: the entry is a theme extension and contributes a theme with exactly the queried label |
| WhatTheme.Find | src/lib.rs:90-103 | `None` exactly when no entry is a theme extension offering the name; otherwise the first such entry's id, with the requested name as the variant |
| WhatTheme.VsCodeSettings.FindTheme | src/lib.rs:89-104 | `None` exactly when no cached entry qualifies; otherwise `variant()` is the query and `id` is that of the first qualifying entry in cache order |
| WhatTheme.FindConcat | src/lib.rs:90-103 | searching `a + b` finds what `a` offers, and looks in `b` only when `a` offers nothing |
| WhatTheme.FindFoundInAnyOrder | src/lib.rs:90-103 | whether something is found does not depend on the order of the cache; only which entry is reported does |
| WhatTheme.UrlIdentifiesExtension | src/lib.rs:14-19 | two found themes have the same URL exactly when they have the same id |
| WhatTheme.DisplayIdentifiesExtension | src/lib.rs:27-31 | for the same variant, two found themes display the same exactly when they have the same id |
| Examples.PaddedLineWithComma | src/lib.rs:34 | `  "workbench.colorTheme" : "Dracula",  ` gives `Ok("Dracula")` |
| Examples.FirstOfTwoLines | src/lib.rs:44-48 | of two lines that both set the theme, the first one's name is returned |
| Examples.DotIsLiteral | src/lib.rs:34 | a line keyed `"workbenchXcolorTheme"` gives `Err(CannotFindCurrentTheme)` |
| Examples.LongerKeyRejected | src/lib.rs:34 | a line keyed `"workbench.colorThemes"` gives `Err(CannotFindCurrentTheme)` |
| Examples.SpaceBeforeCommaRejected | src/lib.rs:34 | a space between the closing quote and the comma makes the line fail |
| Examples.TrailingTextRejected | src/lib.rs:34 | text after the comma makes the line fail |
| Examples.EmbeddedQuoteKept | src/lib.rs:34 | `"workbench.colorTheme": "a"b"` gives the name `a"b` |
| Examples.EmptyNameAccepted | src/lib.rs:34 | `"workbench.colorTheme": ""` gives the empty name |
| Examples.KeyAndValueOnSeparateLines | src/lib.rs:34 | the key, colon and value may sit on consecutive lines, because `\s` matches `\n` |
| Examples.DraculaFound | src/lib.rs:89-104 | a theme extension contributing `Dracula` is found, with the URL and display string built from its id |
| Examples.UnknownNameNotFound | src/lib.rs:103 | a name no extension contributes gives `None` |
| Examples.CategoryRequired | src/lib.rs:93 | an extension outside the `Themes` category is passed over even when it contributes the label |
| Examples.EarlierExtensionWins | src/lib.rs:90-100 | when two extensions contribute the same label, the earlier one in the cache is reported |

## Left out

- `get_current_theme`, `VsCodeSettings::new`, `read_data`, `settings_json_path` and `extension_user_cache_path` are left out. They only reach the file system and platform directories through `std::fs` and the `directories` crate. The model starts from the settings text and from the parsed cache.
- `VsCodeSettings::new_from` is left out: it is JSON deserialisation through `serde_json`. The model takes the parsed `Results` value. serde's defaults for missing fields (an empty id, empty categories or contributes) are values the datatypes can hold, but the parsing itself is not modelled.
- The errors `CannotFindBaseDir`, `Io` and `Json` are declared but never produced. They come only from the left-out I/O and parsing. The `thiserror` message strings are left out too.
- The general `regex` engine and the `once_cell` lazy initialisation are left out. Only this one fixed pattern is modelled, by a dedicated matcher.
- Text is a sequence of Unicode scalar values. The model does not capture UTF-8 byte offsets, which the crate uses internally but never exposes.
- `FoundTheme` holds copies of the id and variant instead of borrowed `&str`, so lifetimes are not modelled. The derived `Debug`, `PartialEq` and `Hash` are left out too.
- WhatTheme.FoundTheme.Variant: has no contract of its own. It returns the stored variant, and `VsCodeSettings.FindTheme` states that it equals the query.
