/** The records of the editor's extension cache (`CachedExtensions/user`), as
    the crate deserialises them in `mod vscode_data` of src/lib.rs. Fields
    the deserialiser may find missing are given their defaults by it: an empty
    `id`, no `categories`, no `contributes`, no `themes`. */
module VsCodeData {
  import Seqs

  /** The whole cache document: one entry per installed extension. */
  datatype Results = Results(result: seq<Result>)

  /** One installed extension. */
  datatype Result = Result(identifier: Identifier, manifest: Manifest)

  /** The extension's marketplace identifier, `publisher.name`. */
  datatype Identifier = Identifier(id: string)

  /** What the extension's `package.json` declares. */
  datatype Manifest = Manifest(categories: seq<string>, contributes: Contributes)
  {
    /** The extension is listed under the category spelled exactly `Themes`. */
    function IsATheme(): (b: bool)
      ensures b <==> "Themes" in categories
    {
      Seqs.Any(categories, (c: string) => c == "Themes")
    }

    /** One of the contributed themes carries exactly the label `theme`. */
    function ContainsTheme(theme: string): (b: bool)
      ensures b <==> exists i :: 0 <= i < |contributes.themes| && contributes.themes[i].themeLabel == theme
    {
      Seqs.Any(contributes.themes, (c: Theme) => c.themeLabel == theme)
    }
  }

  /** The `contributes` section; only its `themes` are read. */
  datatype Contributes = Contributes(themes: seq<Theme>)

  /** One contributed colour theme and the label users pick it by (the JSON
      key `label`; `label` is a reserved word in Dafny). */
  datatype Theme = Theme(themeLabel: string)
}
