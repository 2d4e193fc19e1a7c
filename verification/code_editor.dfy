/** The code editor's logic (src/components/Exam/CodeEditor.tsx), once the editor
    widget, the clipboard and the download are set aside: the theme, the file
    extension of a download, the template a reset emits and the normalisation of an
    edit. */
module CodeEditor {
  import opened Types

  datatype Theme = Light | Dark | System

  /** The two editor themes. */
  datatype EditorTheme = VsDark | LightTheme

  /** `resolveEditorTheme`; `prefersDark` stands for the colour-scheme media query,
      which only the `system` theme consults. */
  function ResolveTheme(theme: Theme, prefersDark: bool): (r: EditorTheme)
    ensures theme == Dark ==> r == VsDark
    ensures theme == Light ==> r == LightTheme
    ensures theme == System ==> (r == VsDark <==> prefersDark)
  {
    if theme == Dark then VsDark
    else if theme == Light then LightTheme
    else if prefersDark then VsDark
    else LightTheme
  }

  /** `extensions[language] || "txt"`. */
  function Extension(language: string): (ext: string)
    ensures language == "python" ==> ext == "py"
    ensures language in {"java", "c", "cpp"} ==> ext == language
    ensures ext == "txt" <==> language !in {"python", "java", "c", "cpp"}
  {
    if language == "python" then "py"
    else if language == "java" then "java"
    else if language == "c" then "c"
    else if language == "cpp" then "cpp"
    else "txt"
  }

  /** The name of the downloaded file: `solution.` and the extension. */
  function DownloadName(language: string): (name: string)
    ensures |name| > 9 && name[..9] == "solution." && name[9..] == Extension(language)
  {
    "solution." + Extension(language)
  }

  /** Two languages download under the same name exactly when they share an extension,
      so every language outside the four known ones downloads as `solution.txt`. */
  lemma DownloadNameDeterminesExtension(l1: string, l2: string)
    ensures DownloadName(l1) == DownloadName(l2) <==> Extension(l1) == Extension(l2)
  {
    if DownloadName(l1) == DownloadName(l2) {
      assert DownloadName(l1)[9..] == DownloadName(l2)[9..];
    }
  }

  /** `handleReset`: the template for the language, or the empty string when the
      question has none. */
  function ResetCode(template: Record, language: string): (code: string)
    ensures RecordGet(template, language).None? ==> code == ""
    ensures RecordGet(template, language).Some? ==> code == RecordGet(template, language).value
    ensures code == "" || exists i :: 0 <= i < |template| && template[i] == (language, code)
  {
    RecordGet(template, language).GetOr("")
  }

  /** The editor's `onChange`: `value || ""`, the text or the empty string when the
      editor reports none. */
  function NormaliseChange(value: Option<string>): (code: string)
    ensures value.Some? ==> code == value.value
    ensures value.None? ==> code == ""
  {
    match value
    case Some(v) => v
    case None => ""
  }
}
