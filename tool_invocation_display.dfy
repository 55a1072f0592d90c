/**
 * The chat component that shows one tool invocation as a progress label and
 * a status glyph: `getUserFriendlyMessage`, `getFilename`, `isCompleted`,
 * `isInProgress` and the choice between the dot and the spinner.
 */
module ToolInvocationDisplay {
  import opened Wrappers
  import opened JsValues
  import opened JsStrings

  /** The two tool names the component knows. */
  const EditorTool := "str_replace_editor"
  const FileManagerTool := "file_manager"

  /** The state token of a finished invocation. */
  const ResultState := "result"

  /**
   * `JSON.parse`, a foreign decoder the model does not look inside:
   * `None` means that it threw.
   */
  type Decoder = string -> Option<JsValue>

  /** The three properties `getUserFriendlyMessage` destructures from the arguments. */
  datatype Destructured = Destructured(command: Field, path: Field, newPath: Field)

  /** One tool invocation record; `toolCallId` is carried but never read. */
  datatype Invocation = Invocation(
    toolCallId: string,
    toolName: string,
    args: Args,
    state: string,
    result: Field)

  /** The two glyphs of the rendered element. */
  datatype Glyph = Dot | Spinner

  /** What the element shows: a glyph and the text beside it. */
  datatype View = View(glyph: Glyph, text: string)

  // ---------------------------------------------------------------------
  // getUserFriendlyMessage
  // ---------------------------------------------------------------------

  /** Text arguments go through `JSON.parse`; any other value is used as is. */
  function Normalize(args: Args, parse: Decoder): Option<JsValue> {
    match args
    case Serialized(text) => parse(text)
    case Value(v) => Some(v)
  }

  /** `const { command, path, new_path } = parsedArgs`, which throws on null or undefined. */
  function Destructure(v: JsValue): Option<Destructured> {
    match v
    case Nullish => None
    case Obj(fields) =>
      Some(Destructured(Get(fields, "command"), Get(fields, "path"), Get(fields, "new_path")))
  }

  /**
   * `getFilename`: "file" for a falsy path; otherwise the last piece of
   * `split('/')`, or the whole path when that piece is empty. A truthy
   * non-string path has no `split` method, so the call throws (`None`).
   */
  function GetFilename(filePath: Field): (r: Option<string>)
    ensures r.Some? ==> r.value != ""
  {
    if !Truthy(filePath) then Some("file")
    else match filePath
      case Str(p) =>
        var last := Last(Split(p, '/'));
        Some(if last != "" then last else p)
      case _ => None
  }

  /** The `str_replace_editor` switch on `command`. */
  function EditorLabel(command: Field, filename: string): string {
    if command == Str("create") then "Creating " + filename
    else if command == Str("str_replace") then "Editing " + filename
    else if command == Str("insert") then "Updating " + filename
    else if command == Str("view") then "Reading " + filename
    else "Working on " + filename
  }

  /**
   * The `file_manager` switch on `command`; only `rename` reads `new_path`, so
   * only `rename` can throw on it.
   */
  function FileManagerLabel(command: Field, filename: string, newPath: Field): Option<string> {
    if command == Str("rename") then
      var newFilename :- GetFilename(newPath);
      Some("Renaming " + filename + " to " + newFilename)
    else if command == Str("delete") then Some("Deleting " + filename)
    else Some("Managing " + filename)
  }

  /** The body of the `try` block; `None` means that something in it threw. */
  function TryLabel(toolName: string, args: Args, parse: Decoder): Option<string> {
    var parsed :- Normalize(args, parse);
    var d :- Destructure(parsed);
    if toolName == EditorTool then
      var filename :- GetFilename(d.path);
      Some(EditorLabel(d.command, filename))
    else if toolName == FileManagerTool then
      var filename :- GetFilename(d.path);
      FileManagerLabel(d.command, filename, d.newPath)
    else
      Some("Using " + toolName)
  }

  /** The generic label, also the one the `catch` block returns. */
  function UsingLabel(toolName: string): string {
    "Using " + toolName
  }

  /** `getUserFriendlyMessage`: the `try` body, or the generic label if it threw. */
  function UserFriendlyMessage(toolName: string, args: Args, parse: Decoder): string {
    match TryLabel(toolName, args, parse)
    case Some(message) => message
    case None => UsingLabel(toolName)
  }

  // ---------------------------------------------------------------------
  // Completion and rendering
  // ---------------------------------------------------------------------

  /** `isCompleted`: the state is "result" and the result is truthy. */
  predicate IsCompleted(inv: Invocation) {
    inv.state == ResultState && Truthy(inv.result)
  }

  /** `isInProgress`, written independently in the source; it is the negation of `IsCompleted`. */
  predicate IsInProgress(inv: Invocation)
    ensures IsInProgress(inv) <==> !IsCompleted(inv)
  {
    inv.state != ResultState || !Truthy(inv.result)
  }

  /** The rendered element: the dot and the bare label, or the spinner and the label with "...". */
  function Render(inv: Invocation, parse: Decoder): (v: View)
    ensures v.glyph == Dot <==> IsCompleted(inv)
    ensures v.glyph == Spinner <==> IsInProgress(inv)
    ensures var message := UserFriendlyMessage(inv.toolName, inv.args, parse);
      v.text == if v.glyph == Dot then message else message + "..."
  {
    var message := UserFriendlyMessage(inv.toolName, inv.args, parse);
    if IsCompleted(inv) then View(Dot, message) else View(Spinner, message + "...")
  }
}
