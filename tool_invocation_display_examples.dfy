/**
 * The expected strings of the component's test file, as concrete instances of
 * the properties. Each path is a parameter pinned to its literal value, and
 * each expected label is written as the verb followed by the filename: with
 * the path and the whole label as literals, the solver would unfold `Split`
 * character by character and compare the literals element by element, which
 * is too costly. Instead each lemma names the path's last segment (as
 * `dir + "/" + name`, or by its position in the path) and takes the filename
 * from the general lemmas about `getFilename`.
 */
module ToolInvocationDisplayExamples {
  import opened Wrappers
  import opened JsValues
  import opened ToolInvocationDisplay
  import opened ToolInvocationDisplayProperties

  /** Arguments `{ command, path }`. */
  function Call(command: string, path: string): Args {
    Value(Obj(map["command" := Str(command), "path" := Str(path)]))
  }

  lemma CreateExample(p: string, parse: Decoder)
    requires p == "/components/Button.jsx"
    ensures UserFriendlyMessage(EditorTool, Call("create", p), parse) == "Creating " + "Button.jsx"
  {
    assert p == "/components" + "/" + "Button.jsx";
    FilenameAfterSlash("/components", "Button.jsx");
    EditorCommands(Call("create", p), parse, map["command" := Str("create"), "path" := Str(p)], "Button.jsx");
  }

  lemma StrReplaceExample(p: string, parse: Decoder)
    requires p == "/components/Card.jsx"
    ensures UserFriendlyMessage(EditorTool, Call("str_replace", p), parse) == "Editing " + "Card.jsx"
  {
    assert p == "/components" + "/" + "Card.jsx";
    FilenameAfterSlash("/components", "Card.jsx");
    EditorCommands(Call("str_replace", p), parse, map["command" := Str("str_replace"), "path" := Str(p)], "Card.jsx");
  }

  lemma InsertExample(p: string, parse: Decoder)
    requires p == "/utils/helpers.js"
    ensures UserFriendlyMessage(EditorTool, Call("insert", p), parse) == "Updating " + "helpers.js"
  {
    assert p == "/utils" + "/" + "helpers.js";
    FilenameAfterSlash("/utils", "helpers.js");
    EditorCommands(Call("insert", p), parse, map["command" := Str("insert"), "path" := Str(p)], "helpers.js");
  }

  lemma ViewExample(p: string, parse: Decoder)
    requires p == "/README.md"
    ensures UserFriendlyMessage(EditorTool, Call("view", p), parse) == "Reading " + "README.md"
  {
    assert p == "" + "/" + "README.md";
    FilenameAfterSlash("", "README.md");
    EditorCommands(Call("view", p), parse, map["command" := Str("view"), "path" := Str(p)], "README.md");
  }

  lemma NestedPathExample(p: string, parse: Decoder)
    requires p == "/src/components/ui/Button.tsx"
    ensures UserFriendlyMessage(EditorTool, Call("create", p), parse) == "Creating " + "Button.tsx"
  {
    assert p[|p| - 10..] == "Button.tsx" && p[|p| - 11] == '/';
    CreatingLastSegment(p, "Button.tsx", parse);
  }

  lemma UnknownCommandExample(p: string, parse: Decoder)
    requires p == "/some-file.js"
    ensures UserFriendlyMessage(EditorTool, Call("unknown_command", p), parse) == "Working on " + "some-file.js"
  {
    assert p == "" + "/" + "some-file.js";
    FilenameAfterSlash("", "some-file.js");
    EditorCommands(Call("unknown_command", p), parse,
      map["command" := Str("unknown_command"), "path" := Str(p)], "some-file.js");
  }

  lemma RenameExample(p: string, q: string, parse: Decoder)
    requires p == "/old-file.js" && q == "/new-file.js"
    ensures UserFriendlyMessage(FileManagerTool,
      Value(Obj(map["command" := Str("rename"), "path" := Str(p), "new_path" := Str(q)])), parse)
      == "Renaming " + "old-file.js" + " to " + "new-file.js"
  {
    assert p == "" + "/" + "old-file.js" && q == "" + "/" + "new-file.js";
    FilenameAfterSlash("", "old-file.js");
    FilenameAfterSlash("", "new-file.js");
    RenamingNamesBothFiles(p, q, "old-file.js", "new-file.js", parse);
  }

  lemma DeleteExample(p: string, parse: Decoder)
    requires p == "/temp-file.js"
    ensures UserFriendlyMessage(FileManagerTool, Call("delete", p), parse) == "Deleting " + "temp-file.js"
  {
    assert p == "" + "/" + "temp-file.js";
    FilenameAfterSlash("", "temp-file.js");
    FileManagerCommands(Call("delete", p), parse, map["command" := Str("delete"), "path" := Str(p)], "temp-file.js");
  }

  lemma RenderExamples(p: string, parse: Decoder)
    requires p == "/App.jsx"
    ensures Render(Invocation("test-id", EditorTool, Call("create", p), "in-progress", FalsyOther), parse)
      == View(Spinner, "Creating " + "App.jsx" + "...")
    ensures Render(Invocation("test-id", EditorTool, Call("create", p), "result", Str("Success")), parse)
      == View(Dot, "Creating " + "App.jsx")
  {
    assert p == "" + "/" + "App.jsx";
    FilenameAfterSlash("", "App.jsx");
    EditorCommands(Call("create", p), parse, map["command" := Str("create"), "path" := Str(p)], "App.jsx");
  }

  lemma JsonStringExample(p: string, text: string, parse: Decoder)
    requires p == "/App.jsx"
    requires parse(text) == Some(Obj(map["command" := Str("create"), "path" := Str(p)]))
    ensures UserFriendlyMessage(EditorTool, Serialized(text), parse) == "Creating " + "App.jsx"
  {
    assert p == "" + "/" + "App.jsx";
    FilenameAfterSlash("", "App.jsx");
    EditorCommands(Serialized(text), parse, map["command" := Str("create"), "path" := Str(p)], "App.jsx");
  }

  lemma UnknownToolExample(parse: Decoder)
    ensures UserFriendlyMessage("unknown_tool", Value(Obj(map["some" := Str("args")])), parse)
      == "Using " + "unknown_tool"
  {
  }

  lemma InvalidJsonExample(bad: string, parse: Decoder)
    requires parse(bad) == None
    ensures UserFriendlyMessage(EditorTool, Serialized(bad), parse) == "Using " + "str_replace_editor"
  {
  }

  lemma MissingPathExamples(parse: Decoder)
    ensures UserFriendlyMessage(EditorTool, Value(Obj(map["command" := Str("create")])), parse)
      == "Creating " + "file"
    ensures UserFriendlyMessage(EditorTool, Call("create", ""), parse) == "Creating " + "file"
  {
  }

  /** A path whose last segment is empty is shown whole. */
  lemma TrailingSlashExamples(root: string, dir: string)
    requires root == "/" && dir == "a/"
    ensures GetFilename(Str(root)) == Some("/")
    ensures GetFilename(Str(dir)) == Some("a/")
  {
    FilenameOfPath(root);
    FilenameOfPath(dir);
  }
}
