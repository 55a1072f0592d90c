/**
 * What the component promises about its labels and its two states, proved
 * for every input.
 */
module ToolInvocationDisplayProperties {
  import opened Wrappers
  import opened JsValues
  import opened JsStrings
  import opened ToolInvocationDisplay

  /** The label opens with one of the fixed, non-empty verbs of the component. */
  predicate HasKnownPrefix(message: string) {
    || "Creating " <= message || "Editing " <= message || "Updating " <= message
    || "Reading " <= message || "Working on " <= message || "Renaming " <= message
    || "Deleting " <= message || "Managing " <= message || "Using " <= message
  }

  // ---------------------------------------------------------------------
  // getFilename
  // ---------------------------------------------------------------------

  /** An absent, null or empty path (any falsy path) is shown as "file". */
  lemma FalsyPathIsFile(path: Field)
    requires !Truthy(path)
    ensures GetFilename(path) == Some("file")
  {
  }

  /** A truthy path that is not a string makes `split` throw. */
  lemma NonStringPathThrows()
    ensures GetFilename(TruthyOther) == None
  {
  }

  /**
   * A non-empty path is shown as the text after its last '/', which holds no
   * '/'; when that text is empty (the path ends in '/'), as the whole path.
   */
  lemma {:induction false} FilenameOfPath(p: string)
    requires p != ""
    ensures GetFilename(Str(p)).Some?
    ensures var r := GetFilename(Str(p)).value;
      (IsLastSegment(r, p, '/') && r != "") || (IsLastSegment("", p, '/') && r == p)
    ensures forall seg | IsLastSegment(seg, p, '/') ::
      GetFilename(Str(p)) == Some(if seg != "" then seg else p)
  {
    var last := Last(Split(p, '/'));
    SplitLastSegment(p, '/');
    forall seg | IsLastSegment(seg, p, '/')
      ensures GetFilename(Str(p)) == Some(if seg != "" then seg else p)
    {
      LastSegmentUnique(seg, last, p, '/');
    }
  }

  /** A path `dir/name` whose `name` is non-empty and holds no '/' is shown as `name`. */
  lemma FilenameAfterSlash(dir: string, name: string)
    requires '/' !in name && name != ""
    ensures GetFilename(Str(dir + "/" + name)) == Some(name)
  {
    var p := dir + "/" + name;
    assert p[|p| - |name|..] == name;
    assert p[|p| - |name| - 1] == '/';
    assert IsLastSegment(name, p, '/');
    FilenameOfPath(p);
  }

  // ---------------------------------------------------------------------
  // The str_replace_editor table
  // ---------------------------------------------------------------------

  /**
   * For arguments that normalise to an object whose path has a filename,
   * each editor command gets its own verb and any other command "Working on".
   */
  lemma EditorCommands(args: Args, parse: Decoder, fields: map<string, Field>, filename: string)
    requires Normalize(args, parse) == Some(Obj(fields))
    requires GetFilename(Get(fields, "path")) == Some(filename)
    ensures var message := UserFriendlyMessage(EditorTool, args, parse);
      var command := Get(fields, "command");
      && (command == Str("create") ==> message == "Creating " + filename)
      && (command == Str("str_replace") ==> message == "Editing " + filename)
      && (command == Str("insert") ==> message == "Updating " + filename)
      && (command == Str("view") ==> message == "Reading " + filename)
      && (command !in {Str("create"), Str("str_replace"), Str("insert"), Str("view")} ==>
            message == "Working on " + filename)
  {
  }

  /** Creating a file at a path whose last segment is non-empty names that segment. */
  lemma CreatingLastSegment(p: string, seg: string, parse: Decoder)
    requires IsLastSegment(seg, p, '/') && seg != ""
    ensures UserFriendlyMessage(EditorTool,
      Value(Obj(map["command" := Str("create"), "path" := Str(p)])), parse) == "Creating " + seg
  {
    FilenameOfPath(p);
  }

  /** Creating a file without a usable path says "Creating file". */
  lemma CreatingWithoutPath(fields: map<string, Field>, parse: Decoder)
    requires Get(fields, "command") == Str("create") && !Truthy(Get(fields, "path"))
    ensures UserFriendlyMessage(EditorTool, Value(Obj(fields)), parse) == "Creating file"
  {
  }

  // ---------------------------------------------------------------------
  // The file_manager table
  // ---------------------------------------------------------------------

  /**
   * For arguments that normalise to an object whose path has a filename:
   * rename names both files, delete and any other command name one.
   */
  lemma FileManagerCommands(args: Args, parse: Decoder, fields: map<string, Field>, filename: string)
    requires Normalize(args, parse) == Some(Obj(fields))
    requires GetFilename(Get(fields, "path")) == Some(filename)
    ensures var message := UserFriendlyMessage(FileManagerTool, args, parse);
      var command := Get(fields, "command");
      var newFilename := GetFilename(Get(fields, "new_path"));
      && (command == Str("rename") && newFilename.Some? ==>
            message == "Renaming " + filename + " to " + newFilename.value)
      && (command == Str("rename") && newFilename.None? ==> message == UsingLabel(FileManagerTool))
      && (command == Str("delete") ==> message == "Deleting " + filename)
      && (command !in {Str("rename"), Str("delete")} ==> message == "Managing " + filename)
  {
  }

  /** Renaming between two paths names the files `getFilename` gives for each. */
  lemma RenamingNamesBothFiles(p: string, q: string, filename: string, newFilename: string, parse: Decoder)
    requires GetFilename(Str(p)) == Some(filename) && GetFilename(Str(q)) == Some(newFilename)
    ensures var args := Value(Obj(map["command" := Str("rename"), "path" := Str(p), "new_path" := Str(q)]));
      UserFriendlyMessage(FileManagerTool, args, parse) == "Renaming " + filename + " to " + newFilename
  {
  }

  // ---------------------------------------------------------------------
  // Fallbacks
  // ---------------------------------------------------------------------

  /** Any other tool name yields "Using {toolName}", whatever the arguments. */
  lemma UnknownToolUsesName(toolName: string, args: Args, parse: Decoder)
    requires toolName != EditorTool && toolName != FileManagerTool
    ensures UserFriendlyMessage(toolName, args, parse) == "Using " + toolName
  {
  }

  /** Text arguments that `JSON.parse` rejects yield "Using {toolName}" for every tool. */
  lemma UndecodableArgsUseName(toolName: string, text: string, parse: Decoder)
    requires parse(text) == None
    ensures UserFriendlyMessage(toolName, Serialized(text), parse) == "Using " + toolName
  {
  }

  /** Arguments that cannot be destructured (null or undefined) yield "Using {toolName}" too. */
  lemma NullishArgsUseName(toolName: string, args: Args, parse: Decoder)
    requires Normalize(args, parse) == Some(Nullish)
    ensures UserFriendlyMessage(toolName, args, parse) == "Using " + toolName
  {
  }

  /**
   * A truthy non-string path gives the generic label for every tool: for the
   * two known tools `getFilename` throws and the `catch` answers, any other
   * tool never reads the path.
   */
  lemma NonStringPathUsesName(toolName: string, args: Args, parse: Decoder, fields: map<string, Field>)
    requires Normalize(args, parse) == Some(Obj(fields))
    requires Get(fields, "path") == TruthyOther
    ensures UserFriendlyMessage(toolName, args, parse) == "Using " + toolName
  {
  }

  /**
   * A decoding failure is not the same as an empty argument object: for the
   * editor tool the first says "Using str_replace_editor", the second
   * "Working on file".
   */
  lemma DecodeFailureIsNotEmptyObject(text: string, parse: Decoder)
    requires parse(text) == None
    ensures UserFriendlyMessage(EditorTool, Serialized(text), parse) == "Using str_replace_editor"
    ensures UserFriendlyMessage(EditorTool, Value(Obj(map[])), parse) == "Working on file"
  {
  }

  /** Text that decodes to a value gives the same label as that value passed directly. */
  lemma DecodedArgsAsValue(toolName: string, text: string, v: JsValue, parse: Decoder)
    requires parse(text) == Some(v)
    ensures UserFriendlyMessage(toolName, Serialized(text), parse) ==
            UserFriendlyMessage(toolName, Value(v), parse)
  {
  }

  /** Every branch of the `str_replace_editor` switch opens with a fixed verb. */
  lemma EditorLabelPrefix(command: Field, filename: string)
    ensures HasKnownPrefix(EditorLabel(command, filename))
  {
  }

  /** Every branch of the `file_manager` switch that returns opens with a fixed verb. */
  lemma FileManagerLabelPrefix(command: Field, filename: string, newPath: Field)
    ensures FileManagerLabel(command, filename, newPath).Some? ==>
      HasKnownPrefix(FileManagerLabel(command, filename, newPath).value)
  {
  }

  /** The label never fails: it is non-empty and opens with one of the fixed verbs. */
  lemma MessageHasKnownPrefix(toolName: string, args: Args, parse: Decoder)
    ensures var message := UserFriendlyMessage(toolName, args, parse);
      message != "" && HasKnownPrefix(message)
  {
    var message := UserFriendlyMessage(toolName, args, parse);
    match TryLabel(toolName, args, parse) {
      case None =>
        assert message == "Using " + toolName;
      case Some(_) =>
        var d := Destructure(Normalize(args, parse).value).value;
        if toolName == EditorTool {
          EditorLabelPrefix(d.command, GetFilename(d.path).value);
        } else if toolName == FileManagerTool {
          FileManagerLabelPrefix(d.command, GetFilename(d.path).value, d.newPath);
        } else {
          assert message == "Using " + toolName;
        }
    }
  }

  // ---------------------------------------------------------------------
  // Rendering
  // ---------------------------------------------------------------------

  /** The label a reader sees in a view: its text less the trailing "..." of the spinner. */
  function ShownLabel(v: View): string {
    if v.glyph == Spinner && |v.text| >= 3 then v.text[..|v.text| - 3] else v.text
  }

  /** The label can be read back from the rendered view in either state. */
  lemma ShownLabelOfRender(inv: Invocation, parse: Decoder)
    ensures ShownLabel(Render(inv, parse)) == UserFriendlyMessage(inv.toolName, inv.args, parse)
  {
  }

  /** A finished invocation with a result shows the dot and the bare label. */
  lemma CompletedShowsDot(inv: Invocation, parse: Decoder)
    requires inv.state == "result" && Truthy(inv.result)
    ensures Render(inv, parse) == View(Dot, UserFriendlyMessage(inv.toolName, inv.args, parse))
  {
  }

  /** Any other state, or a falsy result, shows the spinner and the label with "...". */
  lemma InProgressShowsSpinner(inv: Invocation, parse: Decoder)
    requires inv.state != "result" || !Truthy(inv.result)
    ensures Render(inv, parse) ==
      View(Spinner, UserFriendlyMessage(inv.toolName, inv.args, parse) + "...")
  {
  }
}
