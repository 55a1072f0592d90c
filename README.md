# ToolInvocationDisplay, modelled in Dafny

The chat UI of the UI-generation app shows every tool call the assistant makes
as a small status element. `ToolInvocationDisplay` turns a tool-invocation
record (`toolCallId`, `toolName`, `args`, `state`, `result`) into:

- a progress label built by `getUserFriendlyMessage`:
  - text `args` go through `JSON.parse`;
  - `command`, `path` and `new_path` are destructured from the arguments;
  - `getFilename` shortens the paths;
  - a table keyed on the tool name (`str_replace_editor`, `file_manager`) and
    then on the command picks the verb;
  - anything that throws inside the `try` falls back to `Using {toolName}`;
- a completed / in-progress classification (`isCompleted`, `isInProgress`).
  It picks a dot with the bare label, or a spinner with the label plus `"..."`.

The source is pure, so the model has datatypes, functions and lemmas only:

- `wrappers.dfy`: `Option`, where `None` stands for "an exception was thrown".
- `js_values.dfy`: JavaScript values, reduced to what the component can tell apart.
  - A property value is a `Field`: a string, a falsy non-string or a truthy non-string.
  - An argument value is an object (`Obj`) or null/undefined (`Nullish`).
  - `args` is `Serialized(text)` or `Value(v)`.
- `js_strings.dfy`: `split('/')` and `pop()`, with the proof that the popped
  piece is exactly the text after the last `/`.
- `tool_invocation_display.dfy`: the component.
- `tool_invocation_display_properties.dfy`: its properties, for all inputs.
- `tool_invocation_display_examples.dfy`: the expected strings of the
  component's test file, proved as concrete instances.

`JSON.parse` is a foreign decoder. It is a parameter `parse: string -> Option<JsValue>`
of `Normalize`, `TryLabel`, `UserFriendlyMessage` and `Render`, and `None` means that it threw.

Three edges the code handles in its own way:

- Decoding failure. Text arguments that `JSON.parse` rejects land in the
  `catch` and give `Using {toolName}`, while an empty object given to
  `str_replace_editor` gives `Working on file` (`DecodeFailureIsNotEmptyObject`).
- Empty last segment. `getFilename` returns the whole path when the last piece
  of `split('/')` is empty: `"/"` stays `"/"` and `"a/"` stays `"a/"`
  (`FilenameOfPath`, `TrailingSlashExamples`).
- Unknown tools. The arguments of an unknown tool are still destructured, so
  null arguments throw. Both paths give the same `Using {toolName}`
  (`UnknownToolUsesName`, `NullishArgsUseName`).

## Model

| member | source | states |
|---|---|---|
| `ToolInvocationDisplay.Normalize` | src/components/chat/ToolInvocationDisplay.tsx:22 | text arguments go through `JSON.parse`, any other value is used as is. Characterised by `DecodedArgsAsValue` and `UndecodableArgsUseName` |
| `ToolInvocationDisplay.Destructure` | src/components/chat/ToolInvocationDisplay.tsx:23 | `command`, `path` and `new_path` are read from an object, and null or undefined throws. Characterised by `NullishArgsUseName` and `CreatingWithoutPath` (a missing key reads as undefined) |
| `JsStrings.Last` | src/components/chat/ToolInvocationDisplay.tsx:28 | `pop()` on the pieces of `split`: the text after the last `/`, by `SplitLastSegment` and `LastSegmentUnique` |
| `ToolInvocationDisplay.EditorLabel` | src/components/chat/ToolInvocationDisplay.tsx:34-45 | the `str_replace_editor` switch. Characterised by `EditorCommands` (the verb of each command) and `EditorLabelPrefix` |
| `ToolInvocationDisplay.FileManagerLabel` | src/components/chat/ToolInvocationDisplay.tsx:51-59 | the `file_manager` switch, where only `rename` reads `new_path` and can throw on it. Characterised by `FileManagerCommands` and `FileManagerLabelPrefix` |
| `ToolInvocationDisplay.TryLabel` | src/components/chat/ToolInvocationDisplay.tsx:21-63 | the body of the `try` block, failing exactly where the source throws. Characterised by `EditorCommands`, `FileManagerCommands`, `UndecodableArgsUseName`, `NullishArgsUseName` and `NonStringPathUsesName` |
| `ToolInvocationDisplay.UsingLabel` | src/components/chat/ToolInvocationDisplay.tsx:63-66 | the generic label `Using {toolName}` of the unknown-tool fallback and of the `catch`. Characterised by `UnknownToolUsesName` |
| `ToolInvocationDisplay.UserFriendlyMessage` | src/components/chat/ToolInvocationDisplay.tsx:20-68 | `getUserFriendlyMessage`. Characterised by `MessageHasKnownPrefix` (non-empty, one of nine verbs), `EditorCommands`, `FileManagerCommands` and `UnknownToolUsesName` |
| `ToolInvocationDisplay.IsCompleted` | src/components/chat/ToolInvocationDisplay.tsx:70 | `isCompleted`: state `"result"` and a truthy result. Characterised by the ensures of `Render` and `IsInProgress`, and by `CompletedShowsDot` |
| `JsStrings.Split` | src/components/chat/ToolInvocationDisplay.tsx:28 | `split('/')` always yields at least one piece, and no piece contains the separator |
| `JsStrings.JoinSplit` | src/components/chat/ToolInvocationDisplay.tsx:28 | joining the pieces of `split` with the separator gives back the original string, so splitting loses nothing |
| `JsStrings.SplitWithoutSeparator` | src/components/chat/ToolInvocationDisplay.tsx:28 | a string without `/` splits into itself alone, so `getFilename` of such a non-empty path is the path (the empty path is falsy and gives `"file"`) |
| `JsStrings.SeveralPiecesHaveSeparator` | src/components/chat/ToolInvocationDisplay.tsx:28 | a path that `split('/')` cuts into several pieces contains a `/` |
| `JsStrings.SplitLastSegment` | src/components/chat/ToolInvocationDisplay.tsx:28 | the piece `pop()` takes is a suffix of the path with no `/` in it, and it is either the whole path or preceded by `/` |
| `JsStrings.LastSegmentUnique` | src/components/chat/ToolInvocationDisplay.tsx:28 | at most one string is the text after the last `/` of a path, so the previous row pins the popped piece down exactly |
| `ToolInvocationDisplay.GetFilename` | src/components/chat/ToolInvocationDisplay.tsx:26-29 | whenever `getFilename` returns, the filename it returns is non-empty |
| `ToolInvocationDisplayProperties.FalsyPathIsFile` | src/components/chat/ToolInvocationDisplay.tsx:27 | an absent, null or empty path (any falsy value) gives the filename `"file"` |
| `ToolInvocationDisplayProperties.NonStringPathThrows` | src/components/chat/ToolInvocationDisplay.tsx:28 | a truthy non-string path has no `split`, so `getFilename` throws |
| `ToolInvocationDisplayProperties.FilenameOfPath` | src/components/chat/ToolInvocationDisplay.tsx:28 | a non-empty path gives the text after its last `/` when that text is non-empty, and otherwise the whole path. The result is the same for every characterisation of that text |
| `ToolInvocationDisplayProperties.FilenameAfterSlash` | src/components/chat/ToolInvocationDisplay.tsx:28 | a path `dir/name` whose `name` is non-empty and holds no `/` gives the filename `name`, whatever `dir` is |
| `ToolInvocationDisplayProperties.EditorCommands` | src/components/chat/ToolInvocationDisplay.tsx:31-46 | `str_replace_editor` maps `create`, `str_replace`, `insert` and `view` to `Creating`, `Editing`, `Updating` and `Reading` + filename. Every other command gives `Working on` + filename. This holds for object arguments given directly or decoded from text |
| `ToolInvocationDisplayProperties.CreatingLastSegment` | src/components/chat/ToolInvocationDisplay.tsx:31-36 | `create` with a path whose last segment is non-empty says `Creating` followed by that segment |
| `ToolInvocationDisplayProperties.CreatingWithoutPath` | src/components/chat/ToolInvocationDisplay.tsx:26-36 | `create` with a missing or falsy path says `Creating file` |
| `ToolInvocationDisplayProperties.FileManagerCommands` | src/components/chat/ToolInvocationDisplay.tsx:48-60 | `file_manager`: `rename` gives `Renaming {filename} to {newFilename}`, or the fallback when `new_path` throws. `delete` gives `Deleting {filename}`. Every other command gives `Managing {filename}` |
| `ToolInvocationDisplayProperties.RenamingNamesBothFiles` | src/components/chat/ToolInvocationDisplay.tsx:52-54 | renaming from `path` to `new_path` names the `getFilename` of each, in that order |
| `ToolInvocationDisplayProperties.UnknownToolUsesName` | src/components/chat/ToolInvocationDisplay.tsx:62-66 | a tool name other than the two known ones yields exactly `Using {toolName}`, for all arguments and every decoder |
| `ToolInvocationDisplayProperties.UndecodableArgsUseName` | src/components/chat/ToolInvocationDisplay.tsx:21-66 | text arguments that `JSON.parse` rejects yield `Using {toolName}` for every tool name |
| `ToolInvocationDisplayProperties.NullishArgsUseName` | src/components/chat/ToolInvocationDisplay.tsx:23-66 | arguments that are null or undefined make the destructuring throw, and the label is `Using {toolName}` for every tool name |
| `ToolInvocationDisplayProperties.NonStringPathUsesName` | src/components/chat/ToolInvocationDisplay.tsx:26-66 | a truthy non-string `path` makes any tool's label `Using {toolName}`. For the two known tools this is the `catch`; for any other tool it is the plain fallback |
| `ToolInvocationDisplayProperties.DecodeFailureIsNotEmptyObject` | src/components/chat/ToolInvocationDisplay.tsx:21-66 | for `str_replace_editor`, text that fails to decode gives `Using str_replace_editor`, while an empty object gives `Working on file` |
| `ToolInvocationDisplayProperties.DecodedArgsAsValue` | src/components/chat/ToolInvocationDisplay.tsx:22 | text arguments that decode to an object, to null or to a non-string value give the same label as that value passed directly (a decoded string passed directly would be text and go through `JSON.parse` again) |
| `ToolInvocationDisplayProperties.EditorLabelPrefix` | src/components/chat/ToolInvocationDisplay.tsx:34-45 | every branch of the `str_replace_editor` switch starts with one of the fixed verbs |
| `ToolInvocationDisplayProperties.FileManagerLabelPrefix` | src/components/chat/ToolInvocationDisplay.tsx:51-59 | every branch of the `file_manager` switch that returns starts with one of the fixed verbs |
| `ToolInvocationDisplayProperties.MessageHasKnownPrefix` | src/components/chat/ToolInvocationDisplay.tsx:20-68 | the label never fails. It is non-empty and starts with one of the nine fixed verbs |
| `ToolInvocationDisplay.IsInProgress` | src/components/chat/ToolInvocationDisplay.tsx:70-71 | `isInProgress` holds exactly when `isCompleted` does not |
| `ToolInvocationDisplay.Render` | src/components/chat/ToolInvocationDisplay.tsx:73-87 | the dot appears exactly when the invocation is completed and the spinner exactly when it is in progress. The text is the label, with `"..."` appended under the spinner |
| `ToolInvocationDisplayProperties.ShownLabelOfRender` | src/components/chat/ToolInvocationDisplay.tsx:75-85 | the label can be read back from the rendered view in both states: the `"..."` is only ever a suffix added to the label |
| `ToolInvocationDisplayProperties.CompletedShowsDot` | src/components/chat/ToolInvocationDisplay.tsx:70-79 | state `"result"` with a truthy result renders the dot and the bare label |
| `ToolInvocationDisplayProperties.InProgressShowsSpinner` | src/components/chat/ToolInvocationDisplay.tsx:70-85 | any other state, or a falsy result, renders the spinner and the label followed by `"..."` |
| `ToolInvocationDisplayExamples.CreateExample` | src/components/chat/__tests__/ToolInvocationDisplay.test.tsx:19-28 | `create` of `/components/Button.jsx` is `Creating Button.jsx` |
| `ToolInvocationDisplayExamples.StrReplaceExample` | src/components/chat/__tests__/ToolInvocationDisplay.test.tsx:30-38 | `str_replace` of `/components/Card.jsx` is `Editing Card.jsx` |
| `ToolInvocationDisplayExamples.InsertExample` | src/components/chat/__tests__/ToolInvocationDisplay.test.tsx:40-48 | `insert` of `/utils/helpers.js` is `Updating helpers.js` |
| `ToolInvocationDisplayExamples.ViewExample` | src/components/chat/__tests__/ToolInvocationDisplay.test.tsx:50-58 | `view` of `/README.md` is `Reading README.md` |
| `ToolInvocationDisplayExamples.RenameExample` | src/components/chat/__tests__/ToolInvocationDisplay.test.tsx:60-73 | renaming `/old-file.js` to `/new-file.js` is `Renaming old-file.js to new-file.js` |
| `ToolInvocationDisplayExamples.DeleteExample` | src/components/chat/__tests__/ToolInvocationDisplay.test.tsx:75-84 | deleting `/temp-file.js` is `Deleting temp-file.js` |
| `ToolInvocationDisplayExamples.RenderExamples` | src/components/chat/__tests__/ToolInvocationDisplay.test.tsx:86-111 | an in-progress `create` of `/App.jsx` shows the spinner and `Creating App.jsx...`. A finished one shows the dot and `Creating App.jsx` |
| `ToolInvocationDisplayExamples.NestedPathExample` | src/components/chat/__tests__/ToolInvocationDisplay.test.tsx:113-121 | `create` of `/src/components/ui/Button.tsx` is `Creating Button.tsx` |
| `ToolInvocationDisplayExamples.UnknownCommandExample` | src/components/chat/__tests__/ToolInvocationDisplay.test.tsx:144-152 | an unknown editor command on `/some-file.js` is `Working on some-file.js` |
| `ToolInvocationDisplayExamples.JsonStringExample` | src/components/chat/__tests__/ToolInvocationDisplay.test.tsx:123-131 | text arguments that decode to `create` of `/App.jsx` give `Creating App.jsx` |
| `ToolInvocationDisplayExamples.UnknownToolExample` | src/components/chat/__tests__/ToolInvocationDisplay.test.tsx:133-142 | the tool `unknown_tool` with arguments `{ some: "args" }` gives `Using unknown_tool` |
| `ToolInvocationDisplayExamples.InvalidJsonExample` | src/components/chat/__tests__/ToolInvocationDisplay.test.tsx:154-162 | text arguments that fail to decode give `Using str_replace_editor` |
| `ToolInvocationDisplayExamples.MissingPathExamples` | src/components/chat/__tests__/ToolInvocationDisplay.test.tsx:164-182 | `create` with no path, or with the empty path, gives `Creating file` |
| `ToolInvocationDisplayExamples.TrailingSlashExamples` | src/components/chat/ToolInvocationDisplay.tsx:28 | the paths `"/"` and `"a/"` are shown whole, because their last piece is empty |

## Left out

- JSX element construction, the Tailwind class strings and the `Loader2` icon
  are presentation only. The view is modelled as a glyph (`Dot` or `Spinner`)
  and a text. The styling assertions of the test file (lines 184-229) are not
  modelled.
- `JSON.parse` is not modelled internally. It is a decoder parameter whose
  `None` result stands for the exception it throws.
- JavaScript's dynamic typing is reduced.
  - A property value is a string, a falsy non-string (undefined, null, false,
    0, NaN) or a truthy non-string. A missing key reads as undefined.
  - A non-null argument value that is not an object (a number, a boolean, an
    array, or a string produced by decoding) is an object with no properties,
    because destructuring it yields undefined for all three names.
  - Property getters, prototype properties and non-JSON objects that carry
    their own `split` method are not represented. A truthy non-string path
    always throws.
- `result` is reduced to a `Field` and read only for its truthiness. `state`
  is compared with `"result"` and nothing else.
- `toolCallId` is carried in the record but never read, as in the source.
- Rendering the same record twice gives the same view, because the model
  consists of functions. There is no separate lemma for it.
- src/lib/prompts/generation.tsx is a static prompt string and is not part of this model.
- Dafny's `string` is a sequence of Unicode scalar values, while a JavaScript
  string is a sequence of UTF-16 code units, so lone surrogates are not
  represented. No behaviour depends on this: the only separator is the ASCII `'/'`.
