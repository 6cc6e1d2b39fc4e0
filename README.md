# Line-numbered draft-js editor: key actions, line diagnostics and gutter

This project models the logic of a small code-like editor built on draft-js.
That logic has three parts:

- **Key-action resolver** (`actions.dfy`, module `Actions`). Enter splits the
  line at the selection. The new line gets the leading tabs of the line as it
  was before the split. Tab puts a tab at the caret. Shift+Tab removes the
  first character of a line that starts with a tab, then puts both ends of the
  selection one before the selection's start.
- **Editor component** (`editor.dfy`, module `Editor`):
  - the brace check `lineError`;
  - the block-meta map rebuilt after every editor-state change;
  - the word before the caret;
  - the gate for the completion dropdown;
  - the key-down handler as a class `EditorComponent` whose fields are the
    component's state: `editorState`, `blockStates` and `hitEscape`.
- **Line gutter** (`gutter.dfy`, module `Gutter`): the line number of a block,
  the digit count of the block count, the gutter width, and the lookups of a
  block's status, active flag and info with their defaults.

The draft-js document is modelled in `document.dfy` (module `Document`):

- A document is an ordered sequence of `Line(key, text)` values with distinct keys.
- A `Selection` is `(anchorKey, anchorOffset, focusKey, focusOffset)`.
- The four library calls the handlers use are plain functions on these
  values: `SplitBlock`, `InsertText`, `RemoveRange` and `ForceSelection`.
- `SplitBlock`, `InsertText` and `RemoveRange` each yield the state
  `EditorState.push` gives: the new content with its "selection after".
  `ForceSelection` keeps the content and sets the given selection unchecked.
- `ValidState` is the set of states that draft-js's own edits keep, with the
  selection on one line. The handlers can leave it, as described below. `SplitBlock`, `InsertText` and `RemoveRange` are proved to
  preserve it. `ForceSelection` is not: it takes any offsets unchecked, and
  `Document.ForceSelectionValidity` says exactly when the result stays valid.
- `PlainText` is a reference view of the document: its lines joined by `'\n'`,
  the way draft-js's `getPlainText` renders them. Lemmas state each key
  action's effect on that one string.

Behaviour the model keeps as the code has it:

- Offsets are unbounded integers, so Shift+Tab with the caret at column 0 of
  an indented line gives both offsets the value -1. `Actions.OutdentSelectionInRange`
  proves that the result is then not a valid state, and that Shift+Tab stays
  in range from offset 1 on.
- `Editor.CaretPrefixAtMinusOne` shows what `currentWord` then reads.
  `slice(0, -1)` drops the line's last character.
- The brace check does no counting and no ordering. A line holding both
  `{{` and `}}` is fine, so `"}}{{"` passes (`Editor.LineErrorOfBoth`).
- The diagnostics status `"warning"` exists in the type but is never produced.

Two more consequences of the code:

- Tab without Shift is modelled on a caret only. The code hands the selection
  to `Modifier.insertText`, which rejects a range.
- The caret may sit before the leading tab, so Shift+Tab can start from
  offset 0. The offsets then become -1, as described above.

## Model

| member | source | states |
|---|---|---|
| `Document.FindIndex` | src/components/Line.tsx:24 | result is -1 exactly when the key is absent, else the first position holding the key |
| `Document.Selection.IsCollapsed` | src/components/Editor.tsx:190 | collapsed exactly when anchor and focus are on the same line and the start equals the end |
| `Document.SelectionOffsets` | src/components/actions.ts:29-30 | on one line `getStartOffset` is the smaller of the two offsets and `getEndOffset` the larger |
| `Document.SplitBlock` | src/components/actions.ts:50-51 | splitting at a one-line selection keeps keys distinct and adds exactly the fresh key. The start line keeps `text[..start]` and is directly followed by the new line holding `text[end..]`. All other lines are unchanged. The caret lands at offset 0 of the new line |
| `Document.InsertText` | src/components/actions.ts:73-74 | inserting at the caret at offset k keeps the state valid and the key set unchanged. The line becomes `text[..k] + inserted + text[k..]`, every other line is unchanged, and the caret moves to k + the inserted length |
| `Document.RemoveRange` | src/components/actions.ts:84-91 | removing a one-line range keeps the state valid and the key set unchanged. The line becomes `text[..start] + text[end..]`, every other line is unchanged, and the caret sits at the start |
| `Document.ForceSelection` | src/components/actions.ts:96-102 | the content is unchanged and the selection is exactly the one given, without clamping |
| `Document.ForceSelectionValidity` | src/components/actions.ts:95-102 | forcing a selection onto the current line of a valid state keeps it valid exactly when both offsets lie within the line |
| `Actions.Repeat` | src/components/actions.ts:57 | `"\t".repeat(n)` has length n and every character is the given one |
| `Actions.TabCount` | src/components/actions.ts:7-13 | the count is the length of the maximal run of tabs at offset 0: all counted characters are tabs and the next one is not |
| `Actions.TabCountAfterTabs` | src/components/actions.ts:8-9 | n leading tabs add exactly n to the count of whatever follows |
| `Actions.TabCountOfUnindented` | src/components/actions.ts:8-9 | n tabs followed by a non-tab (a space, a letter, a later tab run) count exactly n; with n = 0 a line not starting with a tab counts 0 |
| `Actions.StartBlock` | src/components/actions.ts:15-24 | the block returned is in the document and has the selection's key |
| `Actions.GetSelectionInfo` | src/components/actions.ts:26-40 | `before` has the start offset's length, and `before`, the selected text and `after` make up the line |
| `Actions.OnEnter` | src/components/actions.ts:47-63 | exactly one line is added, directly after the start line. The start line keeps `text[..start]` and the new line is `"\t"×tabCount + text[end..]`, with tabCount from the pre-split text. All other lines are unchanged. The caret is after the inserted tabs. With tabCount 0 the result is the plain split |
| `Actions.SplitThenIndent` | src/components/actions.ts:50-60 | inserting the tabs at the caret that the split leaves puts them at the start of the new line |
| `Actions.OnTab` | src/components/actions.ts:69-106 | the key set and the selection's line are always kept. Then three cases. Without Shift, the line becomes `text[..k] + "\t" + text[k..]` and the caret is k + 1. With Shift and tabCount 0, the input state comes back unchanged. With Shift and tabCount > 0, the line becomes `text[1..]`, other lines are unchanged, and both offsets become start − 1 with the keys kept |
| `Actions.OutdentRemovesOneTab` | src/components/actions.ts:78-91 | Shift+Tab on an indented line lowers its tab count by exactly one |
| `Actions.OutdentSelectionInRange` | src/components/actions.ts:95-101 | after Shift+Tab on an indented line the state is valid exactly when the start offset was at least 1. From offset 0 the offsets become -1 |
| `Actions.TabThenOutdentAtLineStart` | src/components/actions.ts:72-101 | Tab then Shift+Tab with the caret at column 0 gives back the original document and selection |
| `Actions.OnEnterPlainText` | src/components/actions.ts:47-63 | in the joined text, Enter replaces the selected range by `"\n"` followed by the start line's leading tabs |
| `Actions.OnTabPlainText` | src/components/actions.ts:72-76 | in the joined text, Tab inserts one tab at the caret's absolute offset |
| `Actions.OutdentPlainText` | src/components/actions.ts:83-91 | in the joined text, Shift+Tab deletes the tab that starts the line and nothing else |
| `Editor.Contains` | src/components/Editor.tsx:138-140 | `includes` holds whenever the pattern is a prefix, and only when the pattern is no longer than the text |
| `Editor.ContainsAt` | src/components/Editor.tsx:138 | `includes` holds exactly when the pattern occurs at some offset |
| `Editor.LineError` | src/components/Editor.tsx:136-142 | "Unmatched open brace" iff `{{` occurs and `}}` does not. "Unmatched close brace" iff `}}` occurs and `{{` does not. "" iff both or neither occur |
| `Editor.LineErrorOfEmpty` | src/components/Editor.tsx:137 | the empty line gets "" |
| `Editor.LineErrorOfOpen` | src/components/Editor.tsx:139 | `"abc{{def"` gets "Unmatched open brace" |
| `Editor.LineErrorOfClose` | src/components/Editor.tsx:140 | `"abc}}def"` gets "Unmatched close brace" |
| `Editor.LineErrorWithoutBraces` | src/components/Editor.tsx:136-142 | any line without a brace character gets "" |
| `Editor.LineErrorOfBoth` | src/components/Editor.tsx:141 | `"{{x}}"` and `"}}{{"` both get "": no count or order is checked |
| `Editor.BlockEntry` | src/components/Editor.tsx:154-159 | one block's entry: info is `lineError(text)`, status is "error" iff info is non-empty and never "warning", and isActive iff the key is both the anchor and the focus key |
| `Editor.BuildBlockStates` | src/components/Editor.tsx:144-163 | one entry per block key of the content and none for other keys. Info is `lineError(text)`, status is "error" iff info is non-empty and is never "warning". isActive iff the key is both the anchor and the focus key |
| `Editor.BlockStatesIgnorePrevious` | src/components/Editor.tsx:155-159 | the previous map does not influence the result, because all three fields overwrite the spread entry |
| `Editor.BlockStatesIdempotent` | src/components/Editor.tsx:144-163 | rebuilding on an unchanged state gives the same map |
| `Editor.ExactlyOneActiveLine` | src/components/Editor.tsx:158 | on a valid state the caret's line is active and no other line is |
| `Editor.NoActiveLineAcrossLines` | src/components/Editor.tsx:158 | with anchor and focus on different lines no line is active |
| `Editor.SliceEnd` | src/components/Editor.tsx:175 | `slice(0, end)` counts a negative end from the back and clamps into 0..length |
| `Editor.LastSpaceBefore` | src/components/Editor.tsx:176-177 | the offset of the last space before a bound, with no space between it and the bound, or -1 when there is none |
| `Editor.LastSegment` | src/components/Editor.tsx:176-177 | `split(" ").pop()` is space-free and either the whole string or preceded by a space |
| `Editor.LastSegmentIsSuffix` | src/components/Editor.tsx:176-177 | the last segment is a suffix of the string |
| `Editor.LastSegmentAfterSpace` | src/components/Editor.tsx:176-177 | for `u + " " + v` with v space-free, the last segment is exactly v |
| `Editor.LastSegmentWithoutSpace` | src/components/Editor.tsx:176-177 | a space-free string is its own last segment |
| `Editor.TrimStart` | src/components/Editor.tsx:178 | everything dropped is whitespace and the result does not start with whitespace |
| `Editor.TrimStartIsSuffix` | src/components/Editor.tsx:178 | `trimStart` keeps a suffix of the string |
| `Editor.TrimEnd` | src/components/Editor.tsx:178 | everything dropped is whitespace and the result does not end with whitespace |
| `Editor.TrimEndIsPrefix` | src/components/Editor.tsx:178 | `trimEnd` keeps a prefix of the string |
| `Editor.Trim` | src/components/Editor.tsx:178 | the result is no longer than the string, has no whitespace at either end, and is the string itself when the string already has none |
| `Editor.CurrentWord` | src/components/Editor.tsx:169-181 | the word has no space and no whitespace at either end. It is empty when the text before the caret ends in a space |
| `Editor.CurrentWordIsTrimmedSegment` | src/components/Editor.tsx:175-178 | the word, computed by offsets, is exactly `trim` of `split(" ").pop()` of the text before the caret |
| `Editor.CurrentWordAfterLastSpace` | src/components/Editor.tsx:169-181 | the word is the trimmed text after the last space before the caret |
| `Editor.CurrentWordWithoutSpace` | src/components/Editor.tsx:169-181 | with no space before the caret the word is the whole trimmed prefix |
| `Editor.CaretPrefix` | src/components/Editor.tsx:170-175 | `slice(0, anchorOffset)` is a prefix of the anchor line. An offset inside the line gives that many characters, a larger one gives the whole line, and a negative one counts from the end, down to empty |
| `Editor.CaretPrefixOfValidState` | src/components/Editor.tsx:175 | on a valid state the slice is the line's prefix up to the anchor offset |
| `Editor.CaretPrefixAtMinusOne` | src/components/Editor.tsx:175 | at anchor offset -1 the slice drops the line's last character |
| `Editor.ShowDropdown` | src/components/Editor.tsx:183-194 | false when x or y is -1, the editor is unfocused, the word is empty, Escape was hit, or the selection is not collapsed; true otherwise |
| `Editor.NoDropdownAfterSpace` | src/components/Editor.tsx:183-194 | right after a space the dropdown is never shown |
| `Editor.EditorComponent.constructor` | src/components/Editor.tsx:112-114 | the initial state: one empty block with the caret at its start, an empty meta map, hitEscape false |
| `Editor.EditorComponent.KeyDown` | src/components/Editor.tsx:116-133 | hitEscape is reset first. Enter and Tab replace the state by `OnEnter`/`OnTab` and prevent the default. ArrowDown/ArrowUp fall through to Escape, setting hitEscape, and prevent the default iff the dropdown was shown. Escape sets hitEscape. Other keys change nothing. The meta map is outside the method's frame. The anchor line stays in the document, so the handler can be called again on any state it produces |
| `Editor.EditorComponent.SyncBlockStates` | src/components/Editor.tsx:144-163 | the effect replaces the meta map by the one rebuilt from the current state and changes nothing else |
| `Gutter.LineNumber` | src/components/Line.tsx:21-24 | for a present key, a number in 1..n whose line holds the key; 0 for an absent key |
| `Gutter.LineNumberOfPosition` | src/components/Line.tsx:24 | the line at position i is numbered i + 1 |
| `Gutter.DecimalString` | src/components/Line.tsx:25 | at least one digit, all characters digits, and the digit count d satisfies 10^(d−1) ≤ n < 10^d (for d > 1) |
| `Gutter.DigitsMonotone` | src/components/Line.tsx:25 | a larger number never has fewer digits |
| `Gutter.Size` | src/components/Line.tsx:25 | size is the decimal digit count of the block count |
| `Gutter.LineValue` | src/components/Line.tsx:26 | with `DEBUGGING.LINE` (declared at lines 5-7) false the displayed value is the line number |
| `Gutter.GutterWidth` | src/components/Line.tsx:93 | the width is in `ch`, at least 3, greater than size, and either 3 or size + 1 |
| `Gutter.GutterWidthByLineCount` | src/components/Line.tsx:110 | the width is 3 exactly for fewer than 100 blocks, size + 1 from then on |
| `Gutter.LineNumberFitsGutter` | src/components/Line.tsx:24-25 | every line number has at most size digits, less than the gutter width |
| `Gutter.GetLineStatus` | src/components/Line.tsx:28-34 | the stored status's name, and "" exactly when the key has no entry |
| `Gutter.GetActiveStatus` | src/components/Line.tsx:36-42 | true exactly when the key has an entry whose isActive is set |
| `Gutter.GetLineInfo` | src/components/Line.tsx:44-51 | the stored info, or "" when the key has no entry |
| `Gutter.GutterShowsDiagnostics` | src/components/Line.tsx:28-51 | after the rebuild a line shows "error" and the message exactly when the brace check flags it. It shows the active border exactly on the caret's line. An absent key gets "", "" and false |

## Left out

- Caret-coordinate DOM queries, window listeners and the `document.activeElement`
  check: browser I/O. `KeyDown` and `ShowDropdown` take `x`, `y` and `focused` as parameters.
- Caret coordinates are JavaScript numbers (floating point). They are modelled as integers, and only the -1 sentinel matters.
- JSX rendering, class strings, inline styles, `EditorContext` and `blockRendererFn`: these are presentation only.
- The draft-js undo stack and the change types passed to `EditorState.push`: both are library internals.
- Entities, inline styles and block types: library internals.
- The block-key generator: every operation that creates a line takes a fresh key as a parameter.
- Selections spanning several lines are not modelled: `ValidState` keeps anchor and focus on one line.
- The selection's `isBackward` flag is not modelled. On one line, start and end are taken as the smaller and larger offset.
- Editor.EditorComponent.KeyDown: Enter and Tab are modelled only on a valid state, because draft-js's primitives are only specified there. On the out-of-range state that Shift+Tab leaves at column 0, only the other keys are modelled.
- Actions.OnTab: without Shift it requires a collapsed caret. draft-js's `insertText` rejects a non-collapsed range, and that failure is not modelled.
- `event.preventDefault()` is modelled only as the flag `KeyDown` returns. `console.debug` is left out.
- When the effect runs is up to React. `SyncBlockStates` is the effect's body, and it is not run after `KeyDown` or the constructor.
- Edits that draft-js makes on its own through `onChange` (ordinary typing) are not modelled.
- Strings: Dafny characters are Unicode scalar values, while JavaScript offsets count UTF-16 code units. Offsets differ on lines containing characters outside the Basic Multilingual Plane.
- `src/App.tsx` (static layout) and `tailwind.config.cjs` (build configuration) are not part of this model.
