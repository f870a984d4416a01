# scrappy text document and keystroke codes, in Dafny

This project models two pieces of the scrappy text editor.

**The line-buffer document `PlainTextDocument`** (`textdocument.dfy`, with the string and vector
operations it uses in `lineedits.dfy`). The document holds its text as a sequence of lines. It also
holds a cursor, an optional selection anchor, a modified flag, a file name and a list of listeners.
It changes only through edit commands. A processing loop takes the commands from a queue one at a
time and stops at the first `Close`.

- The class `TextDocument.PlainTextDocument` keeps the source's fields and updates them in place.
- `DocState` is the same state as a value.
- `Apply` says what one command does to that state, and `Run` says what the loop does with a queue.
- `HandleEvent` and `ThreadMethod` are proved to follow `Apply` and `Run`.
- Lemmas about `Apply` and `Run` state the document's properties: the round trips from the source's
  tests, how `InsertStr` splits a line, that nothing after `Close` is applied, how the listener list
  grows, and that equality is kept by every command.

**The keystroke encoding** (`commands.dfy`). A key code is a 32-bit integer. Modifier keys are single
bits, combined with bitwise OR. A printable or whitespace ASCII key is its character code, and
adding such a key to a keystroke drops the modifiers collected so far. The source's `i32` is modelled
as `bv32`: `|` gives the same bit pattern on both.

`wrappers.dfy` holds the `Option` type used by both.

The model follows the code as written, including these behaviours:

- `InsertStr` does not split the text character by character. At column 0 the whole string becomes
  a new line. Elsewhere the line is cut at the column and the string appended to the first part. The
  rest goes on a new next line only when the string ends in `'\n'`, and that `'\n'` stays in the line.
- No command sets `modified`. `SaveAs` does not change the file name. `MoveCursor`, `MoveCursorTo`
  and `SetSelectionMode` change nothing.
- A location out of range aborts the program. It is a precondition here, not a reported error.

## Model

| member | source | states |
|---|---|---|
| `TextDocument.PlainTextDocument.constructor` | src/textdocument.rs:29-41 | a new document has no lines, the cursor at line 0 column 0, no selection anchor, is unmodified and untitled, and has no listeners; the accessors report the same |
| `TextDocument.PlainTextDocument.CursorLoc` | src/textdocument.rs:116-118 | returns the current cursor |
| `TextDocument.PlainTextDocument.Lines` | src/textdocument.rs:120-122 | returns all lines, in order |
| `TextDocument.PlainTextDocument.CurrentSelection` | src/textdocument.rs:124-130 | there is a selection exactly when the anchor is set; it runs from the anchor to the cursor and its text is empty |
| `TextDocument.PlainTextDocument.IsModified` | src/textdocument.rs:132-134 | returns the modified flag |
| `TextDocument.PlainTextDocument.Equals` | src/textdocument.rs:18-26 | two documents are equal exactly when lines, cursor, anchor, modified flag and file name agree; listeners are ignored |
| `TextDocument.PlainTextDocument.InsertChar` | src/textdocument.rs:90-92 | the lines become `InsertCharAt` of the old lines; no other field changes |
| `TextDocument.PlainTextDocument.InsertString` | src/textdocument.rs:94-106 | the split, append and re-join or new-line steps leave the lines equal to `InsertStringAt` of the old lines; no other field changes |
| `TextDocument.PlainTextDocument.HandleEvent` | src/textdocument.rs:55-84 | the new state and the answer are those of `Apply`; the answer is false exactly for `Close`; cursor, selection and modified flag are unchanged |
| `TextDocument.PlainTextDocument.ThreadMethod` | src/textdocument.rs:43-53 | the final state, whether `Close` was reached, and the number of commands taken are those of `Run` on the old state |
| `TextDocument.InsertCharAt` | src/textdocument.rs:90-92 | the line count is unchanged; the target line gets `ch` at the column, the characters after it shifting right; every other line is unchanged |
| `TextDocument.InsertStringAt` | src/textdocument.rs:94-106 | the line count grows by one exactly when the column is 0 or the text ends in `'\n'`, and stays the same otherwise; lines before the target line are unchanged |
| `TextDocument.InsertCharRestoresRemovedChar` | src/textdocument.rs:220-233 | removing the character at a valid location and inserting it again at that location restores the lines |
| `TextDocument.InsertStrAtLineStart` | src/textdocument.rs:95-96 | at column 0 the text becomes line `loc.line`, earlier lines stay, later lines move down one, and the count grows by one |
| `TextDocument.InsertStrRestoresRemovedLine` | src/textdocument.rs:235-249 | removing a line and inserting it back at column 0 of its index restores the lines |
| `TextDocument.InsertStrSplitsLine` | src/textdocument.rs:251-269 | text ending in `'\n'` at a column above 0 gives the prefix plus the text, then the suffix as a new next line; the two joined equal the line with the text inserted; other lines keep their places or move down one |
| `TextDocument.InsertStrWithinLine` | src/textdocument.rs:98-103 | text not ending in `'\n'` at a column above 0 gives prefix, text and suffix on one line; the count and every other line are unchanged |
| `TextDocument.Apply` | src/textdocument.rs:55-84 | the loop goes on exactly when the command is not `Close`; `Close` changes nothing; `AddListener` puts the target first; only insertions change what equality compares; no command touches cursor, anchor, modified flag or file name |
| `TextDocument.ApplyRespectsEquality` | src/textdocument.rs:18-26 | documents equal under `eq` accept the same commands and stay equal after each |
| `TextDocument.Run` | src/textdocument.rs:43-53 | when the loop closes, the last command taken is the first `Close`; otherwise every command was taken and none is `Close`; cursor, anchor, modified flag and file name are unchanged |
| `TextDocument.RunIgnoresAfterClose` | src/textdocument.rs:44-50 | commands queued after a `Close` that the loop reaches do not change the outcome |
| `TextDocument.RunAppend` | src/textdocument.rs:44-50 | running one queue and then another, when the first holds no `Close`, is running their concatenation |
| `TextDocument.RunListeners` | src/textdocument.rs:58-60 | after the loop the listeners are the targets of the `AddListener` commands it applied, latest first, in front of the earlier listeners |
| `TextDocument.RunRespectsEquality` | src/textdocument.rs:18-26 | documents equal under `eq` stop at the same command and end equal |
| `LineEdits.InsertCharIn` | src/textdocument.rs:91 | the line is one longer; `ch` is at the column; the characters before it stay and the ones after it shift right by one |
| `LineEdits.RemoveCharIn` | src/textdocument.rs:225 | the line is one shorter; the removed character is returned; later characters shift left by one |
| `LineEdits.InsertAfterRemoveChar` | src/textdocument.rs:220-233 | inserting a removed character at its column restores the line |
| `LineEdits.RemoveAfterInsertChar` | src/textdocument.rs:91 | removing a just-inserted character gives back the line and that character |
| `LineEdits.InsertLine` | src/textdocument.rs:96 | the document is one line longer; the new line is at the index; earlier lines stay and later ones move down one |
| `LineEdits.RemoveLine` | src/textdocument.rs:240 | the document is one line shorter; the removed line is returned; later lines move up one |
| `LineEdits.InsertAfterRemoveLine` | src/textdocument.rs:235-249 | inserting a removed line at its index restores the document |
| `LineEdits.RemoveAfterInsertLine` | src/textdocument.rs:96 | removing a just-inserted line gives back the document and that line |
| `Commands.Code` | scrappy_core/src/commands.rs:14-20 | the code is 0 exactly for `None`; every code has at most one bit set, and that bit lies in 0x000F0000 |
| `Commands.ModifierBitsDisjoint` | scrappy_core/src/commands.rs:14-20 | two different modifiers share no bit |
| `Commands.CombineModifiers` | scrappy_core/src/commands.rs:30-36 | the combined code has every bit of both modifiers and no other bit |
| `Commands.CombineModifiersCommutesAndAbsorbs` | scrappy_core/src/commands.rs:30-36 | the order of the two modifiers does not matter, and `m + m` is `m`'s own code |
| `Commands.AddModifier` | scrappy_core/src/commands.rs:38-44 | the result keeps every bit of the keystroke, adds the modifier's bit, and sets no other bit |
| `Commands.AddModifierIdempotent` | scrappy_core/src/commands.rs:38-44 | adding a modifier twice equals adding it once; adding `None` changes nothing |
| `Commands.Utf8Byte` | scrappy_core/src/commands.rs:51-52 | the one byte encoding an ASCII character equals its code |
| `Commands.AsciiCode` | scrappy_core/src/commands.rs:53 | the key code of an ASCII character equals the character's code and is below 0x80 |
| `Commands.AddChar` | scrappy_core/src/commands.rs:46-58 | a graphic or whitespace ASCII character gives its own code; any other character gives the modifier's code |
| `Commands.AddCharToKeystroke` | scrappy_core/src/commands.rs:60-72 | a graphic or whitespace ASCII character gives its own code; any other character leaves the keystroke as it was |
| `Commands.FromChar` | scrappy_core/src/commands.rs:25-27 | a graphic or whitespace ASCII character gives its own code; any other character gives 0 |
| `Commands.FromCharRoundTrip` | scrappy_core/src/commands.rs:25-27 | decoding the code of a key character gives that character back; other characters decode to nothing |
| `Commands.ModifiersAreNotKeyChars` | scrappy_core/src/commands.rs:14-36 | no combination of two modifiers decodes as a character key |
| `Commands.AddCharIgnoresModifier` | scrappy_core/src/commands.rs:46-53 | for a key character, `m + c` is `from_char(c)` whatever the modifier |
| `Commands.AddCharDiscardsModifiers` | scrappy_core/src/commands.rs:60-71 | for a key character, `(k + m) + c` is `from_char(c)`: the modifiers collected in the keystroke are dropped |

## Left out

- TextDocument.PlainTextDocument.HandleEvent: requires the command not to be `Save` or `Delete`. Both call `save` and `delete`, which are unimplemented and abort, so they have no effect to model.
- TextDocument.PlainTextDocument.ThreadMethod: reads a finite sequence of commands instead of a channel. The source's `recv` blocks while the queue is empty. It never reports a closed channel, because the document keeps its own sender. A queue that runs out before `Close` stands for that wait.
- The channels and threads are not modelled: the inbound sender and receiver, `edits_channel`, and sending from other threads. Listeners are opaque identities. The source never sends them any event.
- Columns are character indices. The source uses byte offsets into UTF-8 strings and aborts inside a multi-byte character; that failure is not modelled.
- Line and column indices are unbounded naturals, not `usize`.
- The `Command` struct in `scrappy_core/src/commands.rs` holds data only and has no operations.
- The FLTK window, menus, file dialogs and file reads and writes (`src/editorview.rs`, `src/main.rs`) are not part of this model.
- The document-manager and UI-manager interfaces have no code, and the older document types in `scrappy_core/src/doc.rs` are unused. Neither is part of this model.
