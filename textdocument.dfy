/**
 The editor's in-memory text document (`PlainTextDocument`): a vector of line
 strings with a cursor, an optional selection anchor, a modified flag, a file
 name and a list of listeners. The document changes only through edit commands
 that a processing loop applies one at a time until it receives `Close`.

 `DocState` is the document's state as a value, `Apply` and `Run` say what one
 command and a sequence of commands do to it, and the class `PlainTextDocument`
 updates its fields in place and is proved to follow them.
 */
module TextDocument {
  import opened LineEdits
  import Wrappers

  /** A position: a line index and a column (a character index within that line). */
  datatype Loc = Loc(line: nat, col: nat)

  datatype Direction = Up | Down | Left | Right

  datatype SelectionMode = None | Selecting | Selected

  /** An anchored range; `end` follows the cursor. */
  datatype Selection = Selection(start: Loc, end: Loc, text: string)

  /** A registered notification target (a channel sender in the editor); only its identity matters here. */
  datatype Listener = Listener(id: nat)

  /** The commands the document's processing loop accepts. */
  datatype DocumentEdit =
    | Close
    | AddListener(target: Listener)
    | Save
    | SaveAs(path: string)
    | InsertChar(at: Loc, ch: char)
    | InsertStr(at: Loc, text: string)
    | Delete(selection: Selection)
    | MoveCursor(direction: Direction)
    | MoveCursorTo(dest: Loc)
    | SetSelectionMode(mode: SelectionMode)

  /** Every field of the document that an edit can read or write, as one value. */
  datatype DocState = DocState(
    content: seq<string>,
    cursor: Loc,
    selectionStart: Wrappers.Option<Loc>,
    modified: bool,
    fileName: string,
    listeners: seq<Listener>)

  /** The document's structural equality: every field except the listeners. */
  predicate SameDocument(a: DocState, b: DocState) {
    && a.content == b.content
    && a.cursor == b.cursor
    && a.selectionStart == b.selectionStart
    && a.modified == b.modified
    && a.fileName == b.fileName
  }

  /** `content[loc.line].insert(loc.col, ch)` indexes in range. */
  predicate CanInsertChar(lines: seq<string>, loc: Loc) {
    loc.line < |lines| && loc.col <= |lines[loc.line]|
  }

  /**
   `insert_string` indexes in range: at column 0 the new line may go anywhere up to
   just past the last line; otherwise the line must exist and be split within it.
   */
  predicate CanInsertString(lines: seq<string>, loc: Loc) {
    if loc.col == 0 then loc.line <= |lines|
    else loc.line < |lines| && loc.col <= |lines[loc.line]|
  }

  /**
   Whether the command can be applied: `Save` and `Delete` are unimplemented and
   abort, and the insertions abort on a location outside the document.
   */
  predicate Applicable(s: DocState, e: DocumentEdit) {
    match e
    case Save => false
    case Delete(_) => false
    case InsertChar(loc, _) => CanInsertChar(s.content, loc)
    case InsertStr(loc, _) => CanInsertString(s.content, loc)
    case _ => true
  }

  /** The document's lines after `InsertChar(loc, ch)`: one character added to one line. */
  function InsertCharAt(lines: seq<string>, loc: Loc, ch: char): (r: seq<string>)
    requires CanInsertChar(lines, loc)
    ensures |r| == |lines|
    ensures r[loc.line] == InsertCharIn(lines[loc.line], loc.col, ch)
    ensures forall i :: 0 <= i < |lines| && i != loc.line ==> r[i] == lines[i]
  {
    lines[loc.line := InsertCharIn(lines[loc.line], loc.col, ch)]
  }

  /**
   The document's lines after `InsertStr(loc, text)`. At column 0 the text becomes
   a new line. Otherwise the line is cut at the column and the text appended to the
   first part; the rest goes on a new next line if the text ends in a line feed
   (which stays in the line), and is appended back otherwise.
   */
  function InsertStringAt(lines: seq<string>, loc: Loc, text: string): (r: seq<string>)
    requires CanInsertString(lines, loc)
    ensures |r| == |lines| + (if loc.col == 0 || EndsWithNewline(text) then 1 else 0)
    ensures forall i :: 0 <= i < loc.line ==> r[i] == lines[i]
  {
    if loc.col == 0 then
      InsertLine(lines, loc.line, text)
    else
      var line := lines[loc.line];
      if EndsWithNewline(text) then
        InsertLine(lines[loc.line := line[..loc.col] + text], loc.line + 1, line[loc.col..])
      else
        lines[loc.line := line[..loc.col] + text + line[loc.col..]]
  }

  /** Putting back a character taken out of the document restores it. */
  lemma InsertCharRestoresRemovedChar(lines: seq<string>, loc: Loc)
    requires loc.line < |lines| && loc.col < |lines[loc.line]|
    ensures CanInsertChar(lines[loc.line := RemoveCharIn(lines[loc.line], loc.col).0], loc)
    ensures InsertCharAt(lines[loc.line := RemoveCharIn(lines[loc.line], loc.col).0], loc, lines[loc.line][loc.col]) == lines
  {
    var line := lines[loc.line];
    var removed := lines[loc.line := RemoveCharIn(line, loc.col).0];
    InsertAfterRemoveChar(line, loc.col);
    assert InsertCharAt(removed, loc, line[loc.col]) == removed[loc.line := line];
  }

  /** At column 0 the text becomes line `loc.line` and the lines from there on move down. */
  lemma InsertStrAtLineStart(lines: seq<string>, loc: Loc, text: string)
    requires loc.col == 0 && loc.line <= |lines|
    ensures var r := InsertStringAt(lines, loc, text);
      && |r| == |lines| + 1
      && r[loc.line] == text
      && (forall i :: 0 <= i < loc.line ==> r[i] == lines[i])
      && (forall i :: loc.line <= i < |lines| ==> r[i + 1] == lines[i])
  {
  }

  /** Inserting a removed line back at column 0 of its index restores the document. */
  lemma InsertStrRestoresRemovedLine(lines: seq<string>, i: nat)
    requires i < |lines|
    ensures CanInsertString(RemoveLine(lines, i).0, Loc(i, 0))
    ensures InsertStringAt(RemoveLine(lines, i).0, Loc(i, 0), lines[i]) == lines
  {
  }

  /**
   Text ending in a line feed inserted inside a line splits it: the first part
   followed by the text (line feed included), then the rest on a new next line.
   */
  lemma InsertStrSplitsLine(lines: seq<string>, loc: Loc, text: string)
    requires 0 < loc.col && loc.line < |lines| && loc.col <= |lines[loc.line]|
    requires EndsWithNewline(text)
    ensures var r := InsertStringAt(lines, loc, text);
      && |r| == |lines| + 1
      && r[loc.line] == lines[loc.line][..loc.col] + text
      && r[loc.line + 1] == lines[loc.line][loc.col..]
      && r[loc.line] + r[loc.line + 1] == lines[loc.line][..loc.col] + text + lines[loc.line][loc.col..]
      && (forall i :: 0 <= i < loc.line ==> r[i] == lines[i])
      && (forall i :: loc.line < i < |lines| ==> r[i + 1] == lines[i])
  {
  }

  /** Text not ending in a line feed inserted inside a line stays within that line. */
  lemma InsertStrWithinLine(lines: seq<string>, loc: Loc, text: string)
    requires 0 < loc.col && loc.line < |lines| && loc.col <= |lines[loc.line]|
    requires !EndsWithNewline(text)
    ensures var r := InsertStringAt(lines, loc, text);
      && |r| == |lines|
      && r[loc.line] == lines[loc.line][..loc.col] + text + lines[loc.line][loc.col..]
      && (forall i :: 0 <= i < |lines| && i != loc.line ==> r[i] == lines[i])
  {
  }

  /**
   `handle_event`: the state after one command and whether the loop goes on. Only
   `Close` stops it; only the insertions change the lines; only `AddListener`
   changes the listeners, putting the new one first.
   */
  function Apply(s: DocState, e: DocumentEdit): (r: (DocState, bool))
    requires Applicable(s, e)
    ensures r.1 <==> !e.Close?
    ensures e.Close? ==> r.0 == s
    ensures r.0.cursor == s.cursor && r.0.selectionStart == s.selectionStart
    ensures r.0.modified == s.modified && r.0.fileName == s.fileName
    ensures e.AddListener? ==> r.0.listeners == [e.target] + s.listeners
    ensures !e.AddListener? ==> r.0.listeners == s.listeners
    ensures !e.InsertChar? && !e.InsertStr? ==> SameDocument(r.0, s)
  {
    match e
    case Close => (s, false)
    case AddListener(t) => (s.(listeners := [t] + s.listeners), true)
    case SaveAs(_) => (s, true)
    case InsertChar(loc, ch) => (s.(content := InsertCharAt(s.content, loc, ch)), true)
    case InsertStr(loc, text) => (s.(content := InsertStringAt(s.content, loc, text)), true)
    case MoveCursor(_) => (s, true)
    case MoveCursorTo(_) => (s, true)
    case SetSelectionMode(_) => (s, true)
  }

  /** Equal documents stay equal under every command, whatever their listeners. */
  lemma ApplyRespectsEquality(s1: DocState, s2: DocState, e: DocumentEdit)
    requires SameDocument(s1, s2) && Applicable(s1, e)
    ensures Applicable(s2, e)
    ensures SameDocument(Apply(s1, e).0, Apply(s2, e).0) && Apply(s1, e).1 == Apply(s2, e).1
  {
  }

  /** What the processing loop did: the final state, whether it met `Close`, how many commands it took. */
  datatype RunResult = RunResult(state: DocState, closed: bool, consumed: nat)

  /** No command the loop reaches, up to and including the first `Close`, aborts. */
  predicate RunDefined(s: DocState, edits: seq<DocumentEdit>)
    decreases |edits|
  {
    edits == [] ||
    (Applicable(s, edits[0]) && (edits[0].Close? || RunDefined(Apply(s, edits[0]).0, edits[1..])))
  }

  /**
   `thread_method` over a finite queue: commands are applied in order up to and
   including the first `Close`, and none after it; without a `Close` all of them
   are applied. The cursor, selection, modified flag and file name never change.
   */
  function Run(s: DocState, edits: seq<DocumentEdit>): (r: RunResult)
    requires RunDefined(s, edits)
    decreases |edits|
    ensures r.consumed <= |edits|
    ensures r.closed ==> 0 < r.consumed && edits[r.consumed - 1].Close?
    ensures r.closed ==> forall i :: 0 <= i < r.consumed - 1 ==> !edits[i].Close?
    ensures !r.closed ==> r.consumed == |edits| && forall i :: 0 <= i < |edits| ==> !edits[i].Close?
    ensures r.state.cursor == s.cursor && r.state.selectionStart == s.selectionStart
    ensures r.state.modified == s.modified && r.state.fileName == s.fileName
  {
    if edits == [] then
      RunResult(s, false, 0)
    else
      var step := Apply(s, edits[0]);
      if !step.1 then
        RunResult(step.0, true, 1)
      else
        var rest := Run(step.0, edits[1..]);
        rest.(consumed := rest.consumed + 1)
  }

  /** Commands queued after a `Close` the loop has reached are never applied. */
  lemma {:induction false} RunIgnoresAfterClose(s: DocState, edits: seq<DocumentEdit>, later: seq<DocumentEdit>)
    requires RunDefined(s, edits) && Run(s, edits).closed
    ensures RunDefined(s, edits + later)
    ensures Run(s, edits + later) == Run(s, edits)
    decreases |edits|
  {
    assert (edits + later)[0] == edits[0];
    if !edits[0].Close? {
      assert (edits + later)[1..] == edits[1..] + later;
      RunIgnoresAfterClose(Apply(s, edits[0]).0, edits[1..], later);
    }
  }

  /** Running two queues one after the other is running their concatenation. */
  lemma {:induction false} RunAppend(s: DocState, first: seq<DocumentEdit>, second: seq<DocumentEdit>)
    requires RunDefined(s, first) && !Run(s, first).closed
    requires RunDefined(Run(s, first).state, second)
    ensures RunDefined(s, first + second)
    ensures var r := Run(Run(s, first).state, second);
      Run(s, first + second) == r.(consumed := r.consumed + |first|)
    decreases |first|
  {
    if first == [] {
      assert first + second == second;
    } else {
      assert (first + second)[0] == first[0];
      assert (first + second)[1..] == first[1..] + second;
      RunAppend(Apply(s, first[0]).0, first[1..], second);
    }
  }

  /** The listeners registered by a run of commands, most recently registered first. */
  function Registered(edits: seq<DocumentEdit>): (r: seq<Listener>)
    ensures |r| <= |edits|
  {
    if edits == [] then []
    else Registered(edits[1..]) + (if edits[0].AddListener? then [edits[0].target] else [])
  }

  /**
   After the loop the listeners are those of the applied `AddListener` commands,
   latest first, in front of the ones registered before.
   */
  lemma {:induction false} RunListeners(s: DocState, edits: seq<DocumentEdit>)
    requires RunDefined(s, edits)
    ensures Run(s, edits).state.listeners == Registered(edits[..Run(s, edits).consumed]) + s.listeners
    decreases |edits|
  {
    if edits != [] {
      var step := Apply(s, edits[0]);
      var c := Run(s, edits).consumed;
      var done := edits[..c];
      assert done[0] == edits[0];
      if !step.1 {
        assert done[1..] == [];
      } else {
        RunListeners(step.0, edits[1..]);
        assert done[1..] == edits[1..][..c - 1];
      }
    }
  }

  /** Equal documents stay equal over a whole run, and the runs stop at the same command. */
  lemma {:induction false} RunRespectsEquality(s1: DocState, s2: DocState, edits: seq<DocumentEdit>)
    requires SameDocument(s1, s2) && RunDefined(s1, edits)
    ensures RunDefined(s2, edits)
    ensures SameDocument(Run(s1, edits).state, Run(s2, edits).state)
    ensures Run(s1, edits).closed == Run(s2, edits).closed
    ensures Run(s1, edits).consumed == Run(s2, edits).consumed
    decreases |edits|
  {
    if edits != [] {
      ApplyRespectsEquality(s1, s2, edits[0]);
      if !edits[0].Close? {
        RunRespectsEquality(Apply(s1, edits[0]).0, Apply(s2, edits[0]).0, edits[1..]);
      }
    }
  }

  /** The document object; its methods update its fields in place. */
  class PlainTextDocument {
    var content: seq<string>
    var cursor: Loc
    var selectionStart: Wrappers.Option<Loc>
    var modified: bool
    var fileName: string
    var listeners: seq<Listener>

    /** The fields as one value. */
    function State(): DocState
      reads this
    {
      DocState(content, cursor, selectionStart, modified, fileName, listeners)
    }

    /** `PlainTextDocument::new`: no lines, cursor at the origin, no selection, unmodified, untitled, no listeners. */
    constructor ()
      ensures content == [] && cursor == Loc(0, 0) && selectionStart == Wrappers.None
      ensures !modified && fileName == "" && listeners == []
      ensures Lines() == [] && CursorLoc() == Loc(0, 0) && CurrentSelection() == Wrappers.None && !IsModified()
    {
      content := [];
      cursor := Loc(0, 0);
      selectionStart := Wrappers.None;
      modified := false;
      fileName := "";
      listeners := [];
    }

    /** `cursor_loc`. */
    function CursorLoc(): (l: Loc)
      reads this
      ensures l == cursor
    {
      cursor
    }

    /** `lines`: a copy of the lines, in order. */
    function Lines(): (r: seq<string>)
      reads this
      ensures r == content
    {
      content
    }

    /** `selection`: present exactly when an anchor is set; it runs from the anchor to the cursor, with empty text. */
    function CurrentSelection(): (r: Wrappers.Option<Selection>)
      reads this
      ensures r.None? <==> selectionStart.None?
      ensures r.Some? ==> r.value.start == selectionStart.value && r.value.end == cursor && r.value.text == ""
    {
      match selectionStart
      case None => Wrappers.None
      case Some(loc) => Wrappers.Some(Selection(loc, cursor, ""))
    }

    /** `is_modified`. */
    function IsModified(): (b: bool)
      reads this
      ensures b == modified
    {
      modified
    }

    /** `PartialEq::eq`: the documents agree on every field but their listeners. */
    function Equals(other: PlainTextDocument): (b: bool)
      reads this, other
      ensures b <==> SameDocument(State(), other.State())
    {
      content == other.content &&
      cursor == other.cursor &&
      selectionStart == other.selectionStart &&
      modified == other.modified &&
      fileName == other.fileName
    }

    /** `insert_char`: `ch` inserted at `loc`, all other lines and fields untouched. */
    method InsertChar(loc: Loc, ch: char)
      requires CanInsertChar(content, loc)
      modifies this`content
      ensures content == InsertCharAt(old(content), loc, ch)
    {
      var line := content[loc.line];
      content := content[loc.line := line[..loc.col] + [ch] + line[loc.col..]];
    }

    /** `insert_string`: the line split, extended and rejoined or broken step by step. */
    method InsertString(loc: Loc, insertion: string)
      requires CanInsertString(content, loc)
      modifies this`content
      ensures content == InsertStringAt(old(content), loc, insertion)
    {
      if loc.col == 0 {
        content := content[..loc.line] + [insertion] + content[loc.line..];
      } else {
        var extra := content[loc.line][loc.col..];
        content := content[loc.line := content[loc.line][..loc.col]];
        content := content[loc.line := content[loc.line] + insertion];
        if EndsWithNewline(insertion) {
          content := content[..loc.line + 1] + [extra] + content[loc.line + 1..];
        } else {
          content := content[loc.line := content[loc.line] + extra];
        }
      }
    }

    /** `handle_event`: applies one command; answers false exactly for `Close`. */
    method HandleEvent(e: DocumentEdit) returns (keepGoing: bool)
      requires Applicable(State(), e)
      modifies this`content, this`listeners
      ensures (State(), keepGoing) == Apply(old(State()), e)
      ensures keepGoing <==> !e.Close?
      ensures CursorLoc() == old(CursorLoc()) && CurrentSelection() == old(CurrentSelection())
      ensures IsModified() == old(IsModified())
    {
      match e
      case Close =>
        keepGoing := false;
      case AddListener(t) =>
        listeners := [t] + listeners;
        keepGoing := true;
      case SaveAs(_) =>
        keepGoing := true;
      case InsertChar(loc, ch) =>
        this.InsertChar(loc, ch);
        keepGoing := true;
      case InsertStr(loc, text) =>
        InsertString(loc, text);
        keepGoing := true;
      case MoveCursor(_) =>
        keepGoing := true;
      case MoveCursorTo(_) =>
        keepGoing := true;
      case SetSelectionMode(_) =>
        keepGoing := true;
    }

    /**
     `thread_method`: takes commands from the queue and applies them until one
     answers false. `consumed` counts the commands taken; `closed` says a `Close`
     was reached before the queue ran out.
     */
    method ThreadMethod(edits: seq<DocumentEdit>) returns (closed: bool, consumed: nat)
      requires RunDefined(State(), edits)
      modifies this`content, this`listeners
      ensures RunResult(State(), closed, consumed) == Run(old(State()), edits)
    {
      closed, consumed := false, 0;
      while !closed && consumed < |edits|
        invariant consumed <= |edits|
        invariant !closed ==> RunDefined(State(), edits[consumed..])
        invariant !closed ==> var r := Run(State(), edits[consumed..]);
          Run(old(State()), edits) == r.(consumed := r.consumed + consumed)
        invariant closed ==> Run(old(State()), edits) == RunResult(State(), true, consumed)
        decreases |edits| - consumed, if closed then 0 else 1
      {
        assert edits[consumed..][1..] == edits[consumed + 1..];
        var keepGoing := HandleEvent(edits[consumed]);
        consumed := consumed + 1;
        closed := !keepGoing;
      }
      assert !closed ==> edits[consumed..] == [];
    }
  }
}
