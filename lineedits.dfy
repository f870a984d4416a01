/**
 The string and vector operations the text document is built from, on lines held
 as sequences of characters: inserting and removing one character in a line
 (`String::insert`, `String::remove`) and one line in a document
 (`Vec::insert`, `Vec::remove`). Each insertion has its removal as inverse.
 */
module LineEdits {

  /** `String::insert`: `ch` placed before position `col`, later characters shift right. */
  function InsertCharIn(line: string, col: nat, ch: char): (r: string)
    requires col <= |line|
    ensures |r| == |line| + 1
    ensures r[col] == ch
    ensures forall i :: 0 <= i < col ==> r[i] == line[i]
    ensures forall i :: col <= i < |line| ==> r[i + 1] == line[i]
  {
    line[..col] + [ch] + line[col..]
  }

  /** `String::remove`: the character at `col` taken out of the line and returned. */
  function RemoveCharIn(line: string, col: nat): (r: (string, char))
    requires col < |line|
    ensures |r.0| + 1 == |line|
    ensures r.1 == line[col]
    ensures forall i :: 0 <= i < col ==> r.0[i] == line[i]
    ensures forall i :: col < i < |line| ==> r.0[i - 1] == line[i]
  {
    (line[..col] + line[col + 1..], line[col])
  }

  /** Putting a removed character back where it was restores the line. */
  lemma InsertAfterRemoveChar(line: string, col: nat)
    requires col < |line|
    ensures InsertCharIn(RemoveCharIn(line, col).0, col, line[col]) == line
  {
  }

  /** Removing a character just inserted gives back the line and that character. */
  lemma RemoveAfterInsertChar(line: string, col: nat, ch: char)
    requires col <= |line|
    ensures RemoveCharIn(InsertCharIn(line, col, ch), col) == (line, ch)
  {
    var r := RemoveCharIn(InsertCharIn(line, col, ch), col).0;
    assert forall i | 0 <= i < |line| :: r[i] == line[i] by {
      forall i | 0 <= i < |line| ensures r[i] == line[i] {
        if i >= col {
          assert r[(i + 1) - 1] == InsertCharIn(line, col, ch)[i + 1];
        }
      }
    }
    assert r == line;
  }

  /** `Vec::insert`: `s` becomes line `i`, the lines from `i` on move down by one. */
  function InsertLine(lines: seq<string>, i: nat, s: string): (r: seq<string>)
    requires i <= |lines|
    ensures |r| == |lines| + 1
    ensures r[i] == s
    ensures forall j :: 0 <= j < i ==> r[j] == lines[j]
    ensures forall j :: i <= j < |lines| ==> r[j + 1] == lines[j]
  {
    lines[..i] + [s] + lines[i..]
  }

  /** `Vec::remove`: line `i` taken out and returned, later lines move up by one. */
  function RemoveLine(lines: seq<string>, i: nat): (r: (seq<string>, string))
    requires i < |lines|
    ensures |r.0| + 1 == |lines|
    ensures r.1 == lines[i]
    ensures forall j :: 0 <= j < i ==> r.0[j] == lines[j]
    ensures forall j :: i < j < |lines| ==> r.0[j - 1] == lines[j]
  {
    (lines[..i] + lines[i + 1..], lines[i])
  }

  /** Re-inserting a removed line at its old index restores the document. */
  lemma InsertAfterRemoveLine(lines: seq<string>, i: nat)
    requires i < |lines|
    ensures InsertLine(RemoveLine(lines, i).0, i, lines[i]) == lines
  {
  }

  /** Removing a line just inserted gives back the document and that line. */
  lemma RemoveAfterInsertLine(lines: seq<string>, i: nat, s: string)
    requires i <= |lines|
    ensures RemoveLine(InsertLine(lines, i, s), i) == (lines, s)
  {
    var r := RemoveLine(InsertLine(lines, i, s), i).0;
    assert forall j | 0 <= j < |lines| :: r[j] == lines[j] by {
      forall j | 0 <= j < |lines| ensures r[j] == lines[j] {
        if j >= i {
          assert r[(j + 1) - 1] == InsertLine(lines, i, s)[j + 1];
        }
      }
    }
    assert r == lines;
  }

  /** `str::ends_with('\n')`. */
  predicate EndsWithNewline(s: string) {
    |s| > 0 && s[|s| - 1] == '\n'
  }
}
