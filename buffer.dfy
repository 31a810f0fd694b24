/**
 * The document (src/buffer.c): a table of `MAX_LINES` line slots whose first `lineCount`
 * are in use. Each line is a C string of at most `MAX_LINE_LENGTH - 1` characters.
 * Every operation checks its bounds, reports success as a boolean and shifts the
 * table in place.
 */
module Buffer {
  import opened Wrappers
  import opened CLib

  const MAX_LINES: nat := 10000
  const MAX_LINE_LENGTH: nat := 1024
  /** Characters a line holds before its terminating NUL. */
  const LINE_CAPACITY: nat := MAX_LINE_LENGTH - 1
  /** Characters `filename[256]` holds before its terminating NUL. */
  const FILENAME_CAPACITY: nat := 255

  predicate IsLine(s: seq<char>) {
    NulFree(s) && |s| <= LINE_CAPACITY
  }

  predicate AllLines(ls: seq<seq<char>>) {
    forall i :: 0 <= i < |ls| ==> IsLine(ls[i])
  }

  // The operations on the sequence of lines in use.

  /** The lines after `text` is stored at `index`. */
  function Inserted(ls: seq<seq<char>>, index: nat, text: seq<char>): seq<seq<char>>
    requires index <= |ls|
  {
    ls[..index] + [Truncate(text, LINE_CAPACITY)] + ls[index..]
  }

  /** The lines after line `index` is removed. */
  function Removed(ls: seq<seq<char>>, index: nat): seq<seq<char>>
    requires index < |ls|
  {
    ls[..index] + ls[index + 1..]
  }

  /** Where a split of `line` at `position` cuts: never past the end of the line. */
  function SplitPoint(line: seq<char>, position: nat): (p: nat)
    ensures p <= |line|
    ensures position <= |line| ==> p == position
    ensures position > |line| ==> p == |line|
  {
    if position > |line| then |line| else position
  }

  /** The lines after line `i` is split at `position`. */
  function Split(ls: seq<seq<char>>, i: nat, position: nat): seq<seq<char>>
    requires i < |ls|
  {
    var p := SplitPoint(ls[i], position);
    ls[..i] + [ls[i][..p], ls[i][p..]] + ls[i + 1..]
  }

  /** A merge of line `i` with its successor is allowed: both exist and the result fits. */
  predicate CanMerge(ls: seq<seq<char>>, i: int) {
    0 <= i < |ls| - 1 && |ls[i]| + |ls[i + 1]| < MAX_LINE_LENGTH
  }

  /** The lines after line `i + 1` is appended to line `i` and removed. */
  function Merged(ls: seq<seq<char>>, i: nat): seq<seq<char>>
    requires i < |ls| - 1
  {
    ls[..i] + [ls[i] + ls[i + 1]] + ls[i + 2..]
  }

  /** An insert keeps the lines before `index`, stores the truncated text there and shifts the rest up by one. */
  lemma InsertedShape(ls: seq<seq<char>>, index: nat, text: seq<char>)
    requires index <= |ls|
    ensures var r := Inserted(ls, index, text);
      && |r| == |ls| + 1
      && r[index] == Truncate(text, LINE_CAPACITY)
      && (forall j :: 0 <= j < index ==> r[j] == ls[j])
      && (forall j :: index < j < |r| ==> r[j] == ls[j - 1])
  {
  }

  /** A removal keeps the lines before `index` and shifts the rest down by one. */
  lemma RemovedShape(ls: seq<seq<char>>, index: nat)
    requires index < |ls|
    ensures var r := Removed(ls, index);
      && |r| == |ls| - 1
      && (forall j :: 0 <= j < index ==> r[j] == ls[j])
      && (forall j :: index <= j < |r| ==> r[j] == ls[j + 1])
  {
  }

  /** Conversely, lines of that shape are the insert. */
  lemma InsertedFromShape(ls: seq<seq<char>>, index: nat, text: seq<char>, r: seq<seq<char>>)
    requires index <= |ls| && |r| == |ls| + 1
    requires r[index] == Truncate(text, LINE_CAPACITY)
    requires forall j :: 0 <= j < index ==> r[j] == ls[j]
    requires forall j :: index < j < |r| ==> r[j] == ls[j - 1]
    ensures r == Inserted(ls, index, text)
  {
    InsertedShape(ls, index, text);
  }

  /** Conversely, lines of that shape are the removal. */
  lemma RemovedFromShape(ls: seq<seq<char>>, index: nat, r: seq<seq<char>>)
    requires index < |ls| && |r| == |ls| - 1
    requires forall j :: 0 <= j < index ==> r[j] == ls[j]
    requires forall j :: index <= j < |r| ==> r[j] == ls[j + 1]
    ensures r == Removed(ls, index)
  {
    RemovedShape(ls, index);
  }

  /** Removing what was just inserted gives back the original lines. */
  lemma InsertThenRemove(ls: seq<seq<char>>, index: nat, text: seq<char>)
    requires index <= |ls|
    ensures Removed(Inserted(ls, index, text), index) == ls
  {
    var r := Inserted(ls, index, text);
    assert r[..index] == ls[..index];
    assert r[index + 1..] == ls[index..];
  }

  /**
   * Splitting a line and merging it back restores the document: the two halves of a line
   * of at most `MAX_LINE_LENGTH - 1` characters always fit together again.
   */
  lemma SplitThenMerge(ls: seq<seq<char>>, i: nat, position: nat)
    requires AllLines(ls) && i < |ls|
    ensures |Split(ls, i, position)| == |ls| + 1
    ensures CanMerge(Split(ls, i, position), i)
    ensures Merged(Split(ls, i, position), i) == ls
  {
    var p := SplitPoint(ls[i], position);
    var s := Split(ls, i, position);
    assert s[i] == ls[i][..p] && s[i + 1] == ls[i][p..];
    assert IsLine(ls[i]);
    assert s[..i] == ls[..i];
    assert s[i + 2..] == ls[i + 1..];
    assert ls[i][..p] + ls[i][p..] == ls[i];
    assert ls == ls[..i] + [ls[i]] + ls[i + 1..];
  }

  /** Merging two lines and splitting at the join restores the document. */
  lemma MergeThenSplit(ls: seq<seq<char>>, i: nat)
    requires CanMerge(ls, i)
    ensures Split(Merged(ls, i), i, |ls[i]|) == ls
  {
    var m := Merged(ls, i);
    assert m[i] == ls[i] + ls[i + 1];
    assert m[i][..|ls[i]|] == ls[i] && m[i][|ls[i]|..] == ls[i + 1];
    assert m[..i] == ls[..i];
    assert m[i + 1..] == ls[i + 2..];
    assert ls == ls[..i] + [ls[i], ls[i + 1]] + ls[i + 2..];
  }

  /** Inserting keeps each line a C string that fits its slot. */
  lemma InsertedKeepsLines(ls: seq<seq<char>>, i: nat, text: seq<char>)
    requires AllLines(ls) && NulFree(text) && i <= |ls|
    ensures AllLines(Inserted(ls, i, text))
  {
  }

  /** Deleting keeps each line a C string that fits its slot. */
  lemma RemovedKeepsLines(ls: seq<seq<char>>, i: nat)
    requires AllLines(ls) && i < |ls|
    ensures AllLines(Removed(ls, i))
  {
  }

  /** Splitting keeps each line a C string that fits its slot. */
  lemma SplitKeepsLines(ls: seq<seq<char>>, i: nat, position: nat)
    requires AllLines(ls) && i < |ls|
    ensures AllLines(Split(ls, i, position))
  {
    var p := SplitPoint(ls[i], position);
    assert IsLine(ls[i]);
    assert IsLine(ls[i][..p]) && IsLine(ls[i][p..]);
  }

  /** Merging keeps each line a C string that fits its slot. */
  lemma MergedKeepsLines(ls: seq<seq<char>>, i: nat)
    requires AllLines(ls) && CanMerge(ls, i)
    ensures AllLines(Merged(ls, i))
  {
    assert IsLine(ls[i]) && IsLine(ls[i + 1]);
    assert IsLine(ls[i] + ls[i + 1]);
  }

  /** The `TextBuffer` record, updated in place by the operations of src/buffer.c. */
  class TextBuffer {
    var lines: array<seq<char>>
    var lineCount: int
    var maxLines: int
    var filename: seq<char>
    var modified: bool

    ghost predicate Valid()
      reads this, lines
    {
      && maxLines == MAX_LINES
      && lines.Length == maxLines
      && 0 <= lineCount <= maxLines
      && AllLines(lines[..lineCount])
      && NulFree(filename) && |filename| <= FILENAME_CAPACITY
    }

    /** The document: the lines in use, in order. */
    ghost function Lines(): seq<seq<char>>
      reads this, lines
      requires Valid()
    {
      lines[..lineCount]
    }

    /** `buffer_create`: one empty line; `modified` ends up set by the insert of that line. */
    constructor ()
      ensures Valid() && fresh(lines)
      ensures Lines() == [""] && filename == [] && modified
    {
      maxLines := MAX_LINES;
      lines := new seq<char>[MAX_LINES];
      lineCount := 0;
      filename := [];
      modified := false;
      new;
      var ok := InsertLine(0, "");
    }

    /** `buffer_insert_line`. */
    method InsertLine(index: int, text: seq<char>) returns (ok: bool)
      requires Valid() && NulFree(text)
      modifies this, lines
      ensures Valid() && lines == old(lines) && maxLines == old(maxLines)
      ensures ok <==> 0 <= index <= old(lineCount) && old(lineCount) < maxLines
      ensures ok ==> Lines() == Inserted(old(Lines()), index, text) && modified
      ensures ok ==> filename == old(filename)
      ensures !ok ==> unchanged(this) && unchanged(lines)
    {
      if index < 0 || index > lineCount || lineCount >= maxLines {
        return false;
      }
      ghost var before := Lines();
      var i := lineCount;
      while i > index
        invariant index <= i <= lineCount
        invariant forall k :: 0 <= k < i ==> lines[k] == before[k]
        invariant forall k :: i < k <= lineCount ==> lines[k] == before[k - 1]
        modifies lines
      {
        lines[i] := lines[i - 1];
        i := i - 1;
      }
      lines[index] := Truncate(text, LINE_CAPACITY);
      lineCount := lineCount + 1;
      modified := true;
      InsertedFromShape(before, index, text, lines[..lineCount]);
      InsertedKeepsLines(before, index, text);
      return true;
    }

    /** `buffer_delete_line`: nothing stops the document from reaching zero lines. */
    method DeleteLine(index: int) returns (ok: bool)
      requires Valid()
      modifies this, lines
      ensures Valid() && lines == old(lines) && maxLines == old(maxLines)
      ensures ok <==> 0 <= index < old(lineCount)
      ensures ok ==> Lines() == Removed(old(Lines()), index) && modified
      ensures ok ==> filename == old(filename)
      ensures !ok ==> unchanged(this) && unchanged(lines)
    {
      if index < 0 || index >= lineCount {
        return false;
      }
      ghost var before := Lines();
      var i := index;
      while i < lineCount - 1
        invariant index <= i <= lineCount - 1
        invariant forall k :: 0 <= k < index ==> lines[k] == before[k]
        invariant forall k :: index <= k < i ==> lines[k] == before[k + 1]
        invariant forall k :: i <= k < lineCount ==> lines[k] == before[k]
        modifies lines
      {
        lines[i] := lines[i + 1];
        i := i + 1;
      }
      lineCount := lineCount - 1;
      modified := true;
      RemovedFromShape(before, index, lines[..lineCount]);
      RemovedKeepsLines(before, index);
      return true;
    }

    /**
     * `buffer_split_line`. A full table makes the insert of the second half fail: the line
     * has then already been cut at the split point and the second half is lost.
     */
    method SplitLine(lineNum: int, position: int) returns (ok: bool)
      requires Valid() && position >= 0
      modifies this, lines
      ensures Valid() && lines == old(lines) && maxLines == old(maxLines)
      ensures filename == old(filename)
      ensures ok <==> 0 <= lineNum < old(lineCount) && old(lineCount) < maxLines
      ensures ok ==> Lines() == Split(old(Lines()), lineNum, position) && modified
      ensures !(0 <= lineNum < old(lineCount)) ==> unchanged(this) && unchanged(lines)
      ensures 0 <= lineNum < old(lineCount) && !ok ==>
        && Lines() == old(Lines())[lineNum := old(Lines())[lineNum][..SplitPoint(old(Lines())[lineNum], position)]]
        && modified == old(modified)
    {
      if lineNum < 0 || lineNum >= lineCount {
        return false;
      }
      ghost var before := Lines();
      var line := lines[lineNum];
      var p := SplitPoint(line, position);
      var secondPart := line[p..];
      assert IsLine(before[lineNum]);
      lines[lineNum] := line[..p];
      assert Lines() == before[lineNum := line[..p]];
      ok := InsertLine(lineNum + 1, secondPart);
      if ok {
        calc {
          Lines();
          Inserted(before[lineNum := line[..p]], lineNum + 1, secondPart);
          { assert Truncate(secondPart, LINE_CAPACITY) == secondPart; }
          before[lineNum := line[..p]][..lineNum + 1] + [secondPart] + before[lineNum + 1..];
          { assert before[lineNum := line[..p]][..lineNum + 1] == before[..lineNum] + [line[..p]]; }
          Split(before, lineNum, position);
        }
      }
    }

    /** `buffer_merge_line`. */
    method MergeLine(lineNum: int) returns (ok: bool)
      requires Valid()
      modifies this, lines
      ensures Valid() && lines == old(lines) && maxLines == old(maxLines)
      ensures filename == old(filename)
      ensures ok <==> CanMerge(old(Lines()), lineNum)
      ensures ok ==> Lines() == Merged(old(Lines()), lineNum) && modified
      ensures !ok ==> unchanged(this) && unchanged(lines)
    {
      if lineNum < 0 || lineNum >= lineCount - 1 {
        return false;
      }
      var line1 := lines[lineNum];
      var line2 := lines[lineNum + 1];
      if |line1| + |line2| >= MAX_LINE_LENGTH {
        return false;
      }
      ghost var before := Lines();
      MergedKeepsLines(before, lineNum);
      lines[lineNum] := line1 + line2;
      assert Lines() == before[lineNum := line1 + line2];
      var deleted := DeleteLine(lineNum + 1);
      assert Lines() == Removed(before[lineNum := line1 + line2], lineNum + 1);
      assert Lines() == Merged(before, lineNum);
      return true;
    }

    /** `buffer_clear`: one empty line, no file name, not modified. */
    method Clear()
      requires Valid()
      modifies this, lines
      ensures Valid() && lines == old(lines) && maxLines == old(maxLines)
      ensures Lines() == [""] && filename == [] && !modified
    {
      lineCount := 0;
      var ok := InsertLine(0, "");
      filename := [];
      modified := false;
    }

    /** `buffer_get_line`: the line, or NULL outside the lines in use. */
    function GetLine(index: int): (r: Option<seq<char>>)
      reads this, lines
      requires Valid()
      ensures r.Some? <==> 0 <= index < lineCount
      ensures r.Some? ==> r.value == Lines()[index] && IsLine(r.value)
    {
      if index < 0 || index >= lineCount then None else Some(lines[index])
    }

    /** `buffer_set_line`: replaces one line, cut to the line capacity. */
    method SetLine(index: int, text: seq<char>) returns (ok: bool)
      requires Valid() && NulFree(text)
      modifies this, lines
      ensures Valid() && lines == old(lines) && maxLines == old(maxLines)
      ensures filename == old(filename)
      ensures ok <==> 0 <= index < old(lineCount)
      ensures ok ==> Lines() == old(Lines())[index := Truncate(text, LINE_CAPACITY)] && modified
      ensures !ok ==> unchanged(this) && unchanged(lines)
    {
      if index < 0 || index >= lineCount {
        return false;
      }
      lines[index] := Truncate(text, LINE_CAPACITY);
      modified := true;
      return true;
    }
  }
}
