/**
 * The line-file format (src/fileio.c). The file is a character sequence; whether
 * `fopen` succeeds is an input. Saving writes each line followed by a newline; opening
 * reads the file in `fgets` chunks of at most `MAX_LINE_LENGTH - 1` characters and
 * strips their line ends.
 */
module FileIO {
  import opened Wrappers
  import opened CLib
  import opened Buffer

  /** What `file_save` writes: every line followed by `'\n'`, the last one included. */
  function Serialize(ls: seq<seq<char>>): (r: seq<char>)
    ensures ls == [] <==> r == []
  {
    if ls == [] then [] else ls[0] + "\n" + Serialize(ls[1..])
  }

  /** Appending a line to the document appends that line and a newline to the file. */
  lemma {:induction false} SerializeSnoc(ls: seq<seq<char>>, line: seq<char>)
    ensures Serialize(ls + [line]) == Serialize(ls) + line + "\n"
  {
    if ls != [] {
      assert (ls + [line])[1..] == ls[1..] + [line];
      SerializeSnoc(ls[1..], line);
    }
  }

  /** The chunks successive `fgets(line, MAX_LINE_LENGTH, file)` calls return. */
  function Chunks(content: seq<char>): (r: seq<seq<char>>)
    ensures forall i :: 0 <= i < |r| ==> 1 <= |r[i]| <= LINE_CAPACITY
    decreases |content|
  {
    match Fgets(content, MAX_LINE_LENGTH)
    case None => []
    case Some((chunk, rest)) => [chunk] + Chunks(rest)
  }

  /**
   * The line `file_open` keeps of one chunk: the C string in it, without a final `'\n'`,
   * and cut at its second-to-last character when that one is `'\r'`.
   */
  function StripEol(chunk: seq<char>): (r: seq<char>)
    ensures NulFree(r) && |r| <= |chunk| && r == chunk[..|r|]
  {
    var s := CStr(chunk);
    var n := |s|;
    var withoutNewline := if n > 0 && s[n - 1] == '\n' then s[..n - 1] else s;
    if n > 1 && s[n - 2] == '\r' then s[..n - 2] else withoutNewline
  }

  /** The document `file_open` builds from the first `n` chunks. */
  function LoadedPrefix(chunks: seq<seq<char>>, n: nat): (r: seq<seq<char>>)
    requires n <= |chunks|
    ensures |r| == if n == 0 then 1 else n
  {
    if n == 0 then [""] else seq(n, i requires 0 <= i < n => StripEol(chunks[i]))
  }

  /** The document `file_open` builds from a file: at most `MAX_LINES` lines, never none. */
  function Loaded(content: seq<char>): (r: seq<seq<char>>)
    ensures 1 <= |r| <= MAX_LINES && AllLines(r)
  {
    var chunks := Chunks(content);
    LoadedPrefix(chunks, if |chunks| < MAX_LINES then |chunks| else MAX_LINES)
  }

  /** A line that does not fit in one chunk is read as several lines. */
  lemma LongLineIsSplit(content: seq<char>)
    requires |content| >= LINE_CAPACITY && '\n' !in content[..LINE_CAPACITY - 1]
    ensures Chunks(content) != [] && Chunks(content)[0] == content[..LINE_CAPACITY]
  {
    var n := FgetsLength(content, LINE_CAPACITY);
    assert n == LINE_CAPACITY by {
      assert forall i :: 0 <= i < LINE_CAPACITY - 1 ==> content[i] == content[..LINE_CAPACITY - 1][i];
    }
  }

  /**
   * A `'\r'` just before the last character of a chunk is cut off together with that
   * character, whether or not the last character is the `'\n'`.
   */
  lemma CarriageReturnCutsLastLine(chunk: seq<char>)
    requires NulFree(chunk) && |chunk| >= 2 && chunk[|chunk| - 2] == '\r'
    ensures StripEol(chunk) == chunk[..|chunk| - 2]
  {
    CStrOfNulFree(chunk);
  }

  /** A line of a CRLF file, with its `"\r\n"`, is stored as the line alone. */
  lemma StripEolOfCrLfLine(line: seq<char>)
    requires NulFree(line)
    ensures StripEol(line + "\r\n") == line
  {
    var chunk := line + "\r\n";
    assert NulFree(chunk) by {
      assert forall i :: 0 <= i < |line| ==> chunk[i] == line[i];
    }
    CarriageReturnCutsLastLine(chunk);
    assert chunk[..|chunk| - 2] == line;
  }

  /** A chunk that is a line and its newline yields that line, unless it ends in `'\r'`. */
  lemma StripEolOfLine(line: seq<char>)
    requires NulFree(line) && (line == [] || line[|line| - 1] != '\r')
    ensures StripEol(line + "\n") == line
  {
    CStrOfNulFree(line + "\n");
    var s := line + "\n";
    assert s[..|s| - 1] == line;
    if |s| > 1 {
      assert s[|s| - 2] == line[|line| - 1];
    }
  }

  /** The first chunk of what `file_save` wrote is the first line and its newline. */
  lemma FirstChunkOfSerialize(ls: seq<seq<char>>)
    requires ls != [] && '\n' !in ls[0] && |ls[0]| < LINE_CAPACITY
    ensures Fgets(Serialize(ls), MAX_LINE_LENGTH) == Some((ls[0] + "\n", Serialize(ls[1..])))
  {
    var content := Serialize(ls);
    assert content == ls[0] + "\n" + Serialize(ls[1..]);
    FgetsLengthOfLine(ls[0], Serialize(ls[1..]), MAX_LINE_LENGTH - 1);
    assert content[..|ls[0]| + 1] == ls[0] + "\n";
    assert content[|ls[0]| + 1..] == Serialize(ls[1..]);
  }

  /** One chunk is read off the front of the content. */
  lemma ChunksCons(content: seq<char>, chunk: seq<char>, rest: seq<char>)
    requires Fgets(content, MAX_LINE_LENGTH) == Some((chunk, rest))
    ensures Chunks(content) == [chunk] + Chunks(rest)
  {
  }

  /** Reading the next chunk of what is left moves one chunk along the whole file's chunks. */
  lemma ChunksStep(chunks: seq<seq<char>>, n: nat, rest: seq<char>)
    requires n <= |chunks| && Chunks(rest) == chunks[n..]
    ensures Fgets(rest, MAX_LINE_LENGTH).None? <==> n == |chunks|
    ensures Fgets(rest, MAX_LINE_LENGTH).Some? ==>
      chunks[n] == Fgets(rest, MAX_LINE_LENGTH).value.0 && Chunks(Fgets(rest, MAX_LINE_LENGTH).value.1) == chunks[n + 1..]
  {
    var next := Fgets(rest, MAX_LINE_LENGTH);
    if next.Some? {
      ChunksCons(rest, next.value.0, next.value.1);
    }
  }

  /** Lines that `file_save` wrote come back one chunk per line. */
  lemma {:induction false} ChunksOfSerialize(ls: seq<seq<char>>)
    requires forall i :: 0 <= i < |ls| ==> '\n' !in ls[i] && |ls[i]| < LINE_CAPACITY
    ensures |Chunks(Serialize(ls))| == |ls|
    ensures forall i :: 0 <= i < |ls| ==> Chunks(Serialize(ls))[i] == ls[i] + "\n"
  {
    if ls != [] {
      FirstChunkOfSerialize(ls);
      ChunksCons(Serialize(ls), ls[0] + "\n", Serialize(ls[1..]));
      ChunksOfSerialize(ls[1..]);
      LinesWithNewlines(Chunks(Serialize(ls)), ls, Chunks(Serialize(ls[1..])));
    }
  }

  /** The first line with its newline, then the rest with theirs: all lines with their newlines. */
  lemma LinesWithNewlines(c: seq<seq<char>>, ls: seq<seq<char>>, tail: seq<seq<char>>)
    requires ls != [] && c == [ls[0] + "\n"] + tail && |tail| == |ls| - 1
    requires forall i :: 0 <= i < |ls| - 1 ==> tail[i] == ls[1..][i] + "\n"
    ensures |c| == |ls| && forall i :: 0 <= i < |ls| ==> c[i] == ls[i] + "\n"
  {
    forall i | 1 <= i < |ls|
      ensures c[i] == ls[i] + "\n"
    {
      assert c[i] == tail[i - 1];
      assert ls[1..][i - 1] == ls[i];
    }
  }

  /**
   * Opening what `file_save` wrote gives back the document, when it has one to
   * `MAX_LINES` lines, each shorter than `MAX_LINE_LENGTH - 1` characters, without
   * `'\n'` and not ending in `'\r'`.
   */
  lemma OpenAfterSave(ls: seq<seq<char>>)
    requires 1 <= |ls| <= MAX_LINES
    requires forall i :: 0 <= i < |ls| ==>
      NulFree(ls[i]) && |ls[i]| < LINE_CAPACITY && '\n' !in ls[i] && (ls[i] == [] || ls[i][|ls[i]| - 1] != '\r')
    ensures Loaded(Serialize(ls)) == ls
  {
    ChunksOfSerialize(ls);
    var chunks := Chunks(Serialize(ls));
    var r := Loaded(Serialize(ls));
    assert |r| == |ls|;
    forall i | 0 <= i < |ls|
      ensures r[i] == ls[i]
    {
      StripEolOfLine(ls[i]);
    }
  }

  /** Reading one more chunk appends its stripped line (the first one replaces the empty line). */
  lemma LoadedPrefixStep(chunks: seq<seq<char>>, n: nat)
    requires n < |chunks| && |chunks[n]| <= LINE_CAPACITY
    ensures n == 0 ==> LoadedPrefix(chunks, 1) == [""][0 := StripEol(chunks[0])]
    ensures n > 0 ==> LoadedPrefix(chunks, n + 1) == Inserted(LoadedPrefix(chunks, n), n, StripEol(chunks[n]))
  {
    if n > 0 {
      LoadedPrefixSnoc(chunks, n);
      InsertedAtEnd(LoadedPrefix(chunks, n), n, StripEol(chunks[n]));
    }
  }

  /** Past the first chunk, one more chunk appends its stripped line. */
  lemma LoadedPrefixSnoc(chunks: seq<seq<char>>, n: nat)
    requires 0 < n < |chunks|
    ensures LoadedPrefix(chunks, n + 1) == LoadedPrefix(chunks, n) + [StripEol(chunks[n])]
  {
    var a := LoadedPrefix(chunks, n);
    var b := LoadedPrefix(chunks, n + 1);
    forall i | 0 <= i < n + 1
      ensures b[i] == (a + [StripEol(chunks[n])])[i]
    {
      if i < n {
        assert b[i] == StripEol(chunks[i]) == a[i];
      }
    }
  }

  /** Storing a line that fits right after the last line appends it. */
  lemma InsertedAtEnd(ls: seq<seq<char>>, index: nat, text: seq<char>)
    requires index == |ls| && |text| <= LINE_CAPACITY
    ensures Inserted(ls, index, text) == ls + [text]
  {
    assert ls[..index] == ls && ls[index..] == [];
  }

  /**
   * One round of the reading loop of `file_open`, after `n` chunks of `content` are
   * stored and `rest` is left: either reading stops and the document is all of
   * `Loaded(content)`, or the next chunk's line moves the document one line along.
   */
  lemma OpenStep(content: seq<char>, n: nat, rest: seq<char>, next: Option<(seq<char>, seq<char>)>)
    requires n <= |Chunks(content)| && n <= MAX_LINES && Chunks(rest) == Chunks(content)[n..]
    requires next == Fgets(rest, MAX_LINE_LENGTH)
    ensures next.None? || n >= MAX_LINES ==> LoadedPrefix(Chunks(content), n) == Loaded(content)
    ensures next.Some? && n < MAX_LINES ==>
      && n < |Chunks(content)|
      && Chunks(next.value.1) == Chunks(content)[n + 1..]
      && (n == 0 ==> LoadedPrefix(Chunks(content), 1) == LoadedPrefix(Chunks(content), 0)[0 := Truncate(StripEol(next.value.0), LINE_CAPACITY)])
      && (n > 0 ==> LoadedPrefix(Chunks(content), n + 1) == Inserted(LoadedPrefix(Chunks(content), n), n, StripEol(next.value.0)))
  {
    var chunks := Chunks(content);
    ChunksStep(chunks, n, rest);
    if next.Some? && n < MAX_LINES {
      LoadedPrefixStep(chunks, n);
    }
  }

  /** `file_save`: writes the document; on success records the file name and clears `modified`. */
  method Save(buffer: TextBuffer, filename: seq<char>, canOpen: bool) returns (ok: bool, written: seq<char>)
    requires buffer.Valid() && NulFree(filename)
    modifies buffer
    ensures buffer.Valid() && buffer.Lines() == old(buffer.Lines())
    ensures ok == canOpen
    ensures !ok ==> written == [] && unchanged(buffer)
    ensures ok ==> written == Serialize(old(buffer.Lines()))
    ensures ok ==> buffer.filename == Truncate(filename, FILENAME_CAPACITY) && !buffer.modified
  {
    written := [];
    if !canOpen {
      return false, written;
    }
    var i := 0;
    while i < buffer.lineCount
      invariant unchanged(buffer)
      invariant 0 <= i <= buffer.lineCount
      invariant written == Serialize(buffer.Lines()[..i])
    {
      var line := buffer.GetLine(i);
      if line.Some? {
        assert buffer.Lines()[..i + 1] == buffer.Lines()[..i] + [line.value];
        SerializeSnoc(buffer.Lines()[..i], line.value);
        written := written + line.value + "\n";
      }
      i := i + 1;
    }
    assert buffer.Lines()[..i] == buffer.Lines();
    buffer.filename := Truncate(filename, FILENAME_CAPACITY);
    buffer.modified := false;
    return true, written;
  }

  /**
   * The loop body of `file_open`: line 0 replaces the empty line `buffer_clear` left,
   * every later line is inserted after the lines read so far.
   */
  method StoreLine(buffer: TextBuffer, lineNum: nat, line: seq<char>)
    requires buffer.Valid() && NulFree(line) && lineNum < MAX_LINES
    requires |buffer.Lines()| == if lineNum == 0 then 1 else lineNum
    modifies buffer, buffer.lines
    ensures buffer.Valid() && buffer.lines == old(buffer.lines)
    ensures lineNum == 0 ==> buffer.Lines() == old(buffer.Lines())[0 := Truncate(line, LINE_CAPACITY)]
    ensures lineNum > 0 ==> buffer.Lines() == Inserted(old(buffer.Lines()), lineNum, line)
  {
    var stored;
    if lineNum == 0 {
      stored := buffer.SetLine(0, line);
    } else {
      stored := buffer.InsertLine(lineNum, line);
    }
  }

  /**
   * `file_open`: when the file opens, clears the document and fills it from the file's
   * chunks (the first replaces the empty line, the rest are appended), then records the
   * file name and clears `modified`. A failed open leaves everything untouched.
   */
  method Open(buffer: TextBuffer, filename: seq<char>, content: Option<seq<char>>) returns (ok: bool)
    requires buffer.Valid() && NulFree(filename)
    modifies buffer, buffer.lines
    ensures buffer.Valid() && buffer.lines == old(buffer.lines)
    ensures ok == content.Some?
    ensures !ok ==> unchanged(buffer) && unchanged(buffer.lines)
    ensures ok ==> buffer.Lines() == Loaded(content.value)
    ensures ok ==> buffer.filename == Truncate(filename, FILENAME_CAPACITY) && !buffer.modified
  {
    if content.None? {
      return false;
    }
    buffer.Clear();
    ghost var chunks := Chunks(content.value);
    var rest := content.value;
    var lineNum := 0;
    while true
      invariant buffer.Valid() && buffer.lines == old(buffer.lines)
      invariant 0 <= lineNum <= |chunks| && lineNum <= MAX_LINES
      invariant Chunks(rest) == chunks[lineNum..]
      invariant buffer.Lines() == LoadedPrefix(chunks, lineNum)
        decreases |rest|
    {
      var next := Fgets(rest, MAX_LINE_LENGTH);
      OpenStep(content.value, lineNum, rest, next);
      if next.None? || lineNum >= MAX_LINES {
        break;
      }
      var line := StripEol(next.value.0);
      StoreLine(buffer, lineNum, line);
      rest := next.value.1;
      lineNum := lineNum + 1;
    }
    buffer.filename := Truncate(filename, FILENAME_CAPACITY);
    buffer.modified := false;
    return true;
  }
}
