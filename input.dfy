/**
 * src/input.c: `input_handle_key`, which maps the conio key codes of one key press to one
 * editor action and clears `running` on Ctrl+Q, and `input_get_filename`, which reads the
 * name typed at the prompt into a caller's buffer.
 */
module Input {
  import opened Wrappers
  import opened CLib

  /** The size of the filename buffer `input_handle_key` passes (include/editor.h:6). */
  const MAX_FILENAME := 256

  /** The prefix code conio returns before the code of an extended key. */
  const EXTENDED_PREFIX := 224

  /** The editor operation a key press leads to. */
  datatype Action =
    | MoveCursor(dx: int, dy: int)
    | MoveToLineStart
    | MoveToLineEnd
    | PageUp
    | PageDown
    | DeleteChar
    | Backspace
    | NewLine
    | Save
    | Open(filename: seq<char>)
    | NewFile
    | ShowHelp
    | Quit
    | InsertChar(c: int)
    | NoAction

  // ---------------------------------------------------------------------------------
  // input_get_filename

  /** `strcspn(s, "\n")` on a C string: how many characters come before a newline or the NUL. */
  function NewlineSpan(s: seq<char>): (n: nat)
    ensures n <= |s|
    ensures forall i :: 0 <= i < n ==> s[i] != '\n' && s[i] != NUL
    ensures n < |s| ==> s[n] == '\n' || s[n] == NUL
  {
    if s == [] || s[0] == '\n' || s[0] == NUL then 0 else 1 + NewlineSpan(s[1..])
  }

  /** Any count that stops at the first newline or NUL is the span. */
  lemma NewlineSpanUnique(s: seq<char>, n: nat)
    requires n < |s| && (s[n] == '\n' || s[n] == NUL)
    requires forall i :: 0 <= i < n ==> s[i] != '\n' && s[i] != NUL
    ensures NewlineSpan(s) == n
  {
  }

  /**
   * The name `input_get_filename(buffer, size)` leaves in `buffer` when the user types
   * `typed`: what one `fgets` reads, up to the first newline or NUL.
   */
  function TypedFilename(typed: seq<char>, size: int): (name: seq<char>)
    requires typed != [] && size >= 2
    ensures |name| <= size - 1 && |name| <= |typed| && name == typed[..|name|]
    ensures '\n' !in name && NulFree(name)
  {
    var chunk := Fgets(typed, size).value.0;
    chunk[..NewlineSpan(chunk)]
  }

  /**
   * A typed line that fits the buffer and holds no NUL is the name exactly; pressing
   * Enter alone gives the empty name.
   */
  lemma TypedFilenameOfLine(line: seq<char>, rest: seq<char>, size: int)
    requires size >= 2 && |line| < size - 1
    requires '\n' !in line && NulFree(line)
    ensures TypedFilename(line + ['\n'] + rest, size) == line
  {
    var typed := line + ['\n'] + rest;
    assert typed[..|line|] == line;
    assert typed[|line|] == '\n';
    FgetsLengthOfLine(line, rest, size - 1);
    var chunk := Fgets(typed, size).value.0;
    assert chunk == line + ['\n'];
    NewlineSpanUnique(chunk, |line|);
  }

  /**
   * `input_get_filename(buffer, size)` with `typed` the user's input (the prompt output is
   * not modelled). `fgets` stores what it reads and a NUL, then the first newline or NUL
   * is overwritten with NUL. The result is whether the name is non-empty. The input must
   * not be at end of file: `fgets` would then leave the buffer unset.
   */
  method GetFilename(buffer: array<char>, size: int, typed: seq<char>) returns (ok: bool)
    requires 2 <= size <= buffer.Length
    requires typed != []
    modifies buffer
    ensures CStr(buffer[..]) == TypedFilename(typed, size)
    ensures ok <==> TypedFilename(typed, size) != []
  {
    var chunk := Fgets(typed, size).value.0;
    forall i | 0 <= i < |chunk| {
      buffer[i] := chunk[i];
    }
    buffer[|chunk|] := NUL;
    ghost var read := buffer[..];
    assert read[..|chunk|] == chunk;
    var cut := NewlineSpan(buffer[..]);
    assert cut == NewlineSpan(chunk) by {
      var n := NewlineSpan(chunk);
      assert n < |chunk| ==> read[n] == chunk[n];
      NewlineSpanUnique(read, n);
    }
    buffer[cut] := NUL;
    assert buffer[..] == read[cut := NUL];
    UpdateSplits(read, cut, NUL);
    CStrOfTerminated(read[..cut], read[cut + 1..]);
    ok := |CStr(buffer[..])| > 0;
  }

  /** Overwriting element `i` leaves what comes before and after it. */
  lemma UpdateSplits(s: seq<char>, i: int, c: char)
    requires 0 <= i < |s|
    ensures s[i := c] == s[..i] + [c] + s[i + 1..]
  {
  }

  // ---------------------------------------------------------------------------------
  // input_handle_key

  /** The second code of an extended key (after 224). */
  function ExtendedAction(code: int): Action {
    if code == 72 then MoveCursor(0, -1)
    else if code == 80 then MoveCursor(0, 1)
    else if code == 75 then MoveCursor(-1, 0)
    else if code == 77 then MoveCursor(1, 0)
    else if code == 71 then MoveToLineStart
    else if code == 79 then MoveToLineEnd
    else if code == 73 then PageUp
    else if code == 81 then PageDown
    else if code == 83 then DeleteChar
    else NoAction
  }

  /**
   * `input_handle_key`: `key` is the first `_getch` code, `next` the second (read only
   * after 224), `typed` what the user types at the filename prompt of Ctrl+O. The result
   * is the action taken and the new value of `*running`.
   */
  function HandleKey(key: int, next: int, typed: seq<char>, running: bool): (r: (Action, bool))
    requires key == 15 ==> typed != []
    ensures r.1 == (running && key != 17)
    ensures r.0 == Quit <==> key == 17
  {
    var action :=
      if key == EXTENDED_PREFIX then ExtendedAction(next)
      else if key == 8 then Backspace
      else if key == 13 then NewLine
      else if key == 19 then Save
      else if key == 15 then
        var name := TypedFilename(typed, MAX_FILENAME);
        if name != [] then Open(name) else NoAction
      else if key == 14 then NewFile
      else if key == 8 then ShowHelp
      else if key == 17 then Quit
      else if 32 <= key < 127 then InsertChar(key)
      else NoAction;
    (action, if key == 17 then false else running)
  }

  /**
   * The codes that produce each action: `(key, next)`, with `next` read only after 224.
   * Opening a file also needs a typed name, and no key shows help.
   */
  function KeyCodes(a: Action): (codes: Option<(int, int)>)
    ensures codes.Some? ==> codes.value.0 != 15
  {
    match a
    case MoveCursor(dx, dy) =>
      if (dx, dy) == (0, -1) then Some((224, 72))
      else if (dx, dy) == (0, 1) then Some((224, 80))
      else if (dx, dy) == (-1, 0) then Some((224, 75))
      else if (dx, dy) == (1, 0) then Some((224, 77))
      else None
    case MoveToLineStart => Some((224, 71))
    case MoveToLineEnd => Some((224, 79))
    case PageUp => Some((224, 73))
    case PageDown => Some((224, 81))
    case DeleteChar => Some((224, 83))
    case Backspace => Some((8, 0))
    case NewLine => Some((13, 0))
    case Save => Some((19, 0))
    case Open(_) => None
    case NewFile => Some((14, 0))
    case ShowHelp => None
    case Quit => Some((17, 0))
    case InsertChar(c) => if 32 <= c < 127 then Some((c, 0)) else None
    case NoAction => None
  }

  /** Pressing the codes of an action performs that action. */
  lemma HandleKeyRoundTrip(a: Action, typed: seq<char>, running: bool)
    requires KeyCodes(a).Some?
    ensures HandleKey(KeyCodes(a).value.0, KeyCodes(a).value.1, typed, running).0 == a
  {
  }

  /**
   * Every action the dispatcher takes, apart from opening a file, has its codes; and it
   * never shows help, since 8 is taken by backspace first.
   */
  lemma HandleKeyActionsHaveCodes(key: int, next: int, typed: seq<char>, running: bool)
    requires key == 15 ==> typed != []
    ensures var a := HandleKey(key, next, typed, running).0;
      a != ShowHelp && (!a.Open? && a != NoAction ==> KeyCodes(a).Some?)
  {
  }

  /**
   * Conversely, every action other than opening a file comes only from its own codes:
   * in particular 224 followed by a code outside the table does nothing.
   */
  lemma HandleKeyCodesOfAction(key: int, next: int, typed: seq<char>, running: bool)
    requires key == 15 ==> typed != []
    ensures var a := HandleKey(key, next, typed, running).0;
      !a.Open? && a != NoAction ==> KeyCodes(a) == Some((key, if key == 224 then next else 0))
  {
  }

  /** Ctrl+O opens exactly when a non-empty name was typed, and opens that name. */
  lemma OpenOnlyWithName(key: int, next: int, typed: seq<char>, running: bool)
    requires key == 15 ==> typed != []
    ensures HandleKey(key, next, typed, running).0.Open?
        <==> key == 15 && TypedFilename(typed, MAX_FILENAME) != []
    ensures HandleKey(key, next, typed, running).0.Open?
        ==> HandleKey(key, next, typed, running).0.filename == TypedFilename(typed, MAX_FILENAME)
  {
  }

  /**
   * Printable codes 32..126 insert themselves; every code outside the table (9, 27 and
   * 127 among them) does nothing.
   */
  lemma HandleKeyPrintable(key: int, next: int, typed: seq<char>, running: bool)
    requires key == 15 ==> typed != []
    ensures HandleKey(key, next, typed, running).0 == InsertChar(key) <==> 32 <= key < 127
    ensures key !in {224, 8, 13, 19, 15, 14, 17} && !(32 <= key < 127)
        ==> HandleKey(key, next, typed, running).0 == NoAction
  {
  }
}
