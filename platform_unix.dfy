/**
 * src/platform_unix.c: the `terminal_initialized` flag of `platform_init_terminal` and
 * `platform_cleanup_terminal`, the second Unix `platform_get_key` decoder, and the codes
 * of its `platform_set_color`.
 */
module PlatformUnix {
  import opened Wrappers
  import opened Keys

  const ESC_BYTE: Byte := 27
  const BRACKET: Byte := '[' as int
  const TILDE: Byte := '~' as int

  /** A call the flag logic makes on the terminal settings. */
  datatype TerminalCall =
    | Capture  // tcgetattr into original_termios
    | Restore  // tcsetattr from original_termios

  /**
   * The terminal state of src/platform_unix.c. `calls` records every capture and restore
   * in order. They alternate, starting with a capture, so a restore always writes back
   * settings captured earlier; `initialized` says whether the last call was a capture.
   */
  class Terminal {
    var initialized: bool
    var calls: seq<TerminalCall>

    ghost predicate Valid()
      reads this
    {
      && (forall i :: 0 <= i < |calls| ==> calls[i] == (if i % 2 == 0 then Capture else Restore))
      && initialized == (|calls| % 2 == 1)
    }

    /** The static initialiser: not initialised, nothing captured. */
    constructor ()
      ensures Valid() && !initialized && calls == []
    {
      initialized := false;
      calls := [];
    }

    /** `platform_init_terminal`: captures the settings only when not yet initialised. */
    method Init()
      requires Valid()
      modifies this
      ensures Valid() && initialized
      ensures calls == old(calls) + (if old(initialized) then [] else [Capture])
    {
      if !initialized {
        calls := calls + [Capture];
        initialized := true;
      }
    }

    /** `platform_cleanup_terminal`: restores only when initialised, so a later init captures again. */
    method Cleanup()
      requires Valid()
      modifies this
      ensures Valid() && !initialized
      ensures calls == old(calls) + (if old(initialized) then [Restore] else [])
    {
      if initialized {
        calls := calls + [Restore];
        initialized := false;
      }
    }
  }

  /** `ESC [ d ~` in this decoder: '3', '5', '6', '7' and '8' name a key. */
  function TildeKey(d: Byte): (k: Option<int>)
    ensures k.Some? <==> d in {'3' as int, '5' as int, '6' as int, '7' as int, '8' as int}
  {
    if d == '3' as int then Some(KEY_DELETE)
    else if d == '5' as int then Some(KEY_PAGE_UP)
    else if d == '6' as int then Some(KEY_PAGE_DOWN)
    else if d == '7' as int then Some(KEY_HOME)
    else if d == '8' as int then Some(KEY_END)
    else None
  }

  /** '1' .. '8': the second bytes after which this decoder reads a third. */
  predicate IsTildeDigit(b: Byte) {
    '1' as int <= b <= '8' as int
  }

  /**
   * `platform_get_key` of src/platform_unix.c. `hasEvent` is whether the event pointer is
   * non-null and `prior` is what the event held before the call. `input` is what the
   * terminal delivers from now on, one byte per `read`; at its end `read` returns 0. A
   * failed first read returns 0 and leaves the event as it was.
   */
  function GetKey(hasEvent: bool, prior: KeyEvent, input: seq<Byte>): (p: Poll)
    ensures p.returned <==> hasEvent && input != []
    ensures !p.returned ==> p == Poll(false, prior, 0)
    ensures p.returned ==> !p.event.ctrl && !p.event.alt && !p.event.shift
    ensures p.returned ==> 1 <= p.consumed <= |input| && p.consumed <= 4
  {
    if !hasEvent || input == [] then Poll(false, prior, 0)
    else if input[0] != ESC_BYTE then Poll(true, Plain(SignedChar(input[0])), 1)
    else if |input| < 2 || input[1] != BRACKET then Poll(true, Plain(KEY_ESC), if |input| < 2 then 1 else 2)
    else if |input| < 3 then Poll(true, Plain(KEY_ESC), 2)
    else if CsiLetterKey(input[2]).Some? then Poll(true, Plain(CsiLetterKey(input[2]).value), 3)
    else if !IsTildeDigit(input[2]) || |input| < 4 then Poll(true, Plain(KEY_ESC), 3)
    else if input[3] == TILDE && TildeKey(input[2]).Some? then Poll(true, Plain(TildeKey(input[2]).value), 4)
    else Poll(true, Plain(KEY_ESC), 4)
  }

  /** The escape sequences this decoder turns into a key other than ESC. */
  predicate RecognisedEscape(input: seq<Byte>) {
    |input| >= 3 && input[0] == ESC_BYTE && input[1] == BRACKET &&
    (CsiLetterKey(input[2]).Some? || (|input| >= 4 && input[3] == TILDE && TildeKey(input[2]).Some?))
  }

  /**
   * The bytes a terminal sends for each key this decoder can report (Home and End have a
   * second form, `ESC [ 7 ~` and `ESC [ 8 ~`); `None` for any other code.
   */
  function Sequence(key: int): (s: Option<seq<Byte>>)
    ensures s.Some? ==> 1 <= |s.value| <= 4
  {
    if CsiLetter(key).Some? then Some([ESC_BYTE, BRACKET, CsiLetter(key).value])
    else if key == KEY_DELETE then Some([ESC_BYTE, BRACKET, '3' as int, TILDE])
    else if key == KEY_PAGE_UP then Some([ESC_BYTE, BRACKET, '5' as int, TILDE])
    else if key == KEY_PAGE_DOWN then Some([ESC_BYTE, BRACKET, '6' as int, TILDE])
    else if 0 <= key < 128 then Some([key])
    else if -128 <= key < 0 then Some([key + 256])
    else None
  }

  /**
   * Decoding what a terminal sends for a key gives that key back, having read exactly
   * that sequence. A lone ESC is recognised only at the end of the input.
   */
  lemma RoundTrip(prior: KeyEvent, key: int, rest: seq<Byte>)
    requires Sequence(key).Some?
    requires key == KEY_ESC ==> rest == []
    ensures GetKey(true, prior, Sequence(key).value + rest)
         == Poll(true, Plain(key), |Sequence(key).value|)
  {
    var s := Sequence(key).value;
    var input := s + rest;
    assert input[0] == s[0];
    if |s| >= 3 {
      assert input[1] == s[1] && input[2] == s[2];
    }
    if |s| == 4 {
      assert input[3] == s[3];
    }
  }

  /** Every key this decoder reports has a sequence in `Sequence`. */
  lemma KeysHaveSequences(prior: KeyEvent, input: seq<Byte>)
    requires input != []
    ensures Sequence(GetKey(true, prior, input).event.key).Some?
  {
  }

  /** Home and End are also read from their `ESC [ 7 ~` and `ESC [ 8 ~` forms. */
  lemma HomeEndTildeForms(prior: KeyEvent, rest: seq<Byte>)
    ensures GetKey(true, prior, [ESC_BYTE, BRACKET, '7' as int, TILDE] + rest).event.key == KEY_HOME
    ensures GetKey(true, prior, [ESC_BYTE, BRACKET, '8' as int, TILDE] + rest).event.key == KEY_END
  {
    var home := [ESC_BYTE, BRACKET, '7' as int, TILDE] + rest;
    var end := [ESC_BYTE, BRACKET, '8' as int, TILDE] + rest;
    assert home[..4] == [ESC_BYTE, BRACKET, '7' as int, TILDE];
    assert end[..4] == [ESC_BYTE, BRACKET, '8' as int, TILDE];
  }

  /**
   * ESC comes back as its own key exactly when what follows is not a recognised sequence
   * (including `ESC [ 1 ~`, `ESC [ 2 ~` and `ESC [ 4 ~`); every other byte, 127 included,
   * comes back as its own signed `char` value.
   */
  lemma EscapeFallback(prior: KeyEvent, input: seq<Byte>)
    requires input != []
    ensures GetKey(true, prior, input).event.key == KEY_ESC
        <==> input[0] == ESC_BYTE && !RecognisedEscape(input)
    ensures input[0] != ESC_BYTE ==> GetKey(true, prior, input).event.key == SignedChar(input[0])
  {
    if input[0] != ESC_BYTE {
      assert input[0] == 27 <==> SignedChar(input[0]) == 27;
    }
  }

  /** The two codes `platform_set_color` writes, `ESC [ fg ; bg m`, as written. */
  function ColorCodes(foreground: int, background: int): (codes: (int, int))
    ensures 30 <= codes.0 <= 37
    ensures 40 <= codes.1 <= 152 && (codes.1 - 40) % 16 == 0
  {
    // `x & 7` on a two's-complement int is the Euclidean remainder by 8
    (30 + foreground % 8, 40 + (background % 8) * 16)
  }

  /**
   * As written, the background is shifted left by four as for a console attribute, so
   * every colour but black gets a code outside the SGR background range 40-47: red (1)
   * gives 56.
   */
  lemma BackgroundCodeOutOfRange(background: int)
    requires background % 8 != 0
    ensures !(40 <= ColorCodes(0, background).1 <= 47)
  {
  }

  /** White on red, as written, asks for codes 37 and 56. */
  lemma RedBackgroundAsWritten()
    ensures ColorCodes(7, 1) == (37, 56)
  {
  }

  /** Corrected codes: the background index added to 40 without the shift. */
  function ColorCodesCorrected(foreground: int, background: int): (codes: (int, int))
    ensures 30 <= codes.0 <= 37 && 40 <= codes.1 <= 47
    ensures codes.0 - 30 == foreground % 8 && codes.1 - 40 == background % 8
  {
    (30 + foreground % 8, 40 + background % 8)
  }
}
