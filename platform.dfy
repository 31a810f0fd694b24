/**
 * src/platform.c: the two branches of `platform_get_key` (the Unix byte decoder and the
 * Windows console-record loop), the `raw_mode_enabled` flag of `platform_set_raw_mode`
 * and `platform_cleanup_terminal`, and the foreground code of `platform_set_color`.
 */
module Platform {
  import opened Wrappers
  import opened CLib
  import opened Keys

  const ESC_BYTE: Byte := 27
  const BRACKET: Byte := '[' as int
  const TILDE: Byte := '~' as int
  const DEL_BYTE: Byte := 127

  predicate IsDigitByte(b: Byte) {
    '0' as int <= b <= '9' as int
  }

  /** `ESC [ d ~` in this decoder: only '3', '5' and '6' name a key. */
  function TildeKey(d: Byte): (k: Option<int>)
    ensures k.Some? <==> d in {'3' as int, '5' as int, '6' as int}
  {
    if d == '3' as int then Some(KEY_DELETE)
    else if d == '5' as int then Some(KEY_PAGE_UP)
    else if d == '6' as int then Some(KEY_PAGE_DOWN)
    else None
  }

  /**
   * The Unix branch of `platform_get_key`. `input` is what the terminal delivers from now
   * on: the first `read` fails when it is empty, `select` sees a follow-up byte when one is
   * there, and each later `read` returns as many of the asked-for bytes as remain. The
   * event starts zeroed and no modifier is ever set.
   */
  function GetKeyUnix(input: seq<Byte>): (p: Poll)
    ensures p.returned <==> input != []
    ensures !p.returned ==> p == Poll(false, NoEvent, 0)
    ensures !p.event.ctrl && !p.event.alt && !p.event.shift
    ensures p.returned ==> 1 <= p.consumed <= |input| && p.consumed <= 4
  {
    if input == [] then Poll(false, NoEvent, 0)
    else if input[0] == ESC_BYTE then
      if |input| < 3 then
        // no follow-up byte before the timeout, or the two-byte read came back short
        Poll(true, Plain(KEY_ESC), |input|)
      else if input[1] == BRACKET && CsiLetterKey(input[2]).Some? then
        Poll(true, Plain(CsiLetterKey(input[2]).value), 3)
      else if input[1] == BRACKET && IsDigitByte(input[2]) && |input| > 3 then
        if input[3] == TILDE && TildeKey(input[2]).Some? then
          Poll(true, Plain(TildeKey(input[2]).value), 4)
        else
          Poll(true, Plain(KEY_ESC), 4)
      else
        Poll(true, Plain(KEY_ESC), 3)
    else if input[0] == DEL_BYTE || input[0] == KEY_BACKSPACE then
      Poll(true, Plain(KEY_BACKSPACE), 1)
    else
      Poll(true, Plain(SignedChar(input[0])), 1)
  }

  /** Both DEL (127) and Ctrl+H (8) read as Backspace, one byte each. */
  lemma UnixBackspaceBytes(b: Byte, rest: seq<Byte>)
    requires b == DEL_BYTE || b == KEY_BACKSPACE as Byte
    ensures GetKeyUnix([b] + rest) == Poll(true, Plain(KEY_BACKSPACE), 1)
  {
  }

  /** The escape sequences this decoder turns into a key other than ESC. */
  predicate RecognisedEscape(input: seq<Byte>) {
    |input| >= 3 && input[0] == ESC_BYTE && input[1] == BRACKET &&
    (CsiLetterKey(input[2]).Some? || (|input| >= 4 && input[3] == TILDE && TildeKey(input[2]).Some?))
  }

  /**
   * The bytes a terminal sends for each key this decoder can report; `None` for every
   * other code (127, for one, always comes back as backspace).
   */
  function UnixSequence(key: int): (s: Option<seq<Byte>>)
    ensures s.Some? ==> 1 <= |s.value| <= 4
  {
    if CsiLetter(key).Some? then Some([ESC_BYTE, BRACKET, CsiLetter(key).value])
    else if key == KEY_DELETE then Some([ESC_BYTE, BRACKET, '3' as int, TILDE])
    else if key == KEY_PAGE_UP then Some([ESC_BYTE, BRACKET, '5' as int, TILDE])
    else if key == KEY_PAGE_DOWN then Some([ESC_BYTE, BRACKET, '6' as int, TILDE])
    else if key == KEY_BACKSPACE then Some([DEL_BYTE])
    else if 0 <= key < 127 then Some([key])
    else if -128 <= key < 0 then Some([key + 256])
    else None
  }

  /**
   * Decoding what a terminal sends for a key gives that key back, having read exactly
   * that sequence; whatever follows is left for the next call. A lone ESC is recognised
   * only when nothing follows it before the timeout.
   */
  lemma UnixRoundTrip(key: int, rest: seq<Byte>)
    requires UnixSequence(key).Some?
    requires key == KEY_ESC ==> rest == []
    ensures GetKeyUnix(UnixSequence(key).value + rest)
         == Poll(true, Plain(key), |UnixSequence(key).value|)
  {
    var s := UnixSequence(key).value;
    var input := s + rest;
    assert input[0] == s[0];
    if |s| >= 3 {
      assert input[1] == s[1] && input[2] == s[2];
    }
    if |s| == 4 {
      assert input[3] == s[3];
    }
  }

  /** Every key the decoder reports has a sequence: the codes of `UnixSequence` are all of them. */
  lemma UnixKeysHaveSequences(input: seq<Byte>)
    requires input != []
    ensures UnixSequence(GetKeyUnix(input).event.key).Some?
  {
  }

  /**
   * ESC comes back as its own key exactly when what follows is not a recognised
   * sequence: no follow-up byte, a short read, a byte other than '[', or an unknown
   * tail. The bytes read after it are lost either way.
   */
  lemma EscapeFallback(input: seq<Byte>)
    requires input != []
    ensures GetKeyUnix(input).event.key == KEY_ESC
        <==> input[0] == ESC_BYTE && !RecognisedEscape(input)
    ensures input[0] == ESC_BYTE && !RecognisedEscape(input)
        ==> GetKeyUnix(input).consumed == if |input| < 3 then |input|
                                          else if input[1] == BRACKET && IsDigitByte(input[2]) && |input| > 3 then 4
                                          else 3
  {
    if input[0] != ESC_BYTE {
      assert input[0] == 27 <==> SignedChar(input[0]) == 27;
    }
  }

  // ---------------------------------------------------------------------------------
  // The Windows branch: a loop over console input records.

  const KEY_EVENT := 0x0001
  const VK_UP := 0x26
  const VK_DOWN := 0x28
  const VK_LEFT := 0x25
  const VK_RIGHT := 0x27
  const VK_HOME := 0x24
  const VK_END := 0x23
  const VK_PRIOR := 0x21
  const VK_NEXT := 0x22
  const VK_DELETE := 0x2E
  const VK_BACK := 0x08
  const LEFT_CTRL_PRESSED: bv32 := 0x0008
  const RIGHT_CTRL_PRESSED: bv32 := 0x0004
  const LEFT_ALT_PRESSED: bv32 := 0x0002
  const RIGHT_ALT_PRESSED: bv32 := 0x0001
  const SHIFT_PRESSED: bv32 := 0x0010

  /** The fields of an `INPUT_RECORD` the decoder reads. */
  datatype InputRecord = InputRecord(
    eventType: int,
    keyDown: bool,
    virtualKeyCode: int,
    asciiChar: Byte,
    controlKeyState: bv32)

  /** Virtual keys '0'..'9' and 'A'..'Z', for which the record's character is used instead. */
  predicate IsCharacterKey(vk: int) {
    0x30 <= vk <= 0x5A
  }

  /** A record that ends the loop: a key press that is not a character key without a character. */
  predicate Delivers(r: InputRecord) {
    r.eventType == KEY_EVENT && r.keyDown && !(IsCharacterKey(r.virtualKeyCode) && r.asciiChar == 0)
  }

  /** The switch that maps virtual-key codes to the cross-platform codes. */
  function MapVirtualKey(k: int): (m: int)
    ensures k !in {VK_UP, VK_DOWN, VK_LEFT, VK_RIGHT, VK_HOME, VK_END, VK_PRIOR, VK_NEXT, VK_DELETE} ==> m == k
  {
    if k == VK_UP then KEY_UP
    else if k == VK_DOWN then KEY_DOWN
    else if k == VK_LEFT then KEY_LEFT
    else if k == VK_RIGHT then KEY_RIGHT
    else if k == VK_HOME then KEY_HOME
    else if k == VK_END then KEY_END
    else if k == VK_PRIOR then KEY_PAGE_UP
    else if k == VK_NEXT then KEY_PAGE_DOWN
    else if k == VK_DELETE then KEY_DELETE
    else if k == VK_BACK then KEY_BACKSPACE
    else k
  }

  /** The virtual key the switch turns into each navigation code, and no other code. */
  function VirtualKeyOf(key: int): (vk: Option<int>)
    ensures vk.None? <==> !IsNavigationKey(key)
    ensures vk.Some? ==> IsNavigationVirtualKey(vk.value)
  {
    if key == KEY_UP then Some(VK_UP)
    else if key == KEY_DOWN then Some(VK_DOWN)
    else if key == KEY_LEFT then Some(VK_LEFT)
    else if key == KEY_RIGHT then Some(VK_RIGHT)
    else if key == KEY_HOME then Some(VK_HOME)
    else if key == KEY_END then Some(VK_END)
    else if key == KEY_PAGE_UP then Some(VK_PRIOR)
    else if key == KEY_PAGE_DOWN then Some(VK_NEXT)
    else if key == KEY_DELETE then Some(VK_DELETE)
    else None
  }

  /**
   * The switch and `VirtualKeyOf` are inverse: each navigation code comes from its own
   * virtual key, and each navigation virtual key gives the code that names it.
   */
  lemma MapVirtualKeyRoundTrip(key: int, vk: int)
    ensures VirtualKeyOf(key).Some? ==> MapVirtualKey(VirtualKeyOf(key).value) == key
    ensures IsNavigationVirtualKey(vk) ==> VirtualKeyOf(MapVirtualKey(vk)) == Some(vk)
  {
  }

  /** The key code for a delivered record: the character substituted first, then the switch. */
  function WindowsKey(r: InputRecord): int {
    MapVirtualKey(if IsCharacterKey(r.virtualKeyCode) then r.asciiChar else r.virtualKeyCode)
  }

  /** The event for a delivered record, with the modifier flags from its control-key state. */
  function WindowsEvent(r: InputRecord): KeyEvent {
    KeyEvent(WindowsKey(r),
             r.controlKeyState & (LEFT_CTRL_PRESSED | RIGHT_CTRL_PRESSED) != 0,
             r.controlKeyState & (LEFT_ALT_PRESSED | RIGHT_ALT_PRESSED) != 0,
             r.controlKeyState & SHIFT_PRESSED != 0)
  }

  /**
   * The Windows branch of `platform_get_key`: reads records until one is delivered and
   * returns its event. `ReadConsoleInput` waits for input, so the call returns only once
   * such a record has arrived; `records` is the input from now on.
   */
  method GetKeyWindows(records: seq<InputRecord>) returns (p: Poll)
    requires exists i :: 0 <= i < |records| && Delivers(records[i])
    ensures p.returned && 1 <= p.consumed <= |records|
    ensures Delivers(records[p.consumed - 1])
    ensures forall j :: 0 <= j < p.consumed - 1 ==> !Delivers(records[j])
    ensures p.event == WindowsEvent(records[p.consumed - 1])
  {
    var i := 0;
    while true
      invariant 0 <= i <= |records|
      invariant forall j :: 0 <= j < i ==> !Delivers(records[j])
      invariant exists k :: i <= k < |records| && Delivers(records[k])
      decreases |records| - i
    {
      var r := records[i];
      i := i + 1;
      if r.eventType == KEY_EVENT && r.keyDown {
        var key := r.virtualKeyCode;
        var ctrl := r.controlKeyState & (LEFT_CTRL_PRESSED | RIGHT_CTRL_PRESSED) != 0;
        var alt := r.controlKeyState & (LEFT_ALT_PRESSED | RIGHT_ALT_PRESSED) != 0;
        var shift := r.controlKeyState & SHIFT_PRESSED != 0;
        if 0x30 <= key <= 0x5A {
          key := r.asciiChar;
          if key == 0 {
            continue;
          }
        }
        key := MapVirtualKey(key);
        return Poll(true, KeyEvent(key, ctrl, alt, shift), i);
      }
    }
  }

  /** The navigation codes KEY_UP .. KEY_DELETE. */
  predicate IsNavigationKey(k: int) {
    KEY_UP <= k <= KEY_DELETE
  }

  /** The virtual keys the switch turns into navigation codes. */
  predicate IsNavigationVirtualKey(vk: int) {
    vk in {VK_UP, VK_DOWN, VK_LEFT, VK_RIGHT, VK_HOME, VK_END, VK_PRIOR, VK_NEXT, VK_DELETE}
  }

  /**
   * As written, Shift+7 on a US layout (virtual key '7', character '&' = 0x26 = VK_UP)
   * is reported as KEY_UP, not as '&'. Likewise '!', '#', '$', '%' and '('.
   */
  lemma AmpersandReadsAsKeyUp()
    ensures var r := InputRecord(KEY_EVENT, true, 0x37, '&' as int, SHIFT_PRESSED);
      Delivers(r) && IsCharacterKey(r.virtualKeyCode) && WindowsKey(r) == KEY_UP
  {
  }

  /** Corrected mapping: the switch applies only to keys whose character was not substituted. */
  function WindowsKeyCorrected(r: InputRecord): int {
    if IsCharacterKey(r.virtualKeyCode) then r.asciiChar else MapVirtualKey(r.virtualKeyCode)
  }

  /**
   * With the correction, a navigation code comes from a navigation key and from nothing
   * else, and a character key always yields its character; every other record keeps the
   * code `WindowsKey` gives it.
   */
  lemma CorrectedNavigationOnlyFromNavigationKeys(r: InputRecord)
    requires 0 <= r.virtualKeyCode < 0x100
    ensures IsNavigationKey(WindowsKeyCorrected(r)) <==> IsNavigationVirtualKey(r.virtualKeyCode)
    ensures IsCharacterKey(r.virtualKeyCode) ==> WindowsKeyCorrected(r) == r.asciiChar
    ensures !IsCharacterKey(r.virtualKeyCode) ==> WindowsKeyCorrected(r) == WindowsKey(r)
  {
  }

  // ---------------------------------------------------------------------------------
  // The raw-mode flag.

  /**
   * The Unix terminal state of src/platform.c. `applied` records the argument of every
   * `set_raw_mode_internal` call in order (the settings themselves are not modelled). The
   * calls alternate, starting with "enable", and `rawModeEnabled` says whether the last
   * one enabled raw mode.
   */
  class RawModeTerminal {
    var rawModeEnabled: bool
    var applied: seq<bool>

    ghost predicate Valid()
      reads this
    {
      && (forall i :: 0 <= i < |applied| ==> applied[i] == (i % 2 == 0))
      && rawModeEnabled == (|applied| % 2 == 1)
    }

    /** The static initialiser: raw mode off, nothing applied yet. */
    constructor ()
      ensures Valid() && !rawModeEnabled && applied == []
    {
      rawModeEnabled := false;
      applied := [];
    }

    /**
     * `platform_set_raw_mode(enable)`: the terminal is touched only when the flag changes,
     * so repeating a call does nothing.
     */
    method SetRawMode(enable: bool)
      requires Valid()
      modifies this
      ensures Valid()
      ensures rawModeEnabled == enable
      ensures applied == old(applied) + (if old(rawModeEnabled) == enable then [] else [enable])
    {
      if enable && !rawModeEnabled {
        applied := applied + [true];
        rawModeEnabled := true;
      } else if !enable && rawModeEnabled {
        applied := applied + [false];
        rawModeEnabled := false;
      }
    }

    /** `platform_cleanup_terminal`: leaves raw mode if it is on; the flag ends cleared. */
    method Cleanup()
      requires Valid()
      modifies this
      ensures Valid() && !rawModeEnabled
      ensures applied == old(applied) + (if old(rawModeEnabled) then [false] else [])
    {
      if rawModeEnabled {
        SetRawMode(false);
      }
    }
  }

  // ---------------------------------------------------------------------------------
  // `platform_set_color` on Unix.

  /** The SGR code for colour `fg`: 30 + fg for the eight normal colours, 90 + (fg - 8) above. */
  function ForegroundCode(fg: int): int {
    if fg >= 8 then 90 + (fg - 8) else 30 + fg
  }

  /** The colour index an SGR foreground code selects, if it is one of the sixteen. */
  function ColorOfCode(code: int): (c: Option<int>)
    ensures c.Some? ==> 0 <= c.value < 16 && ForegroundCode(c.value) == code
    ensures c.None? ==> !(30 <= code <= 37 || 90 <= code <= 97)
  {
    if 30 <= code <= 37 then Some(code - 30)
    else if 90 <= code <= 97 then Some(code - 90 + 8)
    else None
  }

  /**
   * The sixteen colours get the sixteen SGR foreground codes, normal ones 30-37 and
   * bright ones 90-97, each recovered by `ColorOfCode`.
   */
  lemma ForegroundCodeRoundTrip(fg: int)
    requires 0 <= fg < 16
    ensures fg < 8 ==> 30 <= ForegroundCode(fg) <= 37
    ensures fg >= 8 ==> 90 <= ForegroundCode(fg) <= 97
    ensures ColorOfCode(ForegroundCode(fg)) == Some(fg)
  {
  }

  /** The escape sequence `platform_set_color` writes: ESC '[' code 'm'. */
  function SetColorSequence(foreground: int, background: int): (s: seq<char>)
    ensures |s| >= 4 && s[..2] == ['\U{001B}', '['] && s[|s| - 1] == 'm'
  {
    ['\U{001B}', '['] + Decimal(ForegroundCode(foreground)) + ['m']
  }

  /**
   * The digits between `ESC [` and `m` are the SGR code of colour `foreground`, and
   * reading them back selects that colour.
   */
  lemma ColorReadsBack(foreground: int, background: int)
    requires 0 <= foreground < 16
    ensures var s := SetColorSequence(foreground, background);
      && IsDigits(s[2..|s| - 1])
      && DigitsValue(s[2..|s| - 1]) == ForegroundCode(foreground)
      && ColorOfCode(DigitsValue(s[2..|s| - 1])) == Some(foreground)
  {
    SgrReadsBack(ForegroundCode(foreground));
    ForegroundCodeRoundTrip(foreground);
  }

  /** The digits of `ESC [ code m` read back as `code`. */
  lemma SgrReadsBack(code: nat)
    ensures var s := ['\U{001B}', '['] + Decimal(code) + ['m'];
      IsDigits(s[2..|s| - 1]) && DigitsValue(s[2..|s| - 1]) == code
  {
    var s := ['\U{001B}', '['] + Decimal(code) + ['m'];
    assert s[2..|s| - 1] == NatDigits(code);
    NatDigitsRoundTrip(code);
  }

  /** The background argument has no effect on Unix. */
  lemma BackgroundIgnored(foreground: int, b1: int, b2: int)
    ensures SetColorSequence(foreground, b1) == SetColorSequence(foreground, b2)
  {
  }
}
