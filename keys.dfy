/**
 * Cross-platform key codes and the key event record shared by the decoders
 * (include/platform.h:22-27 and 113-131).
 */
module Keys {
  import opened Wrappers

  const KEY_UP := 0x101
  const KEY_DOWN := 0x102
  const KEY_LEFT := 0x103
  const KEY_RIGHT := 0x104
  const KEY_HOME := 0x105
  const KEY_END := 0x106
  const KEY_PAGE_UP := 0x107
  const KEY_PAGE_DOWN := 0x108
  const KEY_DELETE := 0x109
  const KEY_ESC := 27
  const KEY_ENTER := 13
  const KEY_BACKSPACE := 8
  const KEY_TAB := 9
  const KEY_CTRL_S := 19
  const KEY_CTRL_O := 15
  const KEY_CTRL_Q := 17
  const KEY_CTRL_N := 14
  const KEY_F1 := 0x70

  /** One byte as `read` delivers it. */
  type Byte = b: int | 0 <= b < 256

  /** The value a byte has once stored in a (signed, 8-bit) `char`. */
  function SignedChar(b: Byte): (c: int)
    ensures -128 <= c < 128
    ensures c % 256 == b
  {
    if b < 128 then b else b - 256
  }

  /** `KeyEvent`: a key code and three modifier flags. */
  datatype KeyEvent = KeyEvent(key: int, ctrl: bool, alt: bool, shift: bool)

  /** The event as `platform_get_key` zeroes it before decoding. */
  const NoEvent := KeyEvent(0, false, false, false)

  /** An event with no modifier set. */
  function Plain(key: int): KeyEvent {
    KeyEvent(key, false, false, false)
  }

  /**
   * The outcome of one `platform_get_key` call: its return value (`returned` is the
   * nonzero result), the event it leaves behind, and how many input bytes it read.
   */
  datatype Poll = Poll(returned: bool, event: KeyEvent, consumed: nat)

  /** The final byte of `ESC [ x` for the cursor keys, shared by both Unix decoders. */
  function CsiLetterKey(c: Byte): (k: Option<int>)
    ensures k.Some? <==> c in {'A' as int, 'B' as int, 'C' as int, 'D' as int, 'H' as int, 'F' as int}
  {
    if c == 'A' as int then Some(KEY_UP)
    else if c == 'B' as int then Some(KEY_DOWN)
    else if c == 'C' as int then Some(KEY_RIGHT)
    else if c == 'D' as int then Some(KEY_LEFT)
    else if c == 'H' as int then Some(KEY_HOME)
    else if c == 'F' as int then Some(KEY_END)
    else None
  }

  /** The letter a terminal sends after `ESC [` for a cursor key: the inverse of `CsiLetterKey`. */
  function CsiLetter(key: int): (c: Option<Byte>)
    ensures c.Some? ==> CsiLetterKey(c.value) == Some(key)
    ensures c.None? <==> key !in {KEY_UP, KEY_DOWN, KEY_RIGHT, KEY_LEFT, KEY_HOME, KEY_END}
  {
    if key == KEY_UP then Some('A' as int)
    else if key == KEY_DOWN then Some('B' as int)
    else if key == KEY_RIGHT then Some('C' as int)
    else if key == KEY_LEFT then Some('D' as int)
    else if key == KEY_HOME then Some('H' as int)
    else if key == KEY_END then Some('F' as int)
    else None
  }
}
