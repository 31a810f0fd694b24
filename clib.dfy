/**
 * The parts of the C library that the editor's core relies on, stated on values.
 * A C string is modelled as the sequence of characters before its terminating NUL;
 * a `char` buffer as a sequence that may hold NULs.
 */
module CLib {
  import opened Wrappers

  const NUL: char := '\0'

  predicate NulFree(s: seq<char>) {
    forall i :: 0 <= i < |s| ==> s[i] != NUL
  }

  /** `strncpy(dst, src, n)` followed by `dst[n] = '\0'`: the first `n` characters survive. */
  function Truncate(s: seq<char>, n: nat): (r: seq<char>)
    ensures |r| == if |s| <= n then |s| else n
    ensures r == s[..|r|]
  {
    if |s| <= n then s else s[..n]
  }

  /** The C string held by a character buffer: everything before its first NUL (`strlen`). */
  function CStr(s: seq<char>): (r: seq<char>)
    ensures NulFree(r) && |r| <= |s| && r == s[..|r|]
    ensures |r| < |s| ==> s[|r|] == NUL
  {
    if s == [] || s[0] == NUL then [] else [s[0]] + CStr(s[1..])
  }

  /** Reading a C string back from a buffer gives exactly what was written before the NUL. */
  lemma CStrOfTerminated(t: seq<char>, u: seq<char>)
    requires NulFree(t)
    ensures CStr(t + [NUL] + u) == t
  {
    var s := t + [NUL] + u;
    var r := CStr(s);
    assert s[|t|] == NUL;
    assert forall i :: 0 <= i < |t| ==> s[i] == t[i] != NUL;
    assert |r| == |t|;
  }

  /** A NUL-free sequence is its own C string. */
  lemma CStrOfNulFree(s: seq<char>)
    requires NulFree(s)
    ensures CStr(s) == s
  {
  }

  /** `isspace` in the C locale: space, tab, newline, vertical tab, form feed, carriage return. */
  predicate IsSpace(c: char) {
    c == ' ' || c == '\t' || c == '\n' || c == '\U{000B}' || c == '\U{000C}' || c == '\r'
  }

  /**
   * How many characters one `fgets` call with room for `room` characters takes from `s`:
   * it stops after a newline, once `room` characters are read, or at the end of the stream.
   */
  function FgetsLength(s: seq<char>, room: nat): (n: nat)
    ensures n <= |s| && n <= room
    ensures s != [] && room > 0 ==> n >= 1
    ensures forall i :: 0 <= i < n - 1 ==> s[i] != '\n'
    ensures n == |s| || n == room || (n > 0 && s[n - 1] == '\n')
  {
    if s == [] || room == 0 then 0
    else if s[0] == '\n' then 1
    else 1 + FgetsLength(s[1..], room - 1)
  }

  /** A line that fits in the room is read whole, newline included. */
  lemma {:induction false} FgetsLengthOfLine(line: seq<char>, rest: seq<char>, room: nat)
    requires '\n' !in line && |line| < room
    ensures FgetsLength(line + "\n" + rest, room) == |line| + 1
  {
    if line != [] {
      assert (line + "\n" + rest)[1..] == line[1..] + "\n" + rest;
      FgetsLengthOfLine(line[1..], rest, room - 1);
    }
  }

  /**
   * `fgets(buf, size, stream)`: `None` at the end of the stream, otherwise the characters
   * stored in `buf` (before the NUL that `fgets` adds) and what remains of the stream.
   */
  function Fgets(stream: seq<char>, size: nat): (r: Option<(seq<char>, seq<char>)>)
    requires size >= 2
    ensures r.None? <==> stream == []
    ensures r.Some? ==> r.value.0 + r.value.1 == stream && 1 <= |r.value.0| <= size - 1
    ensures r.Some? ==> forall i :: 0 <= i < |r.value.0| - 1 ==> r.value.0[i] != '\n'
  {
    if stream == [] then None
    else
      var n := FgetsLength(stream, size - 1);
      Some((stream[..n], stream[n..]))
  }

  function Spaces(n: int): (r: seq<char>)
    ensures |r| == if n < 0 then 0 else n
    ensures forall i :: 0 <= i < |r| ==> r[i] == ' '
  {
    if n <= 0 then [] else Spaces(n - 1) + [' ']
  }

  function DigitChar(d: nat): char
    requires d < 10
  {
    ('0' as int + d) as char
  }

  predicate IsDigits(s: seq<char>) {
    forall i :: 0 <= i < |s| ==> '0' <= s[i] <= '9'
  }

  /** The decimal digits `printf("%d")` prints for a non-negative number. */
  function NatDigits(n: nat): (r: seq<char>)
    ensures |r| >= 1 && IsDigits(r)
  {
    if n < 10 then [DigitChar(n)] else NatDigits(n / 10) + [DigitChar(n % 10)]
  }

  /** `printf("%d", n)`. */
  function Decimal(n: int): (r: seq<char>)
    ensures n >= 0 ==> IsDigits(r) && r == NatDigits(n)
    ensures n < 0 ==> |r| >= 2 && r[0] == '-' && r[1..] == NatDigits(-n)
  {
    if n < 0 then "-" + NatDigits(-n) else NatDigits(n)
  }

  /** The number a string of decimal digits denotes (the reading side of `%d`). */
  function DigitsValue(s: seq<char>): nat
    requires IsDigits(s)
  {
    if s == [] then 0 else DigitsValue(s[..|s| - 1]) * 10 + (s[|s| - 1] as int - '0' as int)
  }

  /** Printing a number and reading its digits back gives the number. */
  lemma {:induction false} NatDigitsRoundTrip(n: nat)
    ensures DigitsValue(NatDigits(n)) == n
  {
    if n >= 10 {
      var r := NatDigits(n);
      assert r[..|r| - 1] == NatDigits(n / 10);
      NatDigitsRoundTrip(n / 10);
    }
  }

  function Pow10(k: nat): (r: nat)
    ensures r >= 1
  {
    if k == 0 then 1 else 10 * Pow10(k - 1)
  }

  /** A number below 10^k prints in at most k digits (for k >= 1). */
  lemma {:induction false} NatDigitsWidth(n: nat, k: nat)
    requires k >= 1 && n < Pow10(k)
    ensures |NatDigits(n)| <= k
  {
    if n >= 10 {
      assert Pow10(1) == 10;
      assert k >= 2;
      assert n / 10 < Pow10(k - 1);
      NatDigitsWidth(n / 10, k - 1);
    }
  }

  /** Right-aligned in a field of at least `width` characters: `%*s` with a non-negative width. */
  function RightAlign(s: seq<char>, width: int): (r: seq<char>)
    ensures |r| == if |s| >= width then |s| else width
    ensures r[|r| - |s|..] == s
    ensures forall i :: 0 <= i < |r| - |s| ==> r[i] == ' '
  {
    Spaces(width - |s|) + s
  }

  /** Left-aligned in a field of at least `width` characters: `%-*s`. */
  function LeftAlign(s: seq<char>, width: int): (r: seq<char>)
    ensures |r| == if |s| >= width then |s| else width
    ensures r[..|s|] == s
    ensures forall i :: |s| <= i < |r| ==> r[i] == ' '
  {
    s + Spaces(width - |s|)
  }

  /**
   * `printf("%*s", width, s)`: a non-negative width right-aligns `s` in a field of that
   * many characters; a negative width left-aligns it in a field of `-width` (section
   * 7.21.6.1 of ISO/IEC 9899:2011). The field is never narrower than `s`.
   */
  function StarField(s: seq<char>, width: int): (r: seq<char>)
    ensures var w := if width < 0 then -width else width;
      |r| == if |s| >= w then |s| else w
    ensures width >= 0 ==> r[|r| - |s|..] == s
    ensures width < 0 ==> r[..|s|] == s
  {
    if width < 0 then LeftAlign(s, -width) else RightAlign(s, width)
  }

  /** `printf("%-w.ws", s)`: cut to `width` characters, then padded on the right to exactly `width`. */
  function FitLeft(s: seq<char>, width: nat): (r: seq<char>)
    ensures |r| == width
    ensures |s| <= width ==> r[..|s|] == s
    ensures |s| >= width ==> r == s[..width]
    ensures forall i :: |s| <= i < width ==> r[i] == ' '
  {
    if |s| >= width then s[..width] else s + Spaces(width - |s|)
  }
}
