/**
 * `utils_trim` (src/utils.c): strips C-locale whitespace from both ends of a C string,
 * in place. It writes one NUL after the last non-whitespace character and returns a
 * pointer past the leading whitespace.
 */
module Utils {
  import opened CLib

  /** How many whitespace characters `s` starts with. */
  function LeadingSpaces(s: seq<char>): (n: nat)
    ensures n <= |s|
    ensures forall i :: 0 <= i < n ==> IsSpace(s[i])
    ensures n < |s| ==> !IsSpace(s[n])
  {
    if s != [] && IsSpace(s[0]) then 1 + LeadingSpaces(s[1..]) else 0
  }

  /** The length of `s` without its trailing whitespace. */
  function TrailingCut(s: seq<char>): (n: nat)
    ensures n <= |s|
    ensures forall i :: n <= i < |s| ==> IsSpace(s[i])
    ensures n > 0 ==> !IsSpace(s[n - 1])
  {
    if s != [] && IsSpace(s[|s| - 1]) then TrailingCut(s[..|s| - 1]) else |s|
  }

  /** Where the trimmed text ends in `s`: where `utils_trim` writes its NUL. */
  function TrimEnd(s: seq<char>): (e: nat)
    ensures LeadingSpaces(s) <= e <= |s|
  {
    LeadingSpaces(s) + TrailingCut(s[LeadingSpaces(s)..])
  }

  /** The text from the first to the last non-whitespace character of `s`. */
  function Trimmed(s: seq<char>): seq<char> {
    s[LeadingSpaces(s)..TrimEnd(s)]
  }

  /**
   * The trimmed text is a slice of `s`: whitespace only before and after it, interior
   * whitespace kept, and neither end of it whitespace.
   */
  lemma TrimmedIsSlice(s: seq<char>)
    ensures var t := Trimmed(s);
      && (forall i :: 0 <= i < LeadingSpaces(s) ==> IsSpace(s[i]))
      && (forall i :: TrimEnd(s) <= i < |s| ==> IsSpace(s[i]))
      && (t != [] ==> !IsSpace(t[0]) && !IsSpace(t[|t| - 1]))
  {
    var n := LeadingSpaces(s);
    var t := s[n..];
    forall i | TrimEnd(s) <= i < |s|
      ensures IsSpace(s[i])
    {
      assert s[i] == t[i - n];
    }
  }

  /** Empty or all-whitespace input, and only that, trims to the empty string. */
  lemma TrimmedEmpty(s: seq<char>)
    ensures Trimmed(s) == [] <==> forall i :: 0 <= i < |s| ==> IsSpace(s[i])
  {
    var n := LeadingSpaces(s);
    if n < |s| {
      var t := s[n..];
      assert t[0] == s[n];
      assert TrailingCut(t) > 0;
    }
  }

  /** A string without whitespace at either end is its own trim. */
  lemma TrimmedOfTrimmed(t: seq<char>)
    requires t == [] || (!IsSpace(t[0]) && !IsSpace(t[|t| - 1]))
    ensures Trimmed(t) == t
  {
    if t != [] {
      assert LeadingSpaces(t) == 0;
      assert t[0..] == t;
    }
  }

  /** Trimming twice is trimming once. */
  lemma TrimIdempotent(s: seq<char>)
    ensures Trimmed(Trimmed(s)) == Trimmed(s)
  {
    TrimmedIsSlice(s);
    TrimmedOfTrimmed(Trimmed(s));
  }

  /** Any count of leading whitespace that stops at a non-whitespace character is it. */
  lemma LeadingSpacesUnique(s: seq<char>, n: nat)
    requires n <= |s|
    requires forall k :: 0 <= k < n ==> IsSpace(s[k])
    requires n < |s| ==> !IsSpace(s[n])
    ensures n == LeadingSpaces(s)
  {
  }

  /** Any cut with only whitespace after it and a non-whitespace character before it is it. */
  lemma TrailingCutUnique(t: seq<char>, n: nat)
    requires n <= |t|
    requires forall k :: n <= k < |t| ==> IsSpace(t[k])
    requires n > 0 ==> !IsSpace(t[n - 1])
    ensures n == TrailingCut(t)
  {
  }

  /** Cutting a C string with a NUL at `e` leaves, from `start`, the text up to `e`. */
  lemma CStrAfterCut(before: seq<char>, start: nat, e: nat)
    requires start <= e <= |CStr(before)| < |before|
    ensures CStr(before[e := NUL][start..]) == CStr(before)[start..e]
  {
    var s := CStr(before);
    var after := before[e := NUL];
    assert after[start..] == s[start..e] + [NUL] + after[e + 1..];
    CStrOfTerminated(s[start..e], after[e + 1..]);
  }

  /** A C string stored in a buffer that holds a NUL ends before the buffer does. */
  lemma CStrInArray(buffer: seq<char>)
    requires NUL in buffer
    ensures |CStr(buffer)| < |buffer|
    ensures forall k :: 0 <= k < |CStr(buffer)| ==> CStr(buffer)[k] == buffer[k]
  {
  }

  /** The forward scan of `utils_trim` stops at the end of the leading whitespace. */
  lemma ForwardScanStop(before: seq<char>, start: int)
    requires NUL in before
    requires 0 <= start <= |CStr(before)|
    requires forall k :: 0 <= k < start ==> IsSpace(before[k])
    requires start < |CStr(before)| ==> !IsSpace(before[start])
    ensures start == LeadingSpaces(CStr(before))
  {
    CStrInArray(before);
    LeadingSpacesUnique(CStr(before), start);
  }

  /** The backward scan of `utils_trim` stops on the last character of the trimmed text. */
  lemma BackwardScanStop(before: seq<char>, start: int, end: int)
    requires NUL in before
    requires start == LeadingSpaces(CStr(before))
    requires start - 1 <= end < |CStr(before)|
    requires forall k :: end < k < |CStr(before)| ==> IsSpace(before[k])
    requires end >= start ==> !IsSpace(before[end])
    ensures end + 1 == TrimEnd(CStr(before)) < |before|
  {
    var s := CStr(before);
    CStrInArray(before);
    var t := s[start..];
    var m := end + 1 - start;
    forall k | m <= k < |t|
      ensures IsSpace(t[k])
    {
      assert t[k] == s[start + k] == before[start + k];
    }
    if m > 0 {
      assert t[m - 1] == before[end];
    }
    TrailingCutUnique(t, m);
    assert TrimEnd(s) == start + TrailingCut(t);
  }

  /**
   * `utils_trim(str)`. `str` holds a C string. The one write is a NUL at `TrimEnd`; the
   * result is the offset of the returned pointer, and the C string found there is the
   * trimmed text.
   */
  method Trim(str: array<char>) returns (start: int)
    requires NUL in str[..]
    modifies str
    ensures start == LeadingSpaces(CStr(old(str[..])))
    ensures TrimEnd(CStr(old(str[..]))) < str.Length
    ensures str[..] == old(str[..])[TrimEnd(CStr(old(str[..]))) := NUL]
    ensures CStr(str[start..]) == Trimmed(CStr(old(str[..])))
  {
    ghost var before := str[..];
    var len := |CStr(str[..])|;
    start := 0;
    var end := len - 1;
    while start <= end && IsSpace(str[start])
      invariant 0 <= start <= len
      invariant forall k :: 0 <= k < start ==> IsSpace(before[k])
    {
      start := start + 1;
    }
    while end >= start && IsSpace(str[end])
      invariant start - 1 <= end <= len - 1
      invariant forall k :: end < k < len ==> IsSpace(before[k])
    {
      end := end - 1;
    }
    ForwardScanStop(before, start);
    BackwardScanStop(before, start, end);
    str[end + 1] := NUL;
    assert str[..] == before[end + 1 := NUL];
    CStrAfterCut(before, start, end + 1);
  }
}
