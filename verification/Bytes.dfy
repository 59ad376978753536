/** Bytes, little-endian integers and UTF-8, as used by the binary metadata
    decoder and by the diagnostic text bounds. */
module Bytes {
  type Byte = x: int | 0 <= x < 256

  /** Text as its bytes. */
  type Text = seq<Byte>

  const U32_LIMIT := 0x1_0000_0000
  const U64_LIMIT := 0x1_0000_0000_0000_0000

  // --- little-endian integers -------------------------------------------------

  function Pow256(n: nat): (p: nat)
    ensures p > 0
  {
    if n == 0 then 1 else 256 * Pow256(n - 1)
  }

  /** `to_le_bytes` for an integer of `n` bytes. */
  function ToLe(n: nat, value: nat): (bytes: seq<Byte>)
    ensures |bytes| == n
  {
    if n == 0 then [] else [value % 256] + ToLe(n - 1, value / 256)
  }

  /** `from_le_bytes`. */
  function FromLe(bytes: seq<Byte>): (value: nat)
    ensures value < Pow256(|bytes|)
  {
    if |bytes| == 0 then 0 else bytes[0] + 256 * FromLe(bytes[1..])
  }

  lemma {:induction false} LeRoundTrip(n: nat, value: nat)
    requires value < Pow256(n)
    ensures FromLe(ToLe(n, value)) == value
  {
    if n > 0 {
      LeRoundTrip(n - 1, value / 256);
      assert ToLe(n, value)[1..] == ToLe(n - 1, value / 256);
    }
  }

  lemma {:induction false} LeInverse(bytes: seq<Byte>)
    ensures ToLe(|bytes|, FromLe(bytes)) == bytes
  {
    if |bytes| > 0 {
      LeInverse(bytes[1..]);
      var value := FromLe(bytes);
      assert value % 256 == bytes[0] && value / 256 == FromLe(bytes[1..]);
      assert bytes == [bytes[0]] + bytes[1..];
    }
  }

  lemma Widths()
    ensures Pow256(4) == U32_LIMIT && Pow256(8) == U64_LIMIT
  {
  }

  // --- text -------------------------------------------------------------------

  function Ascii(text: string): Text
  {
    seq(|text|, i requires 0 <= i < |text| => (text[i] as int) % 128)
  }

  // --- UTF-8 ------------------------------------------------------------------

  predicate Continuation(b: Byte) { 0x80 <= b < 0xC0 }

  /** Length of the well-formed UTF-8 sequence `s` starts with, or 0 (table 3-7
      of the Unicode standard, which is what `str::from_utf8` accepts). */
  function CharLength(s: seq<Byte>): (n: nat)
    ensures n <= 4 && n <= |s|
    ensures forall i :: 1 <= i < n ==> Continuation(s[i])
    ensures n > 0 ==> !Continuation(s[0])
  {
    if |s| == 0 then 0
    else if s[0] < 0x80 then 1
    else if |s| < 2 || !Continuation(s[1]) then 0
    else if 0xC2 <= s[0] < 0xE0 then 2
    else if |s| < 3 || !Continuation(s[2]) then 0
    else if (s[0] == 0xE0 && s[1] >= 0xA0) || 0xE1 <= s[0] < 0xED
            || (s[0] == 0xED && s[1] < 0xA0) || 0xEE <= s[0] < 0xF0 then 3
    else if |s| < 4 || !Continuation(s[3]) then 0
    else if (s[0] == 0xF0 && s[1] >= 0x90) || 0xF1 <= s[0] < 0xF4
            || (s[0] == 0xF4 && s[1] < 0x90) then 4
    else 0
  }

  predicate ValidUtf8(s: seq<Byte>)
  {
    |s| == 0 || (CharLength(s) > 0 && ValidUtf8(s[CharLength(s)..]))
  }

  /** `str::is_char_boundary`. */
  predicate Boundary(s: seq<Byte>, i: nat)
  {
    i == 0 || i == |s| || (i < |s| && !Continuation(s[i]))
  }

  lemma CharLengthPrefix(s: seq<Byte>, i: nat)
    requires CharLength(s) <= i <= |s|
    ensures CharLength(s) > 0 ==> CharLength(s[..i]) == CharLength(s)
  {
  }

  /** Cutting valid text at a character boundary leaves valid text on both sides. */
  lemma {:induction false} CutAtBoundary(s: seq<Byte>, i: nat)
    requires ValidUtf8(s) && i <= |s| && Boundary(s, i)
    ensures ValidUtf8(s[..i]) && ValidUtf8(s[i..])
    decreases |s|
  {
    hide CharLength;
    if i == 0 {
      assert s[i..] == s;
    } else if i == |s| {
      assert s[..i] == s;
    } else {
      var n := CharLength(s);
      assert i >= n;
      var tail := s[n..];
      assert tail[i - n..] == s[i..];
      assert s[..i][n..] == tail[..i - n];
      CutAtBoundary(tail, i - n);
      CharLengthPrefix(s, i);
    }
  }
}
