/** Bytes, the fixed-width integers of the sources, and their little-endian layout. */
module Bytes {

  type byte = x: int | 0 <= x < 0x100
  type u16 = x: int | 0 <= x < 0x1_0000
  type u32 = x: int | 0 <= x < 0x1_0000_0000
  type i16 = x: int | -0x8000 <= x < 0x8000

  const TWO32: int := 0x1_0000_0000

  function LE16(v: u16): (b: seq<byte>)
    ensures |b| == 2 && U16At(b, 0) == v
  {
    [v % 0x100, v / 0x100]
  }

  function LE32(v: u32): (b: seq<byte>)
    ensures |b| == 4 && U32At(b, 0) == v
  {
    Digits(v);
    [v % 0x100, v / 0x100 % 0x100, v / 0x100 / 0x100 % 0x100, v / 0x100 / 0x100 / 0x100]
  }

  lemma Digits(v: u32)
    ensures var a := v / 0x100; var b := a / 0x100; var c := b / 0x100;
            && 0 <= c < 0x100
            && v % 0x100 + 0x100 * (a % 0x100) + 0x1_0000 * (b % 0x100) + 0x100_0000 * c == v
  {
    var a := v / 0x100;
    var b := a / 0x100;
    assert v == 0x100 * a + v % 0x100;
    assert a == 0x100 * b + a % 0x100;
    assert b == 0x100 * (b / 0x100) + b % 0x100;
  }

  function U16At(s: seq<byte>, i: nat): u16
    requires i + 2 <= |s|
  {
    s[i] as int + 0x100 * s[i + 1] as int
  }

  function U32At(s: seq<byte>, i: nat): u32
    requires i + 4 <= |s|
  {
    s[i] as int + 0x100 * s[i + 1] as int + 0x1_0000 * s[i + 2] as int + 0x100_0000 * s[i + 3] as int
  }

  /** The two's-complement reading of 16 bits, and the bits of a signed value. */
  function Signed(v: u16): i16 {
    if v < 0x8000 then v else v - 0x1_0000
  }

  function Unsigned(v: i16): (u: u16)
    ensures Signed(u) == v
  {
    if v < 0 then v + 0x1_0000 else v
  }

  /** The 16-bit value an `int` expression is cut to. */
  function Cut16(v: int): i16 {
    (v + 0x8000) % 0x1_0000 - 0x8000
  }

  function I16At(s: seq<byte>, i: nat): i16
    requires i + 2 <= |s|
  {
    Signed(U16At(s, i))
  }

  function LEi16(v: i16): (b: seq<byte>)
    ensures |b| == 2 && I16At(b, 0) == v
  {
    LE16(Unsigned(v))
  }

  /** `piece` occurs in `s` at offset `i`. */
  predicate At(s: seq<byte>, i: nat, piece: seq<byte>) {
    i + |piece| <= |s| && s[i..i + |piece|] == piece
  }

  lemma Assoc<T>(a: seq<T>, b: seq<T>, c: seq<T>)
    ensures a + b + c == a + (b + c)
  {
  }

  lemma Units<T>(a: seq<T>)
    ensures a + [] == a && [] + a == a
  {
  }

  function Concat<T>(parts: seq<seq<T>>): seq<T> {
    if parts == [] then [] else parts[0] + Concat(parts[1..])
  }

  lemma {:induction false} ConcatAppend<T>(a: seq<seq<T>>, b: seq<seq<T>>)
    ensures Concat(a + b) == Concat(a) + Concat(b)
  {
    if a == [] {
      assert a + b == b;
    } else {
      assert (a + b)[1..] == a[1..] + b;
      ConcatAppend(a[1..], b);
    }
  }

  lemma ConcatSnoc<T>(a: seq<seq<T>>, x: seq<T>)
    ensures Concat(a + [x]) == Concat(a) + x
  {
    ConcatAppend(a, [x]);
    assert Concat([x]) == x + Concat<T>([][..]);
  }

  lemma ConcatUpTo<T>(parts: seq<seq<T>>, k: nat)
    requires k < |parts|
    ensures Concat(parts[..k + 1]) == Concat(parts[..k]) + parts[k]
  {
    assert parts[..k + 1] == parts[..k] + [parts[k]];
    ConcatSnoc(parts[..k], parts[k]);
  }
}
