/** CRC-16/CCITT-FALSE as both ends of the northbridge link compute it. */
module Crc {
  // ----- the specification: registers and messages are strings of bits, most significant first -----

  function Zeros(n: nat): seq<bool> {
    seq(n, _ => false)
  }

  function Xor(a: seq<bool>, b: seq<bool>): (r: seq<bool>)
    requires |a| == |b|
    ensures |r| == |a|
  {
    seq(|a|, k requires 0 <= k < |a| => a[k] != b[k])
  }

  predicate Register(c: seq<bool>) {
    |c| == 16
  }

  /** x^12 + x^5 + 1, the generator without its leading term: 0x1021. */
  function Poly(): (p: seq<bool>)
    ensures |p| == 16 && p[15]
  {
    [ false, false, false, true, false, false, false, false,
      false, false, true, false, false, false, false, true]
  }

  function Start(): (s: seq<bool>)
    ensures Register(s)
  {
    seq(16, _ => true)
  }

  /** One shift of the register. */
  function Step(c: seq<bool>): (r: seq<bool>)
    requires Register(c)
    ensures Register(r)
  {
    if c[0] then Xor(c[1..] + [false], Poly()) else c[1..] + [false]
  }

  function Mix(c: seq<bool>, bit: bool): (r: seq<bool>)
    requires Register(c)
    ensures Register(r)
  {
    [c[0] != bit] + c[1..]
  }

  /** The register after a string of bits, one at a time. */
  function Over(c: seq<bool>, bits: seq<bool>): (r: seq<bool>)
    requires Register(c)
    ensures Register(r)
    decreases |bits|
  {
    if bits == [] then c else Over(Step(Mix(c, bits[0])), bits[1..])
  }

  function BitsOf(b: bv8): (r: seq<bool>)
    ensures |r| == 8
  {
    [ b & 0x80 != 0, b & 0x40 != 0, b & 0x20 != 0, b & 0x10 != 0,
      b & 0x08 != 0, b & 0x04 != 0, b & 0x02 != 0, b & 0x01 != 0]
  }

  function Bits(data: seq<bv8>): (r: seq<bool>)
    ensures |r| == 8 * |data|
  {
    if data == [] then [] else BitsOf(data[0]) + Bits(data[1..])
  }

  function Checksum(data: seq<bv8>): (r: seq<bool>)
    ensures Register(r)
  {
    Over(Start(), Bits(data))
  }

  // ----- the register step is linear and loses nothing -----

  function Steps(c: seq<bool>, n: nat): (r: seq<bool>)
    requires Register(c)
    ensures Register(r)
    decreases n
  {
    if n == 0 then c else Steps(Step(c), n - 1)
  }

  lemma XorCancels(c: seq<bool>, a: seq<bool>, b: seq<bool>)
    requires |a| == |b| == |c| && Xor(c, a) == Xor(c, b)
    ensures a == b
  {
    forall k | 0 <= k < |a| ensures a[k] == b[k] {
      assert Xor(c, a)[k] == Xor(c, b)[k];
    }
  }

  lemma XorSwaps(a: seq<bool>, b: seq<bool>)
    requires |a| == |b|
    ensures Xor(a, b) == Xor(b, a)
  {
    var x, y := Xor(a, b), Xor(b, a);
    assert forall k | 0 <= k < |x| :: x[k] == y[k];
    assert x == y;
  }

  lemma StepLinear(a: seq<bool>, b: seq<bool>)
    requires Register(a) && Register(b)
    ensures Step(Xor(a, b)) == Xor(Step(a), Step(b))
  {
    var s, t := a[1..] + [false], b[1..] + [false];
    assert Xor(a, b)[1..] + [false] == Xor(s, t);
    assert Xor(Xor(s, t), Poly()) == Xor(Xor(s, Poly()), t) == Xor(s, Xor(t, Poly()));
    assert Xor(Xor(s, Poly()), Xor(t, Poly())) == Xor(s, t);
  }

  lemma StepOneToOne(a: seq<bool>, b: seq<bool>)
    requires Register(a) && Register(b) && Step(a) == Step(b)
    ensures a == b
  {
    var s, t := a[1..] + [false], b[1..] + [false];
    assert Step(a)[15] == a[0] && Step(b)[15] == b[0];
    if a[0] {
      XorSwaps(s, Poly());
      XorSwaps(t, Poly());
      XorCancels(Poly(), s, t);
    }
    assert s == t;
    assert a == [a[0]] + s[..15] && b == [b[0]] + t[..15];
  }

  lemma {:induction false} StepsOneToOne(a: seq<bool>, b: seq<bool>, n: nat)
    requires Register(a) && Register(b) && Steps(a, n) == Steps(b, n)
    ensures a == b
    decreases n
  {
    if n > 0 {
      StepsOneToOne(Step(a), Step(b), n - 1);
      StepOneToOne(a, b);
    }
  }

  lemma MixOneToOne(a: seq<bool>, b: seq<bool>, bit: bool)
    requires Register(a) && Register(b) && Mix(a, bit) == Mix(b, bit)
    ensures a == b
  {
    assert Mix(a, bit)[0] == Mix(b, bit)[0];
    assert a[1..] == Mix(a, bit)[1..] == Mix(b, bit)[1..] == b[1..];
    assert a == [a[0]] + a[1..] && b == [b[0]] + b[1..];
  }

  /** Registers that differ keep differing over any common bits. */
  lemma {:induction false} OverOneToOne(a: seq<bool>, b: seq<bool>, bits: seq<bool>)
    requires Register(a) && Register(b) && Over(a, bits) == Over(b, bits)
    ensures a == b
    decreases |bits|
  {
    if bits != [] {
      OverOneToOne(Step(Mix(a, bits[0])), Step(Mix(b, bits[0])), bits[1..]);
      StepOneToOne(Mix(a, bits[0]), Mix(b, bits[0]));
      MixOneToOne(a, b, bits[0]);
    }
  }

  lemma {:induction false} OverConcat(c: seq<bool>, a: seq<bool>, b: seq<bool>)
    requires Register(c)
    ensures Over(c, a + b) == Over(Over(c, a), b)
    decreases |a|
  {
    if a == [] {
      assert a + b == b;
    } else {
      OverConcat(Step(Mix(c, a[0])), a[1..], b);
      assert (a + b)[1..] == a[1..] + b;
    }
  }

  lemma {:induction false} OverLinear(a: seq<bool>, b: seq<bool>, u: seq<bool>, v: seq<bool>)
    requires Register(a) && Register(b) && |u| == |v|
    ensures Over(Xor(a, b), Xor(u, v)) == Xor(Over(a, u), Over(b, v))
    decreases |u|
  {
    if u == [] {
      assert Xor(u, v) == [];
    } else {
      MixLinear(a, b, u[0], v[0]);
      StepLinear(Mix(a, u[0]), Mix(b, v[0]));
      OverLinear(Step(Mix(a, u[0])), Step(Mix(b, v[0])), u[1..], v[1..]);
      assert Xor(u, v)[1..] == Xor(u[1..], v[1..]);
    }
  }

  lemma MixLinear(a: seq<bool>, b: seq<bool>, p: bool, q: bool)
    requires Register(a) && Register(b)
    ensures Mix(Xor(a, b), p != q) == Xor(Mix(a, p), Mix(b, q))
  {
  }

  lemma {:induction false} OverZeros(n: nat)
    ensures Over(Zeros(16), Zeros(n)) == Zeros(16)
  {
    if n > 0 {
      assert Mix(Zeros(16), false) == Zeros(16);
      assert Step(Zeros(16)) == Zeros(16);
      assert Zeros(n)[1..] == Zeros(n - 1);
      OverZeros(n - 1);
    }
  }

  // ----- up to sixteen bits enter the register without colliding -----

  /** Bits lined up with the top of the register. */
  function Top(bits: seq<bool>): (r: seq<bool>)
    requires |bits| <= 16
    ensures Register(r)
  {
    bits + Zeros(16 - |bits|)
  }

  lemma TopOneToOne(u: seq<bool>, v: seq<bool>)
    requires |u| == |v| <= 16 && Top(u) == Top(v)
    ensures u == v
  {
    assert Top(u)[..|u|] == u && Top(v)[..|v|] == v;
  }

  lemma StepAbsorbs(c: seq<bool>, bits: seq<bool>)
    requires Register(c) && 0 < |bits| <= 16
    ensures Step(Xor(c, Top(bits))) == Xor(Step(Mix(c, bits[0])), Top(bits[1..]))
  {
    var s, t, m := c[1..] + [false], Top(bits[1..]), Mix(c, bits[0]);
    assert t == Top(bits)[1..] + [false];
    assert Xor(c, Top(bits))[0] == m[0];
    assert Xor(c, Top(bits))[1..] + [false] == Xor(s, t);
    assert m[1..] + [false] == s;
    assert Xor(Xor(s, t), Poly()) == Xor(Xor(s, Poly()), t);
  }

  /** Feeding up to sixteen bits one at a time is mixing them in at once and shifting. */
  lemma {:induction false} OverIsSteps(c: seq<bool>, bits: seq<bool>)
    requires Register(c) && |bits| <= 16
    ensures Over(c, bits) == Steps(Xor(c, Top(bits)), |bits|)
    decreases |bits|
  {
    if bits == [] {
      assert Xor(c, Top([])) == c;
    } else {
      StepAbsorbs(c, bits);
      OverIsSteps(Step(Mix(c, bits[0])), bits[1..]);
    }
  }

  /** Two strings that differ only inside sixteen consecutive bits never share a register value. */
  lemma Burst(c: seq<bool>, head: seq<bool>, u: seq<bool>, v: seq<bool>, tail: seq<bool>)
    requires Register(c) && |u| == |v| <= 16 && u != v
    ensures Over(c, head + u + tail) != Over(c, head + v + tail)
  {
    var r := Over(c, head);
    OverConcat(c, head, u);
    OverConcat(c, head, v);
    OverConcat(c, head + u, tail);
    OverConcat(c, head + v, tail);
    if Over(c, head + u + tail) == Over(c, head + v + tail) {
      OverOneToOne(Over(r, u), Over(r, v), tail);
      OverIsSteps(r, u);
      OverIsSteps(r, v);
      StepsOneToOne(Xor(r, Top(u)), Xor(r, Top(v)), |u|);
      XorCancels(r, Top(u), Top(v));
      TopOneToOne(u, v);
    }
  }

  // ----- bytes as bits -----

  lemma Joined(a: seq<bool>, b: seq<bool>, c: seq<bool>)
    ensures a + b + c == a + (b + c)
  {
  }

  lemma {:induction false} BitsConcat(a: seq<bv8>, b: seq<bv8>)
    ensures Bits(a + b) == Bits(a) + Bits(b)
  {
    hide BitsOf;
    if a == [] {
      assert a + b == b;
    } else {
      BitsConcat(a[1..], b);
      assert (a + b)[1..] == a[1..] + b;
      Joined(BitsOf(a[0]), Bits(a[1..]), Bits(b));
    }
  }

  lemma ByteFromBits(a: bv8, b: bv8)
    requires (a & 0x80 != 0) == (b & 0x80 != 0) && (a & 0x40 != 0) == (b & 0x40 != 0)
    requires (a & 0x20 != 0) == (b & 0x20 != 0) && (a & 0x10 != 0) == (b & 0x10 != 0)
    requires (a & 0x08 != 0) == (b & 0x08 != 0) && (a & 0x04 != 0) == (b & 0x04 != 0)
    requires (a & 0x02 != 0) == (b & 0x02 != 0) && (a & 0x01 != 0) == (b & 0x01 != 0)
    ensures a == b
  {
  }

  lemma BitsOfOneToOne(a: bv8, b: bv8)
    requires BitsOf(a) == BitsOf(b)
    ensures a == b
  {
    var s, t := BitsOf(a), BitsOf(b);
    assert s[0] == t[0] && s[1] == t[1] && s[2] == t[2] && s[3] == t[3];
    assert s[4] == t[4] && s[5] == t[5] && s[6] == t[6] && s[7] == t[7];
    ByteFromBits(a, b);
  }

  lemma {:induction false} BitsOneToOne(a: seq<bv8>, b: seq<bv8>)
    requires |a| == |b| && Bits(a) == Bits(b)
    ensures a == b
  {
    hide BitsOf;
    if a != [] {
      assert Bits(a)[..8] == BitsOf(a[0]) && Bits(b)[..8] == BitsOf(b[0]);
      BitsOfOneToOne(a[0], b[0]);
      assert Bits(a)[8..] == Bits(a[1..]) && Bits(b)[8..] == Bits(b[1..]);
      BitsOneToOne(a[1..], b[1..]);
      assert a == [a[0]] + a[1..] && b == [b[0]] + b[1..];
    }
  }

  // ----- the code's register and loop -----

  function Mask(k: nat): bv16
    requires k < 16
  {
    match k
    case 0 => 0x8000
    case 1 => 0x4000
    case 2 => 0x2000
    case 3 => 0x1000
    case 4 => 0x0800
    case 5 => 0x0400
    case 6 => 0x0200
    case 7 => 0x0100
    case 8 => 0x0080
    case 9 => 0x0040
    case 10 => 0x0020
    case 11 => 0x0010
    case 12 => 0x0008
    case 13 => 0x0004
    case 14 => 0x0002
    case _ => 1
  }

  /** Bit `k` of a 16-bit word, counted from the top. */
  predicate Bit(c: bv16, k: nat)
    requires k < 16
  {
    c & Mask(k) != 0
  }

  /** The bits of the code's 16-bit register. */
  function Reg(c: bv16): (r: seq<bool>)
    ensures Register(r)
  {
    seq(16, k requires 0 <= k < 16 => Bit(c, k))
  }

  function Raised(b: bv8): bv16 {
    (b as bv16) << 8
  }

  function CodeStep(c: bv16): bv16 {
    if c & 0x8000 != 0 then (c << 1) ^ 0x1021 else c << 1
  }

  lemma MaskIsOneBit(k: nat)
    requires k < 16
    ensures Mask(k) & (Mask(k) - 1) == 0
    ensures k < 15 ==> Mask(k) >> 1 == Mask(k + 1)
  {
  }

  lemma OneBitXor(a: bv16, b: bv16, m: bv16)
    requires m & (m - 1) == 0
    ensures ((a ^ b) & m != 0) == ((a & m != 0) != (b & m != 0))
  {
  }

  lemma OneBitShift(c: bv16, m: bv16, next: bv16)
    requires m >> 1 == next
    ensures ((c << 1) & m != 0) == (c & next != 0)
  {
  }

  lemma BitXor(a: bv16, b: bv16, k: nat)
    requires k < 16
    ensures Bit(a ^ b, k) == (Bit(a, k) != Bit(b, k))
  {
    MaskIsOneBit(k);
    hide Mask;
    OneBitXor(a, b, Mask(k));
  }

  lemma BitShift(c: bv16, k: nat)
    requires k < 15
    ensures Bit(c << 1, k) == Bit(c, k + 1)
  {
    MaskIsOneBit(k);
    hide Mask;
    OneBitShift(c, Mask(k), Mask(k + 1));
  }

  lemma LowBitShift(c: bv16)
    ensures !Bit(c << 1, 15)
  {
  }

  lemma BitRaised(b: bv8, k: nat)
    requires k < 16
    ensures Bit(Raised(b), k) == (k < 8 && BitsOf(b)[k])
  {
  }

  lemma RegXor(a: bv16, b: bv16)
    ensures Reg(a ^ b) == Xor(Reg(a), Reg(b))
  {
    hide Bit;
    forall k | 0 <= k < 16 ensures Reg(a ^ b)[k] == Xor(Reg(a), Reg(b))[k] {
      BitXor(a, b, k);
    }
  }

  lemma RegShift(c: bv16)
    ensures Reg(c << 1) == Reg(c)[1..] + [false]
  {
    hide Bit;
    forall k | 0 <= k < 16 ensures Reg(c << 1)[k] == (Reg(c)[1..] + [false])[k] {
      if k < 15 {
        BitShift(c, k);
      } else {
        LowBitShift(c);
      }
    }
  }

  lemma RegPoly()
    ensures Reg(0x1021) == Poly()
  {
  }

  lemma RegStart()
    ensures Reg(0xFFFF) == Start()
  {
  }

  lemma RegStep(c: bv16)
    ensures Reg(CodeStep(c)) == Step(Reg(c))
  {
    assert Bit(c, 0) == (c & 0x8000 != 0);
    hide Bit;
    RegShift(c);
    RegPoly();
    if c & 0x8000 != 0 {
      RegXor(c << 1, 0x1021);
    }
  }

  lemma RegOfRaised(b: bv8)
    ensures Reg(Raised(b)) == Top(BitsOf(b))
  {
    hide Bit;
    hide Raised;
    hide BitsOf;
    forall k | 0 <= k < 16 ensures Reg(Raised(b))[k] == Top(BitsOf(b))[k] {
      BitRaised(b, k);
    }
  }

  lemma RegRaised(c: bv16, b: bv8)
    ensures Reg(c ^ Raised(b)) == Xor(Reg(c), Top(BitsOf(b)))
  {
    hide *;
    RegXor(c, Raised(b));
    RegOfRaised(b);
  }

  lemma {:induction false} StepsSnoc(c: seq<bool>, n: nat)
    requires Register(c)
    ensures Steps(c, n + 1) == Step(Steps(c, n))
    decreases n
  {
    if n > 0 {
      StepsSnoc(Step(c), n - 1);
    }
  }

  lemma ChecksumSnoc(data: seq<bv8>, b: bv8)
    ensures Checksum(data + [b]) == Steps(Xor(Checksum(data), Top(BitsOf(b))), 8)
  {
    hide BitsOf;
    BitsConcat(data, [b]);
    assert Bits([b]) == BitsOf(b) + [] == BitsOf(b);
    OverConcat(Start(), Bits(data), BitsOf(b));
    OverIsSteps(Checksum(data), BitsOf(b));
  }

  method Crc16(data: seq<bv8>) returns (crc: bv16)
    ensures Reg(crc) == Checksum(data)
  {
    hide Reg;
    hide Raised;
    crc := 0xFFFF;
    RegStart();
    for i := 0 to |data|
      invariant Reg(crc) == Checksum(data[..i])
    {
      RegRaised(crc, data[i]);
      crc := crc ^ Raised(data[i]);
      crc := Shifts(crc);
      assert data[..i + 1] == data[..i] + [data[i]];
      ChecksumSnoc(data[..i], data[i]);
    }
    assert data[..|data|] == data;
  }

  /** The eight shifts a byte takes. */
  method Shifts(c: bv16) returns (crc: bv16)
    ensures Reg(crc) == Steps(Reg(c), 8)
  {
    hide Reg;
    crc := c;
    for bit := 0 to 8
      invariant Reg(crc) == Steps(Reg(c), bit)
    {
      StepsSnoc(Reg(c), bit);
      RegStep(crc);
      crc := CodeStep(crc);
    }
  }

  // ----- a message worked out -----

  function EightSteps(c: bv16): bv16 {
    var c4 := CodeStep(CodeStep(CodeStep(CodeStep(c))));
    CodeStep(CodeStep(CodeStep(CodeStep(c4))))
  }

  lemma RegEightSteps(c: bv16)
    ensures Reg(EightSteps(c)) == Steps(Reg(c), 8)
  {
    hide Reg;
    hide CodeStep;
    hide Step;
    var c1, c2, c3 := CodeStep(c), CodeStep(CodeStep(c)), CodeStep(CodeStep(CodeStep(c)));
    var c4 := CodeStep(c3);
    var c5, c6, c7 := CodeStep(c4), CodeStep(CodeStep(c4)), CodeStep(CodeStep(CodeStep(c4)));
    RegStep(c);
    RegStep(c1);
    RegStep(c2);
    RegStep(c3);
    RegStep(c4);
    RegStep(c5);
    RegStep(c6);
    RegStep(c7);
    assert Steps(Reg(c), 8) == Steps(Reg(c2), 6) == Steps(Reg(c4), 4) == Steps(Reg(c6), 2);
  }

  lemma NextByte(data: seq<bv8>, b: bv8, c: bv16, r: bv16)
    requires Checksum(data) == Reg(c) && r == EightSteps(c ^ Raised(b))
    ensures Checksum(data + [b]) == Reg(r)
  {
    hide *;
    ChecksumSnoc(data, b);
    RegRaised(c, b);
    RegEightSteps(c ^ Raised(b));
  }

  /** "123456789" */
  function CheckInput(): (s: seq<bv8>)
    ensures |s| == 9
  {
    [0x31, 0x32, 0x33, 0x34, 0x35, 0x36, 0x37, 0x38, 0x39]
  }

  /** The check value of CRC-16/CCITT-FALSE. */
  lemma CheckValue()
    ensures Checksum(CheckInput()) == Reg(0x29B1)
  {
    hide Checksum;
    hide Reg;
    EmptyChecksum();
    var s := CheckInput();
    assert s[..0] == [];
    NextByte(s[..0], 0x31, 0xffff, 0xc782);
    assert s[..0] + [0x31] == s[..1];
    NextByte(s[..1], 0x32, 0xc782, 0x3dba);
    assert s[..1] + [0x32] == s[..2];
    NextByte(s[..2], 0x33, 0x3dba, 0x5bce);
    assert s[..2] + [0x33] == s[..3];
    NextByte(s[..3], 0x34, 0x5bce, 0x5349);
    assert s[..3] + [0x34] == s[..4];
    NextByte(s[..4], 0x35, 0x5349, 0x4560);
    assert s[..4] + [0x35] == s[..5];
    NextByte(s[..5], 0x36, 0x4560, 0x2ef4);
    assert s[..5] + [0x36] == s[..6];
    NextByte(s[..6], 0x37, 0x2ef4, 0x7718);
    assert s[..6] + [0x37] == s[..7];
    NextByte(s[..7], 0x38, 0x7718, 0xa12b);
    assert s[..7] + [0x38] == s[..8];
    NextByte(s[..8], 0x39, 0xa12b, 0x29b1);
    assert s[..8] + [0x39] == s[..9];
    assert s[..9] == s;
  }

  lemma EmptyChecksum()
    ensures Checksum([]) == Reg(0xFFFF)
  {
    RegStart();
  }
}
