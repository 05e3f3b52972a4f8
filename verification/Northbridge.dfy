/** The 64-byte frames of the SPI link between the main controller and the northbridge. */
module Northbridge {
  import opened Crc

  const FRAME_SIZE: nat := 64
  const PAYLOAD_MAX: nat := 58
  const OFF_PAYLOAD: nat := 4
  const OFF_CRC: nat := 62
  const MAGIC: bv8 := 0xA5
  const TYPE_IDLE: bv8 := 0
  const FLAG_MORE: bv8 := 1
  const FLAG_REPLY: bv8 := 2

  datatype Frame = Frame(kind: bv8, len: bv8, flags: bv8, payload: seq<bv8>)

  /** What a receiver makes of 64 bytes; `more` is the sender's word that it has another frame. */
  datatype Verdict = Unframed | BadCrc | Idle(more: bool) | Carries(frame: Frame, more: bool)

  predicate Framed(f: seq<bv8>)
    requires |f| == FRAME_SIZE
  {
    f[0] == MAGIC && f[2] <= 58
  }

  function Join(low: bv8, high: bv8): bv16 {
    (low as bv16) | ((high as bv16) << 8)
  }

  /** The checksum field, low byte first. */
  function Want(f: seq<bv8>): bv16
    requires |f| == FRAME_SIZE
  {
    Join(f[62], f[63])
  }

  predicate Sealed(f: seq<bv8>)
    requires |f| == FRAME_SIZE
  {
    Reg(Want(f)) == Checksum(f[..OFF_CRC])
  }

  function Judge(f: seq<bv8>): Verdict
    requires |f| == FRAME_SIZE
  {
    if !Framed(f) then Unframed
    else if !Sealed(f) then BadCrc
    else if f[1] == TYPE_IDLE then Idle(f[3] & FLAG_MORE != 0)
    else Carries(Frame(f[1], f[2], f[3], f[OFF_PAYLOAD..OFF_CRC]), f[3] & FLAG_MORE != 0)
  }

  predicate Accepted(f: seq<bv8>)
    requires |f| == FRAME_SIZE
  {
    Judge(f).Idle? || Judge(f).Carries?
  }

  // ----- building -----

  function Blank(n: nat): seq<bv8> {
    seq(n, _ => 0)
  }

  function Padded(payload: seq<bv8>): (p: seq<bv8>)
    requires |payload| <= PAYLOAD_MAX
    ensures |p| == PAYLOAD_MAX
  {
    payload + Blank(PAYLOAD_MAX - |payload|)
  }

  predicate IsFrame(f: seq<bv8>, kind: bv8, payload: seq<bv8>, flags: bv8)
    requires |payload| <= PAYLOAD_MAX
  {
    && |f| == FRAME_SIZE
    && f[..OFF_CRC] == [MAGIC, kind, |payload| as bv8, flags] + Padded(payload)
    && Sealed(f)
  }

  function Flags(flags: bv8, more: bool): bv8 {
    flags | (if more then FLAG_MORE else 0)
  }

  predicate On(c: bv16, m: bv16) {
    c & m != 0
  }

  lemma WordFromBits(a: bv16, b: bv16)
    requires On(a, 0x8000) == On(b, 0x8000) && On(a, 0x4000) == On(b, 0x4000) && On(a, 0x2000) == On(b, 0x2000) &&
             On(a, 0x1000) == On(b, 0x1000)
    requires On(a, 0x0800) == On(b, 0x0800) && On(a, 0x0400) == On(b, 0x0400) && On(a, 0x0200) == On(b, 0x0200) &&
             On(a, 0x0100) == On(b, 0x0100)
    requires On(a, 0x0080) == On(b, 0x0080) && On(a, 0x0040) == On(b, 0x0040) && On(a, 0x0020) == On(b, 0x0020) &&
             On(a, 0x0010) == On(b, 0x0010)
    requires On(a, 0x0008) == On(b, 0x0008) && On(a, 0x0004) == On(b, 0x0004) && On(a, 0x0002) == On(b, 0x0002) &&
             On(a, 0x0001) == On(b, 0x0001)
    ensures a == b
  {
  }

  lemma RegAt(c: bv16, k: nat, m: bv16)
    requires k < 16 && Mask(k) == m
    ensures Reg(c)[k] == On(c, m)
  {
    hide Mask;
  }

  lemma SameBit(a: bv16, b: bv16, k: nat, m: bv16)
    requires k < 16 && Mask(k) == m && Reg(a) == Reg(b)
    ensures On(a, m) == On(b, m)
  {
    hide *;
    RegAt(a, k, m);
    RegAt(b, k, m);
  }

  lemma Masks()
    ensures Mask(0) == 0x8000 && Mask(1) == 0x4000
    ensures Mask(2) == 0x2000 && Mask(3) == 0x1000
    ensures Mask(4) == 0x0800 && Mask(5) == 0x0400
    ensures Mask(6) == 0x0200 && Mask(7) == 0x0100
    ensures Mask(8) == 0x0080 && Mask(9) == 0x0040
    ensures Mask(10) == 0x0020 && Mask(11) == 0x0010
    ensures Mask(12) == 0x0008 && Mask(13) == 0x0004
    ensures Mask(14) == 0x0002 && Mask(15) == 0x0001
  {
  }

  /** A register is told by its sixteen bits. */
  lemma RegOneToOne(a: bv16, b: bv16)
    requires Reg(a) == Reg(b)
    ensures a == b
  {
    hide *;
    Masks();
    SameBit(a, b, 0, 0x8000);
    SameBit(a, b, 1, 0x4000);
    SameBit(a, b, 2, 0x2000);
    SameBit(a, b, 3, 0x1000);
    SameBit(a, b, 4, 0x0800);
    SameBit(a, b, 5, 0x0400);
    SameBit(a, b, 6, 0x0200);
    SameBit(a, b, 7, 0x0100);
    SameBit(a, b, 8, 0x0080);
    SameBit(a, b, 9, 0x0040);
    SameBit(a, b, 10, 0x0020);
    SameBit(a, b, 11, 0x0010);
    SameBit(a, b, 12, 0x0008);
    SameBit(a, b, 13, 0x0004);
    SameBit(a, b, 14, 0x0002);
    SameBit(a, b, 15, 0x0001);
    WordFromBits(a, b);
  }

  lemma HalvesJoin(crc: bv16)
    ensures Join((crc & 0xFF) as bv8, (crc >> 8) as bv8) == crc
  {
  }

  lemma JoinOneToOne(a: bv8, b: bv8, c: bv8, d: bv8)
    requires Join(a, b) == Join(c, d)
    ensures a == c && b == d
  {
  }

  /** Builds a frame in place, as either end does. */
  method BuildFrame(out: array<bv8>, kind: bv8, payload: seq<bv8>, more: bool, flags: bv8)
    requires out.Length == FRAME_SIZE && |payload| <= PAYLOAD_MAX
    modifies out
    ensures IsFrame(out[..], kind, payload, Flags(flags, more))
  {
    hide Reg;
    forall k | 0 <= k < FRAME_SIZE {
      out[k] := 0;
    }
    out[0] := MAGIC;
    out[1] := kind;
    out[2] := |payload| as bv8;
    out[3] := flags | (if more then FLAG_MORE else 0);
    forall k | 0 <= k < |payload| {
      out[OFF_PAYLOAD + k] := payload[k];
    }
    ghost var body := out[..OFF_CRC];
    assert body == [MAGIC, kind, |payload| as bv8, Flags(flags, more)] + Padded(payload);
    var crc := Crc16(out[..OFF_CRC]);
    out[62] := (crc & 0xFF) as bv8;
    out[63] := (crc >> 8) as bv8;
    HalvesJoin(crc);
    assert out[..OFF_CRC] == body;
  }

  lemma LengthFits(n: nat)
    requires n <= PAYLOAD_MAX
    ensures (n as bv8) <= 58
  {
  }

  /** What either end builds, the other end takes for what was sent. */
  lemma FrameArrives(f: seq<bv8>, kind: bv8, payload: seq<bv8>, flags: bv8)
    requires |payload| <= PAYLOAD_MAX && IsFrame(f, kind, payload, flags)
    ensures Judge(f) == if kind == TYPE_IDLE then Idle(flags & FLAG_MORE != 0)
                        else Carries(Frame(kind, |payload| as bv8, flags, Padded(payload)), flags & FLAG_MORE != 0)
  {
    hide Reg;
    LengthFits(|payload|);
    var body := f[..OFF_CRC];
    assert f[0] == body[0] && f[1] == body[1] && f[2] == body[2] && f[3] == body[3];
    assert f[OFF_PAYLOAD..OFF_CRC] == body[OFF_PAYLOAD..] == Padded(payload);
  }

  /** What is accepted, byte by byte: the magic, a length the payload has room for, and the checksum of the rest. */
  lemma AcceptedByBytes(f: seq<bv8>)
    requires |f| == FRAME_SIZE
    ensures Accepted(f) <==> f[0] == 0xA5 && f[2] <= 58 && Reg(Join(f[62], f[63])) == Checksum(f[..62])
    ensures Judge(f).Idle? <==> Accepted(f) && f[1] == 0
    ensures Judge(f).Carries? ==> Judge(f).frame == Frame(f[1], f[2], f[3], f[4..62])
    ensures Accepted(f) ==> (Judge(f).more <==> f[3] % 2 == 1)
  {
    hide Reg;
    hide Join;
    hide Checksum;
    LowBit(f[3]);
  }

  lemma LowBit(b: bv8)
    ensures b & FLAG_MORE != 0 <==> b % 2 == 1
  {
  }

  // ----- what the checksum catches -----

  /** Two frames agree except for at most `n` consecutive bits from bit `k` on. */
  predicate DifferWithin(f: seq<bv8>, g: seq<bv8>, k: nat, n: nat)
    requires |f| == |g| && k + n <= 8 * |f|
  {
    Bits(f)[..k] == Bits(g)[..k] && Bits(f)[k + n..] == Bits(g)[k + n..]
  }

  lemma BitsSplit(f: seq<bv8>, at: nat)
    requires at <= |f|
    ensures Bits(f) == Bits(f[..at]) + Bits(f[at..])
  {
    assert f == f[..at] + f[at..];
    BitsConcat(f[..at], f[at..]);
  }

  /** A slice of equal strings is equal, however it is reached. */
  lemma Slices(a: seq<bool>, b: seq<bool>, k: nat, n: nat, at: nat)
    requires k + n <= at <= |a| == |b| && a[..k] == b[..k] && a[k + n..] == b[k + n..]
    ensures a[at..] == b[at..]
    ensures a[..at] == a[..k] + a[k..k + n] + a[k + n..at]
    ensures b[..at] == a[..k] + b[k..k + n] + a[k + n..at]
  {
    assert a[at..] == a[k + n..][at - k - n..] && b[at..] == b[k + n..][at - k - n..];
    assert a[k + n..at] == a[k + n..][..at - k - n] == b[k + n..][..at - k - n] == b[k + n..at];
    assert a[..at] == a[..k] + a[k..k + n] + a[k + n..at];
    assert b[..at] == b[..k] + b[k..k + n] + b[k + n..at];
  }

  lemma SameField(f: seq<bv8>, g: seq<bv8>)
    requires |f| == |g| == FRAME_SIZE && f[OFF_CRC..] == g[OFF_CRC..]
    ensures Want(f) == Want(g)
  {
    hide Join;
    assert f[62] == f[OFF_CRC..][0] && f[63] == f[OFF_CRC..][1] && g[62] == g[OFF_CRC..][0] && g[63] == g[OFF_CRC..][1];
  }

  lemma BurstInBody(f: seq<bv8>, g: seq<bv8>, k: nat, n: nat)
    requires |f| == |g| == FRAME_SIZE && f != g && n <= 16 && k + n <= 8 * OFF_CRC && DifferWithin(f, g, k, n)
    ensures Want(f) == Want(g) && Checksum(f[..OFF_CRC]) != Checksum(g[..OFF_CRC])
  {
    hide Bits;
    var a, b := Bits(f), Bits(g);
    BitsSplit(f, OFF_CRC);
    BitsSplit(g, OFF_CRC);
    Slices(a, b, k, n, 8 * OFF_CRC);
    assert Bits(f[OFF_CRC..]) == a[8 * OFF_CRC..] && Bits(g[OFF_CRC..]) == b[8 * OFF_CRC..];
    BitsOneToOne(f[OFF_CRC..], g[OFF_CRC..]);
    SameField(f, g);
    assert Bits(f[..OFF_CRC]) == a[..8 * OFF_CRC] && Bits(g[..OFF_CRC]) == b[..8 * OFF_CRC];
    if a[k..k + n] == b[k..k + n] {
      BitsOneToOne(f, g);
    } else {
      Burst(Start(), a[..k], a[k..k + n], b[k..k + n], a[k + n..8 * OFF_CRC]);
    }
  }

  lemma BurstInField(f: seq<bv8>, g: seq<bv8>, k: nat, n: nat)
    requires |f| == |g| == FRAME_SIZE && f != g && k >= 8 * OFF_CRC && k + n <= 8 * FRAME_SIZE &&
             DifferWithin(f, g, k, n)
    ensures f[..OFF_CRC] == g[..OFF_CRC] && Want(f) != Want(g)
  {
    hide Bits;
    hide Join;
    BitsSplit(f, OFF_CRC);
    BitsSplit(g, OFF_CRC);
    assert Bits(f[..OFF_CRC]) == Bits(f)[..k][..8 * OFF_CRC] && Bits(g[..OFF_CRC]) == Bits(g)[..k][..8 * OFF_CRC];
    BitsOneToOne(f[..OFF_CRC], g[..OFF_CRC]);
    assert f == f[..OFF_CRC] + [f[62], f[63]] && g == g[..OFF_CRC] + [g[62], g[63]];
    if Want(f) == Want(g) {
      JoinOneToOne(f[62], f[63], g[62], g[63]);
    }
  }

  /**
   * An accepted frame altered inside sixteen consecutive bits is refused, as long as those bits
   * do not reach across from the checked bytes into the checksum field.
   */
  lemma BurstRefused(f: seq<bv8>, g: seq<bv8>, k: nat, n: nat)
    requires |f| == |g| == FRAME_SIZE && Accepted(f) && f != g
    requires n <= 16 && k + n <= 8 * FRAME_SIZE && DifferWithin(f, g, k, n)
    requires k + n <= 8 * OFF_CRC || k >= 8 * OFF_CRC
    ensures !Accepted(g)
  {
    hide Reg;
    if k + n <= 8 * OFF_CRC {
      BurstInBody(f, g, k, n);
    } else {
      BurstInField(f, g, k, n);
      if Sealed(g) {
        RegOneToOne(Want(f), Want(g));
      }
    }
  }

  // ----- what the checksum misses -----

  lemma XorSelf(a: seq<bool>)
    ensures Xor(a, a) == Zeros(|a|)
  {
  }

  lemma SealsAlike(u: seq<bool>, v: seq<bool>, p: seq<bool>, q: seq<bool>)
    requires |u| == |v| && Register(p) && Register(q) && p == Over(Start(), u)
    ensures q == Over(Start(), v) <==> Over(Zeros(16), Xor(u, v)) == Xor(p, q)
  {
    hide Over;
    hide Xor;
    XorSelf(Start());
    OverLinear(Start(), Start(), u, v);
    if Xor(Over(Start(), u), Over(Start(), v)) == Xor(p, q) {
      XorCancels(p, Over(Start(), v), q);
    }
  }

  /** What the checksum covers, as bits. */
  function BodyBits(f: seq<bv8>): (r: seq<bool>)
    requires |f| == FRAME_SIZE
    ensures |r| == 8 * OFF_CRC
  {
    Bits(f[..OFF_CRC])
  }

  lemma SealedBits(f: seq<bv8>)
    requires |f| == FRAME_SIZE
    ensures Sealed(f) <==> Reg(Want(f)) == Over(Start(), BodyBits(f))
  {
  }

  function WordXor(a: bv16, b: bv16): bv16 {
    a ^ b
  }

  function ByteXor(a: bv8, b: bv8): bv8 {
    a ^ b
  }

  lemma RegWordXor(a: bv16, b: bv16)
    ensures Reg(WordXor(a, b)) == Xor(Reg(a), Reg(b))
  {
    RegXor(a, b);
  }

  /** The change of the checksum field, as a word. */
  function FieldChange(f: seq<bv8>, g: seq<bv8>): bv16
    requires |f| == |g| == FRAME_SIZE
  {
    WordXor(Want(f), Want(g))
  }

  /** The change of the body, run from the zero register, is the change of the field. */
  predicate ChangesMatch(f: seq<bv8>, g: seq<bv8>)
    requires |f| == |g| == FRAME_SIZE
  {
    Over(Zeros(16), Xor(BodyBits(f), BodyBits(g))) == Reg(FieldChange(f, g))
  }

  /** Alterations of an accepted frame are judged by the difference alone, whatever the frame. */
  lemma SealedByDifference(f: seq<bv8>, g: seq<bv8>)
    requires |f| == |g| == FRAME_SIZE && Sealed(f)
    ensures Sealed(g) <==> ChangesMatch(f, g)
  {
    hide *;
    SealedBits(f);
    SealedBits(g);
    RegFieldChange(f, g);
    ChangesMatchBits(f, g);
    SealsAlike(BodyBits(f), BodyBits(g), Reg(Want(f)), Reg(Want(g)));
  }

  lemma RegFieldChange(f: seq<bv8>, g: seq<bv8>)
    requires |f| == |g| == FRAME_SIZE
    ensures Reg(FieldChange(f, g)) == Xor(Reg(Want(f)), Reg(Want(g)))
  {
    hide WordXor;
    hide Want;
    hide Reg;
    hide Xor;
    RegWordXor(Want(f), Want(g));
  }

  lemma ChangesMatchBits(f: seq<bv8>, g: seq<bv8>)
    requires |f| == |g| == FRAME_SIZE
    ensures ChangesMatch(f, g) <==> Over(Zeros(16), Xor(BodyBits(f), BodyBits(g))) == Reg(FieldChange(f, g))
  {
  }

  function Twice(c: bv16): bv16 {
    CodeStep(CodeStep(c))
  }

  function Four(c: bv16): bv16 {
    Twice(Twice(c))
  }

  /** Sixteen steps of the code's register. */
  function Sixteen(c: bv16): bv16 {
    Four(Four(Four(Four(c))))
  }

  lemma RegTwice(c: bv16)
    ensures Reg(Twice(c)) == Step(Step(Reg(c)))
  {
    RegStep(c);
    RegStep(CodeStep(c));
    hide CodeStep;
  }

  lemma RegFour(c: bv16)
    ensures Reg(Four(c)) == Steps(Reg(c), 4)
  {
    RegTwice(c);
    RegTwice(Twice(c));
    hide Twice;
    hide Reg;
    hide Crc.Step;
    var r := Reg(c);
    assert Steps(Step(Step(Step(r))), 1) == Step(Step(Step(Step(r))));
    assert Steps(Step(Step(r)), 2) == Steps(Step(Step(Step(r))), 1);
    assert Steps(Step(r), 3) == Steps(Step(Step(r)), 2);
  }

  lemma {:induction false} StepsAdd(c: seq<bool>, m: nat, n: nat)
    requires Register(c)
    ensures Steps(c, m + n) == Steps(Steps(c, m), n)
    decreases m
  {
    if m > 0 {
      StepsAdd(Step(c), m - 1, n);
    }
  }

  lemma RegSixteen(c: bv16)
    ensures Reg(Sixteen(c)) == Steps(Reg(c), 16)
  {
    hide Four;
    hide Reg;
    hide Steps;
    RegFour(c);
    RegFour(Four(c));
    RegFour(Four(Four(c)));
    RegFour(Four(Four(Four(c))));
    StepsAdd(Reg(c), 4, 4);
    StepsAdd(Reg(c), 8, 4);
    StepsAdd(Reg(c), 12, 4);
  }

  lemma BitLow(b: bv8, k: nat)
    requires k < 16
    ensures Bit(b as bv16, k) == (k >= 8 && BitsOf(b)[k - 8])
  {
  }

  lemma JoinIsXor(a: bv8, b: bv8)
    ensures Join(b, a) == (b as bv16) ^ Raised(a)
  {
  }

  lemma JoinParts(a: bv8, b: bv8)
    ensures Reg(Join(b, a)) == Xor(Reg(b as bv16), Reg(Raised(a)))
  {
    hide *;
    JoinIsXor(a, b);
    RegXor(b as bv16, Raised(a));
  }

  lemma RegOfLow(b: bv8)
    ensures Reg(b as bv16) == Zeros(8) + BitsOf(b)
  {
    hide Bit;
    hide BitsOf;
    forall k | 0 <= k < 16 ensures Reg(b as bv16)[k] == (Zeros(8) + BitsOf(b))[k] {
      BitLow(b, k);
    }
  }

  lemma HalvesXor(u: seq<bool>, v: seq<bool>)
    requires |u| == |v| == 8
    ensures Xor(Zeros(8) + v, Top(u)) == u + v
  {
  }

  lemma BitsOfPair(a: bv8, b: bv8)
    ensures Bits([a, b]) == Reg(Join(b, a))
  {
    hide BitsOf;
    hide Reg;
    hide Join;
    hide Xor;
    assert Bits([a, b]) == BitsOf(a) + BitsOf(b) by {
      assert [a, b][1..] == [b];
      assert Bits([b]) == BitsOf(b);
    }
    JoinParts(a, b);
    RegOfLow(b);
    RegOfRaised(a);
    HalvesXor(BitsOf(a), BitsOf(b));
  }

  lemma JoinXor(a: bv8, b: bv8, c: bv8, d: bv8)
    ensures WordXor(Join(a, b), Join(c, d)) == Join(ByteXor(a, c), ByteXor(b, d))
  {
  }

  lemma DifferenceOfPairs(a: bv8, b: bv8, c: bv8, d: bv8)
    ensures Xor(Bits([a, b]), Bits([c, d])) == Reg(WordXor(Join(b, a), Join(d, c)))
  {
    hide *;
    BitsOfPair(a, b);
    BitsOfPair(c, d);
    RegWordXor(Join(b, a), Join(d, c));
  }

  lemma XorSplits(a: seq<bool>, u: seq<bool>, v: seq<bool>)
    requires |u| == |v|
    ensures Xor(a + u, a + v) == Zeros(|a|) + Xor(u, v)
  {
  }

  lemma OverAfterZeros(n: nat, d: seq<bool>)
    requires |d| == 16
    ensures Over(Zeros(16), Zeros(n) + d) == Steps(d, 16)
  {
    assert Xor(Zeros(16), Top(d)) == d;
    hide Over;
    hide Xor;
    hide Steps;
    hide Top;
    OverConcat(Zeros(16), Zeros(n), d);
    OverZeros(n);
    OverIsSteps(Zeros(16), d);
  }

  /** The body's difference, when only its last two bytes were touched, shifted to its end. */
  lemma DifferenceAtEnd(head: seq<bv8>, a: bv8, b: bv8, c: bv8, d: bv8)
    ensures Over(Zeros(16), Xor(Bits(head + [a, b]), Bits(head + [c, d]))) ==
            Reg(Sixteen(WordXor(Join(b, a), Join(d, c))))
  {
    hide *;
    BitsConcat(head, [a, b]);
    BitsConcat(head, [c, d]);
    XorSplits(Bits(head), Bits([a, b]), Bits([c, d]));
    DifferenceOfPairs(a, b, c, d);
    OverAfterZeros(|Bits(head)|, Reg(WordXor(Join(b, a), Join(d, c))));
    RegSixteen(WordXor(Join(b, a), Join(d, c)));
  }

  /** Two neighbouring bytes as a word, first byte on top. */
  function PairWord(f: seq<bv8>, at: nat): bv16
    requires at + 1 < |f|
  {
    Join(f[at + 1], f[at])
  }

  /** The change of two neighbouring bytes. */
  function PairChange(f: seq<bv8>, g: seq<bv8>, at: nat): bv16
    requires |f| == |g| && at + 1 < |f|
  {
    WordXor(PairWord(f, at), PairWord(g, at))
  }

  lemma BodyEnds(f: seq<bv8>, g: seq<bv8>)
    requires |f| == |g| == FRAME_SIZE && f[..60] == g[..60]
    ensures Over(Zeros(16), Xor(BodyBits(f), BodyBits(g))) == Reg(Sixteen(PairChange(f, g, 60)))
  {
    hide Join;
    hide Sixteen;
    hide WordXor;
    hide Bits;
    hide Reg;
    hide Over;
    hide Xor;
    assert f[..OFF_CRC] == f[..60] + [f[60], f[61]] && g[..OFF_CRC] == f[..60] + [g[60], g[61]];
    DifferenceAtEnd(f[..60], f[60], f[61], g[60], g[61]);
  }

  /** The last four bytes decide alone when the others are untouched. */
  lemma SealedByLastFour(f: seq<bv8>, g: seq<bv8>)
    requires |f| == |g| == FRAME_SIZE && Sealed(f) && f[..60] == g[..60]
    ensures Sealed(g) <==> Sixteen(PairChange(f, g, 60)) == FieldChange(f, g)
  {
    SealedByDifference(f, g);
    BodyEnds(f, g);
    assert ChangesMatch(f, g) <==> Reg(Sixteen(PairChange(f, g, 60))) == Reg(FieldChange(f, g));
    hide *;
    if Reg(Sixteen(PairChange(f, g, 60))) == Reg(FieldChange(f, g)) {
      RegOneToOne(Sixteen(PairChange(f, g, 60)), FieldChange(f, g));
    }
  }

  /** The changes of the last four bytes that a burst across the boundary can hide behind. */
  predicate Unseen(a: bv8, b: bv8, c: bv8, d: bv8) {
    || (a == 0x00 && b == 0x01 && c == 0x21 && d == 0x10)
    || (a == 0x00 && b == 0x02 && c == 0x42 && d == 0x20)
    || (a == 0x00 && b == 0x03 && c == 0x63 && d == 0x30)
    || (a == 0x00 && b == 0x04 && c == 0x84 && d == 0x40)
    || (a == 0x00 && b == 0x05 && c == 0xA5 && d == 0x50)
    || (a == 0x00 && b == 0x06 && c == 0xC6 && d == 0x60)
    || (a == 0x00 && b == 0x07 && c == 0xE7 && d == 0x70)
    || (a == 0x00 && b == 0x89 && c == 0xA1 && d == 0x00)
    || (a == 0x02 && b == 0x35 && c == 0x94 && d == 0x00)
    || (a == 0x08 && b == 0xC5 && c == 0x40 && d == 0x00)
    || (a == 0x11 && b == 0x8A && c == 0x80 && d == 0x00)
    || (a == 0x19 && b == 0x4F && c == 0xC0 && d == 0x00)
  }

  predicate Listed(x: bv16) {
    || x == 0x0001 || x == 0x0002 || x == 0x0003 || x == 0x0004 || x == 0x0005 || x == 0x0006
    || x == 0x0007 || x == 0x0089 || x == 0x0235 || x == 0x08C5 || x == 0x118A || x == 0x194F
  }

  /** What the register makes of each listed change. */
  lemma ListedChanges()
    ensures Join(0x01, 0x00) == 0x0001 && Sixteen(Join(0x01, 0x00)) == Join(0x21, 0x10)
    ensures Join(0x02, 0x00) == 0x0002 && Sixteen(Join(0x02, 0x00)) == Join(0x42, 0x20)
    ensures Join(0x03, 0x00) == 0x0003 && Sixteen(Join(0x03, 0x00)) == Join(0x63, 0x30)
    ensures Join(0x04, 0x00) == 0x0004 && Sixteen(Join(0x04, 0x00)) == Join(0x84, 0x40)
    ensures Join(0x05, 0x00) == 0x0005 && Sixteen(Join(0x05, 0x00)) == Join(0xA5, 0x50)
    ensures Join(0x06, 0x00) == 0x0006 && Sixteen(Join(0x06, 0x00)) == Join(0xC6, 0x60)
    ensures Join(0x07, 0x00) == 0x0007 && Sixteen(Join(0x07, 0x00)) == Join(0xE7, 0x70)
    ensures Join(0x89, 0x00) == 0x0089 && Sixteen(Join(0x89, 0x00)) == Join(0xA1, 0x00)
    ensures Join(0x35, 0x02) == 0x0235 && Sixteen(Join(0x35, 0x02)) == Join(0x94, 0x00)
    ensures Join(0xC5, 0x08) == 0x08C5 && Sixteen(Join(0xC5, 0x08)) == Join(0x40, 0x00)
    ensures Join(0x8A, 0x11) == 0x118A && Sixteen(Join(0x8A, 0x11)) == Join(0x80, 0x00)
    ensures Join(0x4F, 0x19) == 0x194F && Sixteen(Join(0x4F, 0x19)) == Join(0xC0, 0x00)
  {
  }

  lemma OneChange(a: bv8, b: bv8, c: bv8, d: bv8, p: bv8, q: bv8, r: bv8, s: bv8)
    requires Sixteen(Join(q, p)) == Join(r, s)
    ensures Join(b, a) == Join(q, p) && Sixteen(Join(b, a)) == Join(c, d) <==> a == p && b == q && c == r && d == s
  {
    hide Sixteen;
    if Join(b, a) == Join(q, p) && Sixteen(Join(b, a)) == Join(c, d) {
      JoinOneToOne(b, a, q, p);
      JoinOneToOne(c, d, r, s);
    }
  }

  lemma UnseenIsListed(a: bv8, b: bv8, c: bv8, d: bv8)
    ensures Unseen(a, b, c, d) <==> Listed(Join(b, a)) && Sixteen(Join(b, a)) == Join(c, d)
  {
    hide Sixteen;
    hide Join;
    ListedChanges();
    OneChange(a, b, c, d, 0x00, 0x01, 0x21, 0x10);
    OneChange(a, b, c, d, 0x00, 0x02, 0x42, 0x20);
    OneChange(a, b, c, d, 0x00, 0x03, 0x63, 0x30);
    OneChange(a, b, c, d, 0x00, 0x04, 0x84, 0x40);
    OneChange(a, b, c, d, 0x00, 0x05, 0xA5, 0x50);
    OneChange(a, b, c, d, 0x00, 0x06, 0xC6, 0x60);
    OneChange(a, b, c, d, 0x00, 0x07, 0xE7, 0x70);
    OneChange(a, b, c, d, 0x00, 0x89, 0xA1, 0x00);
    OneChange(a, b, c, d, 0x02, 0x35, 0x94, 0x00);
    OneChange(a, b, c, d, 0x08, 0xC5, 0x40, 0x00);
    OneChange(a, b, c, d, 0x11, 0x8A, 0x80, 0x00);
    OneChange(a, b, c, d, 0x19, 0x4F, 0xC0, 0x00);
  }

  function Swapped(c: bv16): bv16 {
    (c << 8) | (c >> 8)
  }

  /**
   * A change `x` below bit `p` of the last two body bytes shows, sixteen steps later, below
   * bit `p` of the field as it lies in the frame, unless it is a listed one.
   */
  predicate Shows(x: bv16, p: bv16) {
    x < p && Swapped(Sixteen(x)) & (p - 1) == 0 ==> x == 0 || Listed(x)
  }

  lemma ShowsLow(x: bv16)
    ensures Shows(x, 0x0002) && Shows(x, 0x0004) && Shows(x, 0x0008) && Shows(x, 0x0010)
  {
  }

  lemma Shows5(x: bv16)
    ensures Shows(x, 0x0020)
  {
  }

  lemma Shows6(x: bv16)
    ensures Shows(x, 0x0040)
  {
  }

  lemma Shows7(x: bv16)
    ensures Shows(x, 0x0080)
  {
  }

  lemma Shows8(x: bv16)
    ensures Shows(x, 0x0100)
  {
  }

  lemma Shows9(x: bv16)
    ensures Shows(x, 0x0200)
  {
  }

  lemma Shows10(x: bv16)
    ensures Shows(x, 0x0400)
  {
  }

  lemma Shows11(x: bv16)
    ensures Shows(x, 0x0800)
  {
  }

  lemma Shows12(x: bv16)
    ensures Shows(x, 0x1000)
  {
  }

  lemma Shows13(x: bv16)
    ensures Shows(x, 0x2000)
  {
  }

  lemma Shows14(x: bv16)
    ensures Shows(x, 0x4000)
  {
  }

  lemma Shows15(x: bv16)
    ensures Shows(x, 0x8000)
  {
  }

  lemma ShowsAt(x: bv16, m: nat)
    requires 1 <= m < 16
    ensures Shows(x, Mask(m - 1))
  {
    ShowsLow(x);
    Shows5(x);
    Shows6(x);
    Shows7(x);
    Shows8(x);
    Shows9(x);
    Shows10(x);
    Shows11(x);
    Shows12(x);
    Shows13(x);
    Shows14(x);
    Shows15(x);
    hide Shows;
  }

  lemma HalvedMask(m: nat)
    requires 1 <= m < 16
    ensures Mask(m) == Mask(m - 1) >> 1 && Mask(m) & (Mask(m) - 1) == 0 && Mask(m) != 0
    ensures Mask(m - 1) - 1 == Mask(m) | (Mask(m) - 1)
  {
  }

  lemma BelowHalf(x: bv16, p: bv16, q: bv16)
    requires q == p >> 1 && q & (q - 1) == 0 && q != 0 && p - 1 == q | (q - 1)
    requires x < p && x & q == 0
    ensures x < q
  {
  }

  lemma ClearBelow(y: bv16, q: bv16, r: bv16)
    requires y & q == 0 && y & (q - 1) == 0 && r == q | (q - 1)
    ensures y & r == 0
  {
  }

  lemma {:induction false} TopClear(x: bv16, m: nat)
    requires 1 <= m <= 16 && forall k :: 0 <= k < m ==> !Bit(x, k)
    ensures x < Mask(m - 1)
  {
    if m == 1 {
      assert !Bit(x, 0);
    } else {
      TopClear(x, m - 1);
      assert !Bit(x, m - 1);
      HalvedMask(m - 1);
      hide Mask;
      BelowHalf(x, Mask(m - 2), Mask(m - 1));
    }
  }

  lemma {:induction false} LowClear(y: bv16, m: nat)
    requires 1 <= m <= 16 && forall k :: m <= k < 16 ==> !Bit(y, k)
    ensures y & (Mask(m - 1) - 1) == 0
    decreases 16 - m
  {
    if m < 16 {
      LowClear(y, m + 1);
      assert !Bit(y, m);
      HalvedMask(m);
      hide Mask;
      ClearBelow(y, Mask(m), Mask(m - 1) - 1);
    }
  }

  // ----- exactly which bursts go unseen -----

  lemma PairAt(f: seq<bv8>, at: nat, p: nat)
    requires at + 1 < |f| && p < 16
    ensures Bits([f[at], f[at + 1]])[p] == Bits(f)[8 * at + p]
  {
    hide Bits;
    assert f == f[..at] + ([f[at], f[at + 1]] + f[at + 2..]);
    BitsConcat(f[..at], [f[at], f[at + 1]] + f[at + 2..]);
    BitsConcat([f[at], f[at + 1]], f[at + 2..]);
  }

  lemma PairChangeBit(f: seq<bv8>, g: seq<bv8>, at: nat, p: nat)
    requires |f| == |g| && at + 1 < |f| && p < 16
    ensures Bit(PairChange(f, g, at), p) == (Bits(f)[8 * at + p] != Bits(g)[8 * at + p])
  {
    hide Bits;
    hide Join;
    hide WordXor;
    hide Bit;
    DifferenceOfPairs(f[at], f[at + 1], g[at], g[at + 1]);
    PairAt(f, at, p);
    PairAt(g, at, p);
    assert Reg(PairChange(f, g, at))[p] == Bit(PairChange(f, g, at), p);
  }

  lemma SameOutside(a: seq<bool>, b: seq<bool>, k: nat, n: nat, q: nat)
    requires |a| == |b| && k + n <= |a| && a[..k] == b[..k] && a[k + n..] == b[k + n..]
    requires q < k || k + n <= q < |a|
    ensures a[q] == b[q]
  {
    if q < k {
      assert a[..k][q] == b[..k][q];
    } else {
      assert a[k + n..][q - k - n] == b[k + n..][q - k - n];
    }
  }

  /** Sixteen bits across the boundary leave the first sixty bytes alone. */
  lemma HeadUntouched(f: seq<bv8>, g: seq<bv8>, k: nat, n: nat)
    requires |f| == |g| == FRAME_SIZE && 480 <= k && k + n <= 512 && DifferWithin(f, g, k, n)
    ensures f[..60] == g[..60]
  {
    hide Bits;
    BitsSplit(f, 60);
    BitsSplit(g, 60);
    assert Bits(f[..60]) == Bits(f)[..k][..480] == Bits(g)[..k][..480] == Bits(g[..60]);
    BitsOneToOne(f[..60], g[..60]);
  }

  /** The part of a straddling burst before the boundary lies low, the part behind it high. */
  lemma StraddlingChange(f: seq<bv8>, g: seq<bv8>, k: nat, n: nat)
    requires |f| == |g| == FRAME_SIZE && n <= 16 && k < 496 < k + n <= 512 && DifferWithin(f, g, k, n)
    ensures PairChange(f, g, 60) < Mask(k - 481)
    ensures PairChange(f, g, 62) & (Mask(k - 481) - 1) == 0
  {
    hide Bit;
    hide Bits;
    hide Mask;
    hide PairChange;
    forall p | 0 <= p < k - 480 ensures !Bit(PairChange(f, g, 60), p) {
      PairChangeBit(f, g, 60, p);
      SameOutside(Bits(f), Bits(g), k, n, 480 + p);
    }
    TopClear(PairChange(f, g, 60), k - 480);
    forall p | k - 480 <= p < 16 ensures !Bit(PairChange(f, g, 62), p) {
      PairChangeBit(f, g, 62, p);
      SameOutside(Bits(f), Bits(g), k, n, 496 + p);
    }
    LowClear(PairChange(f, g, 62), k - 480);
  }

  lemma SwapJoin(a: bv8, b: bv8)
    ensures Swapped(Join(a, b)) == Join(b, a)
  {
  }

  lemma NothingShown()
    ensures Sixteen(0) == 0
  {
  }

  lemma JoinZero(a: bv8, b: bv8, c: bv8, d: bv8)
    requires Join(ByteXor(a, b), ByteXor(c, d)) == 0
    ensures a == b && c == d
  {
  }

  lemma SameLastFour(f: seq<bv8>, g: seq<bv8>)
    requires |f| == |g| == FRAME_SIZE && f[..60] == g[..60]
    requires f[60] == g[60] && f[61] == g[61] && f[62] == g[62] && f[63] == g[63]
    ensures f == g
  {
    assert f == f[..60] + [f[60], f[61], f[62], f[63]];
    assert g == g[..60] + [g[60], g[61], g[62], g[63]];
  }

  predicate UnseenChange(f: seq<bv8>, g: seq<bv8>)
    requires |f| == |g| == FRAME_SIZE
  {
    f[..60] == g[..60] && Unseen(ByteXor(f[60], g[60]), ByteXor(f[61], g[61]), ByteXor(f[62], g[62]),
      ByteXor(f[63], g[63]))
  }

  lemma UnseenByWords(f: seq<bv8>, g: seq<bv8>)
    requires |f| == |g| == FRAME_SIZE && f[..60] == g[..60]
    ensures UnseenChange(f, g) <==> Listed(PairChange(f, g, 60)) && Sixteen(PairChange(f, g, 60)) == FieldChange(f, g)
  {
    hide Unseen;
    hide Listed;
    hide Sixteen;
    hide WordXor;
    hide ByteXor;
    hide Join;
    JoinXor(f[61], f[60], g[61], g[60]);
    JoinXor(f[62], f[63], g[62], g[63]);
    UnseenIsListed(ByteXor(f[60], g[60]), ByteXor(f[61], g[61]), ByteXor(f[62], g[62]), ByteXor(f[63], g[63]));
  }

  lemma FieldSwaps(f: seq<bv8>, g: seq<bv8>)
    requires |f| == |g| == FRAME_SIZE
    ensures Swapped(FieldChange(f, g)) == PairChange(f, g, 62)
  {
    hide WordXor;
    hide ByteXor;
    hide Join;
    hide Swapped;
    JoinXor(f[62], f[63], g[62], g[63]);
    JoinXor(f[63], f[62], g[63], g[62]);
    SwapJoin(ByteXor(f[62], g[62]), ByteXor(f[63], g[63]));
  }

  lemma ZeroChange(f: seq<bv8>, g: seq<bv8>, at: nat)
    requires |f| == |g| && at + 1 < |f| && PairChange(f, g, at) == 0
    ensures f[at] == g[at] && f[at + 1] == g[at + 1]
  {
    hide WordXor;
    hide ByteXor;
    hide Join;
    JoinXor(f[at + 1], f[at], g[at + 1], g[at]);
    JoinZero(f[at + 1], g[at + 1], f[at], g[at]);
  }

  /** A straddling burst that stays sealed is one of the listed ones. */
  lemma StraddleListed(f: seq<bv8>, g: seq<bv8>, k: nat, n: nat)
    requires |f| == |g| == FRAME_SIZE && f != g && f[..60] == g[..60]
    requires n <= 16 && k < 496 < k + n <= 512 && DifferWithin(f, g, k, n)
    requires Sixteen(PairChange(f, g, 60)) == FieldChange(f, g)
    ensures Listed(PairChange(f, g, 60))
  {
    hide Sixteen;
    hide Swapped;
    hide Mask;
    hide Listed;
    hide PairChange;
    hide FieldChange;
    hide Bits;
    var x := PairChange(f, g, 60);
    StraddlingChange(f, g, k, n);
    FieldSwaps(f, g);
    ShowsAt(x, k - 480);
    if x == 0 {
      NothingShown();
      SwappedZero();
      ZeroChange(f, g, 60);
      ZeroChange(f, g, 62);
      SameLastFour(f, g);
    }
  }

  lemma SwappedZero()
    ensures Swapped(0) == 0
  {
  }

  /** Framing looks at the first three bytes only. */
  lemma AcceptedWhenSealed(f: seq<bv8>, g: seq<bv8>)
    requires |f| == |g| == FRAME_SIZE && Accepted(f) && f[..60] == g[..60]
    ensures Accepted(g) <==> Sealed(g)
  {
    hide Sealed;
    assert f[0] == f[..60][0] == g[0] && f[2] == f[..60][2] == g[2];
  }

  /** The listed changes go unseen in every accepted frame. */
  lemma StraddleUnseen(f: seq<bv8>, g: seq<bv8>)
    requires |f| == |g| == FRAME_SIZE && Accepted(f) && UnseenChange(f, g)
    ensures Accepted(g) && f != g
  {
    hide Sealed;
    hide Sixteen;
    hide Listed;
    hide Unseen;
    hide PairChange;
    hide FieldChange;
    AcceptedWhenSealed(f, g);
    UnseenByWords(f, g);
    SealedByLastFour(f, g);
    NothingUnseen(f[60], f[61], f[62], f[63]);
  }

  lemma NothingUnseen(a: bv8, b: bv8, c: bv8, d: bv8)
    ensures !Unseen(ByteXor(a, a), ByteXor(b, b), ByteXor(c, c), ByteXor(d, d))
  {
    assert ByteXor(a, a) == 0 && ByteXor(b, b) == 0 && ByteXor(c, c) == 0 && ByteXor(d, d) == 0;
    hide ByteXor;
  }

  /**
   * An accepted frame altered inside any sixteen consecutive bits is still accepted if and only
   * if the change is one of twelve to its last four bytes, across the checksum's boundary.
   */
  lemma BurstAccepted(f: seq<bv8>, g: seq<bv8>, k: nat, n: nat)
    requires |f| == |g| == FRAME_SIZE && Accepted(f) && f != g
    requires n <= 16 && k + n <= 8 * FRAME_SIZE && DifferWithin(f, g, k, n)
    ensures Accepted(g) <==> UnseenChange(f, g)
    ensures Accepted(g) ==> k < 8 * OFF_CRC < k + n
  {
    hide Sealed;
    hide Sixteen;
    hide Listed;
    hide PairChange;
    hide FieldChange;
    hide UnseenChange;
    hide Bits;
    if UnseenChange(f, g) {
      StraddleUnseen(f, g);
    }
    if k + n <= 8 * OFF_CRC || k >= 8 * OFF_CRC {
      BurstRefused(f, g, k, n);
    } else {
      HeadUntouched(f, g, k, n);
      AcceptedWhenSealed(f, g);
      SealedByLastFour(f, g);
      UnseenByWords(f, g);
      if Accepted(g) {
        StraddleListed(f, g, k, n);
      }
    }
  }

  /** How many of the sixteen bits lie before the boundary. */
  function BitsBefore(x: bv16): (m: nat)
    ensures m in {13, 8, 6, 3}
  {
    if x <= 0x0007 then 13 else if x == 0x0089 then 8 else if x == 0x0235 then 6 else 3
  }

  lemma WithinSixteen(a: bv8, b: bv8, c: bv8, d: bv8)
    requires Unseen(a, b, c, d)
    ensures var m := BitsBefore(Join(b, a)); Join(b, a) < Mask(m - 1) && Join(d, c) & (Mask(m - 1) - 1) == 0
  {
    Masks();
    hide Mask;
  }

  lemma BitBelow(x: bv16, p: bv16, q: bv16)
    requires Below(x, p) && (p == q || Below(p, q)) && OneBit(p) && OneBit(q)
    ensures !On(x, q)
  {
  }

  lemma BitAbove(y: bv16, p: bv16, q: bv16)
    requires y & (p - 1) == 0 && q < p && p & (p - 1) == 0 && q & (q - 1) == 0
    ensures y & q == 0
  {
  }

  lemma {:induction false} MasksFall(k: nat, m: nat)
    requires k < m < 16
    ensures Mask(m) < Mask(k)
  {
    HalvedMask(m);
    hide Mask;
    if k < m - 1 {
      MasksFall(k, m - 1);
    }
  }

  predicate OneBit(q: bv16) {
    q & (q - 1) == 0
  }

  predicate Below(x: bv16, p: bv16) {
    x < p
  }

  lemma MaskOneBit(k: nat)
    requires k < 16
    ensures OneBit(Mask(k))
  {
    MaskIsOneBit(k);
    hide Mask;
  }

  lemma NotOn(x: bv16, k: nat, q: bv16)
    requires k < 16 && q == Mask(k) && !On(x, q)
    ensures !Bit(x, k)
  {
    hide Mask;
  }

  lemma ClearAbove(x: bv16, m: nat, k: nat)
    requires 1 <= m < 16 && k < m && Below(x, Mask(m - 1))
    ensures !Bit(x, k)
  {
    hide Mask;
    hide OneBit;
    hide Below;
    hide On;
    hide Bit;
    MaskOneBit(k);
    MaskOneBit(m - 1);
    MaskRises(k, m - 1);
    BitBelow(x, Mask(m - 1), Mask(k));
    NotOn(x, k, Mask(k));
  }

  lemma MaskRises(k: nat, m: nat)
    requires k <= m < 16
    ensures k == m || Below(Mask(m), Mask(k))
  {
    hide Mask;
    if k < m {
      MasksFall(k, m);
    }
  }

  lemma ClearUnder(y: bv16, m: nat, k: nat)
    requires 1 <= m <= k < 16 && y & (Mask(m - 1) - 1) == 0
    ensures !Bit(y, k)
  {
    MaskIsOneBit(k);
    MaskIsOneBit(m - 1);
    MasksFall(m - 1, k);
    hide Mask;
    BitAbove(y, Mask(m - 1), Mask(k));
  }

  lemma SameBitOutside(f: seq<bv8>, g: seq<bv8>, m: nat, p: nat)
    requires |f| == |g| == FRAME_SIZE && f[..60] == g[..60] && 1 <= m < 16 && p < 512 && !(480 + m <= p < 496 + m)
    requires PairChange(f, g, 60) < Mask(m - 1) && PairChange(f, g, 62) & (Mask(m - 1) - 1) == 0
    ensures Bits(f)[p] == Bits(g)[p]
  {
    hide PairChange;
    hide Bits;
    hide Bit;
    hide Mask;
    if p < 480 {
      BitsSplit(f, 60);
      BitsSplit(g, 60);
      assert Bits(f)[p] == Bits(f[..60])[p] && Bits(g)[p] == Bits(g[..60])[p];
    } else {
      var at := if p < 496 then 60 else 62;
      PairChangeBit(f, g, at, p - 8 * at);
      if p < 496 {
        assert Below(PairChange(f, g, 60), Mask(m - 1));
        ClearAbove(PairChange(f, g, 60), m, p - 480);
      } else {
        ClearUnder(PairChange(f, g, 62), m, p - 496);
      }
    }
  }

  /** And each of them is a burst of sixteen bits across the boundary. */
  lemma UnseenIsBurst(f: seq<bv8>, g: seq<bv8>)
    requires |f| == |g| == FRAME_SIZE && UnseenChange(f, g)
    ensures exists k :: 480 < k < 496 && DifferWithin(f, g, k, 16)
  {
    UnseenWithin(f, g);
    var m := BitsBefore(PairChange(f, g, 60));
    hide BitsBefore;
    hide UnseenChange;
    hide PairChange;
    hide Bits;
    hide Mask;
    var u, v := Bits(f), Bits(g);
    forall p | 0 <= p < 512 && !(480 + m <= p < 496 + m) ensures u[p] == v[p] {
      SameBitOutside(f, g, m, p);
    }
    assert u[..480 + m] == v[..480 + m];
    assert u[496 + m..] == v[496 + m..];
    assert DifferWithin(f, g, 480 + m, 16);
  }

  lemma UnseenWithin(f: seq<bv8>, g: seq<bv8>)
    requires |f| == |g| == FRAME_SIZE && UnseenChange(f, g)
    ensures f[..60] == g[..60]
    ensures var x, y := PairChange(f, g, 60), PairChange(f, g, 62);
            var m := BitsBefore(x); x < Mask(m - 1) && y & (Mask(m - 1) - 1) == 0
  {
    hide Unseen;
    hide BitsBefore;
    hide WordXor;
    hide ByteXor;
    hide Join;
    hide Mask;
    JoinXor(f[61], f[60], g[61], g[60]);
    JoinXor(f[63], f[62], g[63], g[62]);
    WithinSixteen(ByteXor(f[60], g[60]), ByteXor(f[61], g[61]), ByteXor(f[62], g[62]), ByteXor(f[63], g[63]));
  }

  // ----- the two receivers -----

  /** The host's end: its counters, its callback, and the reply a request waits for. */
  class Host {
    var blankFrames: nat
    var crcErrors: nat
    var framesRx: nat
    var awaiting: bool
    var haveReply: bool
    var pendingType: bv8
    var pendingReply: Frame
    /** Frames given to the callback. */
    var delivered: seq<Frame>
    /** Frames kept as replies. */
    ghost var replies: seq<Frame>
    /** How many replies there were when the last request was made. */
    ghost var asked: nat

    ghost predicate Valid()
      reads this
    {
      && framesRx == |delivered| + |replies|
      && asked <= |replies|
      && (haveReply ==> asked < |replies| && pendingReply == replies[|replies| - 1]
                        && pendingReply.kind == pendingType && pendingReply.flags & FLAG_REPLY != 0)
    }

    constructor ()
      ensures Valid() && delivered == [] && replies == [] && !awaiting
      ensures blankFrames == crcErrors == 0
    {
      blankFrames, crcErrors, framesRx := 0, 0, 0;
      awaiting, haveReply, pendingType := false, false, TYPE_IDLE;
      pendingReply := Frame(0, 0, 0, []);
      delivered, replies, asked := [], [], 0;
    }

    method Expect(kind: bv8)
      requires Valid()
      modifies `awaiting, `haveReply, `pendingType, `asked
      ensures Valid() && awaiting && !haveReply && pendingType == kind && asked == |replies|
    {
      asked := |replies|;
      pendingType, haveReply, awaiting := kind, false, true;
    }

    /** A request that was answered gets the latest reply of its own type, received since it was made. */
    method Collect() returns (got: bool, reply: Frame)
      requires Valid()
      modifies `awaiting
      ensures Valid() && !awaiting && got == haveReply
      ensures got ==> asked < |replies| && reply == replies[|replies| - 1]
      ensures got ==> reply.kind == pendingType && reply.flags & FLAG_REPLY != 0
    {
      awaiting, got, reply := false, haveReply, pendingReply;
    }

    /** Every frame carrying something goes exactly one way, to the waiting request or to the callback. */
    method Parse(f: seq<bv8>) returns (ok: bool, more: bool)
      requires |f| == FRAME_SIZE && Valid()
      modifies `blankFrames, `crcErrors, `framesRx, `haveReply, `pendingReply, `delivered, `replies
      ensures Valid()
      ensures ok <==> Accepted(f)
      ensures ok ==> more == Judge(f).more
      ensures match Judge(f)
              case Carries(frame, _) =>
                if frame.flags & FLAG_REPLY != 0 && awaiting && pendingType == frame.kind then
                  haveReply && pendingReply == frame && replies == old(replies) + [frame] && delivered == old(delivered)
                else
                  delivered == old(delivered) + [frame] && replies == old(replies) && haveReply == old(haveReply)
              case _ => delivered == old(delivered) && replies == old(replies) && haveReply == old(haveReply)
      ensures blankFrames - old(blankFrames) == if Judge(f).Unframed? && f == Blank(FRAME_SIZE) then 1 else 0
      ensures blankFrames + crcErrors - old(blankFrames + crcErrors) == if ok then 0 else 1
    {
      hide Reg;
      ok, more := false, false;
      if f[0] != MAGIC || f[2] > 58 {
        var blank := IsBlank(f);
        if blank {
          blankFrames := blankFrames + 1;
        } else {
          crcErrors := crcErrors + 1;
        }
        return;
      }
      var want := Join(f[62], f[63]);
      var crc := Crc16(f[..OFF_CRC]);
      if want == crc {
        assert Sealed(f);
      } else {
        if Sealed(f) {
          RegOneToOne(want, crc);
        }
        crcErrors := crcErrors + 1;
        return;
      }
      ok, more := true, f[3] & FLAG_MORE != 0;
      if f[1] == TYPE_IDLE {
        return;
      }
      var frame := Frame(f[1], f[2], f[3], f[OFF_PAYLOAD..OFF_CRC]);
      framesRx := framesRx + 1;
      if frame.flags & FLAG_REPLY != 0 && awaiting && pendingType == frame.kind {
        pendingReply, haveReply, replies := frame, true, replies + [frame];
      } else {
        delivered := delivered + [frame];
      }
    }
  }

  method IsBlank(f: seq<bv8>) returns (blank: bool)
    ensures blank <==> f == Blank(|f|)
  {
    blank := true;
    for i := 0 to |f|
      invariant blank
      invariant forall k | 0 <= k < i :: f[k] == 0
    {
      if f[i] != 0 {
        assert Blank(|f|)[i] == 0;
        return false;
      }
    }
  }

  /** The northbridge's end: a bounded queue of frames for its tasks. */
  class Peripheral {
    const depth: nat
    var queue: seq<Frame>
    var rxCount: nat
    var rxDropped: nat
    var idleRx: nat
    var zeroRx: nat
    var crcErrors: nat
    /** Frames taken off the queue by its reader. */
    ghost var taken: seq<Frame>
    /** Transfers completed. */
    ghost var transfers: nat

    ghost predicate Valid()
      reads this
    {
      && |queue| <= depth
      && rxCount == |taken| + |queue|
      && transfers == rxCount + rxDropped + idleRx + zeroRx + crcErrors
    }

    constructor (depth: nat)
      ensures Valid() && this.depth == depth && taken == queue == [] && transfers == 0
    {
      this.depth := depth;
      queue, taken := [], [];
      rxCount, rxDropped, idleRx, zeroRx, crcErrors, transfers := 0, 0, 0, 0, 0, 0;
    }

    method Take() returns (frame: Frame)
      requires Valid() && queue != []
      modifies `queue, `taken
      ensures Valid() && [frame] + queue == old(queue) && taken == old(taken) + [frame]
    {
      frame := queue[0];
      queue, taken := queue[1..], taken + [frame];
    }

    /** The end-of-transfer interrupt: the firmware accepts exactly the frames the host accepts. */
    method Landed(f: seq<bv8>)
      requires |f| == FRAME_SIZE && Valid()
      modifies `queue, `rxCount, `rxDropped, `idleRx, `zeroRx, `crcErrors, `transfers
      ensures Valid() && transfers == old(transfers) + 1
      ensures Judge(f).Carries? && |old(queue)| < depth ==> queue == old(queue) + [Judge(f).frame]
      ensures !Judge(f).Carries? || |old(queue)| == depth ==> queue == old(queue)
      ensures rxDropped > old(rxDropped) <==> Judge(f).Carries? && |old(queue)| == depth
      ensures idleRx > old(idleRx) <==> Judge(f).Idle?
      ensures zeroRx > old(zeroRx) <==> !Framed(f) && f[0] == 0
      ensures crcErrors > old(crcErrors) <==> !Accepted(f) && (Framed(f) || f[0] != 0)
    {
      hide Reg;
      transfers := transfers + 1;
      if f[0] == MAGIC && f[2] <= 58 {
        var want := Join(f[62], f[63]);
        var crc := Crc16(f[..OFF_CRC]);
        if want == crc {
          assert Sealed(f);
          if f[1] != TYPE_IDLE {
            if |queue| == depth {
              rxDropped := rxDropped + 1;
            } else {
              queue := queue + [Frame(f[1], f[2], f[3], f[OFF_PAYLOAD..OFF_CRC])];
              rxCount := rxCount + 1;
            }
          } else {
            idleRx := idleRx + 1;
          }
        } else {
          if Sealed(f) {
            RegOneToOne(want, crc);
          }
          crcErrors := crcErrors + 1;
        }
      } else if f[0] != 0 {
        crcErrors := crcErrors + 1;
      } else {
        zeroRx := zeroRx + 1;
      }
    }
  }
}
