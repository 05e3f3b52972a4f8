/** Which bytes are a packet, what its checksum sees, and which first packet opens a session. */
module OtaPackets {
  import opened Bytes
  import opened Md5
  import opened Ota

  // ----- the checksum -----

  function Word(b: byte): bv8 {
    b as bv8
  }

  function WordXor(a: bv8, b: bv8): bv8 {
    a ^ b
  }

  predicate On(w: bv8, m: bv8) {
    w & m != 0
  }

  /** Bit `m` is set in `b`; `m` is the bit's place value. */
  predicate Set(b: byte, m: bv8) {
    On(Word(b), m)
  }

  predicate OneBit(m: bv8) {
    m != 0 && m & (m - 1) == 0
  }

  /** How many bytes have the bit set. */
  function Ones(data: seq<byte>, m: bv8): nat {
    if data == [] then 0 else (if Set(data[0], m) then 1 else 0) + Ones(data[1..], m)
  }

  lemma XorBits(a: bv8, b: bv8, m: bv8)
    requires OneBit(m)
    ensures On(WordXor(a, b), m) == (On(a, m) != On(b, m))
  {
  }

  lemma WordBack(x: bv8)
    ensures (x as byte) as bv8 == x
  {
  }

  lemma XorWord(a: byte, b: byte)
    ensures Word(Xor(a, b)) == WordXor(Word(a), Word(b))
  {
    WordBack((a as bv8) ^ (b as bv8));
  }

  lemma SetXor(a: byte, b: byte, m: bv8)
    requires OneBit(m)
    ensures Set(Xor(a, b), m) == (Set(a, m) != Set(b, m))
  {
    XorWord(a, b);
    hide Xor;
    hide OneBit;
    hide Word;
    hide WordXor;
    hide On;
    XorBits(Word(a), Word(b), m);
  }

  lemma {:induction false} OnesSnoc(data: seq<byte>, b: byte, m: bv8)
    ensures Ones(data + [b], m) == Ones(data, m) + if Set(b, m) then 1 else 0
  {
    hide Set;
    if data != [] {
      OnesSnoc(data[1..], b, m);
      assert (data + [b])[1..] == data[1..] + [b];
    } else {
      assert (data + [b])[1..] == [];
    }
  }

  /** A bit of the checksum is set when an odd number of bytes have it set. */
  lemma {:induction false} ChecksumIsParity(data: seq<byte>, m: bv8)
    requires OneBit(m)
    ensures Set(XorSum(data), m) <==> Ones(data, m) % 2 == 1
  {
    hide Xor;
    hide OneBit;
    if data == [] {
      NothingSet(m);
    } else {
      var n := |data| - 1;
      ChecksumIsParity(data[..n], m);
      SetXor(XorSum(data[..n]), data[n], m);
      OnesSnoc(data[..n], data[n], m);
      assert data[..n] + [data[n]] == data;
      hide Set;
    }
  }

  lemma NothingSet(m: bv8)
    ensures !Set(0, m)
  {
  }

  // ----- packets -----

  lemma LowDigit(a: nat, d: byte)
    ensures (0x100 * a + d) % 0x100 == d && (0x100 * a + d) / 0x100 == a
  {
  }

  lemma FourDigits(p: byte, q: byte, r: byte, t: byte)
    ensures var v := p as int + 0x100 * q as int + 0x1_0000 * r as int + 0x100_0000 * t as int;
            v % 0x100 == p && v / 0x100 % 0x100 == q && v / 0x100 / 0x100 % 0x100 == r && v / 0x100 / 0x100 / 0x100 == t
  {
    LowDigit(q as int + 0x100 * r as int + 0x1_0000 * t as int, p);
    LowDigit(r as int + 0x100 * t as int, q);
    LowDigit(t, r);
  }

  lemma WordBytes(s: seq<byte>, i: nat)
    requires i + 4 <= |s|
    ensures LE32(U32At(s, i)) == s[i..i + 4]
  {
    FourDigits(s[i], s[i + 1], s[i + 2], s[i + 3]);
    assert s[i..i + 4] == [s[i], s[i + 1], s[i + 2], s[i + 3]];
  }

  lemma InPieces(s: seq<byte>, end: nat)
    requires 6 <= end < |s|
    ensures s == [s[0], s[1]] + s[2..6] + s[6..end] + [s[end]] + s[end + 1..]
  {
    assert s[..2] == [s[0], s[1]];
    assert s == s[..2] + s[2..6] + s[6..end] + s[end..];
    assert s[end..] == [s[end]] + s[end + 1..];
    Assoc(s[..2] + s[2..6] + s[6..end], [s[end]], s[end + 1..]);
  }

  lemma ParsedIsEncoded(s: seq<byte>)
    requires Parse(s).Got?
    ensures |Parse(s).packet.payload| <= PKT_BUF && s == EncodePacket(Parse(s).packet) + Parse(s).rest
  {
    hide XorSum;
    hide LE32;
    WordBytes(s, 2);
    hide U32At;
    InPieces(s, HEADER + U32At(s, 2));
  }

  /** What is read off a stream is a packet that fits the buffer if and only if the stream begins with its encoding. */
  lemma ParsesIff(s: seq<byte>, p: Packet, rest: seq<byte>)
    ensures Parse(s) == Got(p, rest) <==> |p.payload| <= PKT_BUF && s == EncodePacket(p) + rest
  {
    if Parse(s) == Got(p, rest) {
      ParsedIsEncoded(s);
    }
    if |p.payload| <= PKT_BUF && s == EncodePacket(p) + rest {
      PacketReadsBack(p, rest);
    }
  }

  // ----- the first packet -----

  /** A BEGIN long enough, for at least one part and at least one byte. */
  predicate Announces(p: Packet) {
    && p.kind == 1 && 29 <= |p.payload|
    && U32At(p.payload, 0) != 0 && (U32At(p.payload, 4) != 0 || U32At(p.payload, 8) != 0)
  }

  lemma LoadedWord(payload: seq<byte>, rx: seq<byte>, i: nat)
    requires Buffer(rx) && |payload| <= PKT_BUF && i + 4 <= |payload|
    ensures U32At(Loaded(payload, rx), i) == U32At(payload, i)
  {
  }

  /** A session is opened by a good first packet, with the directory, the acknowledgement and the file in order. */
  lemma OpensIff(input: seq<byte>, rx: seq<byte>, env: Env, turns: nat)
    requires Buffer(rx)
    ensures var got, r := Parse(input), Run(input, rx, env, turns);
            if got.Failed? || got.packet.kind != 1 then r == Result(Refused, [])
            else if !Announces(got.packet) || !env.mkdirOk then r == Result(Refused, [Nak(0)])
            else if !env.ackOk then r == Result(Refused, [])
            else if !env.openOk then r == Result(Refused, [Ack(0), Nak(0)])
            else
              var p, now := got.packet.payload, Loaded(got.packet.payload, rx);
              r == Prepend([Ack(0)], Drive(Session(U32At(p, 0), p[12..28], [], 0), got.rest, now, turns))
  {
    hide Drive;
    hide U32At;
    if Parse(input).Got? {
      RunTurn(input, rx, env, turns);
      var p := Parse(input).packet.payload;
      hide Parse;
      hide Run;
      if 29 <= |p| {
        LoadedWord(p, rx, 0);
        LoadedWord(p, rx, 4);
        LoadedWord(p, rx, 8);
        assert Loaded(p, rx)[12..28] == p[12..28];
        hide Loaded;
      }
    }
  }
}
