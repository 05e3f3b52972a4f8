/** otad's streaming MD5 (RFC 1321): the compression function, and the context that feeds it. */
module Md5 {
  import opened Bytes

  const TWO64: int := 0x1_0000_0000_0000_0000

  datatype Words = Words(a: bv32, b: bv32, c: bv32, d: bv32)

  const INIT: Words := Words(0x67452301, 0xefcdab89, 0x98badcfe, 0x10325476)

  /** Table T of section 3.4, a round at a time: entry i is the integer part of 2^32 times |sin(i + 1)|. */
  function RoundSines(round: nat): (t: seq<bv32>)
    requires round < 4
    ensures |t| == 16
  {
    if round == 0 then
      [ 0xd76aa478, 0xe8c7b756, 0x242070db, 0xc1bdceee, 0xf57c0faf, 0x4787c62a, 0xa8304613, 0xfd469501,
        0x698098d8, 0x8b44f7af, 0xffff5bb1, 0x895cd7be, 0x6b901122, 0xfd987193, 0xa679438e, 0x49b40821]
    else if round == 1 then
      [ 0xf61e2562, 0xc040b340, 0x265e5a51, 0xe9b6c7aa, 0xd62f105d, 0x02441453, 0xd8a1e681, 0xe7d3fbc8,
        0x21e1cde6, 0xc33707d6, 0xf4d50d87, 0x455a14ed, 0xa9e3e905, 0xfcefa3f8, 0x676f02d9, 0x8d2a4c8a]
    else if round == 2 then
      [ 0xfffa3942, 0x8771f681, 0x6d9d6122, 0xfde5380c, 0xa4beea44, 0x4bdecfa9, 0xf6bb4b60, 0xbebfbc70,
        0x289b7ec6, 0xeaa127fa, 0xd4ef3085, 0x04881d05, 0xd9d4d039, 0xe6db99e5, 0x1fa27cf8, 0xc4ac5665]
    else
      [ 0xf4292244, 0x432aff97, 0xab9423a7, 0xfc93a039, 0x655b59c3, 0x8f0ccc92, 0xffeff47d, 0x85845dd1,
        0x6fa87e4f, 0xfe2ce6e0, 0xa3014314, 0x4e0811a1, 0xf7537e82, 0xbd3af235, 0x2ad7d2bb, 0xeb86d391]
  }

  function Sines(): (t: seq<bv32>)
    ensures |t| == 64
  {
    RoundSines(0) + RoundSines(1) + RoundSines(2) + RoundSines(3)
  }

  /** Rotation amounts of section 3.4, four to a round. */
  function Rotation(round: nat, j: nat): (s: bv6)
    requires round < 4 && j < 4
    ensures s <= 32
  {
    if round == 0 then [7, 12, 17, 22][j] else if round == 1 then [5, 9, 14, 20][j]
    else if round == 2 then [4, 11, 16, 23][j] else [6, 10, 15, 21][j]
  }

  /** Word order of section 3.4, round by round. */
  function Order(round: nat, j: nat): (k: nat)
    requires round < 4 && j < 16
    ensures k < 16
  {
    if round == 0 then [0, 1, 2, 3, 4, 5, 6, 7, 8, 9, 10, 11, 12, 13, 14, 15][j]
    else if round == 1 then [1, 6, 11, 0, 5, 10, 15, 4, 9, 14, 3, 8, 13, 2, 7, 12][j]
    else if round == 2 then [5, 8, 11, 14, 1, 4, 7, 10, 13, 0, 3, 6, 9, 12, 15, 2][j]
    else [0, 7, 14, 5, 12, 3, 10, 1, 8, 15, 6, 13, 4, 11, 2, 9][j]
  }

  /** The auxiliary functions F, G, H and I of section 3.4. */
  function Aux(round: nat, x: bv32, y: bv32, z: bv32): bv32 {
    if round == 0 then (x & y) | (!x & z)
    else if round == 1 then (x & z) | (y & !z)
    else if round == 2 then x ^ y ^ z
    else y ^ (x | !z)
  }

  /** Addition of words, modulo 2^32. */
  function Plus(x: bv32, y: bv32): bv32 {
    x + y
  }

  function Rotl(x: bv32, n: bv6): bv32
    requires n <= 32
  {
    (x << n) | (x >> (32 - n))
  }

  /** a = b + ((f + a + t + x) <<< s), with the roles of the four words turning afterwards. */
  function Turn(v: Words, f: bv32, x: bv32, t: bv32, s: bv6): Words
    requires s <= 32
  {
    Words(v.d, Plus(v.b, Rotl(Plus(Plus(Plus(f, v.a), t), x), s)), v.b, v.c)
  }

  /** Operation `i` of section 3.4. */
  function Operation(v: Words, m: seq<bv32>, t: seq<bv32>, i: nat): Words
    requires |m| == 16 && |t| == 64 && i < 64
  {
    Turn(v, Aux(i / 16, v.b, v.c, v.d), m[Order(i / 16, i % 16)], t[i], Rotation(i / 16, i % 4))
  }

  function Operations(v: Words, m: seq<bv32>, t: seq<bv32>, n: nat): Words
    requires |m| == 16 && |t| == 64 && n <= 64
  {
    if n == 0 then v else Operation(Operations(v, m, t, n - 1), m, t, n - 1)
  }

  function WordsOf(block: seq<byte>): (m: seq<bv32>)
    requires |block| == 64
    ensures |m| == 16
  {
    seq(16, k requires 0 <= k < 16 => U32At(block, 4 * k) as bv32)
  }

  /** One block processed. */
  function Compress(v: Words, block: seq<byte>): Words
    requires |block| == 64
  {
    var t := Sines();
    var r := Operations(v, WordsOf(block), t, |t|);
    Words(Plus(v.a, r.a), Plus(v.b, r.b), Plus(v.c, r.c), Plus(v.d, r.d))
  }

  /** All blocks of a padded message processed, first to last. */
  function Process(msg: seq<byte>): Words
    requires |msg| % 64 == 0
  {
    if msg == [] then INIT else Compress(Process(msg[..|msg| - 64]), msg[|msg| - 64..])
  }

  // ----- sections 3.1, 3.2 and 3.5 -----

  /** Padding bytes, one bit included: between 1 and 64, up to 8 short of a block boundary. */
  function PadLength(n: nat): (p: nat)
    ensures 1 <= p <= 64 && (n + p) % 64 == 56
  {
    if n % 64 < 56 then 56 - n % 64 else 120 - n % 64
  }

  /** A one bit, then zeros. */
  function Padding(): (p: seq<byte>)
    ensures |p| == 64
  {
    [0x80] + seq(63, _ => 0)
  }

  /** The bit length modulo 2^64, low-order word first. */
  function LengthField(n: nat): (b: seq<byte>)
    ensures |b| == 8
  {
    LE32(8 * n % TWO32) + LE32(8 * n / TWO32 % TWO32)
  }

  /** Its two words are one number. */
  lemma LengthIsNumber(n: nat)
    ensures U32At(LengthField(n), 0) + TWO32 * U32At(LengthField(n), 4) == 8 * n % TWO64
  {
    var low, high := LE32(8 * n % TWO32), LE32(8 * n / TWO32 % TWO32);
    assert U32At(low + high, 0) == U32At(low, 0) && U32At(low + high, 4) == U32At(high, 0);
    var q, r := 8 * n / TWO32, 8 * n % TWO32;
    assert 8 * n == TWO32 * q + r && q == TWO32 * (q / TWO32) + q % TWO32;
    LowPart(q / TWO32, TWO32 * (q % TWO32) + r);
  }

  lemma LowPart(k: nat, r: nat)
    requires r < TWO64
    ensures (TWO64 * k + r) % TWO64 == r
  {
  }

  lemma PadFits(n: nat)
    ensures (n + PadLength(n) + 8) % 64 == 0
  {
    var m := n + PadLength(n);
    assert m == 64 * (m / 64) + 56;
    assert m + 8 == 64 * (m / 64 + 1);
  }

  function Pad(msg: seq<byte>): (p: seq<byte>)
    ensures |p| % 64 == 0
  {
    PadFits(|msg|);
    msg + Padding()[..PadLength(|msg|)] + LengthField(|msg|)
  }

  function LowByteFirst(w: bv32): (b: seq<byte>)
    ensures |b| == 4
  {
    LE32(w as int)
  }

  function Output(v: Words): (b: seq<byte>)
    ensures |b| == 16
  {
    LowByteFirst(v.a) + LowByteFirst(v.b) + LowByteFirst(v.c) + LowByteFirst(v.d)
  }

  function Digest(msg: seq<byte>): (b: seq<byte>)
    ensures |b| == 16
  {
    Output(Process(Pad(msg)))
  }

  // ----- the code's transform -----

  /** The code's one formula for word order. */
  function CodeIndex(i: nat): (g: nat)
    requires i < 64
    ensures g < 16
  {
    if i < 16 then i else if i < 32 then (5 * i + 1) % 16 else if i < 48 then (3 * i + 5) % 16 else 7 * i % 16
  }

  lemma SecondRound(j: nat)
    requires j < 16
    ensures CodeIndex(16 + j) == Order(1, j)
  {
  }

  lemma ThirdRound(j: nat)
    requires j < 16
    ensures CodeIndex(32 + j) == Order(2, j)
  {
  }

  lemma FourthRound(j: nat)
    requires j < 16
    ensures CodeIndex(48 + j) == Order(3, j)
  {
  }

  /** The formula reads the words in the order the standard tabulates. */
  lemma CodeIndexIsOrder(round: nat, j: nat)
    requires round < 4 && j < 16
    ensures CodeIndex(16 * round + j) == Order(round, j)
  {
    if round == 1 {
      SecondRound(j);
    } else if round == 2 {
      ThirdRound(j);
    } else if round == 3 {
      FourthRound(j);
    }
  }

  /** The code's form of the auxiliary functions. */
  function CodeAux(i: nat, b: bv32, c: bv32, d: bv32): bv32 {
    if i < 16 then (b & c) | (!b & d)
    else if i < 32 then (d & b) | (!d & c)
    else if i < 48 then b ^ c ^ d
    else c ^ (b | !d)
  }

  lemma CodeAuxIsAux(i: nat, b: bv32, c: bv32, d: bv32)
    requires i < 64
    ensures CodeAux(i, b, c, d) == Aux(i / 16, b, c, d)
  {
  }

  /** One turn of the code's loop. */
  method Step(v: Words, m: seq<bv32>, t: seq<bv32>, i: nat) returns (r: Words)
    requires |m| == 16 && |t| == 64 && i < 64
    ensures r == Operation(v, m, t, i)
  {
    CodeIndexIsOrder(i / 16, i % 16);
    CodeAuxIsAux(i, v.b, v.c, v.d);
    var f := Plus(Plus(Plus(CodeAux(i, v.b, v.c, v.d), v.a), t[i]), m[CodeIndex(i)]);
    r := Words(v.d, Plus(v.b, Rotl(f, Rotation(i / 16, i % 4))), v.b, v.c);
  }

  method Transform(state: Words, block: seq<byte>) returns (r: Words)
    requires |block| == 64
    ensures r == Compress(state, block)
  {
    var v, m, t := state, WordsOf(block), Sines();
    for i := 0 to |t|
      invariant v == Operations(state, m, t, i)
    {
      v := Step(v, m, t, i);
    }
    r := Words(Plus(state.a, v.a), Plus(state.b, v.b), Plus(state.c, v.c), Plus(state.d, v.d));
  }

  // ----- the context -----

  /** The bit counter's two words for a message of `n` bytes. */
  function CountLow(n: nat): u32 {
    8 * n % TWO32
  }

  function CountHigh(n: nat): u32 {
    8 * n / TWO32 % TWO32
  }

  lemma WordsOfSum(total: nat, words: nat, low: nat)
    requires low < TWO32 && total == TWO32 * words + low
    ensures total % TWO32 == low && total / TWO32 == words
  {
  }

  lemma SameRemainder(k: nat, r: nat)
    ensures (64 * k + r) % 64 == r % 64
  {
    assert 64 * k + r == 64 * (k + r / 64) + r % 64;
  }

  lemma IndexFromCount(n: nat)
    ensures CountLow(n) / 8 % 64 == n % 64
  {
    var q, r := n / 0x2000_0000, n % 0x2000_0000;
    assert 8 * n == TWO32 * q + 8 * r;
    WordsOfSum(8 * n, q, 8 * r);
    SameRemainder(0x80_0000 * q, r);
  }

  lemma SplitSum(n: nat, len: nat)
    ensures 8 * (n + len) == TWO32 * (8 * n / TWO32 + len / 0x2000_0000) + (CountLow(n) + 8 * len % TWO32)
  {
    assert 8 * len / TWO32 == len / 0x2000_0000;
  }

  lemma AddHigh(p: nat, carry: nat, q: nat)
    ensures ((p % TWO32 + carry) % TWO32 + q % TWO32) % TWO32 == (p + q + carry) % TWO32
  {
  }

  /** Adding with a carry found by comparison is addition modulo 2^64 of the two-word count. */
  lemma CountAdds(n: nat, len: nat, low: u32, high: u32)
    requires low == (CountLow(n) + 8 * len % TWO32) % TWO32
    requires high == ((CountHigh(n) + if low < 8 * len % TWO32 then 1 else 0) % TWO32 +
             len / 0x2000_0000 % TWO32) % TWO32
    ensures low == CountLow(n + len) && high == CountHigh(n + len)
  {
    var p, q := 8 * n / TWO32, len / 0x2000_0000;
    var carry := if low < 8 * len % TWO32 then 1 else 0;
    assert low == CountLow(n) + 8 * len % TWO32 - TWO32 * carry;
    SplitSum(n, len);
    WordsOfSum(8 * (n + len), p + q + carry, low);
    AddHigh(p, carry, q);
  }

  lemma ProcessSnoc(m: seq<byte>, block: seq<byte>)
    requires |m| % 64 == 0 && |block| == 64
    ensures Process(m + block) == Compress(Process(m), block)
  {
    assert (m + block)[..|m + block| - 64] == m && (m + block)[|m + block| - 64..] == block;
  }

  function Whole(n: nat): (w: nat)
    ensures w <= n && w % 64 == 0 && n - w < 64
  {
    n - n % 64
  }

  lemma UpdateShort(msg: seq<byte>, data: seq<byte>, index: nat)
    requires index == |msg| % 64 && |data| < 64 - index
    ensures Whole(|msg + data|) == Whole(|msg|) && |msg + data| % 64 == index + |data|
    ensures (msg + data)[..Whole(|msg|)] == msg[..Whole(|msg|)]
    ensures (msg + data)[Whole(|msg|)..] == msg[Whole(|msg|)..] + data
  {
  }

  lemma UpdateLong(msg: seq<byte>, data: seq<byte>, part: nat, i: nat, done: seq<byte>)
    requires part <= i <= |data| && |data| - i < 64 && (|msg| + part) % 64 == 0 && (i - part) % 64 == 0
    requires done == msg + data[..part] + data[part..i]
    ensures Whole(|msg + data|) == |msg| + i && |msg + data| % 64 == |data| - i
    ensures (msg + data)[..|msg| + i] == done
    ensures (msg + data)[|msg| + i..] == data[i..]
  {
  }

  /** The buffer filled up is the next block of the message. */
  lemma Completed(msg: seq<byte>, block: seq<byte>, data: seq<byte>, index: nat) returns (before: seq<byte>)
    requires |block| == 64 && index == |msg| % 64 && |data| >= 64 - index
    requires block[..index] == msg[Whole(|msg|)..] && block[index..64] == data[..64 - index]
    ensures before == msg + data[..64 - index] && |before| % 64 == 0
    ensures Process(before) == Compress(Process(msg[..Whole(|msg|)]), block)
  {
    hide Compress;
    before := msg[..Whole(|msg|)] + block;
    ProcessSnoc(msg[..Whole(|msg|)], block);
    assert block == block[..index] + block[index..64];
    assert before == msg + data[..64 - index];
  }

  lemma Grown(done: seq<byte>, before: seq<byte>, data: seq<byte>, at: nat, i: nat) returns (more: seq<byte>)
    requires at <= i && i + 64 <= |data| && done == before + data[at..i] && |done| % 64 == 0
    ensures more == before + data[at..i + 64] && |more| % 64 == 0
    ensures Process(more) == Compress(Process(done), data[i..i + 64])
  {
    hide *;
    more := done + data[i..i + 64];
    ProcessSnoc(done, data[i..i + 64]);
    assert data[at..i + 64] == data[at..i] + data[i..i + 64];
    Assoc(before, data[at..i], data[i..i + 64]);
  }

  class Context {
    var state: Words
    var count0: u32
    var count1: u32
    const buffer: array<byte>
    /** Everything fed so far. */
    ghost var msg: seq<byte>

    /** Whole blocks are processed, and the buffer holds the rest. */
    ghost predicate Holding()
      reads this, buffer
    {
      && buffer.Length == 64
      && state == Process(msg[..Whole(|msg|)])
      && buffer[..|msg| % 64] == msg[Whole(|msg|)..]
    }

    ghost predicate Valid()
      reads this, buffer
    {
      count0 == CountLow(|msg|) && count1 == CountHigh(|msg|) && Holding()
    }

    constructor ()
      ensures Valid() && fresh(buffer) && msg == []
    {
      state := INIT;
      count0, count1 := 0, 0;
      buffer := new byte[64](_ => 0);
      msg := [];
    }

    method Count(len: nat)
      modifies this`count0, this`count1
      requires count0 == CountLow(|msg|) && count1 == CountHigh(|msg|)
      ensures count0 == CountLow(|msg| + len) && count1 == CountHigh(|msg| + len)
    {
      count0 := (count0 + 8 * len % TWO32) % TWO32;
      if count0 < 8 * len % TWO32 {
        count1 := (count1 + 1) % TWO32;
      }
      count1 := (count1 + len / 0x2000_0000 % TWO32) % TWO32;
      CountAdds(|msg|, len, count0, count1);
    }

    /** memcpy into the buffer. */
    method Fill(index: nat, part: seq<byte>)
      requires buffer.Length == 64 && index + |part| <= 64
      modifies buffer
      ensures buffer[..index] == old(buffer[..index])
      ensures buffer[index..index + |part|] == part
    {
      forall k | 0 <= k < |part| {
        buffer[index + k] := part[k];
      }
    }

    /** Whole blocks straight from the input, from `at` on; `before` is the message up to `at`. */
    method Blocks(data: seq<byte>, at: nat, ghost before: seq<byte>) returns (i: nat, ghost done: seq<byte>)
      requires at <= |data| && |before| % 64 == 0 && state == Process(before)
      modifies this`state
      ensures at <= i <= |data| && |data| - i < 64 && (i - at) % 64 == 0
      ensures done == before + data[at..i] && |done| % 64 == 0 && state == Process(done)
    {
      hide Compress;
      hide Process;
      i, done := at, before;
      Units(before);
      while i + 63 < |data|
        invariant at <= i <= |data| && (i - at) % 64 == 0
        invariant done == before + data[at..i] && |done| % 64 == 0
        invariant state == Process(done)
      {
        state := Transform(state, data[i..i + 64]);
        done := Grown(done, before, data, at, i);
        i := i + 64;
      }
    }

    /** Too little to fill the buffer up. */
    method Keep(data: seq<byte>, index: nat)
      requires Holding() && index == |msg| % 64 && |data| < 64 - index
      modifies `msg, buffer
      ensures Holding() && msg == old(msg) + data
    {
      hide Process;
      UpdateShort(msg, data, index);
      Fill(index, data);
      assert buffer[..index + |data|] == buffer[..index] + buffer[index..index + |data|];
      msg := msg + data;
    }

    /** The buffer filled up, whole blocks from the input, and the rest of it. */
    method Absorb(data: seq<byte>, index: nat)
      requires Holding() && index == |msg| % 64 && |data| >= 64 - index
      modifies `state, `msg, buffer
      ensures Holding() && msg == old(msg) + data
    {
      hide Compress;
      hide Process;
      var partLen := 64 - index;
      Fill(index, data[..partLen]);
      ghost var before := Completed(msg, buffer[..], data, index);
      state := Transform(state, buffer[..]);
      var i, done := Blocks(data, partLen, before);
      UpdateLong(msg, data, partLen, i, done);
      Fill(0, data[i..]);
      msg := msg + data;
    }

    method Update(data: seq<byte>)
      requires Valid()
      modifies this, buffer
      ensures Valid() && msg == old(msg) + data
    {
      hide Process;
      hide CountLow;
      hide CountHigh;
      IndexFromCount(|msg|);
      var index := count0 / 8 % 64;
      Count(|data|);
      if |data| < 64 - index {
        Keep(data, index);
      } else {
        Absorb(data, index);
      }
    }

    /** Clears the context, as the code does before it returns. */
    method Final() returns (digest: seq<byte>)
      requires Valid()
      modifies this, buffer
      ensures digest == Digest(old(msg))
    {
      hide Compress;
      ghost var m := msg;
      var bits := LE32(count0) + LE32(count1);
      IndexFromCount(|msg|);
      var index := count0 / 8 % 64;
      var padLen := if index < 56 then 56 - index else 120 - index;
      Update(Padding()[..padLen]);
      Update(bits);
      assert msg == Pad(m);
      assert msg[..Whole(|msg|)] == msg;
      digest := Output(state);
      state, count0, count1 := Words(0, 0, 0, 0), 0, 0;
      forall k | 0 <= k < 64 {
        buffer[k] := 0;
      }
    }
  }

  method Md5OfBuf(data: seq<byte>) returns (digest: seq<byte>)
    ensures digest == Digest(data)
  {
    hide Compress;
    var c := new Context();
    c.Update(data);
    Units(data);
    digest := c.Final();
  }

  /** Fed in pieces of any sizes, the message is the pieces joined. */
  method Md5OfPieces(pieces: seq<seq<byte>>) returns (digest: seq<byte>)
    ensures digest == Digest(Concat(pieces))
  {
    hide Compress;
    var c := new Context();
    for k := 0 to |pieces|
      invariant c.Valid() && fresh(c) && fresh(c.buffer)
      invariant c.msg == Concat(pieces[..k])
    {
      ConcatUpTo(pieces, k);
      c.Update(pieces[k]);
    }
    assert pieces[..|pieces|] == pieces;
    digest := c.Final();
  }

  lemma NextPiece(bytes: seq<byte>, at: nat, n: nat)
    requires at + n <= |bytes|
    ensures bytes[..at] + bytes[at..at + n] == bytes[..at + n]
  {
  }

  datatype File = Unopenable | Contents(bytes: seq<byte>)

  const READ_SIZE: nat := 4096

  method Md5OfFile(file: File) returns (ok: bool, digest: seq<byte>)
    ensures ok <==> file.Contents?
    ensures ok ==> digest == Digest(file.bytes)
  {
    if file.Unopenable? {
      return false, [];
    }
    hide Compress;
    hide Process;
    hide Digest;
    hide Context.Valid;
    var c := new Context();
    var at := 0;
    while at < |file.bytes|
      invariant 0 <= at <= |file.bytes|
      invariant c.Valid() && fresh(c) && fresh(c.buffer)
      invariant c.msg == file.bytes[..at]
    {
      var n := if |file.bytes| - at < READ_SIZE then |file.bytes| - at else READ_SIZE;
      NextPiece(file.bytes, at, n);
      c.Update(file.bytes[at..at + n]);
      at := at + n;
    }
    assert file.bytes[..at] == file.bytes;
    digest := c.Final();
    ok := true;
  }
}
