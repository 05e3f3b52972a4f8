/** Over-the-air updates: the packet stream, the daemon's session, and the host that drives it. */
module Ota {
  import opened Bytes
  import opened Md5

  const OTA_MAGIC: byte := 0x0A
  const OTA_BEGIN: byte := 0x01
  const OTA_CHUNK: byte := 0x02
  const OTA_END: byte := 0x03
  const OTA_ABORT: byte := 0x06
  const PKT_BUF: nat := 1024 * 1024 + 128
  const HEADER: nat := 6
  const CHUNK_HEAD: nat := 24
  const VERIFIED: u32 := 0xFFFF_FFFF

  // ----- packets -----

  datatype Packet = Packet(kind: byte, payload: seq<byte>)

  function Xor(a: byte, b: byte): byte {
    ((a as bv8) ^ (b as bv8)) as byte
  }

  function XorSum(data: seq<byte>): byte {
    if data == [] then 0 else Xor(XorSum(data[..|data| - 1]), data[|data| - 1])
  }

  method XorChecksum(data: seq<byte>) returns (cs: byte)
    ensures cs == XorSum(data)
  {
    hide Xor;
    cs := 0;
    for i := 0 to |data|
      invariant cs == XorSum(data[..i])
    {
      assert data[..i + 1][..i] == data[..i];
      cs := Xor(cs, data[i]);
    }
    assert data[..|data|] == data;
  }

  function EncodePacket(p: Packet): (b: seq<byte>)
    ensures |b| == HEADER + |p.payload| + 1
  {
    [OTA_MAGIC, p.kind] + LE32(|p.payload| % TWO32) + p.payload + [XorSum(p.payload)]
  }

  /** What reading one packet off the front of a byte stream comes to. */
  datatype Parsed = Got(packet: Packet, rest: seq<byte>) | Failed

  predicate Refusable(s: seq<byte>)
    requires |s| >= HEADER
  {
    s[0] != OTA_MAGIC || U32At(s, 2) > PKT_BUF
  }

  function Parse(s: seq<byte>): Parsed {
    if |s| < HEADER || Refusable(s) then Failed
    else
      var end := HEADER + U32At(s, 2);
      if |s| < end + 1 || s[end] != XorSum(s[HEADER..end]) then Failed
      else Got(Packet(s[1], s[HEADER..end]), s[end + 1..])
  }

  function Head(p: Packet): (h: seq<byte>)
    requires |p.payload| < TWO32
    ensures |h| == HEADER && h[0] == OTA_MAGIC && h[1] == p.kind && U32At(h, 2) == |p.payload|
  {
    var n := LE32(|p.payload|);
    var h := [OTA_MAGIC, p.kind] + n;
    assert U32At(h, 2) == U32At(n, 0);
    h
  }

  lemma Layout(p: Packet, rest: seq<byte>)
    requires |p.payload| < TWO32
    ensures var s, end := EncodePacket(p) + rest, HEADER + |p.payload|;
            && |s| == end + 1 + |rest| && s[0] == OTA_MAGIC && s[1] == p.kind && U32At(s, 2) == |p.payload|
            && s[HEADER..end] == p.payload && s[end] == XorSum(p.payload) && s[end + 1..] == rest
  {
    hide XorSum;
    hide LE32;
    var h := Head(p);
    var s := EncodePacket(p) + rest;
    assert EncodePacket(p) == h + p.payload + [XorSum(p.payload)];
    assert forall k | 0 <= k < HEADER :: s[k] == h[k];
  }

  /** A packet reads back, whatever follows it, if and only if it fits the receiver's buffer. */
  lemma PacketReadsBack(p: Packet, rest: seq<byte>)
    requires |p.payload| < TWO32
    ensures Parse(EncodePacket(p) + rest) == if |p.payload| <= PKT_BUF then Got(p, rest) else Failed
  {
    Layout(p, rest);
    hide XorSum;
    hide EncodePacket;
    hide LE32;
    hide U32At;
  }

  // ----- the byte stream over messages -----

  /** What can be read from messages: everything up to a receive that yields nothing. */
  function Readable(messages: seq<seq<byte>>): seq<byte> {
    if messages == [] || messages[0] == [] then [] else messages[0] + Readable(messages[1..])
  }

  /** `messages` is what the transport still has to deliver; then it disconnects. */
  class OtaStream {
    var buf: seq<byte>
    var head: nat
    var messages: seq<seq<byte>>

    predicate Valid()
      reads this
    {
      head <= |buf|
    }

    /** All bytes still to come, however they are cut into messages. */
    function Upcoming(): seq<byte>
      requires Valid()
      reads this
    {
      buf[head..] + Readable(messages)
    }

    constructor (messages: seq<seq<byte>>)
      ensures Valid() && Upcoming() == Readable(messages)
    {
      buf, head := [], 0;
      this.messages := messages;
    }

    method PullOne() returns (ok: bool)
      requires Valid()
      modifies this
      ensures Valid()
      ensures ok ==> Upcoming() == old(Upcoming()) && |messages| < |old(messages)|
      ensures ok ==> |buf| - head > old(|buf| - head)
      ensures !ok ==> Readable(old(messages)) == [] && Readable(messages) == [] && buf == old(buf) && head == old(head)
    {
      if messages == [] {
        return false;
      }
      var msg := messages[0];
      if msg == [] {
        return false;
      }
      Assoc(buf[head..], msg, Readable(messages[1..]));
      messages := messages[1..];
      buf, head := buf[head..] + msg, 0;
      ok := true;
    }

    /** Exactly `n` bytes, pulling messages until they are there. */
    method ReadExact(n: nat) returns (ok: bool, out: seq<byte>)
      requires Valid()
      modifies this
      ensures Valid()
      ensures ok == (|old(Upcoming())| >= n)
      ensures ok ==> out == old(Upcoming())[..n] && Upcoming() == old(Upcoming())[n..]
    {
      out := [];
      while |buf| - head < n
        invariant Valid() && Upcoming() == old(Upcoming())
        decreases |messages|
      {
        var pulled := PullOne();
        if !pulled {
          return false, [];
        }
      }
      out := buf[head..head + n];
      assert Upcoming()[..n] == out;
      assert Upcoming()[n..] == buf[head + n..] + Readable(messages);
      head := head + n;
      ok := true;
    }

    /** One packet into the front of the receive buffer, whose other bytes stay as they were. */
    method RecvPacket(rx: array<byte>) returns (ok: bool, kind: byte, len: nat)
      requires Valid() && rx.Length == PKT_BUF
      modifies this, rx
      ensures Valid()
      ensures ok <==> Parse(old(Upcoming())).Got?
      ensures ok ==> len <= PKT_BUF && Parse(old(Upcoming())) == Got(Packet(kind, rx[..len]), Upcoming())
      ensures ok ==> rx[len..] == old(rx[len..])
    {
      hide XorSum;
      hide Readable;
      ok, kind, len := false, 0, 0;
      ghost var s := Upcoming();
      var got, header := ReadExact(HEADER);
      if !got || header[0] != OTA_MAGIC {
        return;
      }
      assert U32At(header, 2) == U32At(s, 2);
      hide U32At;
      len := U32At(header, 2);
      if len > rx.Length {
        return;
      }
      var payload, sum := [], [];
      if len > 0 {
        got, payload := ReadExact(len);
        if !got {
          return;
        }
      }
      assert payload == s[HEADER..HEADER + len];
      assert Upcoming() == s[HEADER + len..];
      forall i | 0 <= i < len {
        rx[i] := payload[i];
      }
      got, sum := ReadExact(1);
      if !got {
        return;
      }
      var cs := XorChecksum(payload);
      assert sum[0] == s[HEADER + len];
      assert rx[..len] == payload;
      kind := header[1];
      ok := sum[0] == cs;
    }
  }

  // ----- the daemon's session -----

  datatype Reply = Ack(part: u32) | Nak(part: u32)

  /** How a session ends; `Undefined` when a chunk claims bytes past the receive buffer. */
  datatype Outcome = Refused | Abandoned | Mismatch | Undefined | Applied(staged: seq<byte>)

  datatype Session = Session(total: u32, md5: seq<byte>, staged: seq<byte>, count: u32)

  datatype Result = Result(outcome: Outcome, replies: seq<Reply>)

  datatype Progress = Going(session: Session, replies: seq<Reply>) | Over(result: Result)

  /** What the staging directory, the first acknowledgement and the staging file come to. */
  datatype Env = Env(mkdirOk: bool, ackOk: bool, openOk: bool)

  predicate Buffer(rx: seq<byte>) {
    |rx| == PKT_BUF
  }

  /** The receive buffer once a packet is in it. */
  function Loaded(payload: seq<byte>, rx: seq<byte>): (r: seq<byte>)
    requires Buffer(rx) && |payload| <= PKT_BUF
    ensures Buffer(r)
  {
    payload + rx[|payload|..]
  }

  function Begin(kind: byte, len: nat, rx: seq<byte>, env: Env): Progress
    requires Buffer(rx)
  {
    if kind != OTA_BEGIN then Over(Result(Refused, []))
    else if len < 29 then Over(Result(Refused, [Nak(0)]))
    else if U32At(rx, 0) == 0 || (U32At(rx, 4) == 0 && U32At(rx, 8) == 0) then Over(Result(Refused, [Nak(0)]))
    else if !env.mkdirOk then Over(Result(Refused, [Nak(0)]))
    else if !env.ackOk then Over(Result(Refused, []))
    else if !env.openOk then Over(Result(Refused, [Ack(0), Nak(0)]))
    else Going(Session(U32At(rx, 0), rx[12..28], [], 0), [Ack(0)])
  }

  /** One chunk: taken if its bytes have the digest it names. */
  function Chunk(s: Session, rx: seq<byte>): Progress
    requires Buffer(rx)
  {
    var part, size := U32At(rx, 0), U32At(rx, 4);
    if CHUNK_HEAD + size > PKT_BUF then Over(Result(Undefined, []))
    else if Digest(ChunkData(rx)) != rx[8..CHUNK_HEAD] then Over(Result(Abandoned, [Nak(part)]))
    else Going(s.(staged := s.staged + ChunkData(rx), count := (s.count + 1) % TWO32), [Ack(part)])
  }

  function ChunkData(rx: seq<byte>): seq<byte>
    requires Buffer(rx) && CHUNK_HEAD + U32At(rx, 4) <= PKT_BUF
  {
    rx[CHUNK_HEAD..CHUNK_HEAD + U32At(rx, 4)]
  }

  /** After the last packet: the part count, then the digest of the whole file. */
  function Conclude(s: Session): Result {
    if s.count != s.total then Result(Abandoned, [])
    else if Digest(s.staged) != s.md5 then Result(Mismatch, [Nak(0)])
    else Result(Applied(s.staged), [Ack(VERIFIED)])
  }

  /** One packet of an open session. */
  function Handle(s: Session, kind: byte, rx: seq<byte>): Progress
    requires Buffer(rx)
  {
    if kind == OTA_ABORT then Over(Result(Abandoned, []))
    else if kind == OTA_END then Over(Conclude(s))
    else if kind != OTA_CHUNK then Going(s, [])
    else Chunk(s, rx)
  }

  function Prepend(replies: seq<Reply>, r: Result): Result {
    r.(replies := replies + r.replies)
  }

  /** A session over a byte stream, for `turns` packets at most before the link or the daemon goes down. */
  function Drive(s: Session, input: seq<byte>, rx: seq<byte>, turns: nat): Result
    requires Buffer(rx)
    decreases turns
  {
    if turns == 0 || Parse(input).Failed? then Conclude(s)
    else
      var got := Parse(input);
      var now := Loaded(got.packet.payload, rx);
      match Handle(s, got.packet.kind, now)
      case Over(result) => result
      case Going(next, replies) => Prepend(replies, Drive(next, got.rest, now, turns - 1))
  }

  function Run(input: seq<byte>, rx: seq<byte>, env: Env, turns: nat): Result
    requires Buffer(rx)
  {
    var got := Parse(input);
    if got.Failed? then Result(Refused, [])
    else
      var now := Loaded(got.packet.payload, rx);
      match Begin(got.packet.kind, |got.packet.payload|, now, env)
      case Over(result) => result
      case Going(s, replies) => Prepend(replies, Drive(s, got.rest, now, turns))
  }

  lemma PrependTwice(a: seq<Reply>, b: seq<Reply>, r: Result)
    ensures Prepend(a, Prepend(b, r)) == Prepend(a + b, r)
  {
    Assoc(a, b, r.replies);
  }

  /** The session as the code runs it is the session the bytes spell, however they are cut into messages. */
  method RunOtaSession(stream: OtaStream, rx: array<byte>, env: Env, turns: nat)
    returns (outcome: Outcome, replies: seq<Reply>)
    requires stream.Valid() && rx.Length == PKT_BUF
    modifies stream, rx
    ensures Result(outcome, replies) == Run(old(stream.Upcoming()), old(rx[..]), env, turns)
  {
    hide Parse;
    hide Chunk;
    hide Conclude;
    hide U32At;
    ghost var whole := Run(stream.Upcoming(), rx[..], env, turns);
    outcome, replies := Refused, [];
    var ok, kind, len := stream.RecvPacket(rx);
    if !ok {
      return;
    }
    assert rx[..] == Loaded(rx[..len], old(rx[..]));
    var begun := Begin(kind, len, rx[..], env);
    if begun.Over? {
      return begun.result.outcome, begun.result.replies;
    }
    var s := begun.session;
    replies := begun.replies;
    var left := turns;
    while left > 0
      invariant stream.Valid()
      invariant whole == Prepend(replies, Drive(s, stream.Upcoming(), rx[..], left))
    {
      ghost var before := rx[..];
      ok, kind, len := stream.RecvPacket(rx);
      if !ok {
        break;
      }
      assert rx[..] == Loaded(rx[..len], before);
      var step := Handle(s, kind, rx[..]);
      if step.Over? {
        return step.result.outcome, replies + step.result.replies;
      }
      PrependTwice(replies, step.replies, Drive(step.session, stream.Upcoming(), rx[..], left - 1));
      s := step.session;
      replies := replies + step.replies;
      left := left - 1;
    }
    var r := Conclude(s);
    outcome, replies := r.outcome, replies + r.replies;
  }

  /** What the daemon says to one packet. */
  function Answer(p: Progress): seq<Reply> {
    match p
    case Going(_, replies) => replies
    case Over(result) => result.replies
  }

  /** At most one reply to a packet, but for a BEGIN acknowledged before the staging file turns out not to open. */
  lemma OneReplyEach(s: Session, kind: byte, len: nat, rx: seq<byte>, env: Env)
    requires Buffer(rx)
    ensures |Answer(Handle(s, kind, rx))| <= 1
    ensures |Answer(Begin(kind, len, rx, env))| <= if env.ackOk && !env.openOk then 2 else 1
    ensures |Answer(Begin(kind, len, rx, env))| == 2 ==>
            Begin(kind, len, rx, env) == Over(Result(Refused, [Ack(0), Nak(0)]))
  {
    hide Digest;
    hide U32At;
    hide ChunkData;
  }

  // ----- what an applied update is -----

  /** The chunks a session takes, in order: the data of the chunk packets it acknowledges. */
  function Taken(s: Session, input: seq<byte>, rx: seq<byte>, turns: nat): seq<seq<byte>>
    requires Buffer(rx)
    decreases turns
  {
    if turns == 0 || Parse(input).Failed? then []
    else
      var got := Parse(input);
      var now := Loaded(got.packet.payload, rx);
      var step := Handle(s, got.packet.kind, now);
      if step.Over? then []
      else
        var first := if got.packet.kind == OTA_CHUNK then [ChunkData(now)] else [];
        first + Taken(step.session, got.rest, now, turns - 1)
  }

  lemma {:induction false} DriveApplies(s: Session, input: seq<byte>, rx: seq<byte>, turns: nat)
    requires Buffer(rx)
    ensures var r, taken := Drive(s, input, rx, turns), Taken(s, input, rx, turns);
            r.outcome.Applied? ==>
              && r.outcome.staged == s.staged + Concat(taken)
              && (s.count + |taken|) % TWO32 == s.total % TWO32
              && Digest(r.outcome.staged) == s.md5
    decreases turns
  {
    hide Parse;
    hide Digest;
    hide U32At;
    hide Loaded;
    hide ChunkData;
    var taken := Taken(s, input, rx, turns);
    if turns == 0 || Parse(input).Failed? {
      Units(s.staged);
    } else {
      ParsedFits(input);
      var got := Parse(input);
      var now := Loaded(got.packet.payload, rx);
      var step := Handle(s, got.packet.kind, now);
      if step.Over? {
        Units(s.staged);
      } else {
        DriveApplies(step.session, got.rest, now, turns - 1);
        var more := Taken(step.session, got.rest, now, turns - 1);
        if got.packet.kind == OTA_CHUNK {
          ConcatAppend([ChunkData(now)], more);
          assert Concat([ChunkData(now)]) == ChunkData(now) + Concat<byte>([]) == ChunkData(now);
          Assoc(s.staged, ChunkData(now), Concat(more));
          CountOn(s.count, |more|);
        } else {
          Units(more);
        }
      }
    }
  }

  lemma CountOn(count: u32, more: nat)
    ensures ((count + 1) % TWO32 + more) % TWO32 == (count + (1 + more)) % TWO32
  {
  }

  /**
   * Any stream at all that gets an update applied began with a BEGIN packet, and the staged file is
   * the chunks taken, end to end; their number is the announced one modulo 2^32, and the file has
   * the announced digest.
   */
  lemma AppliedMeans(input: seq<byte>, rx: seq<byte>, env: Env, turns: nat)
    requires Buffer(rx) && Run(input, rx, env, turns).outcome.Applied?
    ensures Parse(input).Got? && Parse(input).packet.kind == OTA_BEGIN && |Parse(input).packet.payload| >= 29
    ensures var first, rest := Parse(input).packet.payload, Parse(input).rest;
            var staged := Run(input, rx, env, turns).outcome.staged;
            var taken := Taken(Session(U32At(first, 0), first[12..28], [], 0), rest, Loaded(first, rx), turns);
            && staged == Concat(taken) && |taken| % TWO32 == U32At(first, 0) && Digest(staged) == first[12..28]
  {
    hide Parse;
    hide Digest;
    hide Drive;
    var first := Parse(input).packet.payload;
    var now := Loaded(first, rx);
    assert U32At(now, 0) == U32At(first, 0) && now[12..28] == first[12..28];
    var s := Session(U32At(first, 0), first[12..28], [], 0);
    DriveApplies(s, Parse(input).rest, now, turns);
  }

  // ----- the host -----

  function LE64(v: nat): (b: seq<byte>)
    ensures |b| == 8
  {
    LE32(v % TWO32) + LE32(v / TWO32 % TWO32)
  }

  function BeginPacket(count: nat, total: nat, md5: seq<byte>, version: seq<byte>): Packet
    requires count < TWO32
  {
    Packet(OTA_BEGIN, LE32(count) + LE64(total) + md5 + version)
  }

  function ChunkPacket(number: nat, part: seq<byte>): Packet
    requires number < TWO32 && |part| < TWO32
  {
    Packet(OTA_CHUNK, LE32(number) + LE32(|part|) + Digest(part) + part)
  }

  const END: Packet := Packet(OTA_END, [])

  /** The chunk and END packets for the parts from number `k` on, as bytes. */
  function RestOfUpload(parts: seq<seq<byte>>, k: nat): seq<byte>
    requires k + |parts| < TWO32 && forall p <- parts :: |p| < TWO32
    decreases |parts|
  {
    if parts == [] then EncodePacket(END) else EncodePacket(ChunkPacket(k, parts[0])) + RestOfUpload(parts[1..], k + 1)
  }

  function Acks(k: nat, n: nat): seq<Reply>
    requires k + n <= TWO32
    decreases n
  {
    if n == 0 then [Ack(VERIFIED)] else [Ack(k)] + Acks(k + 1, n - 1)
  }

  /** The zip file cut as the host cuts it. */
  predicate IsSplit(parts: seq<seq<byte>>, zip: seq<byte>, chunk: nat) {
    && Concat(parts) == zip
    && (forall i :: 0 <= i < |parts| ==> 0 < |parts[i]| <= chunk)
    && (forall i :: 0 <= i < |parts| - 1 ==> |parts[i]| == chunk)
  }

  method SplitZip(zip: seq<byte>, chunk: nat) returns (parts: seq<seq<byte>>)
    requires chunk > 0
    ensures IsSplit(parts, zip, chunk)
  {
    parts := [];
    var at := 0;
    while at < |zip|
      invariant at <= |zip| && IsSplit(parts, zip[..at], chunk)
      invariant at < |zip| ==> forall p <- parts :: |p| == chunk
    {
      var n := if |zip| - at < chunk then |zip| - at else chunk;
      ConcatSnoc(parts, zip[at..at + n]);
      assert zip[..at + n] == zip[..at] + zip[at..at + n];
      parts := parts + [zip[at..at + n]];
      at := at + n;
    }
    assert zip[..at] == zip;
  }

  predicate AllFit(parts: seq<seq<byte>>) {
    forall p <- parts :: CHUNK_HEAD + |p| <= PKT_BUF
  }

  /** What the daemon reads out of a chunk packet's fields. */
  lemma ChunkReads(number: nat, part: seq<byte>, rx: seq<byte>)
    requires number < TWO32 && CHUNK_HEAD + |part| <= PKT_BUF && Buffer(rx)
    ensures |ChunkPacket(number, part).payload| == CHUNK_HEAD + |part|
    ensures var now := Loaded(ChunkPacket(number, part).payload, rx);
            U32At(now, 0) == number && U32At(now, 4) == |part| && ChunkData(now) == part &&
            now[8..CHUNK_HEAD] == Digest(part)
  {
    hide Digest;
    hide LE32;
    var a, b, d := LE32(number), LE32(|part|), Digest(part);
    var now := Loaded(ChunkPacket(number, part).payload, rx);
    assert now[0..4] == a && now[4..8] == b && now[8..24] == d && now[24..24 + |part|] == part;
    assert U32At(now, 0) == U32At(now[0..4], 0) && U32At(now, 4) == U32At(now[4..8], 0);
  }

  /** One part sent is one part taken and acknowledged by its number; a part too big for the buffer ends the session. */
  lemma OnePart(s: Session, k: nat, part: seq<byte>, rest: seq<byte>, rx: seq<byte>, turns: nat)
    requires Buffer(rx) && k < TWO32 && |part| < TWO32 - CHUNK_HEAD && turns > 0
    ensures var input := EncodePacket(ChunkPacket(k, part)) + rest;
            if CHUNK_HEAD + |part| > PKT_BUF then Drive(s, input, rx, turns) == Conclude(s)
            else
              var now := Loaded(ChunkPacket(k, part).payload, rx);
              Drive(s, input, rx, turns) ==
              Prepend([Ack(k)],
                      Drive(s.(staged := s.staged + part, count := (s.count + 1) % TWO32), rest, now, turns - 1))
  {
    hide Digest;
    hide Parse;
    hide LE32;
    hide U32At;
    hide EncodePacket;
    hide Conclude;
    PacketReadsBack(ChunkPacket(k, part), rest);
    if CHUNK_HEAD + |part| <= PKT_BUF {
      ChunkReads(k, part, rx);
    }
  }

  lemma EndArrives(s: Session, rx: seq<byte>, turns: nat)
    requires Buffer(rx) && turns > 0
    ensures Drive(s, EncodePacket(END), rx, turns) == Conclude(s)
  {
    hide Digest;
    hide Parse;
    hide EncodePacket;
    PacketReadsBack(END, []);
    Units(EncodePacket(END));
  }

  lemma FitSplits(parts: seq<seq<byte>>)
    requires parts != []
    ensures AllFit(parts) <==> CHUNK_HEAD + |parts[0]| <= PKT_BUF && AllFit(parts[1..])
  {
    assert parts == [parts[0]] + parts[1..];
  }

  lemma {:induction false} PartsDelivered(s: Session, parts: seq<seq<byte>>, k: nat, rx: seq<byte>, turns: nat)
    requires Buffer(rx) && 0 < k && k + |parts| < TWO32 && (forall p <- parts :: |p| < TWO32 - CHUNK_HEAD) &&
             turns > |parts|
    requires s.count == k - 1 && s.total == k - 1 + |parts| && Digest(s.staged + Concat(parts)) == s.md5
    ensures var r := Drive(s, RestOfUpload(parts, k), rx, turns);
            if AllFit(parts) then r == Result(Applied(s.staged + Concat(parts)), Acks(k, |parts|))
            else r.outcome == Abandoned
    decreases |parts|
  {
    hide Digest;
    hide Drive;
    hide EncodePacket;
    hide Loaded;
    hide ChunkPacket;
    Units(s.staged);
    if parts == [] {
      EndArrives(s, rx, turns);
    } else {
      FitSplits(parts);
      hide AllFit;
      var rest := RestOfUpload(parts[1..], k + 1);
      OnePart(s, k, parts[0], rest, rx, turns);
      if CHUNK_HEAD + |parts[0]| <= PKT_BUF {
        var next := s.(staged := s.staged + parts[0], count := (s.count + 1) % TWO32);
        Assoc(s.staged, parts[0], Concat(parts[1..]));
        ChunkReads(k, parts[0], rx);
        PartsDelivered(next, parts[1..], k + 1, Loaded(ChunkPacket(k, parts[0]).payload, rx), turns - 1);
      }
    }
  }

  /** The whole upload as the host sends it. */
  function Upload(parts: seq<seq<byte>>, zip: seq<byte>, version: seq<byte>): seq<byte>
    requires |parts| + 1 < TWO32 && forall p <- parts :: |p| < TWO32
  {
    EncodePacket(BeginPacket(|parts|, |zip|, Digest(zip), version)) + RestOfUpload(parts, 1)
  }

  lemma BeginReads(count: nat, total: nat, md5: seq<byte>, version: seq<byte>, rx: seq<byte>)
    requires count < TWO32 && |md5| == 16 && |version| == 32 && Buffer(rx)
    ensures |BeginPacket(count, total, md5, version).payload| == 60
    ensures var now := Loaded(BeginPacket(count, total, md5, version).payload, rx);
            U32At(now, 0) == count && U32At(now, 4) == total % TWO32 && U32At(now, 8) == total / TWO32 % TWO32 &&
            now[12..28] == md5
  {
    hide LE32;
    var a, b, c := LE32(count), LE32(total % TWO32), LE32(total / TWO32 % TWO32);
    var now := Loaded(BeginPacket(count, total, md5, version).payload, rx);
    assert now[0..4] == a && now[4..8] == b && now[8..12] == c && now[12..28] == md5;
    assert U32At(now, 0) == U32At(now[0..4], 0) && U32At(now, 4) == U32At(now[4..8], 0) &&
           U32At(now, 8) == U32At(now[8..12], 0);
  }

  lemma {:induction false} SplitCounts(parts: seq<seq<byte>>)
    requires forall i :: 0 <= i < |parts| ==> 0 < |parts[i]|
    ensures |parts| <= |Concat(parts)| && (forall p <- parts :: |p| <= |Concat(parts)|)
  {
    if parts != [] {
      SplitCounts(parts[1..]);
      assert parts == [parts[0]] + parts[1..];
    }
  }

  lemma BeginAccepts(now: seq<byte>, count: nat, total: nat, md5: seq<byte>)
    requires Buffer(now) && 0 < count < TWO32 && 0 < total < TWO64
    requires U32At(now, 0) == count && U32At(now, 4) == total % TWO32 && U32At(now, 8) == total / TWO32 % TWO32 &&
             now[12..28] == md5
    ensures Begin(OTA_BEGIN, 60, now, Env(true, true, true)) == Going(Session(count, md5, [], 0), [Ack(0)])
  {
    hide U32At;
    if total % TWO32 == 0 {
      assert 0 < total / TWO32 < TWO32;
    }
  }

  lemma BeginOpens(count: nat, total: nat, md5: seq<byte>, version: seq<byte>, rest: seq<byte>, rx: seq<byte>,
                   turns: nat)
    requires 0 < count < TWO32 && 0 < total < TWO64 && |md5| == 16 && |version| == 32 && Buffer(rx)
    ensures |BeginPacket(count, total, md5, version).payload| == 60
    ensures Run(EncodePacket(BeginPacket(count, total, md5, version)) + rest, rx, Env(true, true, true), turns)
            == Prepend([Ack(0)], Drive(Session(count, md5, [], 0), rest,
                                       Loaded(BeginPacket(count, total, md5, version).payload, rx), turns))
  {
    BeginReads(count, total, md5, version, rx);
    var begin := BeginPacket(count, total, md5, version);
    BeginAccepts(Loaded(begin.payload, rx), count, total, md5);
    PacketReadsBack(begin, rest);
    hide Parse;
    hide EncodePacket;
    hide Drive;
    hide U32At;
    hide Loaded;
    hide BeginPacket;
    hide Begin;
  }

  /**
   * The host's upload of a zip file, cut into messages in any way, is staged whole and acknowledged
   * packet by packet if and only if every part fits the daemon's receive buffer.
   */
  lemma UploadArrives(parts: seq<seq<byte>>, zip: seq<byte>, chunk: nat, version: seq<byte>, rx: seq<byte>, turns: nat)
    requires Buffer(rx) && IsSplit(parts, zip, chunk) && |version| == 32 && 0 < |zip| < TWO64 && turns > |parts|
    requires |parts| + 1 < TWO32 && chunk < TWO32 - CHUNK_HEAD
    ensures forall p <- parts :: |p| < TWO32
    ensures var r := Run(Upload(parts, zip, version), rx, Env(true, true, true), turns);
            if AllFit(parts) then r == Result(Applied(zip), [Ack(0)] + Acks(1, |parts|)) else r.outcome == Abandoned
  {
    hide Digest;
    hide Parse;
    hide EncodePacket;
    hide Drive;
    hide Run;
    hide Loaded;
    hide AllFit;
    hide BeginPacket;
    hide RestOfUpload;
    SplitCounts(parts);
    var begin := BeginPacket(|parts|, |zip|, Digest(zip), version);
    assert parts != [];
    BeginOpens(|parts|, |zip|, Digest(zip), version, RestOfUpload(parts, 1), rx, turns);
    var now := Loaded(begin.payload, rx);
    Units(zip);
    PartsDelivered(Session(|parts|, Digest(zip), [], 0), parts, 1, now, turns);
  }

  /** Which it does if and only if the largest part, a whole chunk or all of a smaller file, does. */
  lemma WhenPartsFit(parts: seq<seq<byte>>, zip: seq<byte>, chunk: nat)
    requires IsSplit(parts, zip, chunk) && zip != []
    ensures AllFit(parts) <==> CHUNK_HEAD + (if |zip| < chunk then |zip| else chunk) <= PKT_BUF
  {
    SplitCounts(parts);
    assert parts != [];
    var rest := parts[1..];
    assert Concat(parts) == parts[0] + Concat(rest);
    if |parts| == 1 {
      Units(parts[0]);
      assert parts[0] == zip;
    } else {
      assert |Concat(rest)| > 0 by {
        assert Concat(rest) == rest[0] + Concat(rest[1..]) && rest[0] == parts[1];
      }
      assert |parts[0]| == chunk;
    }
    assert parts[0] in parts;
  }

  // ----- the announced total size -----

  /** Where the total lies in the receive buffer: from byte 4 up to here. */
  const PAST_TOTAL: nat := 12

  /** The buffer when of the total `t` the bytes from `u` on are still in it. */
  function Put(a: seq<byte>, u: nat, t: seq<byte>): (r: seq<byte>)
    requires Buffer(a) && 4 <= u <= PAST_TOTAL && |t| == 8
    ensures Buffer(r)
  {
    a[..u] + t[u - 4..] + a[PAST_TOTAL..]
  }

  lemma PutAt(a: seq<byte>, u: nat, t: seq<byte>, i: nat)
    requires Buffer(a) && 4 <= u <= PAST_TOTAL && |t| == 8 && i < PKT_BUF
    ensures Put(a, u, t)[i] == if u <= i < PAST_TOTAL then t[i - 4] else a[i]
  {
  }

  function Larger(a: nat, b: nat): nat {
    if a < b then b else a
  }

  lemma LoadedAt(payload: seq<byte>, a: seq<byte>, i: nat)
    requires Buffer(a) && |payload| <= PKT_BUF && i < PKT_BUF
    ensures Loaded(payload, a)[i] == if i < |payload| then payload[i] else a[i]
  {
  }

  /** A packet shorter than the total's place leaves the rest of it; a longer one leaves nothing of it. */
  lemma LoadedPut(payload: seq<byte>, a: seq<byte>, u: nat, t: seq<byte>)
    requires Buffer(a) && 4 <= u <= PAST_TOTAL && |t| == 8 && |payload| <= PKT_BUF
    ensures |payload| < PAST_TOTAL ==>
              Loaded(payload, Put(a, u, t)) == Put(Loaded(payload, a), Larger(u, |payload|), t)
    ensures |payload| >= PAST_TOTAL ==> Loaded(payload, Put(a, u, t)) == Loaded(payload, a)
  {
    var b := Loaded(payload, Put(a, u, t));
    var c := if |payload| < PAST_TOTAL then Put(Loaded(payload, a), Larger(u, |payload|), t) else Loaded(payload, a);
    forall i: nat | i < PKT_BUF ensures b[i] == c[i] {
      LoadedAt(payload, Put(a, u, t), i);
      LoadedAt(payload, a, i);
      PutAt(a, u, t, i);
      if |payload| < PAST_TOTAL {
        PutAt(Loaded(payload, a), Larger(u, |payload|), t, i);
      }
    }
    hide Loaded;
    hide Put;
    assert b == c;
  }

  const NOTHING: seq<byte> := [0, 0, 0, 0, 0, 0, 0, 0]

  /** What the bytes that are not the total's say of a chunk packet's size field. */
  function SizeKnown(a: seq<byte>, u: nat): nat
    requires Buffer(a) && 4 <= u <= PAST_TOTAL
  {
    U32At(Put(a, u, NOTHING), 4)
  }

  /** The bytes of the digest field that are not the total's are right. */
  predicate DigestFits(a: seq<byte>, u: nat)
    requires Buffer(a) && 8 <= u <= PAST_TOTAL && CHUNK_HEAD + U32At(a, 4) <= PKT_BUF
  {
    var d := Digest(ChunkData(a));
    d[..u - 8] == a[8..u] && d[4..] == a[PAST_TOTAL..CHUNK_HEAD]
  }

  /** A chunk packet comes out differently for different totals: the total decides whether the size fits,
      or the size fits and the total completes the digest. */
  predicate Tells(a: seq<byte>, u: nat)
    requires Buffer(a) && 4 <= u < PAST_TOTAL
  {
    CHUNK_HEAD + SizeKnown(a, u) <= PKT_BUF && (u >= 8 ==> CHUNK_HEAD + U32At(a, 4) <= PKT_BUF && DigestFits(a, u))
  }

  /** The first packet to overwrite the total, to end the session or to be a chunk is a chunk, short of the
      total's end, that tells. */
  predicate TotalRead(input: seq<byte>, a: seq<byte>, u: nat, turns: nat)
    requires Buffer(a) && 4 <= u < PAST_TOTAL
    decreases turns
  {
    turns > 0 && Parse(input).Got? &&
    var got := Parse(input);
    var v, now := Larger(u, |got.packet.payload|), Loaded(got.packet.payload, a);
    v < PAST_TOTAL && got.packet.kind != OTA_ABORT && got.packet.kind != OTA_END &&
    if got.packet.kind == OTA_CHUNK then Tells(now, v) else TotalRead(got.rest, now, v, turns - 1)
  }

  lemma ParsedFits(input: seq<byte>)
    requires Parse(input).Got?
    ensures |Parse(input).packet.payload| <= PKT_BUF
  {
  }

  /** The size a chunk packet names is what is known of it and more, and no more from byte 8 on. */
  lemma SizeNamed(a: seq<byte>, u: nat, t: seq<byte>)
    requires Buffer(a) && 4 <= u <= PAST_TOTAL && |t| == 8
    ensures U32At(Put(a, u, t), 4) >= SizeKnown(a, u)
    ensures u >= 8 ==> U32At(Put(a, u, t), 4) == U32At(a, 4) == SizeKnown(a, u)
    ensures U32At(Put(a, u, t), 0) == U32At(a, 0)
  {
    var b, c := Put(a, u, t), Put(a, u, NOTHING);
    forall i: nat | i < 8
      ensures b[i] == (if u <= i then t[i - 4] else a[i]) && c[i] == if u <= i then 0 else a[i]
    {
      PutAt(a, u, t, i);
      PutAt(a, u, NOTHING, i);
    }
    hide Put;
  }

  /** Behind the head of a chunk packet there is nothing of the total. */
  lemma DataNamed(a: seq<byte>, u: nat, t: seq<byte>)
    requires Buffer(a) && 8 <= u <= PAST_TOTAL && |t| == 8 && CHUNK_HEAD + U32At(a, 4) <= PKT_BUF
    ensures U32At(Put(a, u, t), 4) == U32At(a, 4) && ChunkData(Put(a, u, t)) == ChunkData(a)
    ensures Put(a, u, t)[8..CHUNK_HEAD] == a[8..u] + t[u - 4..] + a[PAST_TOTAL..CHUNK_HEAD]
  {
    SizeNamed(a, u, t);
    hide U32At;
    var b := Put(a, u, t);
    assert b[PAST_TOTAL..] == a[PAST_TOTAL..];
    assert b[CHUNK_HEAD..] == b[PAST_TOTAL..][CHUNK_HEAD - PAST_TOTAL..] == a[CHUNK_HEAD..];
    var n := U32At(a, 4);
    assert ChunkData(b) == b[CHUNK_HEAD..][..n] && ChunkData(a) == a[CHUNK_HEAD..][..n];
    assert b[8..CHUNK_HEAD] == a[8..u] + t[u - 4..] + a[PAST_TOTAL..CHUNK_HEAD];
  }

  /** A total as it stands in a packet, low word first. */
  predicate Announces(total: seq<byte>)
    requires |total| == 8
  {
    U32At(total, 0) != 0 || U32At(total, 4) != 0
  }

  lemma TotalPlaced(front: seq<byte>, total: seq<byte>, back: seq<byte>, rx: seq<byte>)
    requires |front| == 4 && |total| == 8 && |front + total + back| <= PKT_BUF && Buffer(rx)
    ensures var now := Loaded(front + total + back, rx);
            U32At(now, 4) == U32At(total, 0) && U32At(now, 8) == U32At(total, 4)
  {
    var now := Loaded(front + total + back, rx);
    assert forall k | 0 <= k < 8 :: now[4 + k] == total[k];
  }

  lemma FrontPlaced(front: seq<byte>, total: seq<byte>, back: seq<byte>, rx: seq<byte>)
    requires |front| == 4 && |total| == 8 && |front + total + back| <= PKT_BUF && Buffer(rx)
    ensures var now := Loaded(front + total + back, rx);
            U32At(now, 0) == U32At(front, 0) && Loaded([], now) == now
  {
    var now := Loaded(front + total + back, rx);
    assert forall k | 0 <= k < 4 :: now[k] == front[k];
  }

  lemma BothHalves(d: seq<byte>, a: seq<byte>, u: nat, t: seq<byte>)
    requires |d| == 16 && Buffer(a) && 8 <= u <= PAST_TOTAL && |t| == 8
    ensures d == a[8..u] + t[u - 4..] + a[PAST_TOTAL..CHUNK_HEAD] <==>
            d[..u - 8] == a[8..u] && d[u - 8..4] == t[u - 4..] && d[4..] == a[PAST_TOTAL..CHUNK_HEAD]
  {
    var x, y, z := a[8..u], t[u - 4..], a[PAST_TOTAL..CHUNK_HEAD];
    if d == x + y + z {
      assert (x + y + z)[..u - 8] == x && (x + y + z)[u - 8..4] == y && (x + y + z)[4..] == z;
    }
    assert d == d[..u - 8] + d[u - 8..4] + d[4..];
  }

  /** A chunk packet that does not tell ends the session the same way whatever the total. */
  lemma ChunkSame(s: Session, a: seq<byte>, u: nat, t: seq<byte>, other: seq<byte>)
    requires Buffer(a) && 4 <= u < PAST_TOTAL && |t| == |other| == 8 && !Tells(a, u)
    ensures Chunk(s, Put(a, u, t)) == Chunk(s, Put(a, u, other)) && Chunk(s, Put(a, u, t)).Over?
  {
    SizeNamed(a, u, t);
    SizeNamed(a, u, other);
    if u >= 8 && CHUNK_HEAD + U32At(a, 4) <= PKT_BUF {
      DataNamed(a, u, t);
      DataNamed(a, u, other);
      BothHalves(Digest(ChunkData(a)), a, u, t);
      BothHalves(Digest(ChunkData(a)), a, u, other);
    }
    hide U32At;
    hide Put;
    hide Digest;
    hide ChunkData;
  }

  /** Two outcomes of one packet that lead to different replies, whatever comes later. */
  predicate SetApart(p: Progress, q: Progress) {
    || (p == Over(Result(Undefined, [])) && Answer(q) != [])
    || (Answer(p) != [] && Answer(q) != [] && Answer(p)[0] != Answer(q)[0])
  }

  /** Totals for a size the total has a part in: one past the buffer, one inside it. */
  lemma SizeTells(s: Session, a: seq<byte>, u: nat)
    requires Buffer(a) && 4 <= u < 8 && Tells(a, u)
    ensures var t, other := [0, 0, 0, 1, 1, 0, 0, 0], [0, 0, 0, 0, 1, 0, 0, 0];
            SetApart(Chunk(s, Put(a, u, t)), Chunk(s, Put(a, u, other)))
  {
    var t, other := [0, 0, 0, 1, 1, 0, 0, 0], [0, 0, 0, 0, 1, 0, 0, 0];
    TopByte(a, u, t);
    TopByte(a, u, other);
    hide U32At;
    hide Put;
    hide Digest;
    hide ChunkData;
  }

  lemma TopByte(a: seq<byte>, u: nat, t: seq<byte>)
    requires Buffer(a) && 4 <= u < 8 && |t| == 8 && t[0] == t[1] == t[2] == 0
    ensures t[3] == 0 ==> U32At(Put(a, u, t), 4) == SizeKnown(a, u)
    ensures t[3] == 1 ==> CHUNK_HEAD + U32At(Put(a, u, t), 4) > PKT_BUF
  {
    var b, c := Put(a, u, t), Put(a, u, NOTHING);
    forall i: nat | 4 <= i < 8
      ensures b[i] == (if u <= i then t[i - 4] else a[i]) && c[i] == if u <= i then 0 else a[i]
    {
      PutAt(a, u, t, i);
      PutAt(a, u, NOTHING, i);
    }
    hide Put;
  }

  /** Two totals, of which one ends as a digest goes on and the other does not. */
  lemma TwoTotals(d: seq<byte>, u: nat) returns (t: seq<byte>, other: seq<byte>)
    requires |d| == 16 && 8 <= u < PAST_TOTAL
    ensures |t| == |other| == 8 && t[0] == other[0] == 1
    ensures t[u - 4..] == d[u - 8..4] != other[u - 4..]
  {
    var wrong: byte := if d[3] == 0 then 1 else 0;
    t := [1, 0, 0, 0] + d[..4];
    other := [1, 0, 0, 0] + d[..3] + [wrong];
    assert t[u - 4..] == d[u - 8..4];
    assert other[u - 4..][11 - u] == wrong && d[u - 8..4][11 - u] == d[3];
  }

  /** Totals for a digest the total completes: the right bytes, and one wrong one. */
  lemma DigestTells(s: Session, a: seq<byte>, u: nat) returns (t: seq<byte>, other: seq<byte>)
    requires Buffer(a) && 8 <= u < PAST_TOTAL && Tells(a, u)
    ensures |t| == |other| == 8 && t[0] == other[0] == 1
    ensures SetApart(Chunk(s, Put(a, u, t)), Chunk(s, Put(a, u, other)))
  {
    var d := Digest(ChunkData(a));
    t, other := TwoTotals(d, u);
    DataNamed(a, u, t);
    DataNamed(a, u, other);
    SizeNamed(a, u, t);
    SizeNamed(a, u, other);
    BothHalves(d, a, u, t);
    BothHalves(d, a, u, other);
    hide U32At;
    hide Put;
    hide Digest;
    hide ChunkData;
  }

  /** One packet of an open session, once it is known what comes of it. */
  lemma DriveTurn(s: Session, input: seq<byte>, rx: seq<byte>, turns: nat)
    requires Buffer(rx) && turns > 0 && Parse(input).Got?
    ensures |Parse(input).packet.payload| <= PKT_BUF
    ensures var got := Parse(input);
            var now := Loaded(got.packet.payload, rx);
            var step := Handle(s, got.packet.kind, now);
            Drive(s, input, rx, turns) ==
            if step.Over? then step.result else Prepend(step.replies, Drive(step.session, got.rest, now, turns - 1))
    ensures Follows(Handle(s, Parse(input).packet.kind, Loaded(Parse(input).packet.payload, rx)),
            Drive(s, input, rx, turns))
  {
    ParsedFits(input);
    hide Parse;
    hide Handle;
    hide Loaded;
  }

  /** The same for the packet a session begins with. */
  lemma RunTurn(input: seq<byte>, rx: seq<byte>, env: Env, turns: nat)
    requires Buffer(rx) && Parse(input).Got?
    ensures |Parse(input).packet.payload| <= PKT_BUF
    ensures var got := Parse(input);
            var now := Loaded(got.packet.payload, rx);
            var step := Begin(got.packet.kind, |got.packet.payload|, now, env);
            Run(input, rx, env, turns) ==
            if step.Over? then step.result else Prepend(step.replies, Drive(step.session, got.rest, now, turns))
  {
    ParsedFits(input);
    hide Parse;
    hide Begin;
    hide Drive;
    hide Loaded;
  }

  /** While no chunk packet tells, sessions that differ in the total only go the same way. */
  lemma {:induction false} DriveIgnoresTotal(s: Session, input: seq<byte>, a: seq<byte>, u: nat, t: seq<byte>,
                                             other: seq<byte>, turns: nat)
    requires Buffer(a) && 4 <= u < PAST_TOTAL && |t| == |other| == 8 && !TotalRead(input, a, u, turns)
    ensures Drive(s, input, Put(a, u, t), turns) == Drive(s, input, Put(a, u, other), turns)
    decreases turns
  {
    hide Parse;
    hide Chunk;
    hide Conclude;
    hide Loaded;
    hide Put;
    hide Tells;
    if turns > 0 && Parse(input).Got? {
      var got := Parse(input);
      DriveTurn(s, input, Put(a, u, t), turns);
      DriveTurn(s, input, Put(a, u, other), turns);
      LoadedPut(got.packet.payload, a, u, t);
      LoadedPut(got.packet.payload, a, u, other);
      hide Drive;
      var v, now := Larger(u, |got.packet.payload|), Loaded(got.packet.payload, a);
      if v < PAST_TOTAL && got.packet.kind == OTA_CHUNK {
        ChunkSame(s, now, v, t, other);
      } else if v < PAST_TOTAL && got.packet.kind != OTA_ABORT && got.packet.kind != OTA_END {
        DriveIgnoresTotal(s, got.rest, now, v, t, other, turns - 1);
      }
    }
  }

  /** `r` is what becomes of a session after `p`. */
  predicate Follows(p: Progress, r: Result) {
    match p
    case Over(result) => r == result
    case Going(_, replies) => replies <= r.replies
  }

  lemma AnsweredFirst(p: Progress, r: Result)
    requires Follows(p, r) && Answer(p) != []
    ensures r.replies != [] && r.replies[0] == Answer(p)[0]
  {
  }

  /** Replies that part never meet again. */
  lemma StaysApart(p: Progress, q: Progress, r: Result, r': Result)
    requires SetApart(p, q) && Follows(p, r) && Follows(q, r')
    ensures r != r'
  {
    AnsweredFirst(q, r');
    if Answer(p) != [] {
      AnsweredFirst(p, r);
    }
  }

  /** A chunk packet that tells is answered differently for two nonzero totals. */
  lemma ChunkTells(s: Session, a: seq<byte>, u: nat) returns (t: seq<byte>, other: seq<byte>)
    requires Buffer(a) && 4 <= u < PAST_TOTAL && Tells(a, u)
    ensures |t| == |other| == 8 && Announces(t) && Announces(other)
    ensures SetApart(Chunk(s, Put(a, u, t)), Chunk(s, Put(a, u, other)))
  {
    hide Chunk;
    hide Tells;
    if u < 8 {
      SizeTells(s, a, u);
      t, other := [0, 0, 0, 1, 1, 0, 0, 0], [0, 0, 0, 0, 1, 0, 0, 0];
    } else {
      t, other := DigestTells(s, a, u);
    }
    hide Put;
    hide SetApart;
  }

  lemma PrependNothing(r: Result)
    ensures Prepend([], r) == r
  {
    Units(r.replies);
  }

  /** Where the total is read, two nonzero totals lead to different sessions. */
  lemma {:induction false} DriveReadsTotal(s: Session, input: seq<byte>, a: seq<byte>, u: nat, turns: nat)
    returns (t: seq<byte>, other: seq<byte>)
    requires Buffer(a) && 4 <= u < PAST_TOTAL && TotalRead(input, a, u, turns)
    ensures |t| == |other| == 8 && Announces(t) && Announces(other)
    ensures Drive(s, input, Put(a, u, t), turns) != Drive(s, input, Put(a, u, other), turns)
    decreases turns
  {
    hide Parse;
    hide Chunk;
    hide Conclude;
    hide Loaded;
    hide Put;
    hide Tells;
    hide Announces;
    hide SetApart;
    var got := Parse(input);
    var v, now := Larger(u, |got.packet.payload|), Loaded(got.packet.payload, a);
    if got.packet.kind == OTA_CHUNK {
      t, other := ChunkTells(s, now, v);
    } else {
      t, other := DriveReadsTotal(s, got.rest, now, v, turns - 1);
    }
    DriveTurn(s, input, Put(a, u, t), turns);
    DriveTurn(s, input, Put(a, u, other), turns);
    LoadedPut(got.packet.payload, a, u, t);
    LoadedPut(got.packet.payload, a, u, other);
    var r, r' := Drive(s, input, Put(a, u, t), turns), Drive(s, input, Put(a, u, other), turns);
    hide Drive;
    if got.packet.kind == OTA_CHUNK {
      StaysApart(Chunk(s, Put(now, v, t)), Chunk(s, Put(now, v, other)), r, r');
    } else {
      PrependNothing(Drive(s, got.rest, Put(now, v, t), turns - 1));
      PrependNothing(Drive(s, got.rest, Put(now, v, other), turns - 1));
    }
  }

  lemma Slices(front: seq<byte>, total: seq<byte>, tail: seq<byte>)
    requires |front| == 4 && |total| == 8
    ensures var a := front + total + tail;
            a[..4] == front && a[4..12] == total && a[12..] == tail
  {
  }

  lemma LoadedIs(front: seq<byte>, total: seq<byte>, back: seq<byte>, rx: seq<byte>)
    requires |front| == 4 && |total| == 8 && 12 + |back| <= PKT_BUF && Buffer(rx)
    ensures Loaded(front + total + back, rx) == front + total + (back + rx[12 + |back|..])
  {
    Assoc(front + total, back, rx[12 + |back|..]);
  }

  /** The buffer behind a BEGIN packet, with no total in it. */
  function Opened(front: seq<byte>, back: seq<byte>, rx: seq<byte>): (a: seq<byte>)
    requires |front| == 4 && 12 + |back| <= PKT_BUF && Buffer(rx)
    ensures Buffer(a)
  {
    Loaded(front + NOTHING + back, rx)
  }

  lemma OpenedPut(front: seq<byte>, total: seq<byte>, back: seq<byte>, rx: seq<byte>)
    requires |front| == 4 && |total| == 8 && 12 + |back| <= PKT_BUF && Buffer(rx)
    ensures Loaded(front + total + back, rx) == Put(Opened(front, back, rx), 4, total)
  {
    LoadedIs(front, total, back, rx);
    LoadedIs(front, NOTHING, back, rx);
    hide Loaded;
    var tail := back + rx[12 + |back|..];
    Slices(front, NOTHING, tail);
    assert total[0..] == total;
  }

  /** A BEGIN packet is accepted, whatever total it announces as long as it is not zero. */
  predicate Begun(kind: byte, front: seq<byte>, back: seq<byte>, env: Env)
    requires |front| == 4
  {
    && kind == OTA_BEGIN && 29 <= 12 + |back| <= PKT_BUF && U32At(front, 0) != 0
    && env.mkdirOk && env.ackOk && env.openOk
  }

  lemma BeginIgnoresTotal(kind: byte, front: seq<byte>, total: seq<byte>, other: seq<byte>, back: seq<byte>,
                          rx: seq<byte>, env: Env)
    requires |front| == 4 && |total| == |other| == 8 && Announces(total) && Announces(other)
    requires 12 + |back| <= PKT_BUF && Buffer(rx)
    ensures var a, len := Opened(front, back, rx), 12 + |back|;
            && Begin(kind, len, Put(a, 4, total), env) == Begin(kind, len, Put(a, 4, other), env)
            && (Begin(kind, len, Put(a, 4, total), env).Going? <==> Begun(kind, front, back, env))
  {
    OpenedPut(front, total, back, rx);
    OpenedPut(front, other, back, rx);
    LoadedIs(front, total, back, rx);
    LoadedIs(front, other, back, rx);
    var tail := back + rx[12 + |back|..];
    hide Put;
    hide Loaded;
    hide Opened;
    BeginReadsTotal(kind, front, total, tail, 12 + |back|, env);
    BeginReadsTotal(kind, front, other, tail, 12 + |back|, env);
  }

  lemma BeginReadsTotal(kind: byte, front: seq<byte>, total: seq<byte>, tail: seq<byte>, len: nat, env: Env)
    requires |front| == 4 && |total| == 8 && Announces(total) && Buffer(front + total + tail)
    ensures Begin(kind, len, front + total + tail, env) ==
            if kind != OTA_BEGIN then Over(Result(Refused, []))
            else if len < 29 || U32At(front, 0) == 0 || !env.mkdirOk then Over(Result(Refused, [Nak(0)]))
            else if !env.ackOk then Over(Result(Refused, []))
            else if !env.openOk then Over(Result(Refused, [Ack(0), Nak(0)]))
            else Going(Session(U32At(front, 0), tail[..16], [], 0), [Ack(0)])
  {
    var a := front + total + tail;
    Slices(front, total, tail);
    assert forall k | 0 <= k < 4 :: a[k] == front[k];
    assert forall k | 0 <= k < 8 :: a[4 + k] == total[k];
    assert U32At(a, 0) == U32At(front, 0) && U32At(a, 4) == U32At(total, 0) && U32At(a, 8) == U32At(total, 4);
    assert a[12..28] == a[12..][..16];
    hide U32At;
  }

  /** A session that begins with this packet. */
  function RunFrom(kind: byte, front: seq<byte>, total: seq<byte>, back: seq<byte>, rest: seq<byte>, rx: seq<byte>,
                   env: Env, turns: nat): Result
    requires |front| == 4 && |total| == 8 && Buffer(rx)
  {
    Run(EncodePacket(Packet(kind, front + total + back)) + rest, rx, env, turns)
  }

  lemma RunFromIs(kind: byte, front: seq<byte>, total: seq<byte>, back: seq<byte>, rest: seq<byte>, rx: seq<byte>,
                  env: Env, turns: nat)
    requires |front| == 4 && |total| == 8 && 12 + |back| < TWO32 && Buffer(rx)
    ensures RunFrom(kind, front, total, back, rest, rx, env, turns) ==
            if 12 + |back| > PKT_BUF then Result(Refused, [])
            else
              var a := Put(Opened(front, back, rx), 4, total);
              var begun := Begin(kind, 12 + |back|, a, env);
              if begun.Over? then begun.result else Prepend(begun.replies, Drive(begun.session, rest, a, turns))
  {
    hide Parse;
    hide EncodePacket;
    hide Begin;
    hide Drive;
    hide Put;
    var p := Packet(kind, front + total + back);
    assert |p.payload| == 12 + |back|;
    PacketReadsBack(p, rest);
    if 12 + |back| <= PKT_BUF {
      OpenedPut(front, total, back, rx);
    }
    hide Loaded;
    hide Opened;
  }

  /** The session is accepted and then reads the place of the total as part of a chunk. */
  predicate ReadsTotal(kind: byte, front: seq<byte>, back: seq<byte>, rest: seq<byte>, rx: seq<byte>, env: Env,
                       turns: nat)
    requires |front| == 4 && Buffer(rx)
  {
    Begun(kind, front, back, env) && TotalRead(rest, Opened(front, back, rx), 4, turns)
  }

  /** Otherwise the announced total is only compared with zero: any other nonzero one leaves outcome and replies as
      they are. */
  lemma TotalIsIgnored(kind: byte, front: seq<byte>, total: seq<byte>, other: seq<byte>, back: seq<byte>,
                       rest: seq<byte>, rx: seq<byte>, env: Env, turns: nat)
    requires |front| == 4 && |total| == |other| == 8 && Announces(total) && Announces(other) && 12 + |back| < TWO32
    requires Buffer(rx) && !ReadsTotal(kind, front, back, rest, rx, env, turns)
    ensures RunFrom(kind, front, total, back, rest, rx, env, turns) ==
            RunFrom(kind, front, other, back, rest, rx, env, turns)
  {
    RunFromIs(kind, front, total, back, rest, rx, env, turns);
    RunFromIs(kind, front, other, back, rest, rx, env, turns);
    hide RunFrom;
    hide Begun;
    hide Begin;
    hide Drive;
    hide Put;
    hide Opened;
    hide TotalRead;
    hide Announces;
    if 12 + |back| <= PKT_BUF {
      BeginIgnoresTotal(kind, front, total, other, back, rx, env);
      var a := Opened(front, back, rx);
      var begun := Begin(kind, 12 + |back|, Put(a, 4, total), env);
      if begun.Going? {
        DriveIgnoresTotal(begun.session, rest, a, 4, total, other, turns);
      }
    }
  }

  lemma PrependDiffers(replies: seq<Reply>, r: Result, r': Result)
    requires r != r'
    ensures Prepend(replies, r) != Prepend(replies, r')
  {
    if replies + r.replies == replies + r'.replies {
      assert r.replies == (replies + r.replies)[|replies|..] == r'.replies;
    }
  }

  /** There it is not: two totals part the sessions. */
  lemma TotalIsRead(kind: byte, front: seq<byte>, back: seq<byte>, rest: seq<byte>, rx: seq<byte>, env: Env, turns: nat)
    returns (total: seq<byte>, other: seq<byte>)
    requires |front| == 4 && Buffer(rx) && ReadsTotal(kind, front, back, rest, rx, env, turns)
    ensures |total| == |other| == 8 && Announces(total) && Announces(other)
    ensures RunFrom(kind, front, total, back, rest, rx, env, turns) !=
            RunFrom(kind, front, other, back, rest, rx, env, turns)
  {
    var a := Opened(front, back, rx);
    var tail := back + rx[12 + |back|..];
    var s := Session(U32At(front, 0), tail[..16], [], 0);
    hide U32At;
    hide RunFrom;
    hide Begin;
    hide Drive;
    hide Put;
    hide Opened;
    hide Loaded;
    hide TotalRead;
    hide Announces;
    total, other := DriveReadsTotal(s, rest, a, 4, turns);
    OpenBegins(front, total, back, rx, kind, env);
    OpenBegins(front, other, back, rx, kind, env);
    RunFromIs(kind, front, total, back, rest, rx, env, turns);
    RunFromIs(kind, front, other, back, rest, rx, env, turns);
    PrependDiffers([Ack(0)], Drive(s, rest, Put(a, 4, total), turns), Drive(s, rest, Put(a, 4, other), turns));
  }

  lemma OpenBegins(front: seq<byte>, total: seq<byte>, back: seq<byte>, rx: seq<byte>, kind: byte, env: Env)
    requires |front| == 4 && |total| == 8 && Announces(total) && Buffer(rx) && Begun(kind, front, back, env)
    ensures var tail := back + rx[12 + |back|..];
            Begin(kind, 12 + |back|, Put(Opened(front, back, rx), 4, total), env)
            == Going(Session(U32At(front, 0), tail[..16], [], 0), [Ack(0)])
  {
    OpenedPut(front, total, back, rx);
    LoadedIs(front, total, back, rx);
    hide Put;
    hide Loaded;
    hide Opened;
    hide U32At;
    BeginReadsTotal(kind, front, total, back + rx[12 + |back|..], 12 + |back|, env);
  }

  /**
   * Two nonzero totals, all else being equal, can lead to different outcomes or replies if and only if the session
   * is accepted and some chunk packet reads the place of the total: it comes before any packet of twelve bytes
   * or more, any ABORT and any END, is itself shorter than that, and what it does not read there makes a whole.
   */
  lemma TotalMatters(kind: byte, front: seq<byte>, back: seq<byte>, rest: seq<byte>, rx: seq<byte>, env: Env,
                     turns: nat)
    requires |front| == 4 && 12 + |back| < TWO32 && Buffer(rx)
    ensures (exists total, other :: |total| == |other| == 8 && Announces(total) && Announces(other)
                && RunFrom(kind, front, total, back, rest, rx, env, turns) !=
                  RunFrom(kind, front, other, back, rest, rx, env, turns))
            <==> ReadsTotal(kind, front, back, rest, rx, env, turns)
  {
    hide RunFrom;
    hide ReadsTotal;
    hide Announces;
    if ReadsTotal(kind, front, back, rest, rx, env, turns) {
      var total, other := TotalIsRead(kind, front, back, rest, rx, env, turns);
    } else {
      forall total, other | |total| == |other| == 8 && Announces(total) && Announces(other)
        ensures RunFrom(kind, front, total, back, rest, rx, env, turns) ==
                RunFrom(kind, front, other, back, rest, rx, env, turns)
      {
        TotalIsIgnored(kind, front, total, other, back, rest, rx, env, turns);
      }
    }
  }

  lemma BadSizeIsUndefined(s: Session, rx: seq<byte>)
    requires Buffer(rx)
    ensures Chunk(s, rx).Over? && Chunk(s, rx).result.outcome == Undefined <==> CHUNK_HEAD + U32At(rx, 4) > PKT_BUF
  {
    hide Digest;
    hide U32At;
  }

  lemma EmptyChunkReadsBack()
    ensures Parse(EncodePacket(Packet(OTA_CHUNK, []))) == Got(Packet(OTA_CHUNK, []), [])
  {
    hide Parse;
    hide EncodePacket;
    PacketReadsBack(Packet(OTA_CHUNK, []), []);
    Units(EncodePacket(Packet(OTA_CHUNK, [])));
  }

  /** One empty chunk packet and then nothing. */
  lemma OneEmptyChunk(s: Session, rx: seq<byte>, turns: nat)
    requires Buffer(rx) && turns > 0 && Loaded([], rx) == rx
    ensures Drive(s, EncodePacket(Packet(OTA_CHUNK, [])), rx, turns).outcome == Undefined <==>
            CHUNK_HEAD + U32At(rx, 4) > PKT_BUF
  {
    hide Parse;
    hide EncodePacket;
    hide Digest;
    hide U32At;
    hide Loaded;
    hide Chunk;
    hide Conclude;
    EmptyChunkReadsBack();
    ParseNothing();
    BadSizeIsUndefined(s, rx);
    var step := Chunk(s, rx);
    assert Handle(s, OTA_CHUNK, rx) == step;
    if step.Going? {
      assert Drive(step.session, [], rx, turns - 1) == Conclude(step.session);
      NeverUndefined(step.session);
    }
  }

  lemma NeverUndefined(s: Session)
    ensures Conclude(s).outcome != Undefined
  {
    hide Digest;
  }

  lemma Opens(now: seq<byte>, len: nat)
    requires Buffer(now) && len >= 29 && U32At(now, 0) != 0 && (U32At(now, 4) != 0 || U32At(now, 8) != 0)
    ensures Begin(OTA_BEGIN, len, now, Env(true, true, true)) ==
            Going(Session(U32At(now, 0), now[12..28], [], 0), [Ack(0)])
  {
    hide U32At;
  }

  /** A shorter chunk packet does read it: its size field is then the low word of the total, and a total that
      reaches past the buffer sends the daemon there. */
  lemma ShortChunkReadsTotal(front: seq<byte>, total: seq<byte>, back: seq<byte>, rx: seq<byte>, turns: nat)
    requires |front| == 4 && U32At(front, 0) != 0 && |total| == 8 && Announces(total) && 17 <= |back| <= PKT_BUF - 12
    requires Buffer(rx) && turns > 0
    ensures var input := EncodePacket(Packet(OTA_BEGIN, front + total + back)) + EncodePacket(Packet(OTA_CHUNK, []));
            Run(input, rx, Env(true, true, true), turns).outcome == Undefined <==>
              CHUNK_HEAD + U32At(total, 0) > PKT_BUF
  {
    hide U32At;
    TotalPlaced(front, total, back, rx);
    FrontPlaced(front, total, back, rx);
    var p := Packet(OTA_BEGIN, front + total + back);
    var now := Loaded(p.payload, rx);
    Opens(now, |p.payload|);
    PacketReadsBack(p, EncodePacket(Packet(OTA_CHUNK, [])));
    hide Parse;
    hide EncodePacket;
    hide Loaded;
    hide Drive;
    hide Begin;
    hide Announces;
    OneEmptyChunk(Session(U32At(now, 0), now[12..28], [], 0), now, turns);
  }

  // ----- the host's end -----

  /** The host's reading of one whole message as one packet. */
  datatype HostRead = Packeted(packet: Packet) | Raised

  function HostParse(data: seq<byte>): HostRead {
    if |data| < HEADER + 1 || data[0] != OTA_MAGIC then Raised
    else if |data| != HEADER + U32At(data, 2) + 1 then Raised
    else if data[|data| - 1] != XorSum(data[HEADER..|data| - 1]) then Raised
    else Packeted(Packet(data[1], data[HEADER..|data| - 1]))
  }

  lemma HostReadsBack(p: Packet)
    requires |p.payload| < TWO32
    ensures HostParse(EncodePacket(p)) == Packeted(p)
  {
    Layout(p, []);
    Units(EncodePacket(p));
    hide XorSum;
    hide EncodePacket;
    hide U32At;
  }

  lemma PartialPacket(buf: seq<byte>, more: seq<byte>, p: Packet)
    requires |p.payload| <= PKT_BUF && buf + more == EncodePacket(p) && Parse(buf).Got?
    ensures more == [] && Parse(buf) == Got(p, [])
  {
    Layout(p, []);
    PacketReadsBack(p, []);
    Units(EncodePacket(p));
    hide XorSum;
    hide EncodePacket;
    var s := EncodePacket(p);
    assert U32At(buf, 2) == U32At(s, 2) by {
      assert forall k | 2 <= k < 6 :: buf[k] == s[k];
    }
    assert |buf| == |s|;
    assert more == [];
    Units(buf);
  }

  lemma ParseNothing()
    ensures Parse([]).Failed?
  {
  }
}
