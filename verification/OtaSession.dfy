/** An update session told by its packets: where it stops, what it has said and staged by then, and how it ends. */
module OtaSession {
  import opened Bytes
  import opened Md5
  import opened Ota

  /** The packets a stream parses into, up to `turns` of them. */
  function Packets(input: seq<byte>, turns: nat): (ps: seq<Packet>)
    ensures |ps| <= turns
    ensures forall p <- ps :: |p.payload| <= PKT_BUF
    decreases turns
  {
    if turns == 0 || Parse(input).Failed? then [] else [Parse(input).packet] + Packets(Parse(input).rest, turns - 1)
  }

  /** What is left of the stream behind its first `n` packets. */
  function Behind(input: seq<byte>, n: nat): seq<byte>
    decreases n
  {
    if n == 0 || Parse(input).Failed? then input else Behind(Parse(input).rest, n - 1)
  }

  lemma {:induction false} PacketAt(input: seq<byte>, turns: nat, n: nat)
    requires n < |Packets(input, turns)|
    ensures Parse(Behind(input, n)).Got? && Parse(Behind(input, n)).packet == Packets(input, turns)[n]
    ensures Behind(input, n + 1) == Parse(Behind(input, n)).rest
    decreases n
  {
    hide Parse;
    if n > 0 {
      PacketAt(Parse(input).rest, turns - 1, n - 1);
    }
  }

  lemma {:induction false} NothingBehind(input: seq<byte>, turns: nat)
    requires |Packets(input, turns)| < turns
    ensures Parse(Behind(input, |Packets(input, turns)|)).Failed?
    decreases turns
  {
    hide Parse;
    if Parse(input).Got? {
      NothingBehind(Parse(input).rest, turns - 1);
    }
  }

  predicate Sized(ps: seq<Packet>) {
    forall p <- ps :: |p.payload| <= PKT_BUF
  }

  /** The receive buffer when the first `n` packets have been read into it, one over the other. */
  function BufferAfter(ps: seq<Packet>, rx: seq<byte>, n: nat): (b: seq<byte>)
    requires Buffer(rx) && Sized(ps) && n <= |ps|
    ensures Buffer(b)
  {
    if n == 0 then rx
    else
      var b := BufferAfter(ps, rx, n - 1);
      ps[n - 1].payload + b[|ps[n - 1].payload|..]
  }

  /** Packet `i` names a size that fits the buffer. */
  predicate SizeFits(ps: seq<Packet>, rx: seq<byte>, i: nat)
    requires Buffer(rx) && Sized(ps) && i < |ps|
  {
    24 + U32At(BufferAfter(ps, rx, i + 1), 4) <= PKT_BUF
  }

  /** The data of chunk packet `i`. */
  function DataOf(ps: seq<Packet>, rx: seq<byte>, i: nat): seq<byte>
    requires Buffer(rx) && Sized(ps) && i < |ps| && SizeFits(ps, rx, i)
  {
    BufferAfter(ps, rx, i + 1)[24..24 + U32At(BufferAfter(ps, rx, i + 1), 4)]
  }

  /** And they have the digest it names. */
  predicate DigestRight(ps: seq<Packet>, rx: seq<byte>, i: nat)
    requires Buffer(rx) && Sized(ps) && i < |ps| && SizeFits(ps, rx, i)
  {
    Digest(DataOf(ps, rx, i)) == BufferAfter(ps, rx, i + 1)[8..24]
  }

  /** Packet `i` lets the session go on: no ABORT, no END, and if a chunk, a right one. */
  predicate GoesOn(ps: seq<Packet>, rx: seq<byte>, i: nat)
    requires Buffer(rx) && Sized(ps) && i < |ps|
  {
    && ps[i].kind != OTA_ABORT && ps[i].kind != OTA_END
    && (ps[i].kind == OTA_CHUNK ==> SizeFits(ps, rx, i) && DigestRight(ps, rx, i))
  }

  /** So do the first `n`. */
  predicate AllGoOn(ps: seq<Packet>, rx: seq<byte>, n: nat)
    requires Buffer(rx) && Sized(ps) && n <= |ps|
  {
    n == 0 || (AllGoOn(ps, rx, n - 1) && GoesOn(ps, rx, n - 1))
  }

  lemma {:induction false} EachGoesOn(ps: seq<Packet>, rx: seq<byte>, n: nat)
    requires Buffer(rx) && Sized(ps) && n <= |ps|
    ensures AllGoOn(ps, rx, n) <==> forall i :: 0 <= i < n ==> GoesOn(ps, rx, i)
  {
    hide GoesOn;
    if n > 0 {
      EachGoesOn(ps, rx, n - 1);
    }
  }

  /** The chunk packets among the first `n`: their data end to end, their number, and their acknowledgements. */
  function StagedBy(ps: seq<Packet>, rx: seq<byte>, n: nat): seq<byte>
    requires Buffer(rx) && Sized(ps) && n <= |ps| && AllGoOn(ps, rx, n)
  {
    if n == 0 then []
    else
      StagedBy(ps, rx, n - 1) + if ps[n - 1].kind == OTA_CHUNK then DataOf(ps, rx, n - 1) else []
  }

  function ChunksIn(ps: seq<Packet>, n: nat): nat
    requires n <= |ps|
  {
    if n == 0 then 0 else ChunksIn(ps, n - 1) + if ps[n - 1].kind == OTA_CHUNK then 1 else 0
  }

  function NumberOf(ps: seq<Packet>, rx: seq<byte>, i: nat): u32
    requires Buffer(rx) && Sized(ps) && i < |ps|
  {
    U32At(BufferAfter(ps, rx, i + 1), 0)
  }

  function AcksFor(ps: seq<Packet>, rx: seq<byte>, n: nat): seq<Reply>
    requires Buffer(rx) && Sized(ps) && n <= |ps|
  {
    if n == 0 then []
    else AcksFor(ps, rx, n - 1) + if ps[n - 1].kind == OTA_CHUNK then [Ack(NumberOf(ps, rx, n - 1))] else []
  }

  /** The session with more data staged, in so many chunks. */
  function Grown(s: Session, data: seq<byte>, chunks: nat): Session {
    s.(staged := s.staged + data, count := (s.count + chunks) % TWO32)
  }

  lemma GrownTwice(s: Session, a: seq<byte>, b: seq<byte>, m: nat, n: nat)
    ensures Grown(Grown(s, a, m), b, n) == Grown(s, a + b, m + n)
  {
    Assoc(s.staged, a, b);
    assert ((s.count + m) % TWO32 + n) % TWO32 == (s.count + (m + n)) % TWO32;
  }

  /** The session when `n` packets have let it go on. */
  function SessionAfter(s: Session, ps: seq<Packet>, rx: seq<byte>, n: nat): Session
    requires Buffer(rx) && Sized(ps) && n <= |ps| && AllGoOn(ps, rx, n)
  {
    Grown(s, StagedBy(ps, rx, n), ChunksIn(ps, n))
  }

  lemma BufferLoads(ps: seq<Packet>, rx: seq<byte>, n: nat)
    requires Buffer(rx) && Sized(ps) && n < |ps|
    ensures BufferAfter(ps, rx, n + 1) == Loaded(ps[n].payload, BufferAfter(ps, rx, n))
  {
  }

  lemma ChunkTaken(s: Session, b: seq<byte>)
    requires Buffer(b) && 24 + U32At(b, 4) <= PKT_BUF && Digest(b[24..24 + U32At(b, 4)]) == b[8..24]
    ensures Handle(s, OTA_CHUNK, b) ==
            Going(Grown(s, b[24..24 + U32At(b, 4)], 1), [Ack(U32At(b, 0))])
  {
    hide Digest;
    hide U32At;
  }

  lemma OthersIgnored(s: Session, kind: byte, b: seq<byte>)
    requires Buffer(b) && kind != OTA_ABORT && kind != OTA_END && kind != OTA_CHUNK
    ensures Handle(s, kind, b) == Going(s, [])
  {
    hide Chunk;
  }

  lemma LastGoesOn(ps: seq<Packet>, rx: seq<byte>, n: nat)
    requires Buffer(rx) && Sized(ps) && n < |ps| && AllGoOn(ps, rx, n + 1)
    ensures GoesOn(ps, rx, n)
  {
    hide GoesOn;
  }

  lemma ChunkGoesOn(ps: seq<Packet>, rx: seq<byte>, n: nat)
    requires Buffer(rx) && Sized(ps) && n < |ps| && AllGoOn(ps, rx, n + 1)
    ensures AllGoOn(ps, rx, n) && (ps[n].kind == OTA_CHUNK ==> SizeFits(ps, rx, n) && DigestRight(ps, rx, n))
  {
    assert GoesOn(ps, rx, n);
    hide SizeFits;
    hide DigestRight;
  }

  lemma StagedNext(ps: seq<Packet>, rx: seq<byte>, n: nat)
    requires Buffer(rx) && Sized(ps) && n < |ps| && AllGoOn(ps, rx, n + 1)
    requires ps[n].kind == OTA_CHUNK ==> SizeFits(ps, rx, n)
    ensures StagedBy(ps, rx, n + 1) == StagedBy(ps, rx, n) + if ps[n].kind == OTA_CHUNK then DataOf(ps, rx, n) else []
  {
    hide SizeFits;
    hide DigestRight;
    hide DataOf;
  }

  lemma ChunksNext(ps: seq<Packet>, n: nat)
    requires n < |ps|
    ensures ChunksIn(ps, n + 1) == ChunksIn(ps, n) + if ps[n].kind == OTA_CHUNK then 1 else 0
  {
  }

  lemma NextByChunk(s: Session, ps: seq<Packet>, rx: seq<byte>, n: nat)
    requires Buffer(rx) && Sized(ps) && n < |ps| && AllGoOn(ps, rx, n) && AllGoOn(ps, rx, n + 1)
    requires ps[n].kind == OTA_CHUNK && SizeFits(ps, rx, n)
    ensures SessionAfter(s, ps, rx, n + 1) == Grown(SessionAfter(s, ps, rx, n), DataOf(ps, rx, n), 1)
  {
    hide Grown;
    hide SizeFits;
    hide DataOf;
    hide StagedBy;
    hide AllGoOn;
    hide ChunksIn;
    hide BufferAfter;
    StagedNext(ps, rx, n);
    ChunksNext(ps, n);
    GrownTwice(s, StagedBy(ps, rx, n), DataOf(ps, rx, n), ChunksIn(ps, n), 1);
  }

  lemma NextByOther(s: Session, ps: seq<Packet>, rx: seq<byte>, n: nat)
    requires Buffer(rx) && Sized(ps) && n < |ps| && AllGoOn(ps, rx, n) && AllGoOn(ps, rx, n + 1)
    requires ps[n].kind != OTA_CHUNK
    ensures SessionAfter(s, ps, rx, n + 1) == SessionAfter(s, ps, rx, n)
  {
    hide Grown;
    hide StagedBy;
    hide AllGoOn;
    hide ChunksIn;
    StagedNext(ps, rx, n);
    ChunksNext(ps, n);
    Units(StagedBy(ps, rx, n));
  }

  lemma ChunkTakenAt(s: Session, ps: seq<Packet>, rx: seq<byte>, n: nat)
    requires Buffer(rx) && Sized(ps) && n < |ps| && SizeFits(ps, rx, n) && DigestRight(ps, rx, n)
    ensures Handle(s, OTA_CHUNK, BufferAfter(ps, rx, n + 1)) ==
            Going(Grown(s, DataOf(ps, rx, n), 1), [Ack(NumberOf(ps, rx, n))])
  {
    hide Digest;
    hide U32At;
    hide BufferAfter;
    hide Handle;
    ChunkTaken(s, BufferAfter(ps, rx, n + 1));
  }

  /** One packet that lets the session go on. */
  lemma HandlesOn(s: Session, ps: seq<Packet>, rx: seq<byte>, n: nat)
    requires Buffer(rx) && Sized(ps) && n < |ps| && AllGoOn(ps, rx, n + 1)
    ensures Handle(SessionAfter(s, ps, rx, n), ps[n].kind, BufferAfter(ps, rx, n + 1)) ==
            Going(SessionAfter(s, ps, rx, n + 1), if ps[n].kind == OTA_CHUNK then [Ack(NumberOf(ps, rx, n))] else [])
  {
    ChunkGoesOn(ps, rx, n);
    hide Handle;
    hide SessionAfter;
    hide SizeFits;
    hide DigestRight;
    hide BufferAfter;
    hide NumberOf;
    hide DataOf;
    hide AllGoOn;
    if ps[n].kind == OTA_CHUNK {
      NextByChunk(s, ps, rx, n);
      ChunkTakenAt(SessionAfter(s, ps, rx, n), ps, rx, n);
    } else {
      assert GoesOn(ps, rx, n) by {
        LastGoesOn(ps, rx, n);
      }
      NextByOther(s, ps, rx, n);
      OthersIgnored(SessionAfter(s, ps, rx, n), ps[n].kind, BufferAfter(ps, rx, n + 1));
    }
  }

  /** The rest of a session that `n` packets have let go on. */
  function Further(s: Session, input: seq<byte>, rx: seq<byte>, turns: nat, n: nat): Result
    requires Buffer(rx) && n <= |Packets(input, turns)|
    requires AllGoOn(Packets(input, turns), rx, n)
  {
    var ps := Packets(input, turns);
    Drive(SessionAfter(s, ps, rx, n), Behind(input, n), BufferAfter(ps, rx, n), turns - n)
  }

  lemma FurtherStarts(s: Session, input: seq<byte>, rx: seq<byte>, turns: nat)
    requires Buffer(rx)
    ensures Further(s, input, rx, turns, 0) == Drive(s, input, rx, turns)
  {
    hide Drive;
    hide Packets;
    Units(s.staged);
  }

  lemma FurtherGoesOn(s: Session, input: seq<byte>, rx: seq<byte>, turns: nat, n: nat)
    requires Buffer(rx) && n < |Packets(input, turns)|
    requires AllGoOn(Packets(input, turns), rx, n) && AllGoOn(Packets(input, turns), rx, n + 1)
    ensures var ps := Packets(input, turns);
            Further(s, input, rx, turns, n) ==
            Prepend(if ps[n].kind == OTA_CHUNK then [Ack(NumberOf(ps, rx, n))] else [],
                    Further(s, input, rx, turns, n + 1))
  {
    var ps := Packets(input, turns);
    hide Parse;
    hide Handle;
    hide Drive;
    hide AllGoOn;
    hide Packets;
    PacketAt(input, turns, n);
    HandlesOn(s, ps, rx, n);
    BufferLoads(ps, rx, n);
    DriveTurn(SessionAfter(s, ps, rx, n), Behind(input, n), BufferAfter(ps, rx, n), turns - n);
    hide SessionAfter;
    hide BufferAfter;
    hide Behind;
    hide Loaded;
    hide NumberOf;
  }

  /** As far as packets let it go on, a session has acknowledged their chunks and staged their data. */
  lemma {:induction false} DriveGoesOn(s: Session, input: seq<byte>, rx: seq<byte>, turns: nat, n: nat)
    requires Buffer(rx) && n <= |Packets(input, turns)|
    requires AllGoOn(Packets(input, turns), rx, n)
    ensures Drive(s, input, rx, turns) ==
            Prepend(AcksFor(Packets(input, turns), rx, n), Further(s, input, rx, turns, n))
  {
    var ps := Packets(input, turns);
    hide GoesOn;
    hide Further;
    hide Packets;
    FurtherStarts(s, input, rx, turns);
    if n == 0 {
      PrependNothing(Drive(s, input, rx, turns));
    } else {
      DriveGoesOn(s, input, rx, turns, n - 1);
      FurtherGoesOn(s, input, rx, turns, n - 1);
      hide Drive;
      hide AllGoOn;
      var more := if ps[n - 1].kind == OTA_CHUNK then [Ack(NumberOf(ps, rx, n - 1))] else [];
      PrependTwice(AcksFor(ps, rx, n - 1), more, Further(s, input, rx, turns, n));
    }
  }

  // ----- how it ends -----

  /** What becomes of a session that the first `n` packets let go on and the next one, if there is one, does not. */
  function Told(s: Session, ps: seq<Packet>, rx: seq<byte>, n: nat): Result
    requires Buffer(rx) && Sized(ps) && n <= |ps| && AllGoOn(ps, rx, n)
  {
    var acks, staged := AcksFor(ps, rx, n), s.staged + StagedBy(ps, rx, n);
    if n < |ps| && ps[n].kind == OTA_ABORT then Result(Abandoned, acks)
    else if n < |ps| && ps[n].kind == OTA_CHUNK && !SizeFits(ps, rx, n) then Result(Undefined, acks)
    else if n < |ps| && ps[n].kind == OTA_CHUNK then Result(Abandoned, acks + [Nak(NumberOf(ps, rx, n))])
    else if (s.count + ChunksIn(ps, n)) % TWO32 != s.total then Result(Abandoned, acks)
    else if Digest(staged) != s.md5 then Result(Mismatch, acks + [Nak(0)])
    else Result(Applied(staged), acks + [Ack(VERIFIED)])
  }

  lemma ChunkRefused(s: Session, b: seq<byte>)
    requires Buffer(b)
    ensures 24 + U32At(b, 4) > PKT_BUF ==> Handle(s, OTA_CHUNK, b) == Over(Result(Undefined, []))
    ensures 24 + U32At(b, 4) <= PKT_BUF && Digest(b[24..24 + U32At(b, 4)]) != b[8..24] ==>
              Handle(s, OTA_CHUNK, b) == Over(Result(Abandoned, [Nak(U32At(b, 0))]))
  {
    hide Digest;
    hide U32At;
  }

  lemma ChunkRefusedAt(s: Session, ps: seq<Packet>, rx: seq<byte>, n: nat)
    requires Buffer(rx) && Sized(ps) && n < |ps|
    ensures !SizeFits(ps, rx, n) ==> Handle(s, OTA_CHUNK, BufferAfter(ps, rx, n + 1)) == Over(Result(Undefined, []))
    ensures SizeFits(ps, rx, n) && !DigestRight(ps, rx, n) ==>
              Handle(s, OTA_CHUNK, BufferAfter(ps, rx, n + 1)) == Over(Result(Abandoned, [Nak(NumberOf(ps, rx, n))]))
  {
    hide Digest;
    hide U32At;
    hide BufferAfter;
    hide Handle;
    ChunkRefused(s, BufferAfter(ps, rx, n + 1));
  }

  lemma EndsOrAborts(s: Session, b: seq<byte>)
    requires Buffer(b)
    ensures Handle(s, OTA_ABORT, b) == Over(Result(Abandoned, []))
    ensures Handle(s, OTA_END, b) == Over(Conclude(s))
  {
    hide Conclude;
    hide Chunk;
  }

  /** The end of the packets, or an END, is where parts are counted and the file is checked. */
  lemma ConcludesAsTold(s: Session, ps: seq<Packet>, rx: seq<byte>, n: nat)
    requires Buffer(rx) && Sized(ps) && n <= |ps| && AllGoOn(ps, rx, n)
    requires n < |ps| ==> ps[n].kind == OTA_END
    ensures Prepend(AcksFor(ps, rx, n), Conclude(SessionAfter(s, ps, rx, n))) == Told(s, ps, rx, n)
  {
    hide Digest;
    hide AllGoOn;
    hide BufferAfter;
    hide StagedBy;
    hide AcksFor;
    Units(AcksFor(ps, rx, n));
  }

  /** Told by its packets, a session is what the daemon makes of the stream. */
  lemma SessionIsTold(s: Session, input: seq<byte>, rx: seq<byte>, turns: nat, n: nat)
    requires Buffer(rx) && n <= |Packets(input, turns)| && AllGoOn(Packets(input, turns), rx, n)
    requires n < |Packets(input, turns)| ==> !GoesOn(Packets(input, turns), rx, n)
    ensures Drive(s, input, rx, turns) == Told(s, Packets(input, turns), rx, n)
  {
    var ps := Packets(input, turns);
    var was, b := SessionAfter(s, ps, rx, n), BufferAfter(ps, rx, n);
    DriveGoesOn(s, input, rx, turns, n);
    if n == |ps| {
      if n < turns {
        NothingBehind(input, turns);
      }
      ConcludesAsTold(s, ps, rx, n);
      hide *;
      DriveStops(was, Behind(input, n), b, turns - n);
    } else {
      PacketAt(input, turns, n);
      BufferLoads(ps, rx, n);
      StopsAsTold(s, ps, rx, n);
      hide *;
      DriveTurn(was, Behind(input, n), b, turns - n);
    }
  }

  lemma DriveStops(s: Session, input: seq<byte>, rx: seq<byte>, turns: nat)
    requires Buffer(rx) && (turns == 0 || Parse(input).Failed?)
    ensures Drive(s, input, rx, turns) == Conclude(s)
  {
    hide Conclude;
  }

  lemma StopsAsTold(s: Session, ps: seq<Packet>, rx: seq<byte>, n: nat)
    requires Buffer(rx) && Sized(ps) && n < |ps| && AllGoOn(ps, rx, n) && !GoesOn(ps, rx, n)
    ensures var step := Handle(SessionAfter(s, ps, rx, n), ps[n].kind, BufferAfter(ps, rx, n + 1));
            step.Over? && Prepend(AcksFor(ps, rx, n), step.result) == Told(s, ps, rx, n)
  {
    var was, b := SessionAfter(s, ps, rx, n), BufferAfter(ps, rx, n + 1);
    hide Handle;
    hide Conclude;
    hide Digest;
    hide SizeFits;
    hide DigestRight;
    hide BufferAfter;
    hide SessionAfter;
    hide StagedBy;
    hide AcksFor;
    Units(AcksFor(ps, rx, n));
    EndsOrAborts(was, b);
    if ps[n].kind == OTA_CHUNK {
      ChunkRefusedAt(was, ps, rx, n);
    } else if ps[n].kind == OTA_END {
      ConcludesAsTold(s, ps, rx, n);
    }
  }

  /** Every session stops somewhere. */
  lemma {:induction false} StopsAt(ps: seq<Packet>, rx: seq<byte>, from: nat) returns (n: nat)
    requires Buffer(rx) && Sized(ps) && from <= |ps| && AllGoOn(ps, rx, from)
    ensures n <= |ps| && AllGoOn(ps, rx, n) && (n < |ps| ==> !GoesOn(ps, rx, n))
    decreases |ps| - from
  {
    hide GoesOn;
    n := from;
    if from < |ps| && GoesOn(ps, rx, from) {
      n := StopsAt(ps, rx, from + 1);
    }
  }

  /** An ABORT that finds the session open ends it, with nothing applied and no reply of its own. */
  lemma AbortAbandons(s: Session, input: seq<byte>, rx: seq<byte>, turns: nat, n: nat)
    requires Buffer(rx) && n < |Packets(input, turns)| && Packets(input, turns)[n].kind == OTA_ABORT
    requires AllGoOn(Packets(input, turns), rx, n)
    ensures Drive(s, input, rx, turns) == Result(Abandoned, AcksFor(Packets(input, turns), rx, n))
  {
    SessionIsTold(s, input, rx, turns, n);
    hide AllGoOn;
    hide Drive;
  }

  /** What goes on, spelled out: no ABORT, no END, and every chunk has the size and the digest it names. */
  lemma NoAbortInside(ps: seq<Packet>, rx: seq<byte>, n: nat)
    requires Buffer(rx) && Sized(ps) && n <= |ps| && AllGoOn(ps, rx, n)
    ensures forall i :: 0 <= i < n ==> ps[i].kind != OTA_ABORT && ps[i].kind != OTA_END
    ensures forall i :: 0 <= i < n && ps[i].kind == OTA_CHUNK ==> SizeFits(ps, rx, i) && DigestRight(ps, rx, i)
  {
    EachGoesOn(ps, rx, n);
    hide AllGoOn;
    hide SizeFits;
    hide DigestRight;
  }

  lemma ToldApplied(s: Session, ps: seq<Packet>, rx: seq<byte>, n: nat)
    requires Buffer(rx) && Sized(ps) && n <= |ps| && AllGoOn(ps, rx, n)
    requires n < |ps| ==> !GoesOn(ps, rx, n)
    requires Told(s, ps, rx, n).outcome.Applied?
    ensures n < |ps| ==> ps[n].kind == OTA_END
    ensures Told(s, ps, rx, n).replies == AcksFor(ps, rx, n) + [Ack(VERIFIED)]
  {
    hide AllGoOn;
    hide SizeFits;
    hide DigestRight;
    hide StagedBy;
    hide AcksFor;
    hide Digest;
    hide BufferAfter;
  }

  /** A session that ends applied met an END, the link's end or the turn limit, and no ABORT before it. */
  lemma AppliedMeetsNoAbort(s: Session, input: seq<byte>, rx: seq<byte>, turns: nat) returns (n: nat)
    requires Buffer(rx) && Drive(s, input, rx, turns).outcome.Applied?
    ensures var ps := Packets(input, turns);
            && n <= |ps| && (n < |ps| ==> ps[n].kind == OTA_END)
            && (forall i :: 0 <= i < n ==> ps[i].kind != OTA_ABORT && ps[i].kind != OTA_END)
            && (forall i :: 0 <= i < n && ps[i].kind == OTA_CHUNK ==> SizeFits(ps, rx, i) && DigestRight(ps, rx, i))
            && Drive(s, input, rx, turns).replies == AcksFor(ps, rx, n) + [Ack(VERIFIED)]
  {
    var ps := Packets(input, turns);
    n := StopsAt(ps, rx, 0);
    SessionIsTold(s, input, rx, turns, n);
    ToldApplied(s, ps, rx, n);
    NoAbortInside(ps, rx, n);
    hide *;
  }

  /**
   * A stream that gets an update applied, whatever else is in it: among the packets behind its BEGIN no ABORT stands
   * before the first END, the link's end or the turn limit; every chunk up to there has the size and the digest it
   * names, and was acknowledged in order.
   */
  lemma AppliedWithoutAbort(input: seq<byte>, rx: seq<byte>, env: Env, turns: nat) returns (n: nat)
    requires Buffer(rx) && Run(input, rx, env, turns).outcome.Applied?
    ensures Parse(input).Got? && |Parse(input).packet.payload| <= PKT_BUF
    ensures var ps, now := Packets(Parse(input).rest, turns), Loaded(Parse(input).packet.payload, rx);
            && n <= |ps| && (n < |ps| ==> ps[n].kind == OTA_END)
            && (forall i :: 0 <= i < n ==> ps[i].kind != OTA_ABORT && ps[i].kind != OTA_END)
            && (forall i :: 0 <= i < n && ps[i].kind == OTA_CHUNK ==> SizeFits(ps, now, i) && DigestRight(ps, now, i))
            && Run(input, rx, env, turns).replies == [Ack(0)] + (AcksFor(ps, now, n) + [Ack(VERIFIED)])
  {
    RunGoesOn(input, rx, env, turns);
    var now := Loaded(Parse(input).packet.payload, rx);
    hide Run;
    hide Parse;
    hide Loaded;
    hide Packets;
    n := AppliedMeetsNoAbort(Session(U32At(now, 0), now[12..28], [], 0), Parse(input).rest, now, turns);
    hide *;
  }

  /** A session that is applied was opened by its first packet. */
  lemma RunGoesOn(input: seq<byte>, rx: seq<byte>, env: Env, turns: nat)
    requires Buffer(rx) && Run(input, rx, env, turns).outcome.Applied?
    ensures Parse(input).Got? && |Parse(input).packet.payload| <= PKT_BUF && Parse(input).packet.kind == OTA_BEGIN
    ensures var now := Loaded(Parse(input).packet.payload, rx);
            Run(input, rx, env, turns) ==
            Prepend([Ack(0)], Drive(Session(U32At(now, 0), now[12..28], [], 0), Parse(input).rest, now, turns))
  {
    hide Parse;
    hide Loaded;
    hide Drive;
    hide U32At;
    RunTurn(input, rx, env, turns);
    hide Run;
  }
}
