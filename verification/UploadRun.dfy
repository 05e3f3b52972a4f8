/** A whole upload in lock step: the host's packets, the daemon's session and usbd's transmit side together. */
module UploadRun {
  import opened Bytes
  import opened Md5
  import opened Ota
  import opened LockStep

  const OTA_ACK: byte := 0x04
  const OTA_NAK: byte := 0x05

  // ----- the daemon, packet by packet -----

  datatype Daemon = Waiting | Serving(session: Session) | Finished(outcome: Outcome)

  /** The daemon and its receive buffer, with everything it has said. */
  datatype Station = Station(daemon: Daemon, rx: seq<byte>, replies: seq<Reply>)

  predicate Sized(packets: seq<Packet>) {
    forall p <- packets :: |p.payload| <= PKT_BUF
  }

  /** One packet read. */
  function Reads(st: Station, p: Packet, env: Env): (r: Station)
    requires Buffer(st.rx) && |p.payload| <= PKT_BUF
    ensures Buffer(r.rx)
  {
    if st.daemon.Finished? then st
    else
      var now := Loaded(p.payload, st.rx);
      var step := if st.daemon.Waiting? then Begin(p.kind, |p.payload|, now, env)
                  else Handle(st.daemon.session, p.kind, now);
      var next := if step.Over? then Finished(step.result.outcome) else Serving(step.session);
      Station(next, now, st.replies + Answer(step))
  }

  function ReadsAll(st: Station, packets: seq<Packet>, env: Env): (r: Station)
    requires Buffer(st.rx) && Sized(packets)
    ensures Buffer(r.rx)
  {
    if packets == [] then st else Reads(ReadsAll(st, packets[..|packets| - 1], env), packets[|packets| - 1], env)
  }

  lemma {:induction false} ReadsFirst(st: Station, packets: seq<Packet>, env: Env)
    requires Buffer(st.rx) && Sized(packets) && packets != []
    ensures ReadsAll(st, packets, env) == ReadsAll(Reads(st, packets[0], env), packets[1..], env)
  {
    hide Reads;
    var n := |packets| - 1;
    if n > 0 {
      ReadsFirst(st, packets[..n], env);
      assert packets[..n][1..] == packets[1..][..n - 1];
    }
  }

  /** Packets end to end. */
  function Stream(packets: seq<Packet>): seq<byte> {
    if packets == [] then [] else EncodePacket(packets[0]) + Stream(packets[1..])
  }

  lemma {:induction false} FinishedStays(st: Station, packets: seq<Packet>, env: Env)
    requires Buffer(st.rx) && Sized(packets) && st.daemon.Finished?
    ensures ReadsAll(st, packets, env) == st
  {
    if packets != [] {
      FinishedStays(st, packets[..|packets| - 1], env);
    }
  }

  lemma Repacked(before: seq<Reply>, more: seq<Reply>, r: Result)
    ensures Prepend(before, Prepend(more, r)) == Prepend(before + more, r)
  {
    Assoc(before, more, r.replies);
  }

  /** A session over the bytes of some packets is what the daemon makes of them one by one, if they end it. */
  lemma {:induction false} DriveReadsAll(s: Session, packets: seq<Packet>, rx: seq<byte>, said: seq<Reply>,
                                         turns: nat, env: Env)
    requires Buffer(rx) && Sized(packets) && turns >= |packets|
    requires ReadsAll(Station(Serving(s), rx, said), packets, env).daemon.Finished?
    ensures var st := ReadsAll(Station(Serving(s), rx, said), packets, env);
            Prepend(said, Drive(s, Stream(packets), rx, turns)) == Result(st.daemon.outcome, st.replies)
    decreases |packets|
  {
    hide Parse;
    hide Handle;
    hide Loaded;
    hide EncodePacket;
    var st := Station(Serving(s), rx, said);
    if packets != [] {
      ReadsFirst(st, packets, env);
      PacketReadsBack(packets[0], Stream(packets[1..]));
      var next := Reads(st, packets[0], env);
      var now := Loaded(packets[0].payload, rx);
      var step := Handle(s, packets[0].kind, now);
      DriveTurn(s, Stream(packets), rx, turns);
      hide Drive;
      if step.Over? {
        FinishedStays(next, packets[1..], env);
      } else {
        DriveReadsAll(step.session, packets[1..], now, said + step.replies, turns - 1, env);
        Repacked(said, step.replies, Drive(step.session, Stream(packets[1..]), now, turns - 1));
      }
    }
  }

  lemma ReadsWaiting(p: Packet, rx: seq<byte>, env: Env)
    requires Buffer(rx) && |p.payload| <= PKT_BUF
    ensures var now := Loaded(p.payload, rx);
            var step := Begin(p.kind, |p.payload|, now, env);
            Reads(Station(Waiting, rx, []), p, env) ==
            Station(if step.Over? then Finished(step.result.outcome) else Serving(step.session), now, Answer(step))
  {
    hide Begin;
    hide Loaded;
    Units(Answer(Begin(p.kind, |p.payload|, Loaded(p.payload, rx), env)));
  }

  lemma RunReadsAll(packets: seq<Packet>, rx: seq<byte>, turns: nat, env: Env)
    requires Buffer(rx) && Sized(packets) && packets != [] && turns >= |packets| - 1
    requires ReadsAll(Station(Waiting, rx, []), packets, env).daemon.Finished?
    ensures var st := ReadsAll(Station(Waiting, rx, []), packets, env);
            Run(Stream(packets), rx, env, turns) == Result(st.daemon.outcome, st.replies)
  {
    hide Parse;
    hide Begin;
    hide Loaded;
    hide EncodePacket;
    hide Drive;
    var st := Station(Waiting, rx, []);
    ReadsFirst(st, packets, env);
    PacketReadsBack(packets[0], Stream(packets[1..]));
    RunTurn(Stream(packets), rx, env, turns);
    hide Run;
    hide ReadsAll;
    hide Stream;
    var next := Reads(st, packets[0], env);
    hide Reads;
    ReadsWaiting(packets[0], rx, env);
    var now := Loaded(packets[0].payload, rx);
    var step := Begin(packets[0].kind, |packets[0].payload|, now, env);
    Units(Answer(step));
    if step.Over? {
      FinishedStays(next, packets[1..], env);
    } else {
      DriveReadsAll(step.session, packets[1..], now, step.replies, turns, env);
    }
  }

  // ----- the host's packets -----

  predicate Small(parts: seq<seq<byte>>) {
    forall p <- parts :: |p| < TWO32
  }

  /** The chunk packets and END for the parts from number `k` on. */
  function RestPackets(parts: seq<seq<byte>>, k: nat): (ps: seq<Packet>)
    requires k + |parts| < TWO32 && Small(parts)
    ensures |ps| == |parts| + 1
    decreases |parts|
  {
    if parts == [] then [END] else [ChunkPacket(k, parts[0])] + RestPackets(parts[1..], k + 1)
  }

  function UploadPackets(parts: seq<seq<byte>>, zip: seq<byte>, version: seq<byte>): (ps: seq<Packet>)
    requires |parts| + 1 < TWO32 && Small(parts)
    ensures |ps| == |parts| + 2
  {
    [BeginPacket(|parts|, |zip|, Digest(zip), version)] + RestPackets(parts, 1)
  }

  lemma StreamFirst(p: Packet, packets: seq<Packet>)
    ensures Stream([p] + packets) == EncodePacket(p) + Stream(packets)
  {
    hide EncodePacket;
    assert ([p] + packets)[1..] == packets;
  }

  lemma {:induction false} RestStream(parts: seq<seq<byte>>, k: nat)
    requires k + |parts| < TWO32 && Small(parts)
    ensures Stream(RestPackets(parts, k)) == RestOfUpload(parts, k)
    decreases |parts|
  {
    hide EncodePacket;
    hide ChunkPacket;
    hide Stream;
    if parts == [] {
      StreamFirst(END, []);
      NoStream();
      Units([END]);
      Units(EncodePacket(END));
    } else {
      RestStream(parts[1..], k + 1);
      StreamFirst(ChunkPacket(k, parts[0]), RestPackets(parts[1..], k + 1));
    }
  }

  lemma NoStream()
    ensures Stream([]) == []
  {
  }

  lemma UploadStream(parts: seq<seq<byte>>, zip: seq<byte>, version: seq<byte>)
    requires |parts| + 1 < TWO32 && Small(parts)
    ensures Stream(UploadPackets(parts, zip, version)) == Upload(parts, zip, version)
  {
    hide EncodePacket;
    hide BeginPacket;
    hide RestPackets;
    hide Stream;
    RestStream(parts, 1);
    StreamFirst(BeginPacket(|parts|, |zip|, Digest(zip), version), RestPackets(parts, 1));
  }

  lemma {:induction false} RestSized(parts: seq<seq<byte>>, k: nat)
    requires k + |parts| < TWO32 && Small(parts) && AllFit(parts)
    ensures Sized(RestPackets(parts, k))
    decreases |parts|
  {
    hide Digest;
    if parts != [] {
      FitSplits(parts);
      RestSized(parts[1..], k + 1);
      assert |ChunkPacket(k, parts[0]).payload| == CHUNK_HEAD + |parts[0]|;
    }
  }

  // ----- what the daemon says to each of them -----

  /** The acknowledgements of an upload of `n` parts, in order. */
  function Acked(n: nat): (r: seq<Reply>)
    requires n + 1 < TWO32
  {
    [Ack(0)] + Acks(1, n)
  }

  lemma {:induction false} AcksCount(k: nat, n: nat)
    requires k + n <= TWO32
    ensures |Acks(k, n)| == n + 1 && forall r <- Acks(k, n) :: r.Ack?
    decreases n
  {
    if n > 0 {
      AcksCount(k + 1, n - 1);
    }
  }

  const READY: Env := Env(true, true, true)

  lemma SaysOne(st: Station, p: Packet)
    requires Buffer(st.rx) && |p.payload| <= PKT_BUF
    ensures var r := Reads(st, p, READY); st.replies <= r.replies && |r.replies| <= |st.replies| + 1
  {
    if st.daemon.Serving? {
      OneReplyEach(st.daemon.session, p.kind, |p.payload|, Loaded(p.payload, st.rx), READY);
    } else if st.daemon.Waiting? {
      OneReplyEach(Session(0, [], [], 0), p.kind, |p.payload|, Loaded(p.payload, st.rx), READY);
    }
    hide Begin;
    hide Handle;
    hide Loaded;
  }

  /** Replies only grow, by one a packet at most. */
  lemma {:induction false} SaysOneEach(st: Station, packets: seq<Packet>, n: nat)
    requires Buffer(st.rx) && Sized(packets) && n <= |packets|
    ensures var some, all := ReadsAll(st, packets[..n], READY).replies, ReadsAll(st, packets, READY).replies;
            some <= all && |all| <= |some| + (|packets| - n)
    decreases |packets| - n
  {
    hide Reads;
    if n == |packets| {
      assert packets[..n] == packets;
    } else {
      SaysOneEach(st, packets, n + 1);
      assert packets[..n + 1][..n] == packets[..n];
      SaysOne(ReadsAll(st, packets[..n], READY), packets[n]);
    }
  }

  lemma EndFinishes(st: Station)
    requires Buffer(st.rx)
    ensures Reads(st, END, READY).daemon.Finished?
  {
    hide Conclude;
  }

  lemma {:induction false} RestEnds(parts: seq<seq<byte>>, k: nat)
    requires k + |parts| < TWO32 && Small(parts)
    ensures RestPackets(parts, k)[|parts|] == END
    decreases |parts|
  {
    hide ChunkPacket;
    if parts != [] {
      RestEnds(parts[1..], k + 1);
    }
  }

  lemma UploadSized(parts: seq<seq<byte>>, zip: seq<byte>, version: seq<byte>)
    requires |parts| + 1 < TWO32 && Small(parts) && AllFit(parts) && |version| == 32
    ensures Sized(UploadPackets(parts, zip, version)) && UploadPackets(parts, zip, version)[|parts| + 1] == END
  {
    hide Digest;
    hide AllFit;
    RestSized(parts, 1);
    RestEnds(parts, 1);
    assert |BeginPacket(|parts|, |zip|, Digest(zip), version).payload| == 60;
    hide BeginPacket;
    hide RestPackets;
  }

  /** What an upload can be: a file, cut as the host cuts it into parts the daemon can take. */
  predicate Uploadable(parts: seq<seq<byte>>, zip: seq<byte>, chunk: nat, version: seq<byte>) {
    && IsSplit(parts, zip, chunk) && |version| == 32 && 0 < |zip| < TWO64
    && |parts| + 1 < TWO32 && chunk < TWO32 - CHUNK_HEAD && AllFit(parts)
  }

  /** Read whole, the host's packets stage the file and are all acknowledged. */
  lemma UploadServed(parts: seq<seq<byte>>, zip: seq<byte>, chunk: nat, version: seq<byte>, rx: seq<byte>)
    requires Uploadable(parts, zip, chunk, version) && Small(parts) && Buffer(rx)
    ensures Sized(UploadPackets(parts, zip, version))
    ensures var st := ReadsAll(Station(Waiting, rx, []), UploadPackets(parts, zip, version), READY);
            st.daemon == Finished(Applied(zip)) && st.replies == Acked(|parts|)
  {
    var packets := UploadPackets(parts, zip, version);
    UploadSized(parts, zip, version);
    UploadArrives(parts, zip, chunk, version, rx, |parts| + 1);
    UploadStream(parts, zip, version);
    hide *;
    FinishesWithEnd(packets, rx);
    RunReadsAll(packets, rx, |parts| + 1, READY);
  }

  lemma FinishesWithEnd(packets: seq<Packet>, rx: seq<byte>)
    requires Buffer(rx) && Sized(packets) && packets != [] && packets[|packets| - 1] == END
    ensures ReadsAll(Station(Waiting, rx, []), packets, READY).daemon.Finished?
  {
    EndFinishes(ReadsAll(Station(Waiting, rx, []), packets[..|packets| - 1], READY));
    hide Reads;
  }

  /** So each packet is acknowledged when it is read. */
  lemma ServedSoFar(parts: seq<seq<byte>>, zip: seq<byte>, chunk: nat, version: seq<byte>, rx: seq<byte>, n: nat)
    requires Uploadable(parts, zip, chunk, version) && Small(parts) && Buffer(rx) && n <= |parts| + 2
    ensures Sized(UploadPackets(parts, zip, version)) && |Acked(|parts|)| == |parts| + 2
    ensures ReadsAll(Station(Waiting, rx, []), UploadPackets(parts, zip, version)[..n], READY).replies ==
            Acked(|parts|)[..n]
  {
    UploadServed(parts, zip, chunk, version, rx);
    AcksCount(1, |parts|);
    var packets, st := UploadPackets(parts, zip, version), Station(Waiting, rx, []);
    assert |Acked(|parts|)| == |parts| + 2 == |packets|;
    hide *;
    hide Sized;
    Nothing(st, packets);
    SaysOneEach(st, packets, n);
    SaysOneEach(st, packets[..n], 0);
  }

  lemma Nothing(st: Station, packets: seq<Packet>)
    requires Buffer(st.rx)
    ensures ReadsAll(st, packets[..0], READY) == st
  {
  }

  // ----- the daemon in a run -----

  /** The daemon at the end of a run: it reads whatever packet it finds in its buffer. */
  function StationAfter(ch: byte, run: seq<Action>, packets: seq<Packet>, rx: seq<byte>): (st: Station)
    requires Legal(ch, run, packets) && Buffer(rx)
    ensures Buffer(st.rx)
  {
    if run == [] then Station(Waiting, rx, [])
    else
      var before, a := run[..|run| - 1], run[|run| - 1];
      var st := StationAfter(ch, before, packets, rx);
      if a.DaemonIgnores? || a.DaemonAnswers? then
        var buf := After(ch, before, packets).buf;
        ParsedFits(buf);
        Reads(st, Parse(buf).packet, READY)
      else st
  }

  /** The packet that carries a reply; the reason in a refusal is free. */
  predicate Carries(p: Packet, r: Reply) {
    match r
    case Ack(part) => p == Packet(OTA_ACK, LE32(part))
    case Nak(part) => p.kind == OTA_NAK && |p.payload| > 4 && p.payload[..4] == LE32(part)
  }

  /** The daemon says what its session tells it to, and reads nothing when that is over. */
  predicate Obeys(ch: byte, run: seq<Action>, packets: seq<Packet>, rx: seq<byte>)
    requires Legal(ch, run, packets) && Buffer(rx)
  {
    run == [] ||
    var before, a := run[..|run| - 1], run[|run| - 1];
    var was, now := StationAfter(ch, before, packets, rx), StationAfter(ch, run, packets, rx);
    && Obeys(ch, before, packets, rx)
    && (a.DaemonIgnores? || a.DaemonAnswers? ==> !was.daemon.Finished?)
    && (a.DaemonIgnores? ==> now.replies == was.replies)
    && (a.DaemonAnswers? ==>
          |now.replies| == |was.replies| + 1 && was.replies <= now.replies &&
          Carries(a.reply, now.replies[|was.replies|]))
  }

  lemma ReadsOneMore(start: Station, packets: seq<Packet>, n: nat)
    requires Buffer(start.rx) && Sized(packets) && n < |packets|
    ensures ReadsAll(start, packets[..n + 1], READY) == Reads(ReadsAll(start, packets[..n], READY), packets[n], READY)
  {
    hide Reads;
    assert packets[..n + 1][..n] == packets[..n];
  }

  /** The packet the daemon finds is the next one of the host's. */
  lemma ReadsNext(l: Link, packets: seq<Packet>, start: Station, st: Station)
    requires Outbound(l, packets) && Parse(l.buf).Got? && Sized(packets)
    requires Buffer(start.rx) && l.handled <= |packets| && st == ReadsAll(start, packets[..l.handled], READY)
    ensures l.handled < |packets| && |Parse(l.buf).packet.payload| <= PKT_BUF
    ensures Reads(st, Parse(l.buf).packet, READY) == ReadsAll(start, packets[..l.handled + 1], READY)
  {
    hide Parse;
    hide Reads;
    hide ReadsAll;
    assert l.sent <= |packets|;
    hide Outbound;
    DaemonReads(l, packets);
    ReadsOneMore(start, packets, l.handled);
  }

  lemma HandledCounts(l: Link, a: Action, packets: seq<Packet>)
    requires Enabled(l, a, packets)
    ensures Do(l, a, packets).handled == l.handled + if a.DaemonIgnores? || a.DaemonAnswers? then 1 else 0
    ensures a.DaemonIgnores? || a.DaemonAnswers? ==> Parse(l.buf).Got?
  {
    hide Parse;
  }

  lemma OutboundHandled(l: Link, packets: seq<Packet>)
    requires InStep(l, packets)
    ensures Outbound(l, packets) && l.handled <= |packets|
  {
    hide Inbound;
  }

  lemma {:induction false} StationIs(ch: byte, run: seq<Action>, packets: seq<Packet>, rx: seq<byte>)
    requires Legal(ch, run, packets) && Buffer(rx) && Sized(packets)
    ensures After(ch, run, packets).handled <= |packets|
    ensures StationAfter(ch, run, packets, rx) ==
            ReadsAll(Station(Waiting, rx, []), packets[..After(ch, run, packets).handled], READY)
  {
    hide Parse;
    hide Outbound;
    hide Enabled;
    hide Do;
    hide Reads;
    RunStaysInStep(ch, run, packets);
    OutboundHandled(After(ch, run, packets), packets);
    hide InStep;
    if run == [] {
      Nothing(Station(Waiting, rx, []), packets);
    } else {
      var before, a := run[..|run| - 1], run[|run| - 1];
      StationIs(ch, before, packets, rx);
      RunStaysInStep(ch, before, packets);
      var l := After(ch, before, packets);
      OutboundHandled(l, packets);
      HandledCounts(l, a, packets);
      if a.DaemonIgnores? || a.DaemonAnswers? {
        ReadsNext(l, packets, Station(Waiting, rx, []), StationAfter(ch, before, packets, rx));
      }
    }
  }

  predicate AllCarry(said: seq<Packet>, replies: seq<Reply>) {
    |said| == |replies| && forall k :: 0 <= k < |said| ==> Carries(said[k], replies[k])
  }

  lemma SaidGrows(l: Link, a: Action, packets: seq<Packet>)
    requires Enabled(l, a, packets)
    ensures Do(l, a, packets).said == l.said + if a.DaemonAnswers? then [a.reply] else []
  {
    hide Parse;
    hide EncodePacket;
    hide Messages;
  }

  lemma {:induction false} SaidCarries(ch: byte, run: seq<Action>, packets: seq<Packet>, rx: seq<byte>)
    requires Legal(ch, run, packets) && Buffer(rx) && Obeys(ch, run, packets, rx)
    ensures AllCarry(After(ch, run, packets).said, StationAfter(ch, run, packets, rx).replies)
  {
    hide Parse;
    hide EncodePacket;
    hide Messages;
    hide Reads;
    hide Carries;
    if run != [] {
      var before, a := run[..|run| - 1], run[|run| - 1];
      SaidCarries(ch, before, packets, rx);
      SaidGrows(After(ch, before, packets), a, packets);
      hide Do;
      hide Enabled;
    }
  }

  /** The host takes each message for the acknowledgement that is next. */
  predicate Acknowledged(messages: seq<seq<byte>>, acked: seq<Reply>) {
    |messages| <= |acked| &&
    forall k :: 0 <= k < |messages| ==>
      acked[k].Ack? && HostParse(messages[k]) == Packeted(Packet(OTA_ACK, LE32(acked[k].part)))
  }

  /**
   * The whole upload, under any timing, any cutting and any interleaving of usbd's threads: every message the host
   * gets is the acknowledgement it waits for, in order; and when it has the last one, the daemon has staged the file.
   */
  lemma UploadInLockStep(ch: byte, run: seq<Action>, packets: seq<Packet>, parts: seq<seq<byte>>, zip: seq<byte>,
                         chunk: nat, version: seq<byte>, rx: seq<byte>)
    requires Uploadable(parts, zip, chunk, version) && Small(parts) && packets == UploadPackets(parts, zip, version)
    requires Buffer(rx) && Legal(ch, run, packets) && Obeys(ch, run, packets, rx)
    ensures Acknowledged(Messages(After(ch, run, packets).tx.wire), Acked(|parts|))
    ensures After(ch, run, packets).heard == |packets| ==>
              StationAfter(ch, run, packets, rx).daemon == Finished(Applied(zip))
  {
    AllAcks(|parts|);
    UploadSized(parts, zip, version);
    hide *;
    var n := After(ch, run, packets).handled;
    StationIs(ch, run, packets, rx);
    ServedSoFar(parts, zip, chunk, version, rx, n);
    RunAcknowledged(ch, run, packets, rx, Acked(|parts|));
    if n == |packets| {
      ServedAtEnd(parts, zip, chunk, version, rx, n);
    }
  }

  lemma ServedAtEnd(parts: seq<seq<byte>>, zip: seq<byte>, chunk: nat, version: seq<byte>, rx: seq<byte>, n: nat)
    requires Uploadable(parts, zip, chunk, version) && Small(parts) && Buffer(rx) && n == |parts| + 2
    ensures Sized(UploadPackets(parts, zip, version))
    ensures ReadsAll(Station(Waiting, rx, []), UploadPackets(parts, zip, version)[..n], READY).daemon
            == Finished(Applied(zip))
  {
    UploadServed(parts, zip, chunk, version, rx);
    hide *;
    Units(UploadPackets(parts, zip, version));
  }

  /** A run in which the daemon acknowledges what it reads brings the host those acknowledgements. */
  lemma RunAcknowledged(ch: byte, run: seq<Action>, packets: seq<Packet>, rx: seq<byte>, acked: seq<Reply>)
    requires Legal(ch, run, packets) && Buffer(rx) && Sized(packets) && Obeys(ch, run, packets, rx)
    requires After(ch, run, packets).handled <= |acked| && forall k :: 0 <= k < |acked| ==> acked[k].Ack?
    requires StationAfter(ch, run, packets, rx).replies == acked[..After(ch, run, packets).handled]
    ensures Acknowledged(Messages(After(ch, run, packets).tx.wire), acked)
    ensures After(ch, run, packets).heard <= After(ch, run, packets).handled
  {
    SaidCarries(ch, run, packets, rx);
    OneAtATime(ch, run, packets);
    hide *;
    var l := After(ch, run, packets);
    AcksCarried(Messages(l.tx.wire), l.said, acked, l.handled);
  }

  lemma AcksCarried(messages: seq<seq<byte>>, said: seq<Packet>, acked: seq<Reply>, n: nat)
    requires n <= |acked| && AllCarry(said, acked[..n]) && forall k :: 0 <= k < |acked| ==> acked[k].Ack?
    requires |messages| <= |said| && forall k :: 0 <= k < |messages| ==> HostParse(messages[k]) == Packeted(said[k])
    ensures Acknowledged(messages, acked)
  {
    hide HostParse;
    forall k | 0 <= k < |messages| ensures said[k] == Packet(OTA_ACK, LE32(acked[k].part)) {
      assert Carries(said[k], acked[..n][k]);
    }
  }

  lemma AllAcks(n: nat)
    requires n + 1 < TWO32
    ensures forall k :: 0 <= k < |Acked(n)| ==> Acked(n)[k].Ack?
  {
    AcksCount(1, n);
  }
}
