/** An upload can be finished: a run of host, daemon and usbd that gets every packet answered. */
module UploadEnds {
  import opened Bytes
  import opened Ota
  import opened LockStep
  import opened UploadRun
  import F = Framing
  import S = Session
  import T = UsbdTx

  /** A run that is legal, in which the daemon obeys its session, and which has come to this. */
  ghost predicate Comes(ch: byte, run: seq<Action>, packets: seq<Packet>, rx: seq<byte>, l: Link, st: Station)
    requires Buffer(rx)
  {
    && Legal(ch, run, packets) && Obeys(ch, run, packets, rx)
    && After(ch, run, packets) == l && StationAfter(ch, run, packets, rx) == st
  }

  /** Nothing is under way: `k` packets have been sent, read, answered and heard of. */
  ghost predicate AtRest(l: Link, k: nat) {
    && l.sent == l.handled == l.heard == |l.said| == k
    && l.wire == [] && l.buf == [] && l.socket == []
    && T.Alive(l.tx) && l.tx.ring == [] && l.tx.todo == [] && T.OnWire(l.tx) == l.tx.accepted
  }

  // ----- one action more -----

  lemma Extends(ch: byte, run: seq<Action>, packets: seq<Packet>, rx: seq<byte>, l: Link, st: Station, a: Action)
    requires Buffer(rx) && Comes(ch, run, packets, rx, l, st)
    requires Enabled(l, a, packets) && !a.DaemonIgnores? && !a.DaemonAnswers?
    ensures Comes(ch, run + [a], packets, rx, Do(l, a, packets), st)
  {
    assert (run + [a])[..|run|] == run && (run + [a])[|run|] == a;
    hide Enabled;
    hide Do;
  }

  lemma Answered(ch: byte, run: seq<Action>, packets: seq<Packet>, rx: seq<byte>, l: Link, st: Station,
                 p: Packet, reply: Packet, now: Station)
    requires Buffer(rx) && Comes(ch, run, packets, rx, l, st) && Enabled(l, DaemonAnswers(reply), packets)
    requires Parse(l.buf) == Got(p, []) && |p.payload| <= PKT_BUF && !st.daemon.Finished?
    requires Buffer(st.rx) && now == UploadRun.Reads(st, p, READY)
    requires |now.replies| == |st.replies| + 1 && st.replies <= now.replies
    requires Carries(reply, now.replies[|st.replies|])
    ensures Comes(ch, run + [DaemonAnswers(reply)], packets, rx, Do(l, DaemonAnswers(reply), packets), now)
  {
    var a := DaemonAnswers(reply);
    assert (run + [a])[..|run|] == run && (run + [a])[|run|] == a;
    hide Enabled;
    hide Do;
    hide Parse;
    hide Carries;
    hide UploadRun.Reads;
  }

  // ----- a packet to the daemon -----

  lemma PacketGoes(ch: byte, run: seq<Action>, packets: seq<Packet>, rx: seq<byte>, l: Link, st: Station)
    returns (more: seq<Action>)
    requires Buffer(rx) && Comes(ch, run, packets, rx, l, st) && AtRest(l, l.sent) && l.sent < |packets|
    ensures Comes(ch, more, packets, rx, l.(sent := l.sent + 1, buf := EncodePacket(packets[l.sent])), st)
  {
    hide Comes;
    var e := EncodePacket(packets[l.sent]);
    hide EncodePacket;
    var l1 := Do(l, HostSends, packets);
    Units(e);
    Extends(ch, run, packets, rx, l, st, HostSends);
    assert l1.wire == e && e[..|e|] == e && e[|e|..] == [];
    Extends(ch, run + [HostSends], packets, rx, l1, st, Arrives(|e|));
    more := run + [HostSends] + [Arrives(|e|)];
  }

  // ----- its reply into the ring -----

  /** usbd's transmit side with `c` just put into its empty ring. */
  function WithReply(t: T.State, c: seq<byte>): T.State {
    t.(ring := c, accepted := t.accepted + c, offered := t.offered + c, todo := [], writing := false)
  }

  lemma RingTakes(t: T.State, c: seq<byte>)
    requires T.Alive(t) && t.ring == [] && t.todo == [] && 1 <= |c| <= 1024
    ensures var t1 := t.(todo := c, offered := t.offered + c);
            var t2 := t1.(writing := true);
            && T.Enabled(t, T.AppTake(c)) && T.Do(t, T.AppTake(c)) == t1
            && T.Enabled(t1, T.AppCheck) && T.Do(t1, T.AppCheck) == t2
            && T.Enabled(t2, T.AppPush) && T.Do(t2, T.AppPush) == WithReply(t, c)
  {
    assert c[..|c|] == c && c[|c|..] == [];
    Units(c);
  }

  lemma ReplyGoes(ch: byte, run: seq<Action>, packets: seq<Packet>, rx: seq<byte>, l: Link, st: Station, c: seq<byte>)
    returns (more: seq<Action>)
    requires Buffer(rx) && Comes(ch, run, packets, rx, l, st)
    requires l.socket == [c] && 1 <= |c| <= 1024 && T.Alive(l.tx) && l.tx.ring == [] && l.tx.todo == []
    ensures Comes(ch, more, packets, rx, l.(socket := [], tx := WithReply(l.tx, c)), st)
  {
    hide Comes;
    RingTakes(l.tx, c);
    hide T.Enabled;
    hide T.Do;
    hide WithReply;
    var t1 := l.tx.(todo := c, offered := l.tx.offered + c);
    var l1 := l.(socket := [], tx := t1);
    var l2 := l1.(tx := t1.(writing := true));
    Extends(ch, run, packets, rx, l, st, UsbdTakes);
    assert Do(l, UsbdTakes, packets) == l1;
    var r1 := run + [UsbdTakes];
    Extends(ch, r1, packets, rx, l1, st, Usbd(T.AppCheck));
    var r2 := r1 + [Usbd(T.AppCheck)];
    Extends(ch, r2, packets, rx, l2, st, Usbd(T.AppPush));
    more := r2 + [Usbd(T.AppPush)];
  }

  // ----- and onto the wire -----

  lemma {:induction false} TxGoes(ch: byte, run: seq<Action>, packets: seq<Packet>, rx: seq<byte>, l: Link,
                                  st: Station, acts: seq<T.Action>, t: T.State)
    returns (more: seq<Action>)
    requires Buffer(rx) && Comes(ch, run, packets, rx, l, st)
    requires T.Run(l.tx, acts, t) && forall a <- acts :: a.Tx?
    ensures Comes(ch, more, packets, rx, l.(tx := t), st)
    decreases |acts|
  {
    hide Comes;
    hide T.Enabled;
    hide T.Do;
    if acts == [] {
      more := run;
    } else {
      assert acts[0] in acts;
      Extends(ch, run, packets, rx, l, st, Usbd(T.Tx));
      more := TxGoes(ch, run + [Usbd(T.Tx)], packets, rx, l.(tx := T.Do(l.tx, T.Tx)), st, acts[1..], t);
    }
  }

  /** The messages on a channel's wire are its bytes. */
  lemma {:induction false} MessagesCarry(ch: byte, closed: bool, wire: seq<F.Frame>)
    requires T.GoodWire(ch, closed, wire)
    ensures Concat(Messages(wire)) == S.Payload(ch, wire)
  {
    if wire != [] {
      var n := |wire| - 1;
      MessagesCarry(ch, closed, wire[..n]);
      assert T.GoodFrame(ch, closed, wire[n]);
      if wire[n].flags == F.FLAG_DATA {
        ConcatSnoc(Messages(wire[..n]), wire[n].payload);
      } else {
        Units(Messages(wire[..n]));
        Units(S.Payload(ch, wire[..n]));
      }
    }
  }

  /** When usbd has put a reply more on the wire than there was, so has the list of messages grown. */
  lemma MessageMore(t: T.State, u: T.State, said: seq<Packet>, reply: Packet, c: seq<byte>)
    requires T.Inv(t) && T.Inv(u) && t.ch == u.ch && c != []
    requires OneByOne(Messages(u.wire), Encoded(said + [reply])) && Messages(t.wire) == Encoded(said)
    requires T.OnWire(u) == T.OnWire(t) + c
    ensures |Messages(u.wire)| == |said| + 1
  {
    MessagesCarry(t.ch, t.closed, t.wire);
    MessagesCarry(u.ch, u.closed, u.wire);
    EncodedSnoc(said, reply);
    hide T.Inv;
    hide Messages;
    hide EncodePacket;
    hide Encoded;
    assert (Encoded(said) + [EncodePacket(reply)])[..|said|] == Encoded(said);
  }

  /** At rest every reply is on the wire. */
  lemma RestMessages(l: Link, packets: seq<Packet>)
    requires InStep(l, packets) && AtRest(l, l.sent)
    ensures T.Inv(l.tx) && Messages(l.tx.wire) == Encoded(l.said)
  {
    hide T.Inv;
    hide EncodePacket;
    hide Messages;
    hide WholeIn;
    hide Measured;
  }

  lemma StepMessages(l: Link, packets: seq<Packet>)
    requires InStep(l, packets)
    ensures T.Inv(l.tx) && OneByOne(Messages(l.tx.wire), Encoded(l.said))
  {
    hide T.Inv;
    hide EncodePacket;
    hide Messages;
    hide WholeIn;
    hide Measured;
  }

  lemma ComesInStep(ch: byte, run: seq<Action>, packets: seq<Packet>, rx: seq<byte>, l: Link, st: Station)
    requires Buffer(rx) && Comes(ch, run, packets, rx, l, st) && Sized(packets)
    ensures InStep(l, packets)
  {
    hide InStep;
    RunStaysInStep(ch, run, packets);
  }

  // ----- a packet answered -----

  lemma Readable(l: Link, p: Packet, reply: Packet, packets: seq<Packet>)
    requires l.buf == EncodePacket(p) && |p.payload| <= PKT_BUF && |reply.payload| <= REPLY_MAX
    ensures Parse(l.buf) == Got(p, []) && Enabled(l, DaemonAnswers(reply), packets)
    ensures Do(l, DaemonAnswers(reply), packets) ==
            l.(buf := [], handled := l.handled + 1, said := l.said + [reply],
               socket := l.socket + [EncodePacket(reply)])
  {
    PacketReadsBack(p, []);
    Units(EncodePacket(p));
    hide EncodePacket;
    hide Parse;
  }

  /** A reply out of the daemon's socket and through usbd. */
  lemma ReplyFlows(ch: byte, run: seq<Action>, packets: seq<Packet>, rx: seq<byte>, l: Link, st: Station, c: seq<byte>)
    returns (more: seq<Action>, t: T.State)
    requires Buffer(rx) && Sized(packets) && Comes(ch, run, packets, rx, l, st)
    requires T.Alive(l.tx) && l.tx.ring == [] && l.tx.todo == [] && l.socket == [c] && 1 <= |c| <= 1024
    ensures Comes(ch, more, packets, rx, l.(socket := [], tx := t), st)
    ensures t.ch == l.tx.ch && T.Alive(t) && t.ring == [] && t.todo == [] && T.OnWire(t) == t.accepted
    ensures t.accepted == l.tx.accepted + c
  {
    hide Comes;
    more := ReplyGoes(ch, run, packets, rx, l, st, c);
    var l1 := l.(socket := [], tx := WithReply(l.tx, c));
    ComesInStep(ch, more, packets, rx, l1, st);
    StepMessages(l1, packets);
    hide InStep;
    hide T.Inv;
    hide T.OnWire;
    var acts;
    acts, t := T.DrainsFrom(l1.tx);
    more := TxGoes(ch, more, packets, rx, l1, st, acts, t);
  }

  /** And heard by the host. */
  lemma ReplyArrives(ch: byte, run: seq<Action>, packets: seq<Packet>, rx: seq<byte>, l: Link, st: Station,
                     said: seq<Packet>, reply: Packet)
    returns (more: seq<Action>, next: Link)
    requires Buffer(rx) && Sized(packets) && Comes(ch, run, packets, rx, l, st)
    requires T.Inv(l.tx) && T.Alive(l.tx) && l.tx.ring == [] && l.tx.todo == []
    requires T.OnWire(l.tx) == l.tx.accepted && Messages(l.tx.wire) == Encoded(said)
    requires l.said == said + [reply] && l.socket == [EncodePacket(reply)] && |reply.payload| <= REPLY_MAX
    requires l.sent == l.handled == |l.said| == l.heard + 1 && l.heard == |said| && l.wire == [] && l.buf == []
    ensures Comes(ch, more, packets, rx, next, st) && AtRest(next, l.sent)
  {
    var c := EncodePacket(reply);
    hide EncodePacket;
    hide Comes;
    hide T.Inv;
    hide T.OnWire;
    hide Messages;
    hide Encoded;
    var t;
    more, t := ReplyFlows(ch, run, packets, rx, l, st, c);
    var l2 := l.(socket := [], tx := t);
    ComesInStep(ch, more, packets, rx, l2, st);
    StepMessages(l2, packets);
    hide InStep;
    MessageMore(l.tx, t, said, reply, c);
    Extends(ch, more, packets, rx, l2, st, HostHears);
    more, next := more + [HostHears], l2.(heard := l2.heard + 1);
  }

  /** From rest to rest: the host's next packet, sent, read, acknowledged and heard of. */
  lemma PacketAnswered(ch: byte, run: seq<Action>, packets: seq<Packet>, rx: seq<byte>, l: Link, st: Station,
                       now: Station, part: u32)
    returns (more: seq<Action>, next: Link)
    requires Buffer(rx) && Sized(packets) && Comes(ch, run, packets, rx, l, st)
    requires AtRest(l, l.sent) && l.sent < |packets| && !st.daemon.Finished? && Buffer(st.rx)
    requires now == UploadRun.Reads(st, packets[l.sent], READY) && now.replies == st.replies + [Ack(part)]
    ensures Comes(ch, more, packets, rx, next, now) && AtRest(next, l.sent + 1)
  {
    var p, reply := packets[l.sent], Packet(OTA_ACK, LE32(part));
    assert p in packets;
    ComesInStep(ch, run, packets, rx, l, st);
    RestMessages(l, packets);
    more := PacketGoes(ch, run, packets, rx, l, st);
    var l1 := l.(sent := l.sent + 1, buf := EncodePacket(p));
    Readable(l1, p, reply, packets);
    Answered(ch, more, packets, rx, l1, st, p, reply, now);
    more := more + [DaemonAnswers(reply)];
    hide EncodePacket;
    hide Comes;
    hide InStep;
    hide Enabled;
    hide T.Inv;
    hide T.OnWire;
    hide Parse;
    var c := [EncodePacket(reply)];
    Units(c);
    var l2 := l1.(buf := [], handled := l.handled + 1, said := l.said + [reply], socket := c);
    more, next := ReplyArrives(ch, more, packets, rx, l2, now, l.said, reply);
  }

  // ----- the whole upload -----

  lemma DoneReadsNothing(st: Station, p: Packet)
    requires Buffer(st.rx) && |p.payload| <= PKT_BUF && st.daemon.Finished?
    ensures UploadRun.Reads(st, p, READY) == st
  {
  }

  lemma SaidMore(said: seq<Reply>, acked: seq<Reply>, n: nat)
    requires n < |acked| && acked[n].Ack? && said == acked[..n]
    ensures acked[..n + 1] == said + [Ack(acked[n].part)] && |said| == n && |acked[..n + 1]| == n + 1
  {
    assert acked[..n + 1] == acked[..n] + [acked[n]];
  }

  /** A daemon that answers each of `n + 1` packets was not done after `n`. */
  lemma NextSaid(start: Station, packets: seq<Packet>, n: nat, acked: seq<Reply>)
    requires Buffer(start.rx) && Sized(packets) && n < |packets| && n < |acked| && acked[n].Ack?
    requires ReadsAll(start, packets[..n], READY).replies == acked[..n]
    requires ReadsAll(start, packets[..n + 1], READY).replies == acked[..n + 1]
    ensures var st := ReadsAll(start, packets[..n], READY);
            var now := UploadRun.Reads(st, packets[n], READY);
            && !st.daemon.Finished? && now == ReadsAll(start, packets[..n + 1], READY)
            && now.replies == st.replies + [Ack(acked[n].part)]
  {
    hide ReadsAll;
    hide UploadRun.Reads;
    ReadsOneMore(start, packets, n);
    var st := ReadsAll(start, packets[..n], READY);
    SaidMore(st.replies, acked, n);
    if st.daemon.Finished? {
      DoneReadsNothing(st, packets[n]);
      assert false;
    }
  }

  /** A run that has come to rest after `n` packets goes on to rest after one more. */
  lemma GoesFurther(ch: byte, run: seq<Action>, packets: seq<Packet>, rx: seq<byte>, l: Link, n: nat, acked: seq<Reply>)
    returns (more: seq<Action>, next: Link)
    requires Buffer(rx) && Sized(packets) && n < |packets| && n < |acked| && acked[n].Ack? && AtRest(l, n)
    requires Comes(ch, run, packets, rx, l, ReadsAll(Station(Waiting, rx, []), packets[..n], READY))
    requires ReadsAll(Station(Waiting, rx, []), packets[..n], READY).replies == acked[..n]
    requires ReadsAll(Station(Waiting, rx, []), packets[..n + 1], READY).replies == acked[..n + 1]
    ensures Comes(ch, more, packets, rx, next, ReadsAll(Station(Waiting, rx, []), packets[..n + 1], READY))
    ensures AtRest(next, n + 1)
  {
    var start := Station(Waiting, rx, []);
    RestSent(l, n);
    hide *;
    NextSaid(start, packets, n, acked);
    more, next := PacketAnswered(ch, run, packets, rx, l, ReadsAll(start, packets[..n], READY),
                                 ReadsAll(start, packets[..n + 1], READY), acked[n].part);
  }

  lemma {:induction false} UploadFrom(ch: byte, parts: seq<seq<byte>>, zip: seq<byte>, chunk: nat, version: seq<byte>,
                                      rx: seq<byte>, n: nat)
    returns (run: seq<Action>, l: Link)
    requires Uploadable(parts, zip, chunk, version) && Small(parts) && Buffer(rx) && n <= |parts| + 2
    ensures Sized(UploadPackets(parts, zip, version))
    ensures var packets := UploadPackets(parts, zip, version);
            Comes(ch, run, packets, rx, l, ReadsAll(Station(Waiting, rx, []), packets[..n], READY)) && AtRest(l, n)
  {
    UploadSized(parts, zip, version);
    AllAcks(|parts|);
    var packets := UploadPackets(parts, zip, version);
    if n == 0 {
      Nothing(Station(Waiting, rx, []), packets);
      run, l := [], Fresh(ch);
    } else {
      hide *;
      run, l := UploadFrom(ch, parts, zip, chunk, version, rx, n - 1);
      ServedSoFar(parts, zip, chunk, version, rx, n - 1);
      ServedSoFar(parts, zip, chunk, version, rx, n);
      run, l := GoesFurther(ch, run, packets, rx, l, n - 1, Acked(|parts|));
    }
  }

  lemma RestSent(l: Link, n: nat)
    requires AtRest(l, n)
    ensures l.sent == n == l.heard
  {
  }

  /** Every file that can be uploaded is, in some run: the host hears of every packet and the file is staged. */
  lemma UploadCompletes(ch: byte, parts: seq<seq<byte>>, zip: seq<byte>, chunk: nat, version: seq<byte>, rx: seq<byte>)
    returns (run: seq<Action>)
    requires Uploadable(parts, zip, chunk, version) && Small(parts) && Buffer(rx)
    ensures var packets := UploadPackets(parts, zip, version);
            && Legal(ch, run, packets) && Obeys(ch, run, packets, rx)
            && After(ch, run, packets).heard == |packets|
            && StationAfter(ch, run, packets, rx).daemon == Finished(Applied(zip))
  {
    var l;
    run, l := UploadFrom(ch, parts, zip, chunk, version, rx, |parts| + 2);
    RestSent(l, |parts| + 2);
    ServedAtEnd(parts, zip, chunk, version, rx, |parts| + 2);
    hide AtRest;
    hide Uploadable;
    hide UploadPackets;
    hide ReadsAll;
    hide Legal;
    hide Obeys;
    hide After;
    hide StationAfter;
  }
}
