/** An upload's packets and replies on their way between host and daemon, the replies through usbd's transmit side. */
module LockStep {
  import opened Bytes
  import opened Ota
  import F = Framing
  import T = UsbdTx

  /** The longest payload of a reply: a part number, a reason of 63 characters and its end. */
  const REPLY_MAX: nat := 68

  datatype Link = Link(
    sent: nat,                // packets the host has sent
    wire: seq<byte>,          // bytes on their way to the daemon
    buf: seq<byte>,           // bytes the daemon has not read yet
    handled: nat,             // packets the daemon has read
    said: seq<Packet>,        // replies the daemon has given
    socket: seq<seq<byte>>,   // replies in the daemon's socket to usbd, each a message of its own
    tx: T.State,              // usbd's transmit side of the channel
    heard: nat)               // data frames the host has taken for a message

  datatype Action =
    | HostSends
    | Arrives(n: nat)
    | DaemonIgnores
    | DaemonAnswers(reply: Packet)
    | UsbdTakes
    | Usbd(step: T.Action)
    | HostHears

  /** The messages the host gets: the payloads of a channel's data frames, one each. */
  function Messages(wire: seq<F.Frame>): seq<seq<byte>> {
    if wire == [] then []
    else
      var last := wire[|wire| - 1];
      Messages(wire[..|wire| - 1]) + if last.flags == F.FLAG_DATA then [last.payload] else []
  }

  /** The host sends a packet only when every earlier one has been answered. */
  predicate Enabled(l: Link, a: Action, packets: seq<Packet>) {
    match a
    case HostSends => l.sent < |packets| && l.heard == l.sent
    case Arrives(n) => 0 < n <= |l.wire|
    case DaemonIgnores => Parse(l.buf).Got?
    case DaemonAnswers(reply) => Parse(l.buf).Got? && |reply.payload| <= REPLY_MAX
    case UsbdTakes => l.socket != [] && T.Enabled(l.tx, T.AppTake(l.socket[0]))
    case Usbd(step) => !step.AppTake? && T.Enabled(l.tx, step)
    case HostHears => l.heard < |Messages(l.tx.wire)|
  }

  function Do(l: Link, a: Action, packets: seq<Packet>): Link
    requires Enabled(l, a, packets)
  {
    match a
    case HostSends => l.(sent := l.sent + 1, wire := l.wire + EncodePacket(packets[l.sent]))
    case Arrives(n) => l.(wire := l.wire[n..], buf := l.buf + l.wire[..n])
    case DaemonIgnores => l.(buf := Parse(l.buf).rest, handled := l.handled + 1)
    case DaemonAnswers(reply) =>
      l.(buf := Parse(l.buf).rest, handled := l.handled + 1,
         said := l.said + [reply], socket := l.socket + [EncodePacket(reply)])
    case UsbdTakes => l.(socket := l.socket[1..], tx := T.Do(l.tx, T.AppTake(l.socket[0])))
    case Usbd(step) => l.(tx := T.Do(l.tx, step))
    case HostHears => l.(heard := l.heard + 1)
  }

  function Fresh(ch: byte): Link {
    Link(0, [], [], 0, [], [], T.Start(ch), 0)
  }

  /** A run is legal when each action is enabled where the ones before it lead. */
  predicate Legal(ch: byte, run: seq<Action>, packets: seq<Packet>)
    decreases |run|, 0
  {
    run == [] ||
    (Legal(ch, run[..|run| - 1], packets) &&
     Enabled(After(ch, run[..|run| - 1], packets), run[|run| - 1], packets))
  }

  function After(ch: byte, run: seq<Action>, packets: seq<Packet>): Link
    requires Legal(ch, run, packets)
    decreases |run|, 1
  {
    if run == [] then Fresh(ch) else Do(After(ch, run[..|run| - 1], packets), run[|run| - 1], packets)
  }

  // ----- what every step keeps -----

  /** Where the reply `c` can be between the daemon and the wire: whole in one place and nothing anywhere else.
      It is nowhere if the channel went down before it got there; and empty if there is none. */
  predicate Whole(c: seq<byte>, held: seq<byte>, ring: seq<byte>, todo: seq<byte>, socket: seq<seq<byte>>) {
    || (held == c && ring == [] && todo == [] && socket == [])
    || (held == [] && ring == c && todo == [] && socket == [])
    || (held == [] && ring == [] && todo == c && socket == [])
    || (held == [] && ring == [] && todo == [] && socket == [c] && c != [])
    || (held == [] && ring == [] && todo == [] && socket == [])
  }

  predicate WholeIn(c: seq<byte>, t: T.State, socket: seq<seq<byte>>) {
    Whole(c, T.Held(t), t.ring, t.todo, socket)
  }

  /** A length the TX thread has read is that of the whole ring, or of the ring before its first byte. */
  predicate Measured(t: T.State) {
    match t.pc
    case PrefillRead(avail) => avail == 0 || avail == |t.ring|
    case RefillCur(avail) => avail == |t.ring|
    case FillNxt(avail) => avail == |t.ring|
    case SendAndSwap => t.cur == []
    case _ => true
  }

  function Encoded(said: seq<Packet>): (r: seq<seq<byte>>)
    ensures |r| == |said|
  {
    seq(|said|, k requires 0 <= k < |said| => EncodePacket(said[k]))
  }

  /** The reply on its way to the wire, if there is one. */
  function Coming(messages: seq<seq<byte>>, said: seq<seq<byte>>): (c: seq<byte>)
    ensures c == [] || c in said
  {
    if |messages| < |said| then said[|said| - 1] else []
  }

  /** Every message on the wire is one reply, and at most one reply is on its way there. */
  predicate OneByOne(messages: seq<seq<byte>>, said: seq<seq<byte>>) {
    messages == said || (said != [] && messages == said[..|said| - 1])
  }

  lemma MessagesSnoc(wire: seq<F.Frame>, f: F.Frame)
    ensures Messages(wire + [f]) == Messages(wire) + if f.flags == F.FLAG_DATA then [f.payload] else []
  {
    assert (wire + [f])[..|wire|] == wire;
  }

  // ----- the transmit side, with one reply in it -----

  /** A reply's length. */
  predicate Handy(c: seq<byte>) {
    |c| <= HEADER + REPLY_MAX + 1
  }

  lemma SentMessage(t: T.State)
    ensures Messages(T.Sent(t).wire) == Messages(t.wire) + if t.cur == [] then [] else [t.cur]
  {
    if t.cur == [] {
      Units(Messages(t.wire));
    } else {
      MessagesSnoc(t.wire, F.Frame(t.ch, F.FLAG_DATA, t.cur));
    }
  }

  /** What comes of one step: the reply is where it was or further on, or it has gone out whole. */
  predicate GoesOn(t: T.State, u: T.State, c: seq<byte>, socket: seq<seq<byte>>) {
    && Measured(u)
    && (   (Messages(u.wire) == Messages(t.wire) && WholeIn(c, u, socket))
        || (c != [] && Messages(u.wire) == Messages(t.wire) + [c] && WholeIn([], u, socket)))
  }

  /** A step of the TX thread that sends puts the whole reply on the wire. */
  lemma SendsWhole(t: T.State, c: seq<byte>, socket: seq<seq<byte>>)
    requires T.Inv(t) && (t.pc.SendThenWait? || t.pc.Flush?) && WholeIn(c, t, socket)
    ensures GoesOn(t, T.TxStep(t), c, socket)
  {
    SentMessage(t);
    Units(Messages(t.wire));
    T.SentSame(t);
    hide T.OnWire;
    hide T.GoodWire;
    hide Messages;
    hide T.Sent;
  }

  /** When the buffers are swapped the reply, if it is in them, is in the one just filled. */
  lemma SwapsWhole(t: T.State, c: seq<byte>, socket: seq<seq<byte>>)
    requires T.Inv(t) && t.pc.SendAndSwap? && Measured(t) && WholeIn(c, t, socket)
    ensures GoesOn(t, T.TxStep(t), c, socket)
  {
    Units(t.nxt);
    assert T.Sent(t) == t;
    hide T.OnWire;
    hide T.GoodWire;
    hide Messages;
    hide T.Sent;
  }

  predicate Reads(t: T.State) {
    t.pc.PrefillRead? || t.pc.RefillCur? || t.pc.FillNxt?
  }

  /** A read from the ring takes the whole reply, or happens before there is one. */
  lemma ReadsWhole(t: T.State, c: seq<byte>, socket: seq<seq<byte>>)
    requires T.Inv(t) && Reads(t) && Measured(t) && WholeIn(c, t, socket) && Handy(c)
    ensures var u := T.TxStep(t);
            Measured(u) && u.wire == t.wire && WholeIn(c, u, socket)
  {
    hide T.OnWire;
    hide T.GoodWire;
    hide Messages;
    Units(t.cur);
    Units(t.ring);
  }

  /** Any other step leaves it where it is. */
  lemma MovesWhole(t: T.State, c: seq<byte>, socket: seq<seq<byte>>)
    requires T.Inv(t) && T.Enabled(t, T.Tx) && !t.pc.SendThenWait? && !t.pc.Flush? && !t.pc.SendAndSwap? &&
             !Reads(t) && Measured(t) && WholeIn(c, t, socket)
    ensures var u := T.TxStep(t);
            Measured(u) && u.wire == t.wire && WholeIn(c, u, socket)
  {
    hide T.OnWire;
    hide T.GoodWire;
    hide Messages;
  }

  lemma PushesWhole(t: T.State, c: seq<byte>, socket: seq<seq<byte>>)
    requires T.Inv(t) && T.Enabled(t, T.AppPush) && Measured(t) && WholeIn(c, t, socket) && Handy(c)
    ensures var u := T.Do(t, T.AppPush);
            Measured(u) && u.wire == t.wire && WholeIn(c, u, socket)
  {
    hide T.OnWire;
    hide T.GoodWire;
    assert t.todo == c != [] && t.ring == [];
    assert t.todo[..|t.todo|] == t.todo;
    Units(c);
  }

  lemma ClosesWhole(t: T.State, c: seq<byte>, socket: seq<seq<byte>>)
    requires T.Enabled(t, T.AppClose) && Measured(t) && WholeIn(c, t, socket)
    ensures var u := T.Do(t, T.AppClose);
            Measured(u) && Messages(u.wire) == Messages(t.wire) && WholeIn(c, u, socket)
  {
    MessagesSnoc(t.wire, F.Frame(t.ch, F.FLAG_CLOSE, []));
    Units(Messages(t.wire));
  }

  lemma FlagsKeepWhole(t: T.State, step: T.Action, c: seq<byte>, socket: seq<seq<byte>>)
    requires T.Enabled(t, step) && (step.AppCheck? || step.AppGiveUp? || step.Deactivate? || step.Shutdown?)
    requires Measured(t) && WholeIn(c, t, socket)
    ensures var u := T.Do(t, step);
            Measured(u) && u.wire == t.wire && WholeIn(c, u, socket)
  {
  }

  lemma UsbdKeepsWhole(t: T.State, step: T.Action, c: seq<byte>, socket: seq<seq<byte>>)
    requires T.Inv(t) && T.Enabled(t, step) && !step.AppTake? && Measured(t) && WholeIn(c, t, socket) && Handy(c)
    ensures GoesOn(t, T.Do(t, step), c, socket)
  {
    hide Measured;
    hide WholeIn;
    hide Messages;
    hide T.Inv;
    match step
    case Tx =>
      if t.pc.SendThenWait? || t.pc.Flush? {
        SendsWhole(t, c, socket);
      } else if t.pc.SendAndSwap? {
        SwapsWhole(t, c, socket);
      } else if Reads(t) {
        ReadsWhole(t, c, socket);
      } else {
        MovesWhole(t, c, socket);
      }
    case AppPush =>
      PushesWhole(t, c, socket);
    case AppClose =>
      ClosesWhole(t, c, socket);
    case _ =>
      FlagsKeepWhole(t, step, c, socket);
  }

  // ----- host, daemon and usbd together -----

  /** At most one packet is under way, and what is unread is the rest of that packet and nothing else. */
  ghost predicate Outbound(l: Link, packets: seq<Packet>) {
    && l.heard <= |Messages(l.tx.wire)| <= |l.said| <= l.handled <= l.sent <= |packets| && l.sent <= l.heard + 1
    && l.buf + l.wire == if l.handled < l.sent then EncodePacket(packets[l.handled]) else []
  }

  /** Every message on the wire is one reply, and what else there is of replies is one, whole. */
  ghost predicate Inbound(t: T.State, said: seq<Packet>, socket: seq<seq<byte>>) {
    && T.Inv(t) && Measured(t)
    && OneByOne(Messages(t.wire), Encoded(said))
    && WholeIn(Coming(Messages(t.wire), Encoded(said)), t, socket)
    && forall p <- said :: |p.payload| <= REPLY_MAX
  }

  ghost predicate InStep(l: Link, packets: seq<Packet>) {
    Outbound(l, packets) && Inbound(l.tx, l.said, l.socket)
  }

  lemma EncodedHandy(said: seq<Packet>)
    requires forall p <- said :: |p.payload| <= REPLY_MAX
    ensures forall k :: 0 <= k < |said| ==> 0 < |Encoded(said)[k]| && Handy(Encoded(said)[k])
  {
    hide EncodePacket;
  }

  lemma EncodedSnoc(said: seq<Packet>, p: Packet)
    ensures Encoded(said + [p]) == Encoded(said) + [EncodePacket(p)]
  {
    hide EncodePacket;
  }

  /** What the daemon reads is the packet the host sent last, with nothing behind it. */
  lemma DaemonReads(l: Link, packets: seq<Packet>)
    requires Outbound(l, packets) && Parse(l.buf).Got? && forall p <- packets :: |p.payload| <= PKT_BUF
    ensures l.handled < l.sent && Parse(l.buf) == Got(packets[l.handled], []) && l.wire == []
  {
    hide Parse;
    hide EncodePacket;
    hide Messages;
    if l.handled == l.sent {
      ParseNothing();
    }
    PartialPacket(l.buf, l.wire, packets[l.handled]);
  }

  lemma HostStep(l: Link, a: Action, packets: seq<Packet>)
    requires InStep(l, packets) && Enabled(l, a, packets) && (a.HostSends? || a.Arrives? || a.HostHears?)
    ensures InStep(Do(l, a, packets), packets)
  {
    hide Inbound;
    hide EncodePacket;
    hide Messages;
    match a {
      case HostSends =>
        Units(EncodePacket(packets[l.sent]));
      case Arrives(n) =>
        Assoc(l.buf, l.wire[..n], l.wire[n..]);
        assert l.wire[..n] + l.wire[n..] == l.wire;
      case HostHears =>
    }
  }

  /** With every earlier reply on the wire, a new one is the only one on its way. */
  lemma ReplyEnters(t: T.State, said: seq<Packet>, reply: Packet, socket: seq<seq<byte>>)
    requires Inbound(t, said, socket) && |Messages(t.wire)| == |said| && |reply.payload| <= REPLY_MAX
    ensures Inbound(t, said + [reply], socket + [EncodePacket(reply)])
  {
    EncodedSnoc(said, reply);
    hide EncodePacket;
    hide Messages;
    hide T.Inv;
    hide Measured;
    hide Encoded;
    assert OneByOne(Messages(t.wire), Encoded(said + [reply]));
    assert Coming(Messages(t.wire), Encoded(said)) == [];
    assert socket == [] && socket + [EncodePacket(reply)] == [EncodePacket(reply)];
  }

  /** A packet is answered only when every earlier reply is on the wire. */
  lemma DaemonStep(l: Link, a: Action, packets: seq<Packet>)
    requires InStep(l, packets) && Enabled(l, a, packets) && (a.DaemonIgnores? || a.DaemonAnswers?)
    requires forall p <- packets :: |p.payload| <= PKT_BUF
    ensures InStep(Do(l, a, packets), packets)
  {
    DaemonReads(l, packets);
    hide EncodePacket;
    hide Messages;
    hide Inbound;
    hide Parse;
    if a.DaemonAnswers? {
      ReplyEnters(l.tx, l.said, a.reply, l.socket);
    }
  }

  /** Once the reply on its way has gone out, none is. */
  lemma ComingSent(messages: seq<seq<byte>>, said: seq<seq<byte>>)
    requires OneByOne(messages, said) && Coming(messages, said) != []
    ensures messages + [Coming(messages, said)] == said
  {
    assert said == said[..|said| - 1] + [said[|said| - 1]];
  }

  lemma GoesOnMeans(t: T.State, u: T.State, c: seq<byte>, socket: seq<seq<byte>>)
    requires GoesOn(t, u, c, socket)
    ensures Measured(u)
    ensures (Messages(u.wire) == Messages(t.wire) && WholeIn(c, u, socket)) ||
            (c != [] && Messages(u.wire) == Messages(t.wire) + [c] && WholeIn([], u, socket))
  {
  }

  lemma UsbdKeepsInbound(t: T.State, step: T.Action, said: seq<Packet>, socket: seq<seq<byte>>)
    requires Inbound(t, said, socket) && T.Enabled(t, step) && !step.AppTake?
    ensures Inbound(T.Do(t, step), said, socket)
    ensures |Messages(t.wire)| <= |Messages(T.Do(t, step).wire)| <= |said|
  {
    hide EncodePacket;
    hide Messages;
    hide T.Inv;
    hide T.Do;
    hide WholeIn;
    hide Measured;
    hide GoesOn;
    var messages, replies := Messages(t.wire), Encoded(said);
    EncodedHandy(said);
    T.StepKeeps(t, step);
    var c := Coming(messages, replies);
    UsbdKeepsWhole(t, step, c, socket);
    GoesOnMeans(t, T.Do(t, step), c, socket);
    if c != [] {
      ComingSent(messages, replies);
    }
  }

  lemma UsbdStep(l: Link, step: T.Action, packets: seq<Packet>)
    requires InStep(l, packets) && Enabled(l, Usbd(step), packets)
    ensures InStep(Do(l, Usbd(step), packets), packets)
  {
    hide Inbound;
    hide EncodePacket;
    hide Messages;
    hide T.Do;
    UsbdKeepsInbound(l.tx, step, l.said, l.socket);
  }

  lemma TakesWhole(t: T.State, said: seq<Packet>, socket: seq<seq<byte>>)
    requires Inbound(t, said, socket) && socket != [] && T.Enabled(t, T.AppTake(socket[0]))
    ensures Inbound(T.Do(t, T.AppTake(socket[0])), said, socket[1..])
  {
    T.StepKeeps(t, T.AppTake(socket[0]));
    hide EncodePacket;
    hide Messages;
    hide T.Inv;
    assert socket[1..] == [];
  }

  lemma TakeStep(l: Link, packets: seq<Packet>)
    requires InStep(l, packets) && Enabled(l, UsbdTakes, packets)
    ensures InStep(Do(l, UsbdTakes, packets), packets)
  {
    hide Inbound;
    hide EncodePacket;
    hide Messages;
    TakesWhole(l.tx, l.said, l.socket);
  }

  lemma StaysInStep(l: Link, a: Action, packets: seq<Packet>)
    requires InStep(l, packets) && Enabled(l, a, packets) && forall p <- packets :: |p.payload| <= PKT_BUF
    ensures InStep(Do(l, a, packets), packets)
  {
    hide InStep;
    hide Do;
    match a
    case UsbdTakes => TakeStep(l, packets);
    case Usbd(step) => UsbdStep(l, step, packets);
    case HostSends => HostStep(l, a, packets);
    case Arrives(n) => HostStep(l, a, packets);
    case HostHears => HostStep(l, a, packets);
    case DaemonIgnores => DaemonStep(l, a, packets);
    case DaemonAnswers(reply) => DaemonStep(l, a, packets);
  }

  lemma {:induction false} RunStaysInStep(ch: byte, run: seq<Action>, packets: seq<Packet>)
    requires Legal(ch, run, packets) && forall p <- packets :: |p.payload| <= PKT_BUF
    ensures InStep(After(ch, run, packets), packets)
    decreases |run|
  {
    hide InStep;
    if run == [] {
      StartsInStep(ch, packets);
    } else {
      RunStaysInStep(ch, run[..|run| - 1], packets);
      StaysInStep(After(ch, run[..|run| - 1], packets), run[|run| - 1], packets);
    }
  }

  lemma StartsInStep(ch: byte, packets: seq<Packet>)
    ensures InStep(Fresh(ch), packets)
  {
  }

  /**
   * Under any cutting, any timing and any interleaving of usbd's threads, packets of an upload go by one at
   * a time. Whenever the daemon can read a packet, it is the one the host sent last, with nothing behind it;
   * and every message the host gets is one reply, whole, in the order the daemon gave them.
   */
  lemma OneAtATime(ch: byte, run: seq<Action>, packets: seq<Packet>)
    requires Legal(ch, run, packets) && forall p <- packets :: |p.payload| <= PKT_BUF
    ensures var l := After(ch, run, packets);
            && l.heard <= |Messages(l.tx.wire)| <= |l.said| <= l.handled <= l.sent <= l.heard + 1
            && (Parse(l.buf).Got? ==>
                  l.sent == l.handled + 1 <= |packets| && Parse(l.buf) == Got(packets[l.handled], []) && l.wire == [])
            && (forall k :: 0 <= k < |Messages(l.tx.wire)| ==>
                  Messages(l.tx.wire)[k] == EncodePacket(l.said[k]) &&
                  HostParse(Messages(l.tx.wire)[k]) == Packeted(l.said[k]))
  {
    hide EncodePacket;
    hide Messages;
    hide T.Inv;
    hide Parse;
    hide HostParse;
    hide After;
    hide WholeIn;
    hide Measured;
    RunStaysInStep(ch, run, packets);
    var l := After(ch, run, packets);
    if Parse(l.buf).Got? {
      DaemonReads(l, packets);
    }
    forall k | 0 <= k < |Messages(l.tx.wire)|
      ensures Messages(l.tx.wire)[k] == EncodePacket(l.said[k]) &&
              HostParse(Messages(l.tx.wire)[k]) == Packeted(l.said[k])
    {
      assert Encoded(l.said)[k] == EncodePacket(l.said[k]);
      HostReadsBack(l.said[k]);
    }
  }

  // ----- two replies to one packet -----

  lemma TwoAreNotOne(p: Packet, q: Packet)
    requires |p.payload| <= REPLY_MAX
    ensures HostParse(EncodePacket(p) + EncodePacket(q)) == Raised
  {
    Layout(p, EncodePacket(q));
    hide XorSum;
    hide EncodePacket;
    hide U32At;
  }

  /** The ring's bytes, up to a frame's worth, go out as one frame if they are all there when the TX thread first
      looks. */
  lemma FirstFrame(s: T.State) returns (acts: seq<T.Action>, t: T.State)
    requires s.pc.Prefill? && s.cur == [] && 0 < |s.ring| <= F.USB_MAX_PAYLOAD && T.Alive(s)
    ensures T.Run(s, acts, t) && t.ch == s.ch && t.offered == s.offered
    ensures t.wire == s.wire + [F.Frame(s.ch, F.FLAG_DATA, s.ring)]
  {
    hide T.Run;
    var t1 := T.Do(s, T.Tx);
    var t2 := T.Do(t1, T.Tx);
    assert s.ring[..|s.ring|] == s.ring;
    var t3 := T.Do(t2, T.Tx);
    var t4 := T.Do(t3, T.Tx);
    t := T.Do(t4, T.Tx);
    T.Steps(t, [], t);
    T.StepBefore(t4, T.Tx, [], t);
    var a1 := [T.Tx] + [];
    T.StepBefore(t3, T.Tx, a1, t);
    var a2 := [T.Tx] + a1;
    T.StepBefore(t2, T.Tx, a2, t);
    var a3 := [T.Tx] + a2;
    T.StepBefore(t1, T.Tx, a3, t);
    var a4 := [T.Tx] + a3;
    T.StepBefore(s, T.Tx, a4, t);
    acts := [T.Tx] + a4;
  }

  /** Both replies are in the ring before the TX thread looks. */
  lemma TwoInOneFrame(ch: byte, c: seq<byte>, d: seq<byte>) returns (acts: seq<T.Action>, t: T.State)
    requires 0 < |c| && 0 < |d| && Handy(c) && Handy(d)
    ensures T.Run(T.Start(ch), acts, t) && t.ch == ch && t.offered == c + d &&
            t.wire == [F.Frame(ch, F.FLAG_DATA, c + d)]
  {
    hide T.Run;
    var s := T.Start(ch);
    var s1 := s.(ring := s.ring + c, accepted := s.accepted + c, offered := s.offered + c, writing := false);
    var s2 := s1.(ring := s1.ring + d, accepted := s1.accepted + d, offered := s1.offered + d, writing := false);
    Units(c);
    assert s2.ring == c + d == s2.offered;
    acts, t := FirstFrame(s2);
    T.Pushed(s1, d, acts, t);
    acts := [T.AppTake(d)] + ([T.AppCheck] + ([T.AppPush] + acts));
    T.Pushed(s, c, acts, t);
    acts := [T.AppTake(c)] + ([T.AppCheck] + ([T.AppPush] + acts));
  }

  /** Two replies to one packet, as when the staging file cannot be opened, can reach the host as one message,
      which it rejects. */
  lemma TwoRepliesMerge(ch: byte, p: Packet, q: Packet)
    requires |p.payload| <= REPLY_MAX && |q.payload| <= REPLY_MAX
    ensures HostParse(EncodePacket(p) + EncodePacket(q)) == Raised
    ensures exists t ::
      T.Reachable(t) && t.ch == ch && t.offered == EncodePacket(p) + EncodePacket(q) && Messages(t.wire) == [t.offered]
  {
    TwoAreNotOne(p, q);
    hide EncodePacket;
    hide HostParse;
    hide T.Run;
    hide T.Start;
    var acts, t := TwoInOneFrame(ch, EncodePacket(p), EncodePacket(q));
    assert T.Reachable(t);
    MessagesSnoc([], t.wire[0]);
  }
}
