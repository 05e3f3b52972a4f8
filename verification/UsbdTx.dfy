/** usbd's transmit side of one channel: the app reader thread, the ring between the threads, and the
    double-buffered TX thread, as a machine whose steps interleave freely. USB writes succeed. */
module UsbdTx {
  import opened Bytes
  import F = Framing
  import S = Session

  const RING_SIZE: nat := 16 * 1024 * 1024

  /** Where the TX thread is. A number is a length it read from the ring under the ring's lock, earlier. */
  datatype Pc =
    | Prefill                 // before the loop, waiting for a first byte
    | PrefillRead(avail: nat)
    | LoopHead
    | Look                    // txlen[nxt] cleared, about to look at the ring
    | SendThenWait            // ring was empty: send cur first
    | Wait                    // block for new data
    | RefillCur(avail: nat)
    | FillNxt(avail: nat)
    | SendAndSwap
    | Flush
    | Done

  datatype State = State(
    pc: Pc,
    cur: seq<byte>,           // txbuf[cur][..txlen[cur]]
    nxt: seq<byte>,           // txbuf[1 - cur][..txlen[1 - cur]]
    ring: seq<byte>,
    ch: byte,
    wire: seq<F.Frame>,       // this channel's frames on the USB pipe, in order
    closed: bool,             // the app reader has written its close frame
    active: bool,
    running: bool,
    todo: seq<byte>,          // the app reader's chunk, not yet in the ring
    writing: bool,            // the app reader has seen the channel alive and is about to write to the ring
    offered: seq<byte>,       // every byte the app reader took from its socket
    accepted: seq<byte>)      // every byte it put into the ring

  function Start(ch: byte): State {
    State(Prefill, [], [], [], ch, [], false, true, true, [], false, [], [])
  }

  datatype Action =
    | AppTake(chunk: seq<byte>)
    | AppCheck
    | AppPush
    | AppGiveUp
    | Deactivate
    | AppClose
    | Shutdown
    | Tx

  predicate Alive(s: State) {
    s.active && s.running
  }

  predicate Enabled(s: State, a: Action) {
    match a
    case AppTake(chunk) => s.todo == [] && 1 <= |chunk| <= F.USB_BUF_SIZE
    case AppCheck => s.todo != [] && Alive(s)
    case AppPush => s.todo != [] && s.writing
    case AppGiveUp => s.todo != [] && !Alive(s) && !s.writing
    case Deactivate => true
    case AppClose => !s.active && !s.closed
    case Shutdown => true
    case Tx => s.pc != Done && (s.pc == Prefill || s.pc == Wait ==> s.ring != [] || !Alive(s))
  }

  function Min(a: nat, b: nat): nat {
    if a < b then a else b
  }

  /** One atomic step of the TX thread. */
  function TxStep(s: State): State
    requires Enabled(s, Tx)
  {
    match s.pc
    case Prefill => s.(pc := PrefillRead(|s.ring|))
    case PrefillRead(avail) =>
      if avail > 0 then ReadInto(s, avail).(pc := LoopHead) else s.(pc := LoopHead)
    case LoopHead => if Alive(s) then s.(nxt := [], pc := Look) else s.(pc := Flush)
    case Look => if s.ring == [] then s.(pc := SendThenWait) else s.(pc := FillNxt(|s.ring|))
    case SendThenWait => Sent(s).(cur := [], pc := Wait)
    case Wait => if s.ring == [] then s.(pc := LoopHead) else s.(pc := RefillCur(|s.ring|))
    case RefillCur(avail) => ReadInto(s, avail).(pc := LoopHead)
    case FillNxt(avail) =>
      var n := Min(avail, F.USB_MAX_PAYLOAD);
      if n <= |s.ring| then s.(nxt := s.ring[..n], ring := s.ring[n..], pc := SendAndSwap)
      else s.(nxt := [], pc := SendAndSwap)
    case SendAndSwap => Sent(s).(cur := s.nxt, nxt := s.cur, pc := LoopHead)
    case Flush => Sent(s).(pc := Done)
    case Done => s
  }

  /** read_exact into txbuf[cur]; when the ring holds too little it times out and txlen[cur] is cleared. */
  function ReadInto(s: State, avail: nat): State {
    var n := Min(avail, F.USB_MAX_PAYLOAD);
    if n <= |s.ring| then s.(cur := s.ring[..n], ring := s.ring[n..]) else s.(cur := [])
  }

  /** usb_send_frame of txbuf[cur], when there is anything in it. */
  function Sent(s: State): State {
    if s.cur == [] then s else s.(wire := s.wire + [F.Frame(s.ch, F.FLAG_DATA, s.cur)])
  }

  function Do(s: State, a: Action): State
    requires Enabled(s, a)
  {
    match a
    case AppTake(chunk) => s.(todo := chunk, offered := s.offered + chunk)
    case AppCheck => s.(writing := true)
    case AppPush =>
      var n := if |s.ring| <= RING_SIZE then Min(|s.todo|, RING_SIZE - |s.ring|) else 0;
      s.(ring := s.ring + s.todo[..n], accepted := s.accepted + s.todo[..n], todo := s.todo[n..], writing := false)
    case AppGiveUp => s.(todo := [])
    case Deactivate => s.(active := false)
    case AppClose => s.(closed := true, wire := s.wire + [F.Frame(s.ch, F.FLAG_CLOSE, [])])
    case Shutdown => s.(running := false)
    case Tx => TxStep(s)
  }

  ghost predicate Run(s: State, acts: seq<Action>, t: State)
    decreases |acts|
  {
    if acts == [] then s == t else Enabled(s, acts[0]) && Run(Do(s, acts[0]), acts[1..], t)
  }

  ghost predicate Reachable(t: State) {
    exists acts :: Run(Start(t.ch), acts, t)
  }

  /** The data bytes this channel has put on the wire. */
  function OnWire(s: State): seq<byte> {
    S.Payload(s.ch, s.wire)
  }

  // ----- what every step keeps -----

  /** What the ping-pong buffers owe to the wire at this point of the loop. */
  function Held(s: State): seq<byte> {
    match s.pc
    case SendAndSwap => s.cur + s.nxt
    case Done => []
    case _ => s.cur
  }

  predicate GoodFrame(ch: byte, closed: bool, f: F.Frame) {
    f.channel == ch &&
    if f.flags == F.FLAG_CLOSE then closed else f.flags == F.FLAG_DATA && 1 <= |f.payload| <= F.USB_MAX_PAYLOAD
  }

  ghost predicate GoodWire(ch: byte, closed: bool, wire: seq<F.Frame>) {
    forall k :: 0 <= k < |wire| ==> GoodFrame(ch, closed, wire[k])
  }

  lemma GoodWireGrows(ch: byte, closed: bool, wire: seq<F.Frame>, f: F.Frame)
    requires GoodWire(ch, closed, wire) && GoodFrame(ch, closed || f.flags == F.FLAG_CLOSE, f)
    ensures GoodWire(ch, closed || f.flags == F.FLAG_CLOSE, wire + [f])
  {
  }

  ghost predicate Inv(s: State) {
    && OnWire(s) + Held(s) + s.ring == s.accepted
    && GoodWire(s.ch, s.closed, s.wire)
    && |s.cur| <= F.USB_MAX_PAYLOAD && |s.nxt| <= F.USB_MAX_PAYLOAD
    && |s.ring| <= RING_SIZE
    && (s.pc.Prefill? || s.pc.PrefillRead? || s.pc.Wait? || s.pc.RefillCur? ==> s.cur == [])
    && (s.pc.PrefillRead? ==> s.pc.avail <= |s.ring|)
    && (s.pc.RefillCur? || s.pc.FillNxt? ==> 0 < s.pc.avail <= |s.ring|)
    && (s.pc.Look? || s.pc.SendThenWait? || s.pc.Wait? || s.pc.RefillCur? || s.pc.FillNxt? ==> s.nxt == [])
    && (s.pc.Flush? || s.pc.Done? ==> !Alive(s))
    && s.accepted <= s.offered
    && (Alive(s) || s.writing ==> s.accepted + s.todo == s.offered)
  }

  lemma WireGrows(s: State, f: F.Frame)
    ensures S.Payload(s.ch, s.wire + [f]) ==
            OnWire(s) + if f.channel == s.ch && f.flags == F.FLAG_DATA then f.payload else []
  {
    assert (s.wire + [f])[..|s.wire|] == s.wire;
  }

  lemma SentKeeps(s: State)
    ensures OnWire(Sent(s)) == OnWire(s) + s.cur
  {
    WireGrows(s, F.Frame(s.ch, F.FLAG_DATA, s.cur));
    Units(OnWire(s));
  }

  lemma TxKeeps(s: State)
    requires Inv(s) && Enabled(s, Tx)
    ensures Inv(TxStep(s))
  {
    hide Inv;
    hide TxStep;
    hide Sent;
    hide GoodWire;
    hide S.Payload;
    match s.pc
    case PrefillRead(_) => RefillKeeps(s);
    case RefillCur(_) => RefillKeeps(s);
    case FillNxt(_) => FillKeeps(s);
    case SendThenWait =>
      SendStep(s);
      SentSame(s);
      SentIsGood(s);
      SentThenWaits(s, Sent(s).wire);
    case SendAndSwap => SwapKeeps(s);
    case Flush =>
      SendStep(s);
      SentSame(s);
      SentIsGood(s);
      SentThenDone(s, Sent(s).wire);
    case _ => LookKeeps(s);
  }

  lemma LookKeeps(s: State)
    requires Inv(s) && Enabled(s, Tx) && (s.pc.Prefill? || s.pc.LoopHead? || s.pc.Look? || s.pc.Wait?)
    ensures Inv(TxStep(s))
  {
    hide GoodWire;
    hide S.Payload;
  }

  lemma RefillKeeps(s: State)
    requires Inv(s) && (s.pc.PrefillRead? || s.pc.RefillCur?)
    ensures Inv(TxStep(s))
  {
    hide GoodWire;
    hide S.Payload;
    Units(OnWire(s));
    ReadKeeps(OnWire(s), s.ring, Min(s.pc.avail, F.USB_MAX_PAYLOAD));
  }

  lemma FillKeeps(s: State)
    requires Inv(s) && s.pc.FillNxt?
    ensures Inv(TxStep(s))
  {
    hide GoodWire;
    hide S.Payload;
    var w, n := OnWire(s), Min(s.pc.avail, F.USB_MAX_PAYLOAD);
    ReadKeeps(w + s.cur, s.ring, n);
    Assoc(w, s.cur, s.ring[..n]);
  }

  /** The wire gains the payload of cur, in a frame that is in order, or stays as it is when cur is empty. */
  lemma SentIsGood(s: State)
    requires Inv(s)
    ensures OnWire(Sent(s)) == OnWire(s) + s.cur && GoodWire(s.ch, s.closed, Sent(s).wire)
  {
    SentKeeps(s);
    if s.cur != [] {
      GoodWireGrows(s.ch, s.closed, s.wire, F.Frame(s.ch, F.FLAG_DATA, s.cur));
    }
  }

  lemma SentThenWaits(s: State, wire: seq<F.Frame>)
    requires Inv(s) && s.pc.SendThenWait?
    requires S.Payload(s.ch, wire) == OnWire(s) + s.cur && GoodWire(s.ch, s.closed, wire)
    ensures Inv(s.(wire := wire, cur := [], pc := Wait))
  {
    hide S.Payload;
    hide GoodWire;
    Units(OnWire(s) + s.cur);
  }

  lemma SentThenDone(s: State, wire: seq<F.Frame>)
    requires Inv(s) && s.pc.Flush?
    requires S.Payload(s.ch, wire) == OnWire(s) + s.cur && GoodWire(s.ch, s.closed, wire)
    ensures Inv(s.(wire := wire, pc := Done))
  {
    hide S.Payload;
    hide GoodWire;
    Units(OnWire(s) + s.cur);
  }

  lemma SendStep(s: State)
    requires s.pc.SendThenWait? || s.pc.Flush?
    ensures var wire := Sent(s).wire;
            TxStep(s) == if s.pc.Flush? then s.(wire := wire, pc := Done) else s.(wire := wire, cur := [], pc := Wait)
  {
    SentSame(s);
    hide Sent;
  }

  lemma SwapKeeps(s: State)
    requires Inv(s) && s.pc.SendAndSwap?
    ensures Inv(TxStep(s))
  {
    SentIsGood(s);
    SentSame(s);
    hide S.Payload;
    hide GoodWire;
    hide Sent;
    Assoc(OnWire(s), s.cur, s.nxt);
  }

  /** Sending changes the wire only. */
  lemma SentSame(s: State)
    ensures Sent(s) == s.(wire := Sent(s).wire)
  {
  }

  lemma ReadKeeps(w: seq<byte>, ring: seq<byte>, n: nat)
    requires n <= |ring|
    ensures w + ring[..n] + ring[n..] == w + ring
  {
    Assoc(w, ring[..n], ring[n..]);
    assert ring[..n] + ring[n..] == ring;
  }

  lemma PushKeeps(s: State)
    requires Inv(s) && Enabled(s, AppPush)
    ensures Inv(Do(s, AppPush))
  {
    hide GoodWire;
    hide S.Payload;
    var n := Min(|s.todo|, RING_SIZE - |s.ring|);
    Assoc(OnWire(s) + Held(s), s.ring, s.todo[..n]);
    Assoc(s.accepted, s.todo[..n], s.todo[n..]);
    assert s.todo[..n] + s.todo[n..] == s.todo;
    assert s.accepted + s.todo[..n] <= s.offered;
  }

  lemma TakeKeeps(s: State, chunk: seq<byte>)
    requires Inv(s) && Enabled(s, AppTake(chunk))
    ensures Inv(Do(s, AppTake(chunk)))
  {
    hide GoodWire;
    hide S.Payload;
    Units(s.accepted);
    assert s.accepted <= s.offered + chunk;
  }

  lemma CloseKeeps(s: State)
    requires Inv(s) && Enabled(s, AppClose)
    ensures Inv(Do(s, AppClose))
  {
    WireGrows(s, F.Frame(s.ch, F.FLAG_CLOSE, []));
    GoodWireGrows(s.ch, s.closed, s.wire, F.Frame(s.ch, F.FLAG_CLOSE, []));
    hide S.Payload;
    hide GoodWire;
    Units(OnWire(s));
  }

  lemma FlagsKeep(s: State, a: Action)
    requires Inv(s) && Enabled(s, a) && (a.AppCheck? || a.AppGiveUp? || a.Deactivate? || a.Shutdown?)
    ensures Inv(Do(s, a))
  {
    hide GoodWire;
    hide S.Payload;
  }

  lemma StepKeeps(s: State, a: Action)
    requires Inv(s) && Enabled(s, a)
    ensures Inv(Do(s, a))
  {
    match a
    case AppTake(chunk) =>
      TakeKeeps(s, chunk);
    case AppPush =>
      PushKeeps(s);
    case AppClose =>
      CloseKeeps(s);
    case Tx =>
      hide Inv;
      TxKeeps(s);
    case _ =>
      FlagsKeep(s, a);
  }

  lemma {:induction false} RunKeeps(s: State, acts: seq<Action>, t: State)
    requires Inv(s) && Run(s, acts, t)
    ensures Inv(t)
    decreases |acts|
  {
    if acts != [] {
      StepKeeps(s, acts[0]);
      RunKeeps(Do(s, acts[0]), acts[1..], t);
    }
  }

  /** Over all interleavings, at every point: bytes on the wire, in the buffers and in the ring are the bytes
      accepted from the app, in order, and those are a prefix of what it offered. No data frame is empty or too
      long, and nothing closes the channel before its app reader does. */
  lemma Conservation(t: State)
    requires Reachable(t)
    ensures OnWire(t) + Held(t) + t.ring == t.accepted && t.accepted <= t.offered
    ensures GoodWire(t.ch, t.closed, t.wire)
    ensures t.pc.LoopHead? ==> OnWire(t) + t.cur + t.ring == t.accepted
    ensures t.pc.Done? ==> OnWire(t) + t.ring == t.accepted
  {
    var acts :| Run(Start(t.ch), acts, t);
    RunKeeps(Start(t.ch), acts, t);
    Units(OnWire(t));
  }

  // ----- what is still sent once the channel goes down -----

  /** Nothing more enters the ring: the channel is down, and no write to the ring is under way. */
  predicate Ending(s: State) {
    !Alive(s) && !s.writing
  }

  /** How many more bytes the TX thread will take from the ring when nothing more enters it: what one read
      can hold, if it is on its way to a read, and otherwise none. */
  function Reads(s: State): nat {
    match s.pc
    case Prefill => Min(|s.ring|, F.USB_MAX_PAYLOAD)
    case Look => Min(|s.ring|, F.USB_MAX_PAYLOAD)
    case SendThenWait => Min(|s.ring|, F.USB_MAX_PAYLOAD)
    case Wait => Min(|s.ring|, F.USB_MAX_PAYLOAD)
    case PrefillRead(avail) => Min(avail, F.USB_MAX_PAYLOAD)
    case RefillCur(avail) => Min(avail, F.USB_MAX_PAYLOAD)
    case FillNxt(avail) => Min(avail, F.USB_MAX_PAYLOAD)
    case _ => 0
  }

  /** What will be left in the ring. */
  function LeftBehind(s: State): seq<byte>
    requires Reads(s) <= |s.ring|
  {
    s.ring[Reads(s)..]
  }

  lemma ReadsFit(s: State)
    requires Inv(s)
    ensures Reads(s) <= |s.ring|
  {
  }

  /** What the TX thread leaves to others. */
  predicate Steady(s: State, t: State) {
    && t.accepted == s.accepted && t.offered == s.offered && t.todo == s.todo && t.writing == s.writing
    && t.active == s.active && t.running == s.running && t.closed == s.closed
  }

  lemma TxRefills(s: State)
    requires Enabled(s, Tx) && Reads(s) <= |s.ring| && (s.pc.PrefillRead? || s.pc.RefillCur?)
    ensures TxStep(s).ring == s.ring[Reads(s)..] && Reads(TxStep(s)) == 0 && Steady(s, TxStep(s))
  {
    assert s.ring[0..] == s.ring;
  }

  lemma TxFills(s: State)
    requires Enabled(s, Tx) && Reads(s) <= |s.ring| && s.pc.FillNxt?
    ensures TxStep(s).ring == s.ring[Reads(s)..] && Reads(TxStep(s)) == 0 && Steady(s, TxStep(s))
  {
  }

  lemma TxLooksOn(s: State)
    requires Enabled(s, Tx) && Ending(s) && (s.pc.Prefill? || s.pc.Look? || s.pc.SendThenWait? || s.pc.Wait?)
    ensures TxStep(s).ring == s.ring && Reads(TxStep(s)) == Reads(s) && Steady(s, TxStep(s))
  {
  }

  lemma TxReadsNoMore(s: State)
    requires Enabled(s, Tx) && Ending(s) && (s.pc.LoopHead? || s.pc.SendAndSwap? || s.pc.Flush?)
    ensures TxStep(s).ring == s.ring && Reads(TxStep(s)) == Reads(s) == 0 && Steady(s, TxStep(s))
  {
  }

  lemma TxLeaves(s: State)
    requires Ending(s) && Enabled(s, Tx) && Reads(s) <= |s.ring| && Reads(TxStep(s)) <= |TxStep(s).ring|
    ensures LeftBehind(TxStep(s)) == LeftBehind(s) && TxStep(s).accepted == s.accepted && Ending(TxStep(s))
  {
    if s.pc.PrefillRead? || s.pc.RefillCur? {
      TxRefills(s);
    } else if s.pc.FillNxt? {
      TxFills(s);
    } else if s.pc.LoopHead? || s.pc.SendAndSwap? || s.pc.Flush? {
      TxReadsNoMore(s);
    } else {
      TxLooksOn(s);
    }
    hide Reads;
    hide TxStep;
  }

  lemma StepLeaves(s: State, a: Action)
    requires Inv(s) && Ending(s) && Enabled(s, a)
    ensures Ending(Do(s, a)) && Inv(Do(s, a)) && Reads(s) <= |s.ring| && Reads(Do(s, a)) <= |Do(s, a).ring|
    ensures LeftBehind(Do(s, a)) == LeftBehind(s) && Do(s, a).accepted == s.accepted
  {
    hide Inv;
    hide OnWire;
    hide TxStep;
    StepKeeps(s, a);
    ReadsFit(s);
    ReadsFit(Do(s, a));
    if a.Tx? {
      TxLeaves(s);
    }
  }

  lemma {:induction false} RunLeaves(s: State, acts: seq<Action>, t: State)
    requires Inv(s) && Ending(s) && Run(s, acts, t)
    ensures Inv(t) && Reads(s) <= |s.ring| && Reads(t) <= |t.ring| && LeftBehind(t) == LeftBehind(s) &&
            t.accepted == s.accepted
    decreases |acts|
  {
    if acts == [] {
      ReadsFit(s);
    } else {
      StepLeaves(s, acts[0]);
      RunLeaves(Do(s, acts[0]), acts[1..], t);
    }
  }

  /** Where the TX thread stands when the channel goes down decides what is lost: exactly the bytes of the ring
      beyond its one remaining read. Every byte accepted reaches the wire if and only if that read takes them all. */
  lemma EverythingSentIff(s: State, acts: seq<Action>, t: State)
    requires Reachable(s) && Ending(s) && Run(s, acts, t) && t.pc.Done?
    ensures Reads(s) <= |s.ring|
    ensures t.accepted == s.accepted == OnWire(t) + s.ring[Reads(s)..]
    ensures OnWire(t) == t.accepted <==> Reads(s) == |s.ring|
  {
    var before :| Run(Start(s.ch), before, s);
    RunKeeps(Start(s.ch), before, s);
    RunLeaves(s, acts, t);
    Units(OnWire(t));
    assert LeftBehind(t) == t.ring;
  }

  /** So nothing is lost if the TX thread has yet to look at the ring and one frame can hold what is in it; and what
      one frame cannot hold is. */
  lemma OneFrameIsSent(s: State, acts: seq<Action>, t: State)
    requires Reachable(s) && Ending(s) && Run(s, acts, t) && t.pc.Done?
    requires s.pc.Prefill? || s.pc.Look? || s.pc.SendThenWait? || s.pc.Wait?
    ensures |t.accepted| - |OnWire(t)| == if |s.ring| <= F.USB_MAX_PAYLOAD then 0 else |s.ring| - F.USB_MAX_PAYLOAD
  {
    EverythingSentIff(s, acts, t);
    hide OnWire;
  }

  // ----- what is sent while the channel stays up -----

  /** Steps the TX thread has before it at its place in the loop, as far as no byte leaves the ring. */
  function Ahead(pc: Pc): nat {
    match pc
    case Prefill => 6
    case PrefillRead(_) => 5
    case SendAndSwap => 5
    case LoopHead => 4
    case Look => 3
    case FillNxt(_) => 2
    case SendThenWait => 2
    case Wait => 1
    case _ => 0
  }

  /** A step of the TX thread leaves the rest to others, and takes a byte from the ring or goes on in its loop. */
  lemma TxMovesOn(s: State)
    requires Inv(s) && Alive(s) && Enabled(s, Tx)
    ensures Steady(s, TxStep(s)) && TxStep(s).ch == s.ch
    ensures |TxStep(s).ring| < |s.ring| || (TxStep(s).ring == s.ring && Ahead(TxStep(s).pc) < Ahead(s.pc))
  {
    hide OnWire;
    hide Held;
    hide GoodWire;
  }

  /** It waits only when every byte accepted is on the wire. */
  lemma WaitingMeansSent(s: State)
    requires Reachable(s) && Alive(s) && !Enabled(s, Tx)
    ensures s.ring == [] && OnWire(s) == s.accepted
  {
    var acts :| Run(Start(s.ch), acts, s);
    RunKeeps(Start(s.ch), acts, s);
    Units(OnWire(s));
  }

  lemma {:induction false} DrainsFrom(s: State) returns (acts: seq<Action>, t: State)
    requires Inv(s) && Alive(s)
    ensures (forall a <- acts :: a.Tx?) && Run(s, acts, t)
    ensures t.ring == [] && t.ch == s.ch && OnWire(t) == t.accepted == s.accepted && Steady(s, t)
    decreases |s.ring|, Ahead(s.pc)
  {
    hide TxStep;
    hide Ahead;
    if Enabled(s, Tx) {
      TxMovesOn(s);
      TxKeeps(s);
      hide Inv;
      hide OnWire;
      acts, t := DrainsFrom(TxStep(s));
      StepBefore(s, Tx, acts, t);
      acts := [Tx] + acts;
    } else {
      acts, t := [], s;
      Units(OnWire(s));
    }
  }

  /** Whatever the interleaving so far: while the channel is up, the TX thread by itself puts everything accepted on
      the wire. */
  lemma Drains(s: State) returns (acts: seq<Action>, t: State)
    requires Reachable(s) && Alive(s)
    ensures (forall a <- acts :: a.Tx?) && Run(s, acts, t)
    ensures t.ring == [] && OnWire(t) == t.accepted == s.accepted
  {
    var before :| Run(Start(s.ch), before, s);
    RunKeeps(Start(s.ch), before, s);
    acts, t := DrainsFrom(s);
  }

  /** One more chunk of the app's goes into the ring. */
  lemma Pushed(s: State, c: seq<byte>, acts: seq<Action>, t: State)
    requires s.todo == [] && Alive(s) && 1 <= |c| <= F.USB_BUF_SIZE && |s.ring| + |c| <= RING_SIZE
    requires Run(s.(ring := s.ring + c, accepted := s.accepted + c, offered := s.offered + c, writing := false),
                 acts, t)
    ensures Run(s, [AppTake(c)] + ([AppCheck] + ([AppPush] + acts)), t)
  {
    hide Run;
    var s1 := Do(s, AppTake(c));
    var s2 := Do(s1, AppCheck);
    assert c[..|c|] == c && c[|c|..] == [];
    StepBefore(s2, AppPush, acts, t);
    StepBefore(s1, AppCheck, [AppPush] + acts, t);
    StepBefore(s, AppTake(c), [AppCheck] + ([AppPush] + acts), t);
  }

  /** The TX thread has looked at the ring, has yet to read it, and the channel goes down: one read, and the rest
      stays. */
  lemma OneReadLeft(s: State) returns (acts: seq<Action>, t: State)
    requires s.pc == PrefillRead(1) && |s.ring| == 2
    ensures Run(s, acts, t) && t.ch == s.ch && t.pc.Done? && t.ring == s.ring[1..]
  {
    hide Run;
    hide Sent;
    var t1 := Do(s, Deactivate);
    var t2 := Do(t1, Tx);
    assert t2.ring == s.ring[1..] && t2.pc == LoopHead;
    var t3 := Do(t2, Tx);
    SentSame(t3);
    t := Do(t3, Tx);
    Steps(t, [], t);
    StepBefore(t3, Tx, [], t);
    var a1 := [Tx] + [];
    StepBefore(t2, Tx, a1, t);
    var a2 := [Tx] + a1;
    StepBefore(t1, Tx, a2, t);
    StepBefore(s, Deactivate, [Tx] + a2, t);
    acts := [Deactivate] + ([Tx] + a2);
  }

  /** Such a loss: the second byte arrives after the first look at the ring, then the app disconnects. */
  lemma BytesStayBehind(ch: byte, a: byte, b: byte)
    ensures exists t :: Reachable(t) && t.ch == ch && t.pc.Done? && t.ring == [b]
  {
    hide Run;
    var s := Start(ch);
    var s0 := s.(ring := s.ring + [a], accepted := s.accepted + [a], offered := s.offered + [a], writing := false);
    var s1 := Do(s0, Tx);
    assert s0.ring == [a] && s1.pc == PrefillRead(1);
    var s2 := s1.(ring := s1.ring + [b], accepted := s1.accepted + [b], offered := s1.offered + [b], writing := false);
    assert s2.ring == [a, b] && s2.ring[1..] == [b];
    var acts, t := OneReadLeft(s2);
    Pushed(s1, [b], acts, t);
    acts := [AppTake([b])] + ([AppCheck] + ([AppPush] + acts));
    StepBefore(s0, Tx, acts, t);
    Pushed(s, [a], [Tx] + acts, t);
    assert Reachable(t);
  }

  /** The close frame can go out ahead of bytes accepted before it, which then follow it. */
  lemma CloseOvertakes(ch: byte, a: byte)
    ensures exists t ::
      Reachable(t) && t.wire == [F.Frame(ch, F.FLAG_CLOSE, []), F.Frame(ch, F.FLAG_DATA, [a])] && t.accepted == [a]
  {
    hide Run;
    var s := Start(ch);
    var s0 := s.(ring := s.ring + [a], accepted := s.accepted + [a], offered := s.offered + [a], writing := false);
    var s1 := Do(s0, Tx);
    var s2 := Do(s1, Tx);
    assert s0.ring == [a] && s1.pc == PrefillRead(1) && [a][..1] == [a];
    assert s2.cur == [a] && s2.pc == LoopHead && s2.wire == [];
    var acts, t := LastFlush(s2);
    var a1 := [Tx] + acts;
    StepBefore(s1, Tx, acts, t);
    StepBefore(s0, Tx, a1, t);
    Pushed(s, [a], [Tx] + a1, t);
    assert Reachable(t);
  }

  /** The app goes away while a buffer is filled: its close frame first, the buffer after it. */
  lemma LastFlush(s: State) returns (acts: seq<Action>, t: State)
    requires s.pc.LoopHead? && s.cur != [] && !s.closed && s.wire == []
    ensures Run(s, acts, t) && t.ch == s.ch && t.accepted == s.accepted
    ensures t.wire == [F.Frame(s.ch, F.FLAG_CLOSE, []), F.Frame(s.ch, F.FLAG_DATA, s.cur)]
  {
    hide Run;
    var t1 := Do(s, Deactivate);
    var t2 := Do(t1, AppClose);
    var t3 := Do(t2, Tx);
    t := Do(t3, Tx);
    Steps(t, [], t);
    StepBefore(t3, Tx, [], t);
    var a1 := [Tx] + [];
    StepBefore(t2, Tx, a1, t);
    var a2 := [Tx] + a1;
    StepBefore(t1, AppClose, a2, t);
    StepBefore(s, Deactivate, [AppClose] + a2, t);
    acts := [Deactivate] + ([AppClose] + a2);
  }

  lemma Steps(s: State, acts: seq<Action>, t: State)
    requires acts == [] && s == t
    ensures Run(s, acts, t)
  {
  }

  lemma StepBefore(s: State, a: Action, acts: seq<Action>, t: State)
    requires Enabled(s, a) && Run(Do(s, a), acts, t)
    ensures Run(s, [a] + acts, t)
  {
    assert ([a] + acts)[1..] == acts;
  }
}
