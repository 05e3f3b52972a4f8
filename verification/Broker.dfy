/** The broker: one device stream out to many clients, many clients' frames in to the device. */
module Broker {
  import opened Bytes
  import F = Framing

  const SEND_CAP: nat := 65536
  const RECLAIM: nat := 1024 * 1024
  const DEFAULT_LIMIT: nat := 8 * 1024 * 1024

  // ----- one client's queue -----

  /** `sent` is what its socket took, `since` how many broadcasts came before it joined. */
  datatype Client = Client(parser: F.FrameParser, out: seq<byte>, outPos: nat, sent: seq<byte>, since: nat)

  /** A client as seen from outside: how its queue is laid out does not matter. */
  datatype View = View(parser: F.FrameParser, since: nat, sent: seq<byte>, pending: seq<byte>)

  predicate Sound(c: Client) {
    c.outPos <= |c.out|
  }

  function Pending(c: Client): seq<byte>
    requires Sound(c)
  {
    c.out[c.outPos..]
  }

  function Seen(c: Client): View
    requires Sound(c)
  {
    View(c.parser, c.since, c.sent, Pending(c))
  }

  /** A client that has just joined: owed nothing of the broadcasts before. */
  function Newcomer(p: F.FrameParser, since: nat): View {
    View(p, since, [], [])
  }

  predicate AllSound(cs: seq<Client>) {
    forall i :: 0 <= i < |cs| ==> Sound(cs[i])
  }

  function Views(cs: seq<Client>): (vs: seq<View>)
    requires AllSound(cs)
    ensures |vs| == |cs|
  {
    seq(|cs|, k requires 0 <= k < |cs| && AllSound(cs) => Seen(cs[k]))
  }

  /** What one call of send comes to: so many bytes taken at most, no room, or a dead socket. */
  datatype Send = Takes(n: nat) | Full | Broken

  datatype Pushing = Pushing(alive: bool, sent: seq<byte>, pending: seq<byte>)

  function Least(a: nat, b: nat): nat {
    if a < b then a else b
  }

  /** Sending what is pending through a socket that answers as listed, and has no room after that. */
  function Pushed(sent: seq<byte>, pending: seq<byte>, socket: seq<Send>): (r: Pushing)
    ensures r.sent + r.pending == sent + pending && sent <= r.sent && |r.pending| <= |pending|
    ensures r.alive && r.pending != [] ==> Full in socket || |r.sent| - |sent| >= |socket|
    decreases |socket|
  {
    if pending == [] || socket == [] || socket[0].Full? then Pushing(true, sent, pending)
    else if socket[0].Broken? || socket[0].n == 0 then Pushing(false, sent, pending)
    else
      var k := Least(socket[0].n, Least(SEND_CAP, |pending|));
      assert pending == pending[..k] + pending[k..];
      assert sent + pending[..k] + pending[k..] == sent + pending;
      Pushed(sent + pending[..k], pending[k..], socket[1..])
  }

  /** What the client was sent and still is to be sent is every broadcast since it joined. */
  predicate Owed(v: View, history: seq<seq<byte>>) {
    v.since <= |history| && v.sent + v.pending == Concat(history[v.since..])
  }

  predicate Within(c: Client, limit: nat) {
    |c.out| - c.outPos <= limit && c.outPos <= RECLAIM
  }

  lemma PushedStep(sent: seq<byte>, out: seq<byte>, at: nat, socket: seq<Send>, k: nat)
    requires at < |out| && k < |socket| && socket[k].Takes? && socket[k].n > 0
    ensures var n := Least(socket[k].n, Least(SEND_CAP, |out| - at));
            Pushed(sent, out[at..], socket[k..]) == Pushed(sent + out[at..at + n], out[at + n..], socket[k + 1..])
  {
    var n := Least(socket[k].n, Least(SEND_CAP, |out| - at));
    assert out[at..][..n] == out[at..at + n] && out[at..][n..] == out[at + n..];
    assert socket[k..][0] == socket[k] && socket[k..][1..] == socket[k + 1..];
  }

  lemma PushedStops(sent: seq<byte>, out: seq<byte>, at: nat, socket: seq<Send>, k: nat)
    requires at <= |out| && k <= |socket|
    ensures at == |out| || k == |socket| || socket[k].Full? ==>
            Pushed(sent, out[at..], socket[k..]) == Pushing(true, sent, out[at..])
    ensures at < |out| && k < |socket| && (socket[k].Broken? || (socket[k].Takes? && socket[k].n == 0)) ==>
              Pushed(sent, out[at..], socket[k..]) == Pushing(false, sent, out[at..])
  {
  }

  /** Send until the socket has no room, which may be at any byte; `false` on a dead socket. */
  method Flush(c: Client, socket: seq<Send>) returns (alive: bool, r: Client)
    requires Sound(c)
    ensures Sound(r) && r.parser == c.parser && r.since == c.since
    ensures Pushing(alive, r.sent, Pending(r)) == Pushed(c.sent, Pending(c), socket)
    ensures alive ==> r.outPos <= RECLAIM
  {
    hide Pushed;
    var sent, outPos := c.sent, c.outPos;
    alive := true;
    var k := 0;
    assert socket[0..] == socket;
    while outPos < |c.out|
      invariant c.outPos <= outPos <= |c.out| && k <= |socket|
      invariant Pushed(sent, c.out[outPos..], socket[k..]) == Pushed(c.sent, c.out[c.outPos..], socket)
      decreases |socket| - k
    {
      PushedStops(sent, c.out, outPos, socket, k);
      if k == |socket| || socket[k].Full? {
        break;
      }
      if socket[k].Broken? || socket[k].n == 0 {
        return false, c.(outPos := outPos, sent := sent);
      }
      PushedStep(sent, c.out, outPos, socket, k);
      var n := Least(socket[k].n, Least(SEND_CAP, |c.out| - outPos));
      sent, outPos, k := sent + c.out[outPos..outPos + n], outPos + n, k + 1;
    }
    PushedStops(sent, c.out, outPos, socket, k);
    if outPos == |c.out| {
      r := c.(out := [], outPos := 0, sent := sent);
    } else if outPos > RECLAIM {
      r := c.(out := c.out[outPos..], outPos := 0, sent := sent);
    } else {
      r := c.(outPos := outPos, sent := sent);
    }
  }

  predicate Good(c: Client, history: seq<seq<byte>>, cap: nat) {
    Sound(c) && Owed(Seen(c), history) && Within(c, cap)
  }

  predicate AllGood(cs: seq<Client>, history: seq<seq<byte>>, cap: nat) {
    forall i :: 0 <= i < |cs| ==> Good(cs[i], history, cap)
  }

  lemma GoodWithMore(cs: seq<Client>, history: seq<seq<byte>>, limit: nat, ceiling: nat)
    requires AllGood(cs, history, limit) && limit <= ceiling
    ensures AllGood(cs, history, ceiling)
  {
  }

  predicate Overfull(v: View, len: nat, limit: nat) {
    |v.pending| + len > limit
  }

  /** A frame queued behind what is pending, and sent as far as the socket goes. */
  function Offered(v: View, frame: seq<byte>, socket: seq<Send>): Pushing {
    Pushed(v.sent, v.pending + frame, socket)
  }

  function First<T>(s: seq<seq<T>>): seq<T> {
    if s == [] then [] else s[0]
  }

  function Rest<T>(s: seq<T>): seq<T> {
    if s == [] then [] else s[1..]
  }

  /** One frame to every client, each through its own socket: who is left, and with what. */
  function Cast(vs: seq<View>, frame: seq<byte>, limit: nat, sockets: seq<seq<Send>>): seq<View>
    decreases |vs|
  {
    if vs == [] then []
    else
      var rest := Cast(vs[1..], frame, limit, Rest(sockets));
      var p := Offered(vs[0], frame, First(sockets));
      if Overfull(vs[0], |frame|, limit) || !p.alive then rest
      else [vs[0].(sent := p.sent, pending := p.pending)] + rest
  }

  // ----- what one turn comes to -----

  /** What a socket takes before it stops taking. */
  function Room(socket: seq<Send>): nat {
    if socket == [] || !socket[0].Takes? || socket[0].n == 0 then 0
    else Least(socket[0].n, SEND_CAP) + Room(socket[1..])
  }

  /** It stops because it is dead: broken, or taking nothing. */
  predicate Dies(socket: seq<Send>) {
    socket != [] && !socket[0].Full? && (socket[0].Takes? && socket[0].n > 0 ==> Dies(socket[1..]))
  }

  lemma SentInTwo(sent: seq<byte>, pending: seq<byte>, n: nat, m: nat)
    requires n + m <= |pending|
    ensures sent + pending[..n] + pending[n..][..m] == sent + pending[..n + m]
    ensures pending[n..][m..] == pending[n + m..]
  {
    assert pending[..n] + pending[n..][..m] == pending[..n + m];
  }

  /** As much as the socket has room for goes, and the client lives unless there was more and the socket is dead. */
  lemma {:induction false} PushedExactly(sent: seq<byte>, pending: seq<byte>, socket: seq<Send>)
    ensures var k := Least(|pending|, Room(socket));
            Pushed(sent, pending, socket) ==
            Pushing(|pending| <= Room(socket) || !Dies(socket), sent + pending[..k], pending[k..])
    decreases |socket|
  {
    var k := Least(|pending|, Room(socket));
    if pending == [] || socket == [] || !socket[0].Takes? || socket[0].n == 0 {
      assert pending[..0] == [] && pending[0..] == pending;
      Units(sent);
    } else {
      var n := Least(socket[0].n, Least(SEND_CAP, |pending|));
      PushedExactly(sent + pending[..n], pending[n..], socket[1..]);
      SentInTwo(sent, pending, n, Least(|pending[n..]|, Room(socket[1..])));
    }
  }

  /** The client as it stands when `queue` was to go out through a socket. */
  function SentOn(v: View, queue: seq<byte>, socket: seq<Send>): View {
    var k := Least(|queue|, Room(socket));
    v.(sent := v.sent + queue[..k], pending := queue[k..])
  }

  /**
   * A broadcast, client by client: one stays if the frame fits its limit with what is pending, and its socket takes
   * both or is not dead; it has then been sent as much of both as the socket has room for.
   */
  lemma CastOne(v: View, frame: seq<byte>, limit: nat, socket: seq<Send>)
    ensures Cast([v], frame, limit, [socket]) ==
            if |v.pending| + |frame| <= limit && (|v.pending| + |frame| <= Room(socket) || !Dies(socket))
            then [SentOn(v, v.pending + frame, socket)] else []
  {
    PushedExactly(v.sent, v.pending + frame, socket);
    assert [v][1..] == [];
  }

  lemma {:induction false} CastSplits(a: seq<View>, b: seq<View>, frame: seq<byte>, limit: nat, sockets: seq<seq<Send>>)
    requires |a| <= |sockets|
    ensures Cast(a + b, frame, limit, sockets) ==
            Cast(a, frame, limit, sockets[..|a|]) + Cast(b, frame, limit, sockets[|a|..])
    decreases |a|
  {
    hide Offered;
    if a == [] {
      assert a + b == b && sockets[0..] == sockets;
      Units(Cast(b, frame, limit, sockets));
    } else {
      CastSplits(a[1..], b, frame, limit, sockets[1..]);
      assert (a + b)[1..] == a[1..] + b && (a + b)[0] == a[0];
      assert sockets[..|a|][1..] == sockets[1..][..|a| - 1] && sockets[1..][|a| - 1..] == sockets[|a|..];
      assert sockets[..|a|][0] == sockets[0];
      var p := Offered(a[0], frame, sockets[0]);
      Assoc([a[0].(sent := p.sent, pending := p.pending)], Cast(a[1..], frame, limit, sockets[1..][..|a| - 1]),
            Cast(b, frame, limit, sockets[|a|..]));
    }
  }

  /** The sockets still to come, from the `k`-th on. */
  lemma SocketAt(sockets: seq<seq<Send>>, k: nat)
    ensures var todo := if k <= |sockets| then sockets[k..] else [];
            && First(todo) == (if k < |sockets| then sockets[k] else [])
            && Rest(todo) == if k + 1 <= |sockets| then sockets[k + 1..] else []
  {
  }

  /** How many clients have no room for `len` more bytes. */
  function Overflowing(vs: seq<View>, len: nat, limit: nat): nat {
    if vs == [] then 0 else (if Overfull(vs[0], len, limit) then 1 else 0) + Overflowing(vs[1..], len, limit)
  }

  /** Queueing a frame keeps a client's account, with one broadcast more. */
  lemma OfferedKeeps(v: View, frame: seq<byte>, socket: seq<Send>, history: seq<seq<byte>>)
    requires Owed(v, history)
    ensures var p := Offered(v, frame, socket); Owed(v.(sent := p.sent, pending := p.pending), history + [frame])
  {
    assert (history + [frame])[v.since..] == history[v.since..] + [frame];
    ConcatSnoc(history[v.since..], frame);
    Assoc(v.sent, v.pending, frame);
  }

  method Offer(c: Client, frame: seq<byte>, socket: seq<Send>) returns (alive: bool, r: Client)
    requires Sound(c)
    ensures Sound(r) && r.parser == c.parser && r.since == c.since
    ensures Pushing(alive, r.sent, Pending(r)) == Offered(Seen(c), frame, socket)
    ensures alive ==> r.outPos <= RECLAIM
  {
    assert (c.out + frame)[c.outPos..] == c.out[c.outPos..] + frame;
    alive, r := Flush(c.(out := c.out + frame), socket);
  }

  /** So many newcomers, none owed anything. */
  ghost predicate AllArrived(arrived: seq<View>, n: nat, since: nat) {
    |arrived| == n && forall v <- arrived :: v == Newcomer(v.parser, since)
  }

  lemma ViewsSnoc(cs: seq<Client>, c: Client)
    requires AllSound(cs) && Sound(c)
    ensures AllSound(cs + [c]) && Views(cs + [c]) == Views(cs) + [Seen(c)]
  {
    hide Seen;
  }

  lemma SoundAt(cs: seq<Client>, k: nat)
    requires AllSound(cs) && k < |cs|
    ensures Sound(cs[k])
  {
  }

  lemma NoViews()
    ensures AllSound([]) && Views([]) == []
    ensures forall history, cap :: AllGood([], history, cap)
  {
  }

  lemma ViewsFirst(cs: seq<Client>)
    requires AllSound(cs) && cs != []
    ensures Sound(cs[0]) && AllSound(cs[1..]) && Views(cs)[0] == Seen(cs[0]) && Views(cs)[1..] == Views(cs[1..])
  {
    hide Seen;
  }

  /** One client's part in a broadcast. */
  lemma CastStep(done: seq<View>, rest: seq<View>, frame: seq<byte>, limit: nat, sockets: seq<seq<Send>>)
    requires rest != []
    ensures var p := Offered(rest[0], frame, First(sockets));
            done + Cast(rest, frame, limit, sockets) ==
            (if Overfull(rest[0], |frame|, limit) || !p.alive then done
             else done + [rest[0].(sent := p.sent, pending := p.pending)])
            + Cast(rest[1..], frame, limit, Rest(sockets))
    ensures Overflowing(rest, |frame|, limit) ==
            (if Overfull(rest[0], |frame|, limit) then 1 else 0) + Overflowing(rest[1..], |frame|, limit)
  {
    hide Pushed;
    var p := Offered(rest[0], frame, First(sockets));
    Assoc(done, [rest[0].(sent := p.sent, pending := p.pending)], Cast(rest[1..], frame, limit, Rest(sockets)));
  }

  lemma CastNobody(frame: seq<byte>, limit: nat, sockets: seq<seq<Send>>)
    ensures Cast([], frame, limit, sockets) == [] && Overflowing([], |frame|, limit) == 0
  {
  }

  /** A client that got a frame, and had room for it, is in order. */
  lemma StaysGood(c: Client, r: Client, frame: seq<byte>, socket: seq<Send>, history: seq<seq<byte>>, cap: nat,
                  limit: nat)
    requires Good(c, history, cap) && Sound(r) && r.parser == c.parser && r.since == c.since && r.outPos <= RECLAIM
    requires Pushing(true, r.sent, Pending(r)) == Offered(Seen(c), frame, socket) && !Overfull(Seen(c), |frame|, limit)
    ensures Good(r, history + [frame], limit)
    ensures Seen(r) == Seen(c).(sent := r.sent, pending := Pending(r))
  {
    OfferedKeeps(Seen(c), frame, socket, history);
  }

  lemma NewcomerGood(p: F.FrameParser, history: seq<seq<byte>>, cap: nat)
    ensures Good(Client(p, [], 0, [], |history|), history, cap)
  {
    assert history[|history|..] == [];
  }

  lemma GoodFirst(cs: seq<Client>, history: seq<seq<byte>>, cap: nat)
    requires AllGood(cs, history, cap) && cs != []
    ensures Good(cs[0], history, cap) && AllGood(cs[1..], history, cap)
  {
  }

  lemma GoodSnoc(cs: seq<Client>, c: Client, history: seq<seq<byte>>, cap: nat)
    requires AllGood(cs, history, cap) && Good(c, history, cap)
    ensures AllGood(cs + [c], history, cap)
  {
  }

  lemma GoodIsSound(cs: seq<Client>, history: seq<seq<byte>>, cap: nat)
    requires AllGood(cs, history, cap)
    ensures AllSound(cs)
  {
  }

  /** No two clients share a parser. */
  predicate Apart(cs: seq<Client>) {
    forall i, j :: 0 <= i < j < |cs| ==> cs[i].parser != cs[j].parser
  }

  /** A list updated, or cut, at the place where its first part ends. */
  lemma AtTheSeam<T>(front: seq<T>, back: seq<T>, x: T)
    requires back != []
    ensures (front + back)[|front| := x] == front + [x] + back[1..]
    ensures (front + back)[..|front|] + (front + back)[|front| + 1..] == front + back[1..]
  {
  }

  /** Every client listed has a parser of its own, from among those known. */
  predicate Roster(cs: seq<Client>, everyone: set<F.FrameParser>) {
    Apart(cs) && forall i :: 0 <= i < |cs| ==> cs[i].parser in everyone
  }

  lemma RosterSnoc(cs: seq<Client>, c: Client, everyone: set<F.FrameParser>)
    requires Roster(cs, everyone) && c.parser !in everyone
    ensures Roster(cs + [c], everyone + {c.parser})
  {
  }

  lemma RosterWithout(cs: seq<Client>, i: nat, everyone: set<F.FrameParser>)
    requires i < |cs| && Roster(cs, everyone)
    ensures Roster(cs[..i] + cs[i + 1..], everyone)
  {
  }

  lemma RosterUpdated(cs: seq<Client>, i: nat, c: Client, everyone: set<F.FrameParser>)
    requires i < |cs| && Roster(cs, everyone) && c.parser == cs[i].parser
    ensures Roster(cs[i := c], everyone)
  {
  }

  lemma RosterIn(cs: seq<Client>, i: nat, everyone: set<F.FrameParser>)
    requires i < |cs| && Roster(cs, everyone)
    ensures cs[i].parser in everyone
  {
  }

  lemma RosterAt(cs: seq<Client>, i: nat, j: nat, everyone: set<F.FrameParser>)
    requires i < |cs| && j < |cs| && i != j && Roster(cs, everyone)
    ensures cs[i].parser != cs[j].parser && cs[i].parser in everyone
  {
  }

  // ----- frames in, by client -----

  /** The frames that came through one client's parser, in order. */
  ghost function From(frames: seq<F.Frame>, source: seq<F.FrameParser>, p: F.FrameParser): seq<F.Frame>
    requires |frames| == |source|
  {
    if frames == [] then []
    else
      var n := |frames| - 1;
      From(frames[..n], source[..n], p) + if source[n] == p then [frames[n]] else []
  }

  lemma FromSnoc(frames: seq<F.Frame>, source: seq<F.FrameParser>, f: F.Frame, from: F.FrameParser, p: F.FrameParser)
    requires |frames| == |source|
    ensures From(frames + [f], source + [from], p) == From(frames, source, p) + if from == p then [f] else []
  {
    assert (frames + [f])[..|frames|] == frames && (source + [from])[..|source|] == source;
  }

  lemma {:induction false} FromNobody(frames: seq<F.Frame>, source: seq<F.FrameParser>, p: F.FrameParser)
    requires |frames| == |source| && p !in source
    ensures From(frames, source, p) == []
  {
    if frames != [] {
      FromNobody(frames[..|frames| - 1], source[..|frames| - 1], p);
    }
  }

  datatype Recv = Data(bytes: seq<byte>) | WouldBlock | Gone

  /** What select reports for one client, and what its socket then does. */
  datatype Ready = Ready(writable: bool, socket: seq<Send>, readable: bool, recvs: seq<Recv>)

  const IDLE: Ready := Ready(false, [], false, [])

  /** The bytes that come before the socket has no more, and whether it is still open then. */
  function Received(recvs: seq<Recv>): (seq<byte>, bool) {
    if recvs == [] || recvs[0].WouldBlock? then ([], true)
    else if recvs[0].Gone? then ([], false)
    else var r := Received(recvs[1..]); (recvs[0].bytes + r.0, r.1)
  }

  lemma ReceivedAt(recvs: seq<Recv>, k: nat)
    requires k < |recvs|
    ensures Received(recvs[k..]) ==
            match recvs[k]
            case Data(bytes) => (bytes + Received(recvs[k + 1..]).0, Received(recvs[k + 1..]).1)
            case WouldBlock => ([], true)
            case Gone => ([], false)
  {
    assert recvs[k..][0] == recvs[k] && recvs[k..][1..] == recvs[k + 1..];
  }

  lemma ReceivedAll(recvs: seq<Recv>)
    ensures Received(recvs[|recvs|..]) == ([], true)
  {
  }

  function Sending(v: View, ready: Ready): Pushing {
    if ready.writable then Pushed(v.sent, v.pending, ready.socket) else Pushing(true, v.sent, v.pending)
  }

  /** Bytes a client's turn reads: none if its socket died while sending. */
  function Heard(v: View, ready: Ready): seq<byte> {
    if Sending(v, ready).alive && ready.readable then Received(ready.recvs).0 else []
  }

  predicate Survives(v: View, ready: Ready) {
    Sending(v, ready).alive && (ready.readable ==> Received(ready.recvs).1)
  }

  function Served(v: View, ready: Ready): View {
    v.(sent := Sending(v, ready).sent, pending := Sending(v, ready).pending)
  }

  function ReadyAt(script: seq<Ready>, k: nat): Ready {
    if k < |script| then script[k] else IDLE
  }

  /** Every client's turn in a poll, from the `k`-th entry of the script on. */
  function ServedAll(vs: seq<View>, script: seq<Ready>, k: nat): seq<View>
    decreases |vs|
  {
    if vs == [] then []
    else (if Survives(vs[0], ReadyAt(script, k)) then [Served(vs[0], ReadyAt(script, k))] else []) +
         ServedAll(vs[1..], script, k + 1)
  }

  /** Chunks that arrive are heard whole and in order, up to the first answer that brings none. */
  lemma {:induction false} ReceivedExactly(chunks: seq<seq<byte>>, rest: seq<Recv>)
    requires rest == [] || !rest[0].Data?
    ensures Received(seq(|chunks|, k requires 0 <= k < |chunks| => Data(chunks[k])) + rest) ==
            (Concat(chunks), rest == [] || rest[0].WouldBlock?)
    decreases |chunks|
  {
    var all := seq(|chunks|, k requires 0 <= k < |chunks| => Data(chunks[k])) + rest;
    if chunks == [] {
      assert all == rest;
    } else {
      var n := |chunks| - 1;
      assert all[1..] == seq(n, k requires 0 <= k < n => Data(chunks[1..][k])) + rest;
      ReceivedExactly(chunks[1..], rest);
      assert chunks == [chunks[0]] + chunks[1..];
      ConcatAppend([chunks[0]], chunks[1..]);
      assert Concat([chunks[0]]) == chunks[0];
    }
  }

  /**
   * A poll, client by client: one that select found writable is sent what its socket has room for, one it found
   * readable is read; it stays unless the socket died with bytes still pending, or was closed by the far end.
   */
  lemma ServedOne(v: View, ready: Ready)
    ensures var lives := ready.writable ==> |v.pending| <= Room(ready.socket) || !Dies(ready.socket);
            && ServedAll([v], [ready], 0) ==
               (if lives && (ready.readable ==> Received(ready.recvs).1)
                then [if ready.writable then SentOn(v, v.pending, ready.socket) else v] else [])
            && Heard(v, ready) == if lives && ready.readable then Received(ready.recvs).0 else []
  {
    PushedExactly(v.sent, v.pending, ready.socket);
    assert [v][1..] == [];
  }

  lemma {:induction false} ServedAllSplits(a: seq<View>, b: seq<View>, script: seq<Ready>, k: nat)
    ensures ServedAll(a + b, script, k) == ServedAll(a, script, k) + ServedAll(b, script, k + |a|)
    decreases |a|
  {
    hide Survives;
    hide Served;
    if a == [] {
      assert a + b == b;
      Units(ServedAll(b, script, k));
    } else {
      ServedAllSplits(a[1..], b, script, k + 1);
      assert (a + b)[1..] == a[1..] + b && (a + b)[0] == a[0];
      var one := if Survives(a[0], ReadyAt(script, k)) then [Served(a[0], ReadyAt(script, k))] else [];
      Assoc(one, ServedAll(a[1..], script, k + 1), ServedAll(b, script, k + |a|));
    }
  }

  /** The bytes each client's parser has been fed. */
  ghost function Feds(cs: seq<Client>): (f: seq<seq<byte>>)
    reads set c <- cs :: c.parser
    ensures |f| == |cs| && forall j :: 0 <= j < |cs| ==> f[j] == cs[j].parser.fed
  {
    seq(|cs|, j requires 0 <= j < |cs| reads set c <- cs :: c.parser => cs[j].parser.fed)
  }

  /** What each client's turn in a poll adds to that. */
  function Gains(fed: seq<seq<byte>>, vs: seq<View>, script: seq<Ready>): (g: seq<seq<byte>>)
    requires |fed| == |vs|
    ensures |g| == |fed|
  {
    seq(|fed|, j requires 0 <= j < |fed| => fed[j] + Heard(vs[j], ReadyAt(script, j)))
  }

  lemma GainsAt(fed: seq<seq<byte>>, vs: seq<View>, script: seq<Ready>, k: nat)
    requires |fed| == |vs| && k < |fed|
    ensures Gains(fed, vs, script)[k] == fed[k] + Heard(vs[k], ReadyAt(script, k))
    ensures (Gains(fed, vs, script)[..k] + fed[k..])[k] == fed[k]
    ensures (Gains(fed, vs, script)[..k] + fed[k..])[k := Gains(fed, vs, script)[k]] ==
            Gains(fed, vs, script)[..k + 1] + fed[k + 1..]
  {
    hide Heard;
  }

  /** How things stand when `k` clients have had their turn in a poll; `now` is what each has been fed. */
  ghost predicate Midway(start: seq<Client>, kept: seq<Client>, k: nat, vs: seq<View>, fed: seq<seq<byte>>,
                         script: seq<Ready>, now: seq<seq<byte>>)
  {
    && k <= |start| == |vs| == |fed| && AllSound(kept) && AllSound(start) && vs == Views(start)
    && Views(kept) + ServedAll(vs[k..], script, k) == ServedAll(vs, script, 0)
    && now == Gains(fed, vs, script)[..k] + fed[k..]
  }

  lemma MidwayStarts(start: seq<Client>, fed: seq<seq<byte>>, script: seq<Ready>)
    requires AllSound(start) && |fed| == |start|
    ensures Midway(start, [], 0, Views(start), fed, script, fed)
  {
    Units(ServedAll(Views(start), script, 0));
    Units(fed);
    assert Views(start)[0..] == Views(start) && fed[0..] == fed && Gains(fed, Views(start), script)[..0] == [] &&
           Views([]) == [];
  }

  lemma MidwayStep(start: seq<Client>, kept: seq<Client>, k: nat, vs: seq<View>, fed: seq<seq<byte>>,
                   script: seq<Ready>, now: seq<seq<byte>>, next: seq<seq<byte>>, r: Client)
    requires Midway(start, kept, k, vs, fed, script, now) && k < |start|
    requires k < |now| && next == now[k := now[k] + Heard(Seen(start[k]), ReadyAt(script, k))]
    requires Survives(Seen(start[k]), ReadyAt(script, k)) ==>
               Sound(r) && Seen(r) == Served(Seen(start[k]), ReadyAt(script, k))
    ensures Midway(start, if Survives(Seen(start[k]), ReadyAt(script, k)) then kept + [r] else kept, k + 1,
                   vs, fed, script, next)
  {
    hide Seen;
    hide Survives;
    hide Served;
    hide Heard;
    assert vs[k..][1..] == vs[k + 1..] && vs[k..][0] == Seen(start[k]);
    ServedStep(Views(kept), vs[k..], script, k);
    GainsAt(fed, vs, script, k);
    if Survives(Seen(start[k]), ReadyAt(script, k)) {
      ViewsSnoc(kept, r);
    }
  }

  lemma MidwayEnds(start: seq<Client>, kept: seq<Client>, vs: seq<View>, fed: seq<seq<byte>>, script: seq<Ready>,
                   now: seq<seq<byte>>)
    requires Midway(start, kept, |start|, vs, fed, script, now)
    ensures AllSound(kept) && Views(kept) == ServedAll(vs, script, 0) && now == Gains(fed, vs, script)
  {
    Units(Views(kept));
    Units(now);
    assert vs[|vs|..] == [] && fed[|fed|..] == [];
  }

  /** What newcomers' parsers have been fed once they have had their first turn. */
  ghost predicate HeardFirst(arrived: seq<View>, script: seq<Ready>, k: nat)
    reads set v <- arrived :: v.parser
  {
    forall j :: 0 <= j < |arrived| ==> arrived[j].parser.fed == Heard(arrived[j], ReadyAt(script, k + j))
  }

  /** The last clients, from the `k`-th on, are newcomers whose parsers have been fed nothing. */
  ghost predicate Seam(now: seq<Client>, fed: seq<seq<byte>>, vs: seq<View>, k: nat, arrived: seq<View>) {
    && |fed| == |vs| == |now| == k + |arrived|
    && forall j :: 0 <= j < |arrived| ==>
      fed[k + j] == [] && vs[k + j] == arrived[j] && now[k + j].parser == arrived[j].parser
  }

  lemma HeardByNewcomers(now: seq<Client>, fed: seq<seq<byte>>, vs: seq<View>, script: seq<Ready>, k: nat,
                         arrived: seq<View>)
    requires |fed| == |vs| == |now| && Feds(now) == Gains(fed, vs, script) && Seam(now, fed, vs, k, arrived)
    ensures HeardFirst(arrived, script, k)
  {
    hide Heard;
    forall j | 0 <= j < |arrived| ensures arrived[j].parser.fed == Heard(arrived[j], ReadyAt(script, k + j)) {
      GainsAt(fed, vs, script, k + j);
      assert Feds(now)[k + j] == now[k + j].parser.fed;
      Units(Heard(arrived[j], ReadyAt(script, k + j)));
    }
  }

  /** Just after the newcomers were taken in. */
  lemma Settled(before: seq<Client>, feds: seq<seq<byte>>, was: seq<View>, now: seq<Client>, fed: seq<seq<byte>>,
                arrived: seq<View>)
    requires |before| == |feds| == |was| && |now| == |fed| == |was| + |arrived| && fed == Feds(now)
    requires forall j :: 0 <= j < |before| ==> now[j] == before[j] && before[j].parser.fed == feds[j]
    requires forall j :: 0 <= j < |now| ==> now[j].parser == (was + arrived)[j].parser
    requires forall v <- arrived :: v.parser.fed == []
    ensures forall j :: 0 <= j < |before| ==> fed[j] == feds[j] && (was + arrived)[j] == was[j]
    ensures Seam(now, fed, was + arrived, |was|, arrived)
  {
    forall j | 0 <= j < |arrived|
      ensures fed[|was| + j] == [] && (was + arrived)[|was| + j] == arrived[j] &&
              now[|was| + j].parser == arrived[j].parser
    {
      assert arrived[j] in arrived;
    }
  }

  lemma ViewsKnow(cs: seq<Client>, vs: seq<View>)
    requires AllSound(cs) && Views(cs) == vs
    ensures |vs| == |cs| && forall j :: 0 <= j < |cs| ==> vs[j].parser == cs[j].parser
  {
    assert forall j :: 0 <= j < |cs| ==> Views(cs)[j] == Seen(cs[j]);
  }

  lemma ServedStep(done: seq<View>, rest: seq<View>, script: seq<Ready>, k: nat)
    requires rest != []
    ensures done + ServedAll(rest, script, k) ==
            (if Survives(rest[0], ReadyAt(script, k)) then done + [Served(rest[0], ReadyAt(script, k))] else done)
            + ServedAll(rest[1..], script, k + 1)
  {
    hide Survives;
    hide Served;
    Units(done);
    Units(ServedAll(rest[1..], script, k + 1));
    Assoc(done, [Served(rest[0], ReadyAt(script, k))], ServedAll(rest[1..], script, k + 1));
  }

  /** What came from `p` is what it parsed. */
  ghost predicate Followed(frames: seq<F.Frame>, source: seq<F.FrameParser>, p: F.FrameParser)
    requires |frames| == |source|
    reads p
  {
    p.Valid() && From(frames, source, p) == p.emitted
  }

  class Hub {
    var clients: seq<Client>
    var limit: nat
    var relayed: nat
    var injected: nat
    var dropped: nat
    /** What the device has been sent. */
    var device: seq<byte>
    ghost var history: seq<seq<byte>>
    /** The largest queue limit so far. */
    ghost var ceiling: nat
    ghost var frames: seq<F.Frame>
    ghost var source: seq<F.FrameParser>
    /** The parser of every client that ever joined. */
    ghost var everyone: set<F.FrameParser>

    ghost predicate Outbound()
      reads this
    {
      AllGood(clients, history, ceiling) && limit <= ceiling && relayed == |history|
    }

    ghost predicate Inbound()
      reads this, everyone
    {
      && |frames| == |source| == injected && device == F.Wire(frames)
      && (forall p <- everyone :: Followed(frames, source, p))
      && (forall p <- source :: p in everyone)
      && Roster(clients, everyone)
    }

    ghost predicate Valid()
      reads this, everyone
    {
      Outbound() && Inbound()
    }

    constructor ()
      ensures Valid() && clients == [] && history == [] && device == [] && everyone == {}
    {
      clients, limit, relayed, injected, dropped := [], DEFAULT_LIMIT, 0, 0, 0;
      device, history, ceiling, frames, source, everyone := [], [], DEFAULT_LIMIT, [], [], {};
    }

    method SetClientQueueLimit(bytes: nat)
      requires Valid()
      modifies `limit, `ceiling
      ensures Valid() && limit == if bytes > 0 then bytes else old(limit)
    {
      if bytes > 0 {
        limit := bytes;
        if bytes > ceiling {
          ceiling := bytes;
        }
      }
    }

    method Accept() returns (ghost c: Client)
      requires Valid()
      modifies `clients, `everyone
      ensures Valid() && clients == old(clients) + [c] && everyone == old(everyone) + {c.parser}
      ensures Sound(c) && Seen(c) == Newcomer(c.parser, |history|)
      ensures fresh(c.parser) && c.parser.fed == []
    {
      var p := NewParser();
      NewcomerGood(p, history, ceiling);
      c := Client(p, [], 0, [], relayed);
      assert Sound(c) && Seen(c) == Newcomer(p, |history|);
      GoodSnoc(clients, c, history, ceiling);
      RosterSnoc(clients, c, everyone);
      hide AllGood;
      hide Roster;
      hide Followed;
      hide F.Wire;
      hide Sound;
      hide Seen;
      hide Newcomer;
      clients := clients + [Client(p, [], 0, [], relayed)];
      everyone := everyone + {p};
    }

    /** A parser nothing has come from yet. */
    method NewParser() returns (p: F.FrameParser)
      requires Valid()
      ensures fresh(p) && p.fed == [] && Followed(frames, source, p)
    {
      p := new F.FrameParser();
      FromNobody(frames, source, p);
      hide From;
    }

    /** One frame to every client; a client too far behind is dropped instead. */
    method Broadcast(frame: seq<byte>, sockets: seq<seq<Send>>)
      requires Valid() && frame != []
      modifies `clients, `relayed, `dropped, `history
      ensures Valid() && history == old(history) + [frame] && AllGood(clients, history, limit)
      ensures old(AllSound(clients))
      ensures Views(clients) == Cast(old(Views(clients)), frame, limit, sockets)
      ensures dropped == old(dropped) + Overflowing(old(Views(clients)), |frame|, limit)
    {
      hide AllGood;
      hide Roster;
      hide Followed;
      hide F.Wire;
      hide Cast;
      hide Overflowing;
      BroadcastLoop(frame, sockets);
      history := history + [frame];
      relayed := relayed + 1;
      GoodWithMore(clients, history, limit, ceiling);
    }

    /** One client's part in a broadcast: it stays, sent or queued for, or leaves the list. */
    method CastTurn(i: nat, frame: seq<byte>, socket: seq<Send>) returns (stays: bool)
      requires i < |clients| && Good(clients[i], history, ceiling) && Roster(clients, everyone)
      modifies `clients, `dropped
      ensures Roster(clients, everyone)
      ensures old(Sound(clients[i]))
      ensures var v := old(Seen(clients[i])); var p := Offered(v, frame, socket);
              && stays == (!Overfull(v, |frame|, limit) && p.alive)
              && dropped == old(dropped) + (if Overfull(v, |frame|, limit) then 1 else 0)
              && if stays then
                   && |clients| == |old(clients)| && clients == old(clients)[i := clients[i]]
                   && Sound(clients[i]) && Good(clients[i], history + [frame], limit)
                   && Seen(clients[i]) == v.(sent := p.sent, pending := p.pending)
                 else clients == old(clients[..i] + clients[i + 1..])
    {
      hide Pushed;
      hide Offered;
      hide Roster;
      var c := clients[i];
      var r := c;
      stays := false;
      if |c.out| - c.outPos + |frame| > limit {
        dropped := dropped + 1;
      } else {
        stays, r := Offer(c, frame, socket);
      }
      if stays {
        StaysGood(c, r, frame, socket, history, ceiling, limit);
        RosterUpdated(clients, i, r, everyone);
        clients := clients[i := r];
      } else {
        RosterWithout(clients, i, everyone);
        clients := clients[..i] + clients[i + 1..];
      }
    }

    method BroadcastLoop(frame: seq<byte>, sockets: seq<seq<Send>>)
      requires AllGood(clients, history, ceiling) && Roster(clients, everyone)
      modifies `clients, `dropped
      ensures old(AllSound(clients))
      ensures AllGood(clients, history + [frame], limit) && Roster(clients, everyone)
      ensures Views(clients) == Cast(old(Views(clients)), frame, limit, sockets)
      ensures dropped == old(dropped) + Overflowing(old(Views(clients)), |frame|, limit)
    {
      GoodIsSound(clients, history, ceiling);
      NoViews();
      hide *;
      ghost var next := history + [frame];
      ghost var kept: seq<Client>, rest, todo := [], clients, sockets;
      var i, k := 0, 0;
      Units(clients);
      Units(Cast(Views(clients), frame, limit, sockets));
      while i < |clients|
        invariant clients == kept + rest && i == |kept| && AllSound(kept) && AllSound(rest)
        invariant AllGood(kept, next, limit) && AllGood(rest, history, ceiling) && Roster(clients, everyone)
        invariant Views(kept) + Cast(Views(rest), frame, limit, todo) ==
                  Cast(old(Views(clients)), frame, limit, sockets)
        invariant dropped + Overflowing(Views(rest), |frame|, limit) ==
                  old(dropped + Overflowing(Views(clients), |frame|, limit))
        invariant todo == if k <= |sockets| then sockets[k..] else []
        decreases |rest|
      {
        SocketAt(sockets, k);
        ViewsFirst(rest);
        GoodFirst(rest, history, ceiling);
        CastStep(Views(kept), Views(rest), frame, limit, todo);
        AtTheSeam(kept, rest, rest[0]);
        var stays := CastTurn(i, frame, if k < |sockets| then sockets[k] else []);
        k := k + 1;
        if stays {
          AtTheSeam(kept, rest, clients[i]);
          ViewsSnoc(kept, clients[i]);
          GoodSnoc(kept, clients[i], next, limit);
          kept := kept + [clients[i]];
          i := i + 1;
        }
        rest, todo := rest[1..], Rest(todo);
      }
      CastNobody(frame, limit, todo);
      assert rest == [];
      Units(kept);
      Units(Views(kept));
    }

    /** The state part of the way through forwarding what `p` just parsed. */
    ghost predicate Forwarding(p: F.FrameParser, done: seq<F.Frame>)
      reads this, everyone
    {
      && |frames| == |source| == injected && device == F.Wire(frames)
      && (forall q <- source :: q in everyone)
      && (forall q <- everyone :: q != p ==> Followed(frames, source, q))
      && From(frames, source, p) == done
    }

    method Forward(p: F.FrameParser, f: F.Frame, ghost done: seq<F.Frame>)
      requires Forwarding(p, done)
      requires p in everyone
      modifies `device, `injected, `frames, `source
      ensures Forwarding(p, done + [f])
    {
      forall q <- everyone
        ensures From(frames + [f], source + [p], q) == From(frames, source, q) + if p == q then [f] else []
      {
        FromSnoc(frames, source, f, p, q);
        Units(From(frames, source, q));
      }
      WireSnoc(frames, f);
      device := device + F.EncodeFrame(f);
      injected := injected + 1;
      frames, source := frames + [f], source + [p];
    }

    /** Bytes from one client: its frames go to the device whole, in order, behind whatever was sent before. */
    method Read(p: F.FrameParser, data: seq<byte>)
      requires Valid() && p in everyone
      modifies p, `device, `injected, `frames, `source
      ensures Valid() && p.fed == old(p.fed) + data
    {
      hide F.FrameParser.Valid;
      hide F.Wire;
      hide F.Scan;
      hide From;
      ghost var before := p.emitted;
      var more := p.Feed(data);
      Units(before);
      for k := 0 to |more|
        invariant Forwarding(p, before + more[..k])
        modifies this`device, this`injected, this`frames, this`source
      {
        Forward(p, more[k], before + more[..k]);
        assert more[..k + 1] == more[..k] + [more[k]];
        Assoc(before, more[..k], [more[k]]);
      }
      assert more[..|more|] == more;
    }

    method DropClient(i: nat)
      requires Valid() && i < |clients|
      modifies `clients
      ensures Valid() && clients == old(clients[..i] + clients[i + 1..])
    {
      RosterWithout(clients, i, everyone);
      hide Roster;
      clients := clients[..i] + clients[i + 1..];
    }

    /** A client's pending bytes to its socket, as far as it takes them. */
    method Drain(i: nat, ready: Ready) returns (alive: bool)
      requires Valid() && i < |clients|
      modifies `clients
      ensures Valid() && |clients| == |old(clients)| && clients == old(clients)[i := clients[i]]
      ensures old(Sound(clients[i])) && alive == Sending(old(Seen(clients[i])), ready).alive
      ensures Seen(clients[i]) == if alive then Served(old(Seen(clients[i])), ready) else old(Seen(clients[i]))
    {
      alive := true;
      if ready.writable {
        var c;
        alive, c := Flush(clients[i], ready.socket);
        if alive {
          RosterUpdated(clients, i, c, everyone);
          clients := clients[i := c];
        }
      }
    }

    /** What a client's socket has for us, chunk by chunk; `false` when it has closed. */
    method Listen(p: F.FrameParser, recvs: seq<Recv>) returns (open: bool)
      requires Valid() && p in everyone
      modifies p, `device, `injected, `frames, `source
      ensures Valid() && p.fed == old(p.fed) + Received(recvs).0 && open == Received(recvs).1
    {
      hide Received;
      open := true;
      ghost var whole := Received(recvs);
      Units(p.fed);
      assert recvs[0..] == recvs;
      for k := 0 to |recvs|
        invariant Valid() && p.fed + Received(recvs[k..]).0 == old(p.fed) + whole.0 && Received(recvs[k..]).1 == whole.1
      {
        ReceivedAt(recvs, k);
        Units(p.fed);
        match recvs[k]
        case Data(bytes) =>
          Assoc(p.fed, bytes, Received(recvs[k + 1..]).0);
          Read(p, bytes);
        case WouldBlock => return;
        case Gone => return false;
      }
      ReceivedAll(recvs);
      Units(p.fed);
    }

    /** One client's turn in a poll; `false` when it is to be dropped. */
    method Serve(i: nat, ready: Ready) returns (alive: bool)
      requires Valid() && i < |clients|
      modifies `clients, `device, `injected, `frames, `source, clients[i].parser
      ensures Valid() && |clients| == |old(clients)| && clients == old(clients)[i := clients[i]]
      ensures old(Sound(clients[i])) && alive == Survives(old(Seen(clients[i])), ready)
      ensures alive ==> Sound(clients[i]) && Seen(clients[i]) == Served(old(Seen(clients[i])), ready)
      ensures clients[i].parser == old(clients[i].parser)
      ensures clients[i].parser.fed == old(clients[i].parser.fed) + Heard(old(Seen(clients[i])), ready)
    {
      var p := clients[i].parser;
      alive := Drain(i, ready);
      Units(p.fed);
      if alive && ready.readable {
        alive := Listen(p, ready.recvs);
      }
    }

    method AcceptAll(newcomers: nat) returns (ghost arrived: seq<View>)
      requires Valid()
      modifies `clients, `everyone
      ensures Valid() && |clients| == |old(clients)| + newcomers && clients[..|old(clients)|] == old(clients)
      ensures old(everyone) <= everyone && fresh(everyone - old(everyone))
      ensures AllArrived(arrived, newcomers, |history|) && AllSound(clients) && AllSound(old(clients))
      ensures Views(clients) == Views(old(clients)) + arrived
      ensures forall v <- arrived :: fresh(v.parser) && v.parser.fed == []
    {
      ValidMeans();
      arrived := [];
      Units(Views(clients));
      for k := 0 to newcomers
        invariant Valid() && |clients| == |old(clients)| + k && clients[..|old(clients)|] == old(clients)
        invariant old(everyone) <= everyone && fresh(everyone - old(everyone))
        invariant AllArrived(arrived, k, |history|) && AllSound(clients)
        invariant Views(clients) == Views(old(clients)) + arrived
        invariant forall v <- arrived :: fresh(v.parser) && v.parser.fed == []
      {
        arrived := AcceptNext(old(clients), arrived);
      }
    }

    /** One newcomer more. */
    method AcceptNext(ghost start: seq<Client>, ghost arrived: seq<View>) returns (ghost more: seq<View>)
      requires Valid() && AllSound(clients) && AllSound(start) && Views(clients) == Views(start) + arrived
      modifies `clients, `everyone
      ensures Valid() && |clients| == |old(clients)| + 1 && clients[..|old(clients)|] == old(clients)
      ensures old(everyone) <= everyone && fresh(everyone - old(everyone))
      ensures AllSound(clients) && Views(clients) == Views(start) + more
      ensures exists v ::
        more == arrived + [v] && v == Newcomer(v.parser, |history|) && fresh(v.parser) && v.parser.fed == []
    {
      ghost var before := clients;
      ghost var c := Accept();
      hide *;
      ViewsSnoc(before, c);
      Assoc(Views(start), arrived, [Seen(c)]);
      more := arrived + [Seen(c)];
    }

    lemma ValidMeans()
      requires Valid()
      ensures Roster(clients, everyone) && AllSound(clients)
    {
    }

    /** The turn of the `k`-th of the clients that were there when the poll began. */
    method ServeTurn(i: nat, ready: Ready, ghost start: seq<Client>, ghost k: nat) returns (alive: bool)
      requires Valid() && i < |clients| && Roster(start, everyone) && k < |start| && clients[i] == start[k] &&
               Sound(start[k])
      modifies `clients, `device, `injected, `frames, `source, everyone
      ensures Valid() && alive == Survives(Seen(start[k]), ready)
      ensures alive ==> |clients| == |old(clients)| && clients == old(clients)[i := clients[i]]
                        && Sound(clients[i]) && Seen(clients[i]) == Served(Seen(start[k]), ready)
      ensures !alive ==> clients == old(clients[..i] + clients[i + 1..])
      ensures Feds(start) == old(Feds(start))[k := old(Feds(start))[k] + Heard(Seen(start[k]), ready)]
    {
      ValidMeans();
      RosterIn(start, k, everyone);
      hide *;
      label turn:
      alive := Serve(i, ready);
      forall j | 0 <= j < |start| && j != k ensures start[j].parser.fed == old(start[j].parser.fed) {
        RosterAt(start, j, k, everyone);
      }
      if !alive {
        DropClient(i);
      }
    }

    /** The same, with what it does to the poll as a whole. */
    method ServeNext(i: nat, k: nat, script: seq<Ready>, ghost start: seq<Client>, ghost kept: seq<Client>,
                     ghost vs: seq<View>, ghost fed: seq<seq<byte>>)
      returns (alive: bool, ghost more: seq<Client>)
      requires Valid() && Roster(start, everyone) && AllSound(start)
      requires k < |start| && i == |kept| && clients == kept + start[k..]
      requires Midway(start, kept, k, vs, fed, script, Feds(start))
      modifies `clients, `device, `injected, `frames, `source, everyone
      ensures Valid() && clients == more + start[k + 1..] && |more| == if alive then i + 1 else i
      ensures Midway(start, more, k + 1, vs, fed, script, Feds(start))
    {
      SoundAt(start, k);
      hide *;
      ghost var now := Feds(start);
      assert clients[i] == start[k] && start[k..][1..] == start[k + 1..];
      alive := ServeTurn(i, ReadyAt(script, k), start, k);
      ghost var r := if alive then clients[i] else start[k];
      MidwayStep(start, kept, k, vs, fed, script, now, Feds(start), r);
      AtTheSeam(kept, start[k..], r);
      more := if alive then kept + [r] else kept;
    }

    method ServeRest(script: seq<Ready>, ghost start: seq<Client>, ghost vs: seq<View>, ghost fed: seq<seq<byte>>)
      requires Valid() && Roster(start, everyone) && AllSound(start) && clients == start
      requires Midway(start, [], 0, vs, fed, script, Feds(start))
      modifies `clients, `device, `injected, `frames, `source, everyone
      ensures Valid() && Midway(start, clients, |start|, vs, fed, script, Feds(start))
    {
      hide *;
      ghost var kept: seq<Client> := [];
      var i, k := 0, 0;
      Units(clients);
      assert start[0..] == start;
      while i < |clients|
        invariant Valid() && Roster(start, everyone) && i == |kept| && k <= |start| && clients == kept + start[k..]
        invariant Midway(start, kept, k, vs, fed, script, Feds(start))
        decreases |start| - k
      {
        var alive;
        alive, kept := ServeNext(i, k, script, start, kept, vs, fed);
        k := k + 1;
        i := if alive then i + 1 else i;
      }
      assert k == |start|;
      Units(kept);
    }

    /** Every client's turn, in order; the gone ones leave the list. */
    method ServeAll(script: seq<Ready>)
      requires Valid()
      modifies `clients, `device, `injected, `frames, `source, everyone
      ensures Valid() && old(AllSound(clients)) && Views(clients) == ServedAll(old(Views(clients)), script, 0)
      ensures Feds(old(clients)) == Gains(old(Feds(clients)), old(Views(clients)), script)
    {
      ValidMeans();
      MidwayStarts(clients, Feds(clients), script);
      ghost var start, vs, fed := clients, Views(clients), Feds(clients);
      hide *;
      ServeRest(script, start, vs, fed);
      MidwayEnds(start, clients, vs, fed, script, Feds(start));
    }

    /** One poll: newcomers first, then every client's turn. Who stays, with what it was sent and is still owed, is
        what the turns make of the clients there were and the newcomers. */
    method Poll(newcomers: nat, script: seq<Ready>) returns (ghost arrived: seq<View>)
      requires Valid()
      modifies `clients, `everyone, `device, `injected, `frames, `source, everyone
      ensures Valid() && old(everyone) <= everyone && old(AllSound(clients))
      ensures AllArrived(arrived, newcomers, |history|) && forall v <- arrived :: fresh(v.parser)
      ensures Views(clients) == ServedAll(old(Views(clients)) + arrived, script, 0)
      ensures forall j :: 0 <= j < |old(clients)| ==>
        old(clients)[j].parser.fed == old(clients[j].parser.fed) + Heard(old(Seen(clients[j])), ReadyAt(script, j))
      ensures HeardFirst(arrived, script, |old(clients)|)
    {
      ValidMeans();
      ghost var before, feds, was := clients, Feds(clients), Views(clients);
      arrived := AcceptAll(newcomers);
      ghost var now, fed, vs := clients, Feds(clients), Views(clients);
      assert forall j :: 0 <= j < |before| ==> now[j] == before[j];
      ViewsKnow(now, was + arrived);
      ViewsKnow(before, was);
      Settled(before, feds, was, now, fed, arrived);
      ServeAll(script);
      hide *;
      forall j | 0 <= j < |before| ensures before[j].parser.fed == feds[j] + Heard(was[j], ReadyAt(script, j)) {
        GainsAt(fed, vs, script, j);
        assert Feds(now)[j] == now[j].parser.fed;
      }
      HeardByNewcomers(now, fed, vs, script, |was|, arrived);
    }

    /** The device sees each client's frames exactly as a scan of that client's bytes gives them. */
    lemma ClientOrder(p: F.FrameParser)
      requires Valid() && p in everyone
      ensures From(frames, source, p) == F.Scan(p.fed).frames
    {
      F.SettledMeans(p.fed, p.emitted, p.m_buf[p.m_pos..], p.m_resyncs);
    }

    /** The device-bound bytes are whole frames end to end: scanning them finds exactly the frames injected. */
    lemma DeviceStreamIsWhole()
      requires Valid()
      ensures F.Scan(device) == F.Scanned(frames, [], true)
    {
      forall k | 0 <= k < |frames| ensures |frames[k].payload| <= F.MAX_FRAME_SIZE {
        InFrom(frames, source, k);
        ClientOrder(source[k]);
        ScannedFits(source[k].fed);
      }
      F.ScanOfWire(frames);
    }
  }

  lemma {:induction false} WireSnoc(frames: seq<F.Frame>, f: F.Frame)
    ensures F.Wire(frames + [f]) == F.Wire(frames) + F.EncodeFrame(f)
  {
    if frames == [] {
      Units(F.EncodeFrame(f));
      assert F.Wire([f]) == F.EncodeFrame(f) + F.Wire([]);
    } else {
      WireSnoc(frames[1..], f);
      assert (frames + [f])[1..] == frames[1..] + [f];
      Assoc(F.EncodeFrame(frames[0]), F.Wire(frames[1..]), F.EncodeFrame(f));
    }
  }

  lemma {:induction false} InFrom(frames: seq<F.Frame>, source: seq<F.FrameParser>, k: nat)
    requires |frames| == |source| && k < |frames|
    ensures frames[k] in From(frames, source, source[k])
  {
    var n := |frames| - 1;
    if k < n {
      InFrom(frames[..n], source[..n], k);
    }
  }

  lemma {:induction false} ScannedFits(s: seq<byte>)
    ensures forall f <- F.Scan(s).frames :: |f.payload| <= F.MAX_FRAME_SIZE
    decreases |s|
  {
    if |s| >= F.HEADER_SIZE {
      if F.BadHeader(s) {
        ScannedFits(s[1..]);
      } else if F.Total(s) <= |s| {
        ScannedFits(s[F.Total(s)..]);
      }
    }
  }
}
