/** Session: MUBD frames routed to per-channel handlers, with reassembly. */
module Session {
  import opened Bytes
  import F = Framing
  import R = Records

  /** A channel without a handler, with a plain one, or with a reassembler in front of it. */
  datatype Mode = Off | Raw | Cutting(m: R.Meter)

  /** What frames have brought to one channel: records finished by earlier closes (or raw payloads),
      the bytes since the last close, and whether every closed stretch held only safe records. */
  datatype Chan = Chan(out: seq<seq<byte>>, cur: seq<byte>, safe: bool)

  const IDLE: Chan := Chan([], [], true)

  ghost function Step(mode: Mode, ch: byte, st: Chan, f: F.Frame): Chan {
    if f.channel != ch then st
    else if f.flags == F.FLAG_CLOSE && mode.Cutting? then
      Chan(st.out + R.CutUp(mode.m, st.cur).records, [], st.safe && R.Safe(mode.m, st.cur))
    else if f.flags == F.FLAG_DATA && f.payload != [] then
      match mode
      case Off => st
      case Raw => st.(out := st.out + [f.payload])
      case Cutting(_) => st.(cur := st.cur + f.payload)
    else st
  }

  ghost function Run(mode: Mode, ch: byte, frames: seq<F.Frame>): Chan {
    if frames == [] then IDLE
    else Step(mode, ch, Run(mode, ch, frames[..|frames| - 1]), frames[|frames| - 1])
  }

  lemma RunSnoc(mode: Mode, ch: byte, frames: seq<F.Frame>, f: F.Frame)
    ensures Run(mode, ch, frames + [f]) == Step(mode, ch, Run(mode, ch, frames), f)
  {
    assert (frames + [f])[..|frames|] == frames;
  }

  ghost predicate Sound(mode: Mode, st: Chan) {
    st.safe && (mode.Cutting? ==> R.Safe(mode.m, st.cur))
  }

  ghost function Delivered(mode: Mode, st: Chan): seq<seq<byte>> {
    if mode.Cutting? then st.out + R.CutUp(mode.m, st.cur).records else st.out
  }

  class Channel {
    const id: byte
    const mode: Mode
    const assembler: R.StreamAssembler?
    var delivered: seq<seq<byte>>        // everything the handler was called with
    ghost var st: Chan
    ghost var base: seq<seq<byte>>       // what was delivered before the last close

    ghost predicate Valid()
      reads this, assembler
    {
      if mode.Cutting? then
        && assembler != null && assembler.Valid() && assembler.m == mode.m
        && assembler.fed == st.cur && delivered == base + assembler.emitted
        && (st.safe ==> base == st.out)
      else assembler == null && delivered == st.out
    }

    ghost function Parts(): set<object>
      reads this
    {
      if assembler == null then {this} else {this, assembler}
    }

    constructor (id: byte, mode: Mode)
      requires mode.Cutting? ==> R.Measures(mode.m)
      ensures Valid() && this.id == id && this.mode == mode && st == IDLE && delivered == []
      ensures assembler != null ==> fresh(assembler)
    {
      this.id, this.mode := id, mode;
      if mode.Cutting? {
        var a := new R.StreamAssembler(mode.m);
        assembler := a;
      } else {
        assembler := null;
      }
      delivered, st, base := [], IDLE, [];
    }

    /** One frame of this channel. */
    method Take(f: F.Frame)
      requires Valid() && f.channel == id
      modifies this, assembler
      ensures Valid() && st == Step(mode, id, old(st), f)
    {
      st := Step(mode, id, st, f);
      if f.flags == F.FLAG_CLOSE {
        if assembler != null {
          ghost var done := assembler.emitted;
          assembler.Reset();
          base := delivered;
          Units(base);
        }
      } else if f.flags == F.FLAG_DATA {
        if mode.Off? || f.payload == [] {
          return;
        }
        if assembler != null {
          ghost var before := assembler.emitted;
          var records := assembler.Feed(f.payload);
          delivered := delivered + records;
          Assoc(base, before, records);
        } else {
          delivered := delivered + [f.payload];
        }
      }
    }

    /** What the handler saw is what the frames say, as long as every record ends safely. */
    lemma DeliveredAsSaid()
      requires Valid() && Sound(mode, st)
      ensures delivered == Delivered(mode, st)
    {
    }
  }

  /** A channel object agrees with the frames seen so far. */
  ghost predicate Follows(c: Channel, frames: seq<F.Frame>)
    reads c, c.assembler
  {
    c.Valid() && c.st == Run(c.mode, c.id, frames)
  }

  /** No two channels share an object. */
  ghost predicate Apart(c: Channel, d: Channel)
    reads c, d
  {
    c.Parts() !! d.Parts()
  }

  method MakeChannels(modes: seq<Mode>) returns (cs: seq<Channel>)
    requires |modes| <= F.MAX_CHANNELS
    requires forall i :: 0 <= i < |modes| && modes[i].Cutting? ==> R.Measures(modes[i].m)
    ensures |cs| == |modes|
    ensures forall i :: 0 <= i < |cs| ==>
      fresh(cs[i].Parts()) && cs[i].id == i && cs[i].mode == modes[i] && Follows(cs[i], [])
    ensures forall i, j :: 0 <= i < j < |cs| ==> Apart(cs[i], cs[j])
    decreases |modes|
  {
    if |modes| == 0 {
      return [];
    }
    var n := |modes| - 1;
    var before := MakeChannels(modes[..n]);
    label made:
    var c := new Channel(n, modes[n]);
    forall i | 0 <= i < |before| ensures Apart(before[i], c) && Follows(before[i], []) {
      assert old@made(Follows(before[i], []));
    }
    cs := before + [c];
  }

  class HostSession {
    const parser: F.FrameParser
    const channels: seq<Channel>
    var m_frames: nat
    var m_bytes: nat

    ghost function ChannelObjects(): set<object> {
      (set c: Channel | c in channels :: c as object) +
      (set c: Channel | c in channels && c.assembler != null :: c.assembler as object)
    }

    /** Every object the session writes to; the set never changes. */
    ghost function Objects(): set<object> {
      {this, parser} + ChannelObjects()
    }

    ghost predicate Shape()
      reads channels
    {
      && |channels| == F.MAX_CHANNELS
      && (forall i :: 0 <= i < |channels| ==> channels[i].id == i)
      && (forall i, j :: 0 <= i < j < |channels| ==> Apart(channels[i], channels[j]))
    }

    ghost predicate AllFollow(frames: seq<F.Frame>)
      reads channels, set c <- channels :: c.assembler
    {
      forall i :: 0 <= i < |channels| ==> Follows(channels[i], frames)
    }

    ghost predicate Valid()
      reads this, parser, channels, set c <- channels :: c.assembler
    {
      && parser.Valid() && Shape() && AllFollow(parser.emitted)
      && m_frames == |parser.emitted| && m_bytes == |parser.fed|
    }

    constructor (modes: seq<Mode>)
      requires |modes| == F.MAX_CHANNELS
      requires forall i :: 0 <= i < |modes| && modes[i].Cutting? ==> R.Measures(modes[i].m)
      ensures Valid() && parser.fed == [] && parser.emitted == []
      ensures forall i :: 0 <= i < |modes| ==> channels[i].mode == modes[i]
      ensures fresh(Objects())
    {
      var cs := MakeChannels(modes);
      channels := cs;
      parser := new F.FrameParser();
      m_frames, m_bytes := 0, 0;
    }

    /** One frame to its channel; a frame for no known channel is dropped. */
    method Dispatch(f: F.Frame, ghost seen: seq<F.Frame>)
      requires Shape() && AllFollow(seen)
      modifies ChannelObjects()
      ensures Shape() && AllFollow(seen + [f])
    {
      forall i | 0 <= i < |channels| ensures
        Run(channels[i].mode, channels[i].id, seen + [f]) ==
        Step(channels[i].mode, channels[i].id, Run(channels[i].mode, channels[i].id, seen), f)
      {
        RunSnoc(channels[i].mode, channels[i].id, seen, f);
      }
      if f.channel >= F.MAX_CHANNELS {
        return;
      }
      ghost var c := channels[f.channel];
      assert c in channels && c as object in ChannelObjects();
      assert c.assembler != null ==> c.assembler as object in ChannelObjects();
      channels[f.channel].Take(f);
    }

    /** One bulk read: its frames, in order, each to its channel. */
    method Pump(data: seq<byte>)
      requires Valid()
      modifies Objects()
      ensures Valid() && parser.fed == old(parser.fed) + data
      ensures parser.emitted == F.Scan(parser.fed).frames
    {
      if data == [] {
        Units(parser.fed);
        F.SettledMeans(parser.fed, parser.emitted, parser.m_buf[parser.m_pos..], parser.m_resyncs);
        return;   // timeout
      }
      m_bytes := m_bytes + |data|;
      ghost var before := parser.emitted;
      var frames := parser.Feed(data);
      assert AllFollow(before) by { FollowUnchanged(before); }
      DispatchAll(frames, before);
    }

    /** The parser's own state is not part of any channel. */
    twostate lemma FollowUnchanged(frames: seq<F.Frame>)
      requires old(AllFollow(frames)) && Shape()
      requires forall c :: c in channels ==> unchanged(c) && (c.assembler != null ==> unchanged(c.assembler))
      ensures AllFollow(frames)
    {
      forall i | 0 <= i < |channels| ensures Follows(channels[i], frames) {
        assert old(Follows(channels[i], frames));
      }
    }

    method DispatchAll(frames: seq<F.Frame>, ghost before: seq<F.Frame>)
      requires Shape() && AllFollow(before)
      modifies this`m_frames, ChannelObjects()
      ensures Shape() && AllFollow(before + frames)
      ensures m_frames == old(m_frames) + |frames|
    {
      hide Shape;
      hide AllFollow;
      Units(before);
      for k := 0 to |frames|
        invariant Shape() && AllFollow(before + frames[..k])
        invariant m_frames == old(m_frames) + k
      {
        m_frames := m_frames + 1;
        Dispatch(frames[k], before + frames[..k]);
        Assoc(before, frames[..k], [frames[k]]);
        assert frames[..k + 1] == frames[..k] + [frames[k]];
      }
      assert frames[..|frames|] == frames;
    }
  }

  // ----- outbound, and what the frames of a channel carry -----

  /** The data bytes of one channel, in frame order. */
  function Payload(ch: byte, frames: seq<F.Frame>): seq<byte> {
    if frames == [] then []
    else
      var f := frames[|frames| - 1];
      Payload(ch, frames[..|frames| - 1]) + if f.channel == ch && f.flags == F.FLAG_DATA then f.payload else []
  }

  predicate NeverCloses(ch: byte, frames: seq<F.Frame>) {
    forall k :: 0 <= k < |frames| ==> frames[k].channel != ch || frames[k].flags != F.FLAG_CLOSE
  }

  lemma {:induction false} RunWithoutClose(m: R.Meter, ch: byte, frames: seq<F.Frame>)
    requires NeverCloses(ch, frames)
    ensures Run(Cutting(m), ch, frames) == Chan([], Payload(ch, frames), true)
  {
    if frames != [] {
      RunWithoutClose(m, ch, frames[..|frames| - 1]);
      Units(Payload(ch, frames[..|frames| - 1]));
    }
  }

  /** The data payloads of one channel that carry anything. */
  predicate Carries(ch: byte, f: F.Frame) {
    f.channel == ch && f.flags == F.FLAG_DATA && f.payload != []
  }

  /** A plain handler gets the channel's data frames one by one, closes or not; without a handler they are lost. */
  lemma {:induction false} RunPlain(ch: byte, frames: seq<F.Frame>)
    ensures Concat(Run(Raw, ch, frames).out) == Payload(ch, frames)
    ensures forall p :: p in Run(Raw, ch, frames).out <==> exists f :: f in frames && Carries(ch, f) && f.payload == p
    ensures Run(Raw, ch, frames).safe && Run(Off, ch, frames) == IDLE
  {
    if frames != [] {
      var n := |frames| - 1;
      RunPlain(ch, frames[..n]);
      assert forall f :: f in frames <==> f in frames[..n] || f == frames[n];
      Units(Payload(ch, frames[..n]));
      if Carries(ch, frames[n]) {
        ConcatSnoc(Run(Raw, ch, frames[..n]).out, frames[n].payload);
      }
    }
  }

  /** From any state on, frames without a close add their bytes to the unfinished record. */
  lemma {:induction false} RunsOn(m: R.Meter, ch: byte, before: seq<F.Frame>, frames: seq<F.Frame>)
    requires NeverCloses(ch, frames)
    ensures var st, after := Run(Cutting(m), ch, before), Run(Cutting(m), ch, before + frames);
            after == st.(cur := st.cur + Payload(ch, frames))
    decreases |frames|
  {
    if frames == [] {
      Units(before);
      Units(Run(Cutting(m), ch, before).cur);
    } else {
      var n := |frames| - 1;
      RunsOn(m, ch, before, frames[..n]);
      Assoc(before, frames[..n], [frames[n]]);
      assert frames[..n] + [frames[n]] == frames;
      RunSnoc(Cutting(m), ch, before + frames[..n], frames[n]);
      var cur := Run(Cutting(m), ch, before).cur;
      Assoc(cur, Payload(ch, frames[..n]), frames[n].payload);
      Units(cur + Payload(ch, frames[..n]));
      Units(Payload(ch, frames[..n]));
    }
  }

  /** A close parts the stream: what comes before it and what comes after it are cut into records separately, and
      the record it finds unfinished is lost. */
  lemma CloseCuts(m: R.Meter, ch: byte, a: seq<F.Frame>, b: seq<F.Frame>, close: F.Frame)
    requires NeverCloses(ch, a) && NeverCloses(ch, b) && close.channel == ch && close.flags == F.FLAG_CLOSE
    ensures Delivered(Cutting(m), Run(Cutting(m), ch, a + [close] + b)) ==
            R.CutUp(m, Payload(ch, a)).records + R.CutUp(m, Payload(ch, b)).records
  {
    RunWithoutClose(m, ch, a);
    RunSnoc(Cutting(m), ch, a, close);
    RunsOn(m, ch, a + [close], b);
    hide R.CutUp;
    hide Run;
    Units(R.CutUp(m, Payload(ch, a)).records);
    Units(Payload(ch, b));
  }

  lemma {:induction false} PayloadAppends(ch: byte, a: seq<F.Frame>, b: seq<F.Frame>)
    ensures Payload(ch, a + b) == Payload(ch, a) + Payload(ch, b)
    decreases |b|
  {
    if b == [] {
      Units(a);
      Units(Payload(ch, a));
    } else {
      var n := |b| - 1;
      var last := if b[n].channel == ch && b[n].flags == F.FLAG_DATA then b[n].payload else [];
      assert (a + b)[..|a + b| - 1] == a + b[..n] && (a + b)[|a + b| - 1] == b[n];
      PayloadAppends(ch, a, b[..n]);
      Assoc(Payload(ch, a), Payload(ch, b[..n]), last);
    }
  }

  /** Frames as `sendData` and the device's TX thread make them: data, for one channel, never empty, bounded. */
  predicate DataFrames(ch: byte, frames: seq<F.Frame>) {
    forall k :: 0 <= k < |frames| ==>
      frames[k].channel == ch && frames[k].flags == F.FLAG_DATA && 1 <= |frames[k].payload| <= F.USB_MAX_PAYLOAD
  }

  lemma SendsNothing(ch: byte)
    ensures DataFrames(ch, []) && Payload(ch, []) == []
  {
  }

  lemma IsDataFrame(ch: byte, f: F.Frame)
    requires f.channel == ch && f.flags == F.FLAG_DATA && 1 <= |f.payload| <= F.USB_MAX_PAYLOAD
    ensures DataFrames(ch, [f])
  {
  }

  lemma OneFrameMore(ch: byte, frames: seq<F.Frame>, f: F.Frame, data: seq<byte>, sent: nat)
    requires sent + |f.payload| <= |data| && f.payload == data[sent..sent + |f.payload|]
    requires DataFrames(ch, frames) && Payload(ch, frames) == data[..sent] && DataFrames(ch, [f])
    ensures DataFrames(ch, frames + [f]) && Payload(ch, frames + [f]) == data[..sent + |f.payload|]
  {
    assert [f][0] == f;
    assert (frames + [f])[..|frames|] == frames;
    assert data[..sent + |f.payload|] == data[..sent] + f.payload;
  }

  /**
   * Cut into frames of at most USB_MAX_PAYLOAD bytes. The transport takes `good` frames before one fails;
   * `frames` are those it took. They carry the data whole, or all of it that full frames could before the failure.
   */
  method SendData(ch: byte, data: seq<byte>, good: nat) returns (ok: bool, frames: seq<F.Frame>)
    ensures ok <==> ch < F.MAX_CHANNELS && 0 < |data| <= good * F.USB_MAX_PAYLOAD
    ensures DataFrames(ch, frames) && |frames| <= good
    ensures ok ==> Payload(ch, frames) == data
    ensures !ok && ch < F.MAX_CHANNELS && data != [] ==>
              |frames| == good && Payload(ch, frames) == data[..good * F.USB_MAX_PAYLOAD]
    ensures !ok && (ch >= F.MAX_CHANNELS || data == []) ==> frames == []
  {
    frames := [];
    if ch >= F.MAX_CHANNELS || data == [] {
      return false, [];
    }
    hide DataFrames;
    hide Payload;
    SendsNothing(ch);
    var sent := 0;
    while sent < |data|
      invariant sent <= |data| && |frames| <= good
      invariant sent == |data| || sent == |frames| * F.USB_MAX_PAYLOAD
      invariant sent <= |frames| * F.USB_MAX_PAYLOAD
      invariant DataFrames(ch, frames) && Payload(ch, frames) == data[..sent]
    {
      var chunk := if |data| - sent > F.USB_MAX_PAYLOAD then F.USB_MAX_PAYLOAD else |data| - sent;
      if |frames| == good {
        return false, frames;
      }
      var f := F.Frame(ch, F.FLAG_DATA, data[sent..sent + chunk]);
      IsDataFrame(ch, f);
      OneFrameMore(ch, frames, f, data, sent);
      frames := frames + [f];
      sent := sent + chunk;
    }
    assert data[..|data|] == data;
    ok := true;
  }
}
