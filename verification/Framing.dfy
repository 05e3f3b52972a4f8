/** The MUBD frame format, its incremental parser, and a buffer-free scanner that the parser refines. */
module Framing {
  import opened Bytes

  const HEADER_SIZE: nat := 12
  const USB_BUF_SIZE: nat := 512 * 1024
  const USB_MAX_PAYLOAD: nat := USB_BUF_SIZE - HEADER_SIZE
  const MAX_FRAME_SIZE: nat := 4 * 1024 * 1024
  const MAX_CHANNELS: nat := 32
  const FRAME_MAGIC: u32 := 0x4D554244
  const FLAG_DATA: byte := 0
  const FLAG_CLOSE: byte := 2

  /** FRAME_MAGIC as it appears on the wire. */
  const MAGIC_BYTES: seq<byte> := [0x44, 0x42, 0x55, 0x4D]

  datatype Frame = Frame(channel: byte, flags: byte, payload: seq<byte>)

  function EncodeHeader(channel: byte, flags: byte, length: u32): (h: seq<byte>)
    ensures |h| == HEADER_SIZE
    ensures U32At(h, 0) == FRAME_MAGIC && h[4] == channel && h[5] == flags && U32At(h, 8) == length
  {
    MAGIC_BYTES + [channel, flags] + LE16(0) + LE32(length)
  }

  /** The header carries the payload length cut to 32 bits. */
  function EncodeFrame(f: Frame): (b: seq<byte>)
    ensures |b| == HEADER_SIZE + |f.payload|
  {
    EncodeHeader(f.channel, f.flags, |f.payload| % TWO32) + f.payload
  }

  function Wire(frames: seq<Frame>): seq<byte> {
    if frames == [] then [] else EncodeFrame(frames[0]) + Wire(frames[1..])
  }

  // ----- the scanner: no buffer, no jumps, one byte dropped at a time -----

  predicate BadHeader(s: seq<byte>)
    requires HEADER_SIZE <= |s|
  {
    U32At(s, 0) != FRAME_MAGIC || U32At(s, 8) > MAX_FRAME_SIZE
  }

  function Total(s: seq<byte>): nat
    requires HEADER_SIZE <= |s|
  {
    HEADER_SIZE + U32At(s, 8)
  }

  function FrameAt(s: seq<byte>): Frame
    requires HEADER_SIZE <= |s| && Total(s) <= |s|
  {
    Frame(s[4], s[5], s[HEADER_SIZE..Total(s)])
  }

  datatype Scanned = Scanned(frames: seq<Frame>, rest: seq<byte>, clean: bool)

  /** `clean` says that no byte had to be dropped. */
  function Scan(s: seq<byte>): (r: Scanned)
    ensures |r.rest| <= |s|
    decreases |s|
  {
    if |s| < HEADER_SIZE then Scanned([], s, true)
    else if BadHeader(s) then Scan(s[1..]).(clean := false)
    else if |s| < Total(s) then Scanned([], s, true)
    else var r := Scan(s[Total(s)..]); Scanned([FrameAt(s)] + r.frames, r.rest, r.clean)
  }

  /** Scanning can stop anywhere and go on from what is left. */
  lemma {:induction false} ScanSplits(s: seq<byte>, d: seq<byte>)
    ensures var a, b := Scan(s), Scan(Scan(s).rest + d);
            Scan(s + d) == Scanned(a.frames + b.frames, b.rest, a.clean && b.clean)
    decreases |s|
  {
    var b := Scan(Scan(s).rest + d);
    Units(b.frames);
    if |s| >= HEADER_SIZE {
      HeaderStays(s, d);
      if BadHeader(s) {
        assert (s + d)[1..] == s[1..] + d;
        ScanSplits(s[1..], d);
      } else if Total(s) <= |s| {
        assert (s + d)[Total(s)..] == s[Total(s)..] + d;
        assert (s + d)[HEADER_SIZE..Total(s)] == s[HEADER_SIZE..Total(s)];
        ScanSplits(s[Total(s)..], d);
        Assoc([FrameAt(s)], Scan(s[Total(s)..]).frames, b.frames);
      }
    }
  }

  lemma HeaderStays(s: seq<byte>, d: seq<byte>)
    requires HEADER_SIZE <= |s|
    ensures BadHeader(s + d) == BadHeader(s) && Total(s + d) == Total(s)
  {
  }

  lemma FrameReadsBack(f: Frame, more: seq<byte>)
    requires |f.payload| <= MAX_FRAME_SIZE
    ensures var s := EncodeFrame(f) + more;
            !BadHeader(s) && Total(s) == HEADER_SIZE + |f.payload| && FrameAt(s) == f && s[Total(s)..] == more
  {
    hide EncodeHeader;
    hide U32At;
    var s, h := EncodeFrame(f) + more, EncodeHeader(f.channel, f.flags, |f.payload|);
    Assoc(h, f.payload, more);
    HeaderStaysWords(h, f.payload + more);
  }

  lemma HeaderStaysWords(h: seq<byte>, d: seq<byte>)
    requires HEADER_SIZE == |h|
    ensures U32At(h + d, 0) == U32At(h, 0) && U32At(h + d, 8) == U32At(h, 8)
    ensures (h + d)[4] == h[4] && (h + d)[5] == h[5]
  {
  }

  /** A frame stream is scanned back into exactly its frames. */
  lemma {:induction false} ScanOfWire(frames: seq<Frame>)
    requires forall f :: f in frames ==> |f.payload| <= MAX_FRAME_SIZE
    ensures Scan(Wire(frames)) == Scanned(frames, [], true)
  {
    if frames != [] {
      FrameReadsBack(frames[0], Wire(frames[1..]));
      ScanOfWire(frames[1..]);
    }
  }

  // ----- what scanning finds -----

  /** A whole frame stands in `s` at `i`: magic, channel, flags, a length within bounds, and that many bytes. */
  predicate Stands(s: seq<byte>, i: nat, f: Frame) {
    && i + HEADER_SIZE + |f.payload| <= |s|
    && s[i..i + 4] == MAGIC_BYTES && s[i + 4] == f.channel && s[i + 5] == f.flags
    && U32At(s, i + 8) == |f.payload| <= MAX_FRAME_SIZE
    && s[i + HEADER_SIZE..i + HEADER_SIZE + |f.payload|] == f.payload
  }

  /** The frames stand at `at`, one behind the other. */
  ghost predicate StandAt(s: seq<byte>, at: seq<nat>, frames: seq<Frame>) {
    && |at| == |frames|
    && (forall k :: 0 <= k < |at| ==> Stands(s, at[k], frames[k]))
    && (forall j, k :: 0 <= j < k < |at| ==> at[j] + HEADER_SIZE + |frames[j].payload| <= at[k])
  }

  /** Byte `i` belongs to one of them. */
  ghost predicate Inside(at: seq<nat>, frames: seq<Frame>, i: nat)
    requires |at| == |frames|
  {
    exists k :: 0 <= k < |at| && at[k] <= i < at[k] + HEADER_SIZE + |frames[k].payload|
  }

  /** What is left to wait for: less than a header, or the beginning of a frame. */
  predicate Waits(rest: seq<byte>) {
    |rest| < HEADER_SIZE ||
    (rest[..4] == MAGIC_BYTES && U32At(rest, 8) <= MAX_FRAME_SIZE && |rest| < HEADER_SIZE + U32At(rest, 8))
  }

  function Shifted(at: seq<nat>, d: nat): (r: seq<nat>)
    ensures |r| == |at|
  {
    seq(|at|, k requires 0 <= k < |at| => at[k] + d)
  }

  lemma StandsShifted(s: seq<byte>, d: nat, i: nat, f: Frame)
    requires d <= |s|
    ensures Stands(s[d..], i, f) <==> Stands(s, i + d, f)
  {
    hide MAGIC_BYTES;
    var j := i + d;
    if i + HEADER_SIZE + |f.payload| <= |s[d..]| {
      assert s[d..][i..i + 4] == s[j..j + 4];
      assert s[d..][i + HEADER_SIZE..i + HEADER_SIZE + |f.payload|] ==
             s[j + HEADER_SIZE..j + HEADER_SIZE + |f.payload|];
    }
  }

  lemma AllShifted(s: seq<byte>, d: nat, at: seq<nat>, frames: seq<Frame>)
    requires d <= |s| && StandAt(s[d..], at, frames)
    ensures StandAt(s, Shifted(at, d), frames)
  {
    hide Stands;
    forall k | 0 <= k < |at| ensures Stands(s, Shifted(at, d)[k], frames[k]) {
      StandsShifted(s, d, at[k], frames[k]);
    }
  }

  lemma InsideShifted(at: seq<nat>, frames: seq<Frame>, d: nat, i: nat)
    requires |at| == |frames| && Inside(at, frames, i)
    ensures Inside(Shifted(at, d), frames, i + d)
  {
    var k :| 0 <= k < |at| && at[k] <= i < at[k] + HEADER_SIZE + |frames[k].payload|;
    assert Shifted(at, d)[k] == at[k] + d;
  }

  lemma MagicWord(s: seq<byte>)
    requires 4 <= |s|
    ensures U32At(s, 0) == FRAME_MAGIC <==> s[..4] == MAGIC_BYTES
  {
    assert s[..4] == [s[0], s[1], s[2], s[3]];
  }

  lemma FirstStands(s: seq<byte>)
    requires HEADER_SIZE <= |s|
    ensures !BadHeader(s) && Total(s) <= |s| ==> Stands(s, 0, FrameAt(s))
    ensures BadHeader(s) ==> forall f :: !Stands(s, 0, f)
    ensures !BadHeader(s) && |s| < Total(s) ==> Waits(s)
  {
    MagicWord(s);
  }

  /** Every frame that stands at one of the first `n` bytes of `s` begins inside one of those at `at`. */
  ghost predicate NoneMissed(s: seq<byte>, at: seq<nat>, frames: seq<Frame>, n: int)
    requires |at| == |frames|
  {
    forall i: nat, f :: i < n && Stands(s, i, f) ==> Inside(at, frames, i)
  }

  /** They end within the first `n` bytes. */
  ghost predicate EndBy(at: seq<nat>, frames: seq<Frame>, n: int)
    requires |at| == |frames|
  {
    forall k :: 0 <= k < |at| ==> at[k] + HEADER_SIZE + |frames[k].payload| <= n
  }

  predicate RestWaits(s: seq<byte>, rest: seq<byte>) {
    |rest| <= |s| && rest == s[|s| - |rest|..] && Waits(rest)
  }

  /** `clean` says that frames and rest are all there is. */
  predicate Measured(s: seq<byte>, r: Scanned) {
    |Wire(r.frames)| + |r.rest| <= |s| && (r.clean <==> |Wire(r.frames)| + |r.rest| == |s|)
  }

  /** All that `r` says of `s`: its frames stand at `at`, up to a rest that waits, and no frame was missed before it. */
  ghost predicate Found(s: seq<byte>, at: seq<nat>, r: Scanned) {
    && StandAt(s, at, r.frames) && RestWaits(s, r.rest) && Measured(s, r)
    && EndBy(at, r.frames, |s| - |r.rest|) && NoneMissed(s, at, r.frames, |s| - |r.rest|)
  }

  lemma RestBehind(s: seq<byte>, d: nat, rest: seq<byte>)
    requires d <= |s| && RestWaits(s[d..], rest)
    ensures RestWaits(s, rest)
  {
    assert s[d..][|s[d..]| - |rest|..] == s[|s| - |rest|..];
  }

  lemma MissedBehindByte(s: seq<byte>, at: seq<nat>, frames: seq<Frame>, n: int)
    requires HEADER_SIZE <= |s| && BadHeader(s) && |at| == |frames| && NoneMissed(s[1..], at, frames, n)
    ensures NoneMissed(s, Shifted(at, 1), frames, n + 1)
  {
    FirstStands(s);
    hide BadHeader;
    hide Stands;
    forall i: nat, f | i < n + 1 && Stands(s, i, f) ensures Inside(Shifted(at, 1), frames, i) {
      StandsShifted(s, 1, i - 1, f);
      InsideShifted(at, frames, 1, i - 1);
    }
  }

  lemma FoundBehindByte(s: seq<byte>, at: seq<nat>, r: Scanned)
    requires HEADER_SIZE <= |s| && BadHeader(s) && Found(s[1..], at, r)
    ensures Found(s, Shifted(at, 1), r.(clean := false))
  {
    AllShifted(s, 1, at, r.frames);
    MissedBehindByte(s, at, r.frames, |s[1..]| - |r.rest|);
    RestBehind(s, 1, r.rest);
    hide NoneMissed;
    hide RestWaits;
    hide BadHeader;
    hide Stands;
    hide StandAt;
    hide Wire;
  }

  lemma StandBehind(s: seq<byte>, at: seq<nat>, f: Frame, frames: seq<Frame>)
    requires Stands(s, 0, f) && StandAt(s[HEADER_SIZE + |f.payload|..], at, frames)
    ensures StandAt(s, [0] + Shifted(at, HEADER_SIZE + |f.payload|), [f] + frames)
  {
    hide MAGIC_BYTES;
    AllShifted(s, HEADER_SIZE + |f.payload|, at, frames);
    hide Stands;
  }

  lemma InsideBehind(at: seq<nat>, f: Frame, frames: seq<Frame>, i: nat)
    requires |at| == |frames|
    ensures i < HEADER_SIZE + |f.payload| ==> Inside([0] + at, [f] + frames, i)
    ensures Inside(at, frames, i) ==> Inside([0] + at, [f] + frames, i)
  {
    var all, more := [0] + at, [f] + frames;
    assert all[0] == 0 && more[0] == f;
    if Inside(at, frames, i) {
      var k :| 0 <= k < |at| && at[k] <= i < at[k] + HEADER_SIZE + |frames[k].payload|;
      assert all[k + 1] == at[k] && more[k + 1] == frames[k];
    }
  }

  lemma MissedBehindFrame(s: seq<byte>, at: seq<nat>, f: Frame, frames: seq<Frame>, n: int)
    requires HEADER_SIZE + |f.payload| <= |s| && |at| == |frames|
    requires NoneMissed(s[HEADER_SIZE + |f.payload|..], at, frames, n)
    ensures var d := HEADER_SIZE + |f.payload|; NoneMissed(s, [0] + Shifted(at, d), [f] + frames, d + n)
  {
    var d := HEADER_SIZE + |f.payload|;
    hide Stands;
    hide Inside;
    forall i: nat, g | i < d + n && Stands(s, i, g) ensures Inside([0] + Shifted(at, d), [f] + frames, i) {
      InsideBehind(Shifted(at, d), f, frames, i);
      if i >= d {
        StandsShifted(s, d, i - d, g);
        InsideShifted(at, frames, d, i - d);
      }
    }
  }

  lemma MeasuredBehind(s: seq<byte>, f: Frame, r: Scanned)
    requires HEADER_SIZE + |f.payload| <= |s| && Measured(s[HEADER_SIZE + |f.payload|..], r)
    ensures Measured(s, r.(frames := [f] + r.frames))
  {
    hide EncodeFrame;
    assert ([f] + r.frames)[1..] == r.frames;
  }

  lemma EndBehind(at: seq<nat>, f: Frame, frames: seq<Frame>, n: int)
    requires |at| == |frames| && n >= 0 && EndBy(at, frames, n)
    ensures var d := HEADER_SIZE + |f.payload|; EndBy([0] + Shifted(at, d), [f] + frames, d + n)
  {
  }

  lemma FoundBehindFrame(s: seq<byte>, at: seq<nat>, f: Frame, r: Scanned)
    requires HEADER_SIZE + |f.payload| <= |s|
    requires Stands(s, 0, f) && Found(s[HEADER_SIZE + |f.payload|..], at, r)
    ensures Found(s, [0] + Shifted(at, HEADER_SIZE + |f.payload|), r.(frames := [f] + r.frames))
  {
    var d := HEADER_SIZE + |f.payload|;
    var n := |s[d..]| - |r.rest|;
    StandBehind(s, at, f, r.frames);
    MissedBehindFrame(s, at, f, r.frames, n);
    EndBehind(at, f, r.frames, n);
    MeasuredBehind(s, f, r);
    RestBehind(s, d, r.rest);
    hide Stands;
    hide StandAt;
    hide NoneMissed;
    hide EndBy;
    hide Measured;
  }

  lemma FoundNothing(s: seq<byte>)
    requires Waits(s)
    ensures Found(s, [], Scanned([], s, true))
  {
    assert s[0..] == s;
  }

  /** The scanner finds frames that stand in the stream, apart from each other, and misses none outside them. */
  lemma {:induction false} ScanFinds(s: seq<byte>) returns (at: seq<nat>)
    ensures Found(s, at, Scan(s))
    decreases |s|
  {
    hide Found;
    hide Stands;
    hide U32At;
    at := [];
    if |s| < HEADER_SIZE {
      FoundNothing(s);
    } else if BadHeader(s) {
      at := ScanFinds(s[1..]);
      FoundBehindByte(s, at, Scan(s[1..]));
      at := Shifted(at, 1);
    } else if |s| < Total(s) {
      FirstStands(s);
      FoundNothing(s);
    } else {
      at := ScanFinds(s[Total(s)..]);
      FirstStands(s);
      FoundBehindFrame(s, at, FrameAt(s), Scan(s[Total(s)..]));
      at := [0] + Shifted(at, Total(s));
    }
  }

  // ----- pattern search -----

  predicate MatchAt(hay: seq<byte>, i: nat, needle: seq<byte>) {
    At(hay, i, needle)
  }

  ghost predicate NoMatch(hay: seq<byte>, lo: int, hi: int, needle: seq<byte>) {
    forall k: nat :: lo <= k < hi ==> !MatchAt(hay, k, needle)
  }

  /** The first match at or after `start`, or `|hay|`. */
  function First(hay: seq<byte>, start: nat, needle: seq<byte>): (r: nat)
    ensures r <= |hay| && (r < |hay| ==> start <= r && needle != [] && MatchAt(hay, r, needle))
    ensures needle != [] ==> NoMatch(hay, start, r, needle)
    decreases |hay| - start
  {
    if needle == [] || start + |needle| > |hay| then |hay|
    else if MatchAt(hay, start, needle) then start
    else First(hay, start + 1, needle)
  }

  method FindPattern(hay: seq<byte>, start: nat, needle: seq<byte>) returns (r: nat)
    ensures r == First(hay, start, needle)
  {
    if |needle| == 0 || |hay| < |needle| {
      return |hay|;
    }
    var i := start;
    while i + |needle| <= |hay|
      invariant start <= i
      invariant First(hay, i, needle) == First(hay, start, needle)
    {
      if hay[i] == needle[0] && hay[i..i + |needle|] == needle {
        return i;
      }
      i := i + 1;
    }
    return |hay|;
  }

  // ----- the incremental parser -----

  /** What was emitted so far followed by what the pending bytes still yield is what the whole stream yields. */
  ghost predicate Linked(fed: seq<byte>, emitted: seq<Frame>, pending: seq<byte>) {
    forall d: seq<byte> :: Scan(fed + d).frames == emitted + Scan(pending + d).frames
  }

  lemma LinkedFeeds(fed: seq<byte>, emitted: seq<Frame>, pending: seq<byte>, data: seq<byte>)
    requires Linked(fed, emitted, pending)
    ensures Linked(fed + data, emitted, pending + data)
  {
    forall d: seq<byte> ensures Scan(fed + data + d).frames == emitted + Scan(pending + data + d).frames {
      hide Scan;
      Assoc(fed, data, d);
      Assoc(pending, data, d);
      assert Scan(fed + (data + d)).frames == emitted + Scan(pending + (data + d)).frames;
    }
  }

  lemma LinkedEmits(fed: seq<byte>, emitted: seq<Frame>, pending: seq<byte>)
    requires Linked(fed, emitted, pending)
    requires HEADER_SIZE <= |pending| && !BadHeader(pending) && Total(pending) <= |pending|
    ensures Linked(fed, emitted + [FrameAt(pending)], pending[Total(pending)..])
  {
    var rest := pending[Total(pending)..];
    forall d: seq<byte> ensures Scan(fed + d).frames == emitted + [FrameAt(pending)] + Scan(rest + d).frames {
      HeaderStays(pending, d);
      assert (pending + d)[Total(pending)..] == rest + d;
      assert FrameAt(pending + d) == FrameAt(pending);
    }
  }

  /** A run of positions whose header is bad (or incomplete) yields no frame. */
  lemma {:induction false} SkipBad(t: seq<byte>, n: nat)
    requires n <= |t|
    requires forall k :: 0 <= k < n && k + HEADER_SIZE <= |t| ==> BadHeader(t[k..])
    ensures Scan(t).frames == Scan(t[n..]).frames
    decreases n
  {
    if n == 0 {
      assert t[n..] == t;
    } else if HEADER_SIZE <= |t| {
      assert t[0..] == t;
      assert t[1..][n - 1..] == t[n..];
      forall k | 0 <= k < n - 1 && k + HEADER_SIZE <= |t[1..]| ensures BadHeader(t[1..][k..]) {
        assert t[1..][k..] == t[k + 1..];
      }
      SkipBad(t[1..], n - 1);
    }
  }

  lemma NoMagicIsBad(t: seq<byte>, k: nat)
    requires k + HEADER_SIZE <= |t| && !MatchAt(t, k, MAGIC_BYTES)
    ensures BadHeader(t[k..])
  {
    MagicWord(t[k..]);
    assert t[k..][..4] == t[k..k + 4];
  }

  /** Bytes at which no magic starts can be dropped in one jump. */
  lemma LinkedSkips(fed: seq<byte>, emitted: seq<Frame>, pending: seq<byte>, n: nat)
    requires Linked(fed, emitted, pending)
    requires n + 3 <= |pending| && HEADER_SIZE <= |pending| && BadHeader(pending)
    requires NoMatch(pending, 1, n, MAGIC_BYTES)
    ensures Linked(fed, emitted, pending[n..])
  {
    forall d: seq<byte> ensures Scan(fed + d).frames == emitted + Scan(pending[n..] + d).frames {
      assert Scan(fed + d).frames == emitted + Scan(pending + d).frames;
      JumpYieldsNothing(pending, d, n);
    }
  }

  lemma JumpYieldsNothing(pending: seq<byte>, d: seq<byte>, n: nat)
    requires n + 3 <= |pending| && HEADER_SIZE <= |pending| && BadHeader(pending)
    requires NoMatch(pending, 1, n, MAGIC_BYTES)
    ensures Scan(pending + d).frames == Scan(pending[n..] + d).frames
  {
    var t := pending + d;
    forall k: nat | k < n && k + HEADER_SIZE <= |t| ensures BadHeader(t[k..]) {
      if k == 0 {
        HeaderStays(pending, d);
        assert t[0..] == t;
      } else {
        assert !MatchAt(pending, k, MAGIC_BYTES);
        assert t[k..k + 4] == pending[k..k + 4];
        NoMagicIsBad(t, k);
      }
    }
    SkipBad(t, n);
    assert t[n..] == pending[n..] + d;
  }

  /** The jump of `Resync`: from `pos` to `to`, where the first magic after `pos` is, or to the last three bytes. */
  lemma LinkedJumps(fed: seq<byte>, emitted: seq<Frame>, buf: seq<byte>, pos: nat, to: nat)
    requires pos + HEADER_SIZE <= |buf| && BadHeader(buf[pos..])
    requires Linked(fed, emitted, buf[pos..])
    requires pos < to <= |buf| - 3
    requires NoMatch(buf, pos + 1, to, MAGIC_BYTES)
    ensures Linked(fed, emitted, buf[to..])
  {
    var pending, n := buf[pos..], to - pos;
    forall k: nat | 1 <= k < n ensures !MatchAt(pending, k, MAGIC_BYTES) {
      assert !MatchAt(buf, pos + k, MAGIC_BYTES);
      assert pending[k..k + 4] == buf[pos + k..pos + k + 4];
    }
    LinkedSkips(fed, emitted, pending, n);
    assert pending[n..] == buf[to..];
  }

  /** What holds between two turns of the parsing loop. */
  ghost predicate Progress(fed: seq<byte>, emitted: seq<Frame>, pending: seq<byte>, resyncs: nat) {
    && Linked(fed, emitted, pending)
    && (resyncs == 0 ==> Scan(fed).clean == Scan(pending).clean && Scan(fed).rest == Scan(pending).rest)
    && (resyncs > 0 ==> !Scan(fed).clean)
  }

  /** Too short for a header, or for the frame its good header announces. */
  predicate Quiet(pending: seq<byte>) {
    |pending| < HEADER_SIZE || (!BadHeader(pending) && |pending| < Total(pending))
  }

  /** What holds between two calls: the loop can do nothing more with the pending bytes. */
  ghost predicate Settled(fed: seq<byte>, emitted: seq<Frame>, pending: seq<byte>, resyncs: nat) {
    && Progress(fed, emitted, pending, resyncs)
    && Quiet(pending)
  }

  lemma SettledMeans(fed: seq<byte>, emitted: seq<Frame>, pending: seq<byte>, resyncs: nat)
    requires Settled(fed, emitted, pending, resyncs)
    ensures emitted == Scan(fed).frames
    ensures resyncs == 0 <==> Scan(fed).clean
    ensures resyncs == 0 ==> Scan(fed).rest == pending
  {
    assert fed + [] == fed && pending + [] == pending;
    assert Scan(fed + []).frames == emitted + Scan(pending + []).frames;
  }

  lemma ProgressFeeds(fed: seq<byte>, emitted: seq<Frame>, pending: seq<byte>, resyncs: nat, data: seq<byte>)
    requires Settled(fed, emitted, pending, resyncs)
    ensures Progress(fed + data, emitted, pending + data, resyncs)
  {
    SettledMeans(fed, emitted, pending, resyncs);
    LinkedFeeds(fed, emitted, pending, data);
    ScanSplits(fed, data);
  }

  lemma ProgressEmits(fed: seq<byte>, emitted: seq<Frame>, pending: seq<byte>, resyncs: nat)
    requires Progress(fed, emitted, pending, resyncs)
    requires HEADER_SIZE <= |pending| && !BadHeader(pending) && Total(pending) <= |pending|
    ensures Progress(fed, emitted + [FrameAt(pending)], pending[Total(pending)..], resyncs)
  {
    LinkedEmits(fed, emitted, pending);
  }

  lemma ProgressJumps(fed: seq<byte>, emitted: seq<Frame>, buf: seq<byte>, pos: nat, to: nat, resyncs: nat)
    requires pos + HEADER_SIZE <= |buf| && BadHeader(buf[pos..])
    requires Progress(fed, emitted, buf[pos..], resyncs)
    requires pos < to <= |buf| - 3
    requires NoMatch(buf, pos + 1, to, MAGIC_BYTES)
    ensures Progress(fed, emitted, buf[to..], resyncs + 1)
  {
    LinkedJumps(fed, emitted, buf, pos, to);
  }

  /** `libs/usbproto`'s FrameParser: a growing buffer, a read offset, and magic-search jumps. */
  class FrameParser {
    var m_buf: seq<byte>
    var m_pos: nat
    var m_resyncs: nat
    ghost var fed: seq<byte>       // every byte given to Feed since the last reset
    ghost var emitted: seq<Frame>  // every frame handed to the callback since then

    ghost predicate Valid()
      reads this
    {
      && m_pos <= |m_buf|
      && |m_buf| < USB_BUF_SIZE + HEADER_SIZE + MAX_FRAME_SIZE
      && Settled(fed, emitted, m_buf[m_pos..], m_resyncs)
    }

    constructor ()
      ensures Valid() && fed == [] && emitted == [] && m_resyncs == 0
    {
      m_buf, m_pos, m_resyncs := [], 0, 0;
      fed, emitted := [], [];
    }

    method Compact()
      requires m_pos <= |m_buf|
      modifies `m_buf, `m_pos
      ensures m_pos <= |m_buf| && m_buf[m_pos..] == old(m_buf[m_pos..])
      ensures m_pos < USB_BUF_SIZE && (m_pos == |m_buf| ==> m_buf == [])
    {
      if m_pos == 0 {
        return;
      }
      if m_pos >= |m_buf| {
        m_buf := [];
        m_pos := 0;
      } else if m_pos >= USB_BUF_SIZE {
        m_buf := m_buf[m_pos..];
        m_pos := 0;
      }
    }

    /** Jump to the next magic; without one, keep the three bytes that could begin a split magic. */
    method Resync() returns (found: bool)
      requires m_pos + HEADER_SIZE <= |m_buf| && BadHeader(m_buf[m_pos..])
      requires Progress(fed, emitted, m_buf[m_pos..], m_resyncs)
      modifies `m_buf, `m_pos, `m_resyncs
      ensures m_pos <= |m_buf| && m_resyncs == old(m_resyncs) + 1
      ensures |m_buf| - m_pos < old(|m_buf| - m_pos)
      ensures !found ==> |m_buf| - m_pos == 3
      ensures Progress(fed, emitted, m_buf[m_pos..], m_resyncs)
    {
      m_resyncs := m_resyncs + 1;
      var at := FindPattern(m_buf, m_pos + 1, MAGIC_BYTES);
      found := at < |m_buf|;
      var keep := |MAGIC_BYTES| - 1;
      var to := if found then at else if |m_buf| > keep then |m_buf| - keep else m_pos;
      ghost var rest := m_buf[to..];
      ProgressJumps(fed, emitted, m_buf, m_pos, to, m_resyncs - 1);
      m_pos := to;
      if !found {
        Compact();
      }
      assert m_buf[m_pos..] == rest;
    }

    /** One turn of the parsing loop: whether to go on, and the frame it hands out. */
    method Turn() returns (go: bool, frames: seq<Frame>)
      requires m_pos <= |m_buf| && Progress(fed, emitted, m_buf[m_pos..], m_resyncs)
      modifies `m_buf, `m_pos, `m_resyncs
      ensures m_pos <= |m_buf| && Progress(fed, emitted + frames, m_buf[m_pos..], m_resyncs)
      ensures go ==> |m_buf| - m_pos < old(|m_buf| - m_pos)
      ensures !go ==> Quiet(m_buf[m_pos..])
    {
      var s := m_buf[m_pos..];
      Units(emitted);
      frames := [];
      if |s| < HEADER_SIZE {
        go := false;
      } else if BadHeader(s) {
        go := Resync();
      } else if |s| < Total(s) {
        go := false;
      } else {
        ProgressEmits(fed, emitted, s, m_resyncs);
        go, frames := true, [FrameAt(s)];
        Skip(Total(s));
      }
    }

    method Skip(n: nat)
      requires m_pos + n <= |m_buf|
      modifies `m_buf, `m_pos
      ensures m_pos <= |m_buf| && m_buf[m_pos..] == old(m_buf[m_pos..][n..])
    {
      m_pos := m_pos + n;
      assert m_buf[m_pos..] == old(m_buf[m_pos..][n..]);
      Compact();
    }

    /** Frames come out in order, the same ones however the stream is cut into calls. */
    method Feed(data: seq<byte>) returns (frames: seq<Frame>)
      requires Valid()
      modifies this
      ensures Valid()
      ensures fed == old(fed) + data && emitted == old(emitted) + frames
      ensures emitted == Scan(fed).frames
      ensures m_resyncs == 0 <==> Scan(fed).clean
    {
      ProgressFeeds(fed, emitted, m_buf[m_pos..], m_resyncs, data);
      assert (m_buf + data)[m_pos..] == m_buf[m_pos..] + data;
      m_buf := m_buf + data;
      fed := fed + data;
      frames := [];
      Units(emitted);
      var go := true;
      while go
        invariant m_pos <= |m_buf| && fed == old(fed) + data && emitted == old(emitted)
        invariant Progress(fed, emitted + frames, m_buf[m_pos..], m_resyncs)
        invariant !go ==> Quiet(m_buf[m_pos..])
        decreases go, |m_buf| - m_pos
      {
        var more;
        Units(emitted + frames);
        ghost var before := frames;
        emitted := emitted + frames;
        go, more := Turn();
        frames := frames + more;
        emitted := old(emitted);
        Assoc(emitted, before, more);
      }
      emitted := emitted + frames;
      ghost var rest := m_buf[m_pos..];
      Compact();
      assert m_buf[m_pos..] == rest;
      SettledMeans(fed, emitted, rest, m_resyncs);
    }
  }
}
