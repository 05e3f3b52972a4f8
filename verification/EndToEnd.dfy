/** The remote-draw stack as a whole: recorded calls, through frames and chunks, to the far target. */
module EndToEnd {
  import opened Bytes
  import F = Framing
  import R = Records
  import S = Session
  import T = UsbdTx
  import opened DrawCalls
  import opened DrawReplay
  import opened Render
  import opened Blob

  const CHAN_DRAWREPLAY: byte := 11

  /** A recorded frame of the UI, with the garbage that precedes it in the channel's stream. */
  datatype Picture = Picture(garbage: seq<byte>, w: i16, h: i16, cmds: seq<Call<byte>>)

  predicate Sendable(p: Picture) {
    Garbage(p.garbage) && AllEncodable(p.cmds) && |Export(p.w, p.h, p.cmds)| <= F.MAX_FRAME_SIZE
  }

  predicate AllSendable(ps: seq<Picture>) {
    forall k :: 0 <= k < |ps| ==> Sendable(ps[k])
  }

  function PiecesOf(ps: seq<Picture>): (r: seq<Piece>)
    requires AllSendable(ps)
    ensures |r| == |ps|
  {
    seq(|ps|, k requires 0 <= k < |ps| && AllSendable(ps) =>
      Piece(ps[k].garbage, Export(ps[k].w, ps[k].h, ps[k].cmds)))
  }

  /** What the far side must get: the blobs, in order. */
  function BlobsSent(ps: seq<Picture>): (r: seq<seq<byte>>)
    requires AllSendable(ps)
    ensures |r| == |ps|
  {
    BlobsOf(PiecesOf(ps))
  }

  lemma StreamDelivers(ps: seq<Picture>, last: seq<byte>)
    requires AllSendable(ps) && Garbage(last)
    ensures R.CutUp(DR, Stream(PiecesOf(ps), last)).records == BlobsSent(ps)
    ensures R.Safe(DR, Stream(PiecesOf(ps), last))
  {
    var pieces := PiecesOf(ps);
    forall k | 0 <= k < |pieces|
      ensures Garbage(pieces[k].garbage) && R.IsRecord(DR, pieces[k].blob) && R.SafeRecord(DR, pieces[k].blob)
    {
      assert Sendable(ps[k]);
      ExportIsRecord(ps[k].w, ps[k].h, ps[k].cmds);
    }
    CutsStream(pieces, last);
    assert forall k :: 0 <= k < |pieces| ==> BlobsOf(pieces)[k] == pieces[k].blob;
  }

  /** Every cut of the wire into bulk reads, every re-chunking of the stream into data frames, and every
      interleaving with other channels' frames delivers exactly the blobs, in order. */
  method Receive(chunks: seq<seq<byte>>, others: seq<S.Mode>, ghost frames: seq<F.Frame>,
                 ghost ps: seq<Picture>, ghost last: seq<byte>)
    returns (records: seq<seq<byte>>)
    requires |others| == F.MAX_CHANNELS
    requires forall i :: 0 <= i < |others| && others[i].Cutting? ==> R.Measures(others[i].m)
    requires forall f :: f in frames ==> |f.payload| <= F.MAX_FRAME_SIZE
    requires Concat(chunks) == F.Wire(frames)
    requires AllSendable(ps) && Garbage(last)
    requires S.NeverCloses(CHAN_DRAWREPLAY, frames)
    requires S.Payload(CHAN_DRAWREPLAY, frames) == Stream(PiecesOf(ps), last)
    ensures records == BlobsSent(ps)
  {
    SizerMeasures();
    var session := PumpAll(chunks, others[CHAN_DRAWREPLAY := S.Cutting(DR)]);
    Harvest(session, frames, ps, last);
    records := session.channels[CHAN_DRAWREPLAY].delivered;
  }

  /** A new session, fed every bulk read. */
  method PumpAll(chunks: seq<seq<byte>>, modes: seq<S.Mode>) returns (session: S.HostSession)
    requires |modes| == F.MAX_CHANNELS
    requires forall i :: 0 <= i < |modes| && modes[i].Cutting? ==> R.Measures(modes[i].m)
    ensures session.Valid() && session.parser.emitted == F.Scan(Concat(chunks)).frames
    ensures forall i :: 0 <= i < |modes| ==> session.channels[i].mode == modes[i]
  {
    assert F.Scan([]).frames == [];
    hide F.Scan;
    hide R.Measures;
    session := new S.HostSession(modes);
    for k := 0 to |chunks|
      invariant session.Valid() && fresh(session.Objects())
      invariant session.parser.fed == Concat(chunks[..k])
      invariant session.parser.emitted == F.Scan(session.parser.fed).frames
    {
      session.Pump(chunks[k]);
      ConcatUpTo(chunks, k);
    }
    assert chunks[..|chunks|] == chunks;
  }

  lemma Harvest(session: S.HostSession, frames: seq<F.Frame>, ps: seq<Picture>, last: seq<byte>)
    requires session.Valid() && session.channels[CHAN_DRAWREPLAY].mode == S.Cutting(DR)
    requires session.parser.emitted == F.Scan(F.Wire(frames)).frames
    requires forall f :: f in frames ==> |f.payload| <= F.MAX_FRAME_SIZE
    requires AllSendable(ps) && Garbage(last)
    requires S.NeverCloses(CHAN_DRAWREPLAY, frames)
    requires S.Payload(CHAN_DRAWREPLAY, frames) == Stream(PiecesOf(ps), last)
    ensures session.channels[CHAN_DRAWREPLAY].delivered == BlobsSent(ps)
  {
    F.ScanOfWire(frames);
    var c := session.channels[CHAN_DRAWREPLAY];
    assert S.Follows(c, frames);
    S.RunWithoutClose(DR, CHAN_DRAWREPLAY, frames);
    StreamDelivers(ps, last);
    c.DeliveredAsSaid();
    Units(R.CutUp(DR, c.st.cur).records);
  }

  /** The same, seen from the device: at every point of every interleaving of its threads, however much of the
      stream its app has got into the ring by then, what its frames on the wire deliver is a prefix of the blobs
      the app writes, and all of them once the whole stream is accepted and buffers and ring have drained. */
  lemma DeviceDelivers(t: T.State, frames: seq<F.Frame>, more: seq<byte>, ps: seq<Picture>, last: seq<byte>)
    requires T.Reachable(t) && t.ch == CHAN_DRAWREPLAY
    requires AllSendable(ps) && Garbage(last) && t.accepted + more == Stream(PiecesOf(ps), last)
    requires S.NeverCloses(CHAN_DRAWREPLAY, frames) && S.Payload(CHAN_DRAWREPLAY, frames) == T.OnWire(t)
    ensures var mode := S.Cutting(DR);
            var got := S.Delivered(mode, S.Run(mode, CHAN_DRAWREPLAY, frames));
            && got <= BlobsSent(ps)
            && (T.Held(t) + t.ring + more == [] ==> got == BlobsSent(ps))
  {
    T.Conservation(t);
    S.RunWithoutClose(DR, CHAN_DRAWREPLAY, frames);
    StreamDelivers(ps, last);
    hide R.CutUp;
    hide Stream;
    hide T.OnWire;
    var w, rest := T.OnWire(t), T.Held(t) + t.ring + more;
    Assoc(w, T.Held(t), t.ring);
    Assoc(w, T.Held(t) + t.ring, more);
    SizerMeasures();
    R.CutSplits(DR, w, rest);
    Units(R.CutUp(DR, w).records);
    Units(w);
  }

  /** A close on the way loses nothing if it finds no blob unfinished; in any case what came before it is whole. */
  lemma CloseDelivers(a: seq<F.Frame>, b: seq<F.Frame>, close: F.Frame, ps: seq<Picture>, last: seq<byte>)
    requires AllSendable(ps) && Garbage(last)
    requires close.channel == CHAN_DRAWREPLAY && close.flags == F.FLAG_CLOSE
    requires S.NeverCloses(CHAN_DRAWREPLAY, a) && S.NeverCloses(CHAN_DRAWREPLAY, b)
    requires S.Payload(CHAN_DRAWREPLAY, a) + S.Payload(CHAN_DRAWREPLAY, b) == Stream(PiecesOf(ps), last)
    ensures var mode := S.Cutting(DR);
            var got := S.Delivered(mode, S.Run(mode, CHAN_DRAWREPLAY, a + [close] + b));
            var before := R.CutUp(DR, S.Payload(CHAN_DRAWREPLAY, a));
            && before.records <= got && before.records <= BlobsSent(ps)
            && (before.rest == [] ==> got == BlobsSent(ps))
  {
    S.CloseCuts(DR, CHAN_DRAWREPLAY, a, b, close);
    StreamDelivers(ps, last);
    SizerMeasures();
    hide R.CutUp;
    hide Stream;
    hide S.Payload;
    hide S.Run;
    R.CutSplits(DR, S.Payload(CHAN_DRAWREPLAY, a), S.Payload(CHAN_DRAWREPLAY, b));
    Units(S.Payload(CHAN_DRAWREPLAY, b));
  }

  /** And each delivered blob renders as the calls that were recorded into it. */
  lemma DeliveredBlobsRender(ps: seq<Picture>, k: nat)
    requires AllSendable(ps) && k < |ps|
    ensures Rendered(BlobsSent(ps)[k]) == Outcome(ps[k].cmds, Ok)
  {
    var p := ps[k];
    assert Sendable(p);
    RoundTrip(p.w, p.h, p.cmds, []);
    Units(Export(p.w, p.h, p.cmds));
  }
}
