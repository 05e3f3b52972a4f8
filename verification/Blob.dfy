/** A recording as one self-delimiting blob: header, commands, end marker. */
module Blob {
  import opened Bytes
  import opened DrawCalls
  import opened DrawReplay
  import opened Render
  import Framing
  import opened Records

  /** Counts are cut to the 32 bits of their fields. */
  function Header(w: i16, h: i16, cmdCount: nat, bodyBytes: nat): (b: seq<byte>)
    ensures |b| == DR_HEADER_SIZE
    ensures b[..4] == DR_MAGIC && U16At(b, 4) == DR_VERSION
    ensures I16At(b, 8) == w && I16At(b, 10) == h
    ensures U32At(b, 12) == cmdCount % TWO32 && U32At(b, 16) == bodyBytes % TWO32
  {
    DR_MAGIC + LE16(DR_VERSION) + LE16(0) + LEi16(w) + LEi16(h) + LE32(cmdCount % TWO32) + LE32(bodyBytes % TWO32)
  }

  function Body(cmds: seq<Call<byte>>): (b: seq<byte>)
    requires AllEncodable(cmds)
    ensures b != [] && b[|b| - 1] == OP_END
  {
    EncodeAll(cmds) + [OP_END]
  }

  function Export(w: i16, h: i16, cmds: seq<Call<byte>>): (b: seq<byte>)
    requires AllEncodable(cmds)
    ensures |b| == DR_HEADER_SIZE + |Body(cmds)| && b[|b| - 1] == OP_END
  {
    Header(w, h, |cmds|, |Body(cmds)|) + Body(cmds)
  }

  datatype Peeked = Bad(error: DRError) | Good(width: i16, height: i16, cmdCount: u32, bodyBytes: u32)

  function Peek(data: seq<byte>): (p: Peeked)
    ensures p.Good? <==> DR_HEADER_SIZE <= |data| && data[..4] == DR_MAGIC && U16At(data, 4) <= DR_VERSION &&
                         DR_HEADER_SIZE + U32At(data, 16) <= |data|
    ensures p.Good? ==> p.bodyBytes == U32At(data, 16)
    ensures p.Bad? ==> p.error in {Truncated, BadMagic, BadVersion}
    ensures p == Bad(BadMagic) <==> DR_HEADER_SIZE <= |data| && data[..4] != DR_MAGIC
    ensures p == Bad(BadVersion) <==> DR_HEADER_SIZE <= |data| && data[..4] == DR_MAGIC && U16At(data, 4) > DR_VERSION
  {
    if |data| < DR_HEADER_SIZE then Bad(Truncated)
    else if data[..4] != DR_MAGIC then Bad(BadMagic)
    else if U16At(data, 4) > DR_VERSION then Bad(BadVersion)
    else if U32At(data, 16) > |data| - DR_HEADER_SIZE then Bad(Truncated)
    else Good(I16At(data, 8), I16At(data, 10), U32At(data, 12), U32At(data, 16))
  }

  /** What rendering a blob issues: the declared body is replayed, bytes behind it are not looked at. */
  function Rendered(data: seq<byte>): Outcome {
    match Peek(data)
    case Bad(e) => Outcome([], e)
    case Good(_, _, _, n) => Replay(data[DR_HEADER_SIZE..DR_HEADER_SIZE + n], 0)
  }

  lemma HeaderRead(h: seq<byte>, rest: seq<byte>)
    requires |h| == DR_HEADER_SIZE
    ensures (h + rest)[..4] == h[..4] && U16At(h + rest, 4) == U16At(h, 4)
    ensures I16At(h + rest, 8) == I16At(h, 8) && I16At(h + rest, 10) == I16At(h, 10)
    ensures U32At(h + rest, 12) == U32At(h, 12) && U32At(h + rest, 16) == U32At(h, 16)
  {
  }

  /** The header of an export, with anything behind it. */
  lemma ExportHeader(w: i16, h: i16, cmds: seq<Call<byte>>, more: seq<byte>)
    requires AllEncodable(cmds)
    ensures var data := Export(w, h, cmds) + more;
            && data[..4] == DR_MAGIC && U16At(data, 4) == DR_VERSION
            && I16At(data, 8) == w && I16At(data, 10) == h
            && U32At(data, 12) == |cmds| % TWO32 && U32At(data, 16) == |Body(cmds)| % TWO32
            && data[DR_HEADER_SIZE..] == Body(cmds) + more
  {
    hide Header;
    hide Body;
    hide U16At;
    hide U32At;
    hide I16At;
    var hd, b := Header(w, h, |cmds|, |Body(cmds)|), Body(cmds);
    Assoc(hd, b, more);
    HeaderRead(hd, b + more);
  }

  /** What a 32-bit length field says of a body. */
  function Declared(b: seq<byte>): (n: nat)
    ensures n <= |b|
  {
    |b| % TWO32
  }

  /** What is rendered is the body as far as its 32-bit length field declares it. */
  lemma ExportPeeks(w: i16, h: i16, cmds: seq<Call<byte>>, more: seq<byte>)
    requires AllEncodable(cmds)
    ensures Peek(Export(w, h, cmds) + more) == Good(w, h, |cmds| % TWO32, Declared(Body(cmds)))
    ensures Rendered(Export(w, h, cmds) + more) == Replay(Body(cmds)[..Declared(Body(cmds))], 0)
  {
    hide Replay;
    hide Body;
    hide Header;
    hide U16At;
    hide U32At;
    hide I16At;
    ExportHeader(w, h, cmds, more);
    DeclaredBody(Export(w, h, cmds) + more, Body(cmds), more, Declared(Body(cmds)));
  }

  lemma DeclaredBody(data: seq<byte>, b: seq<byte>, more: seq<byte>, n: nat)
    requires DR_HEADER_SIZE <= |data| && data[DR_HEADER_SIZE..] == b + more && n <= |b|
    ensures |data| == DR_HEADER_SIZE + |b| + |more|
    ensures data[DR_HEADER_SIZE..DR_HEADER_SIZE + n] == b[..n]
  {
    assert data[DR_HEADER_SIZE..DR_HEADER_SIZE + n] == data[DR_HEADER_SIZE..][..n];
  }

  lemma ShortBody(b: seq<byte>)
    requires |b| < TWO32
    ensures b[..Declared(b)] == b
  {
  }

  lemma LongBody(cmds: seq<Call<byte>>)
    requires AllEncodable(cmds) && |Body(cmds)| >= TWO32
    ensures Declared(Body(cmds)) <= |EncodeAll(cmds)|
    ensures Body(cmds)[..Declared(Body(cmds))] == EncodeAll(cmds)[..Declared(Body(cmds))]
  {
    hide EncodeAll;
  }

  lemma BodyReplays(cmds: seq<Call<byte>>)
    requires AllEncodable(cmds)
    ensures var r := Replay(Body(cmds)[..Declared(Body(cmds))], 0);
            && (|Body(cmds)| < TWO32 ==> r == Outcome(cmds, Ok))
            && (|Body(cmds)| >= TWO32 ==> r.error != Ok && r.calls <= cmds)
  {
    assert Body(cmds) == EncodeAll(cmds) + [OP_END];
    hide Body;
    hide EncodeAll;
    hide Replay;
    hide AllEncodable;
    if |Body(cmds)| < TWO32 {
      ShortBody(Body(cmds));
      ReplaysItself(cmds);
    } else {
      LongBody(cmds);
      CutShort(cmds, Declared(Body(cmds)));
    }
  }

  /** Recording, exporting and rendering gives back exactly the recorded calls, if and only if the body
      fits its 32-bit length field; a longer one still issues only a prefix. */
  lemma RoundTrip(w: i16, h: i16, cmds: seq<Call<byte>>, more: seq<byte>)
    requires AllEncodable(cmds)
    ensures Rendered(Export(w, h, cmds) + more) == Outcome(cmds, Ok) <==> |Body(cmds)| < TWO32
    ensures |Body(cmds)| >= TWO32 ==>
        Rendered(Export(w, h, cmds) + more).error != Ok && Rendered(Export(w, h, cmds) + more).calls <= cmds
  {
    ExportPeeks(w, h, cmds, more);
    BodyReplays(cmds);
  }

  // ----- cutting blobs out of a stream -----

  /** The sizer: 0 while the header is incomplete, BAD_RECORD at the first contradicting byte. */
  function RecordSize(data: seq<byte>): nat {
    if Contradicts(data, DR_MAGIC) then BAD_RECORD
    else if |data| < DR_HEADER_SIZE then NEED_MORE
    else if U16At(data, 4) > DR_VERSION then BAD_RECORD
    else DR_HEADER_SIZE + U32At(data, 16)
  }

  const DR: Meter := Meter(RecordSize, DR_MAGIC, Framing.MAX_FRAME_SIZE)

  lemma SizerMeasures()
    ensures Measures(DR)
  {
    forall s: seq<byte>, d: seq<byte> ensures MeasuresAt(DR, s, d) {
      SizerMeasuresAt(s, d);
    }
  }

  lemma SizerMeasuresAt(s: seq<byte>, d: seq<byte>)
    ensures MeasuresAt(DR, s, d)
  {
    if Contradicts(s, DR_MAGIC) {
      var i :| 0 <= i < |s| && i < |DR_MAGIC| && s[i] != DR_MAGIC[i];
      assert (s + d)[i] == s[i];
      assert Contradicts(s + d, DR_MAGIC);
    } else if DR_HEADER_SIZE <= |s| {
      assert forall i :: 0 <= i < 4 ==> (s + d)[i] == s[i];
      SameReads(s, d, 4);
      SameReads(s, d, 16);
    }
  }

  lemma ExportIsRecord(w: i16, h: i16, cmds: seq<Call<byte>>)
    requires AllEncodable(cmds) && |Export(w, h, cmds)| <= Framing.MAX_FRAME_SIZE
    ensures IsRecord(DR, Export(w, h, cmds)) && SafeRecord(DR, Export(w, h, cmds))
  {
    hide Header;
    hide Body;
    hide U16At;
    hide U32At;
    hide I16At;
    hide SafeEnd;
    hide RecordSize;
    ExportHeader(w, h, cmds, []);
    Units(Export(w, h, cmds));
    SizedByHeader(Export(w, h, cmds));
    EndsSafely(Export(w, h, cmds));
  }

  lemma SizedByHeader(b: seq<byte>)
    requires DR_HEADER_SIZE <= |b| && b[..4] == DR_MAGIC && U16At(b, 4) <= DR_VERSION
    ensures RecordSize(b) == DR_HEADER_SIZE + U32At(b, 16)
  {
    assert forall i :: 0 <= i < 4 ==> b[i] == b[..4][i];
  }

  /** A zero at the end is enough: neither 'D' nor "DR" ends the blob. */
  lemma EndsSafely(b: seq<byte>)
    requires b != [] && b[|b| - 1] == OP_END
    ensures SafeEnd(DR, b)
  {
    forall k: nat | 1 <= k < |DR.magic| - 1 && k <= |b| ensures b[|b| - k..] != DR.magic[..k] {
      assert b[|b| - k..][k - 1] == OP_END;
      assert DR.magic[..k][k - 1] != OP_END;
    }
  }

  /** Without the end marker chunking matters: a blob of fewer than USB_BUF_SIZE bytes whose last bytes are
      'D' or "DR" is delivered a second time by some chunking of a stream that holds it once. */
  lemma UnsafeBlobBreaks(r: seq<byte>, k: nat)
    requires IsRecord(DR, r) && |r| < Framing.USB_BUF_SIZE
    requires 1 <= k <= 2 && r[|r| - k..] == DR_MAGIC[..k]
    ensures Concat(Echo(DR, r, k)) == r + r[k..]
    ensures FedAll(DR, FRESH, Echo(DR, r, k)).1 == [r] + [r] != CutUp(DR, r + r[k..]).records
  {
    SizerMeasures();
    var tail := DR_MAGIC[k..3];
    assert tail[0] != DR_MAGIC[0];
    assert Contradicts(tail, DR_MAGIC);
    UnsafeRecordBreaks(DR, r, k);
  }

  // ----- streams of blobs -----

  /** The magic occurs in `g` followed by the magic only at its end. */
  predicate Garbage(g: seq<byte>) {
    forall k: nat :: k < |g| ==> !Framing.MatchAt(g + DR_MAGIC, k, DR_MAGIC)
  }

  lemma GarbageIsDead(g: seq<byte>, k: nat, more: seq<byte>)
    requires Garbage(g) && k < |g| && DR_MAGIC <= more
    ensures Dead(DR, (g + more)[k..])
  {
    var t := g + more;
    assert !Framing.MatchAt(g + DR_MAGIC, k, DR_MAGIC);
    assert more == DR_MAGIC + more[4..];
    assert t[k..k + 4] == (g + DR_MAGIC)[k..k + 4];
    SizerMeasures();
    NotMagicIsDead(DR, t, k);
  }

  lemma CutsBlob(g: seq<byte>, r: seq<byte>, more: seq<byte>)
    requires Garbage(g) && IsRecord(DR, r)
    ensures CutUp(DR, g + (r + more)).records == [r] + CutUp(DR, more).records
  {
    SizerMeasures();
    RecordBeginsWithMagic(DR, r);
    assert r == DR_MAGIC + r[4..] && r + more == DR_MAGIC + (r[4..] + more);
    var t := g + (r + more);
    forall k: nat | k < |g| ensures Dead(DR, t[k..]) {
      GarbageIsDead(g, k, r + more);
    }
    DeadRun(DR, t, |g|);
    assert t[|g|..] == r + more;
    assert r[..|r|] == r && r[|r|..] == [];
    CutsFirst(DR, r, more);
    Units(more);
  }

  lemma GarbageFrontIsDead(g: seq<byte>)
    requires Garbage(g) && 4 <= |g|
    ensures Dead(DR, g)
  {
    assert !Framing.MatchAt(g + DR_MAGIC, 0, DR_MAGIC);
    assert (g + DR_MAGIC)[0..4] == g[0..4];
    SizerMeasures();
    NotMagicIsDead(DR, g, 0);
    assert g[0..] == g;
  }

  lemma GarbageTail(g: seq<byte>)
    requires Garbage(g) && g != []
    ensures Garbage(g[1..])
  {
    forall k: nat | k < |g[1..]| ensures !Framing.MatchAt(g[1..] + DR_MAGIC, k, DR_MAGIC) {
      assert !Framing.MatchAt(g + DR_MAGIC, k + 1, DR_MAGIC);
      assert (g[1..] + DR_MAGIC)[k..k + 4] == (g + DR_MAGIC)[k + 1..k + 1 + 4];
    }
  }

  /** Garbage with no magic in it, at the end of a stream, yields nothing. */
  lemma {:induction false} CutsNothing(g: seq<byte>)
    requires Garbage(g)
    ensures CutUp(DR, g).records == []
    decreases |g|
  {
    if 4 <= |g| {
      GarbageFrontIsDead(g);
    }
    if Dead(DR, g) {
      GarbageTail(g);
      CutsNothing(g[1..]);
    }
  }

  datatype Piece = Piece(garbage: seq<byte>, blob: seq<byte>)

  function Stream(ps: seq<Piece>, last: seq<byte>): seq<byte> {
    if ps == [] then last else ps[0].garbage + (ps[0].blob + Stream(ps[1..], last))
  }

  function BlobsOf(ps: seq<Piece>): (b: seq<seq<byte>>)
    ensures |b| == |ps|
  {
    seq(|ps|, k requires 0 <= k < |ps| => ps[k].blob)
  }

  /** Blobs with garbage around them are cut out as exactly those blobs, in order. */
  lemma {:induction false} CutsStream(ps: seq<Piece>, last: seq<byte>)
    requires Garbage(last)
    requires forall k :: 0 <= k < |ps| ==> Garbage(ps[k].garbage) && IsRecord(DR, ps[k].blob)
    ensures CutUp(DR, Stream(ps, last)).records == BlobsOf(ps)
    decreases |ps|
  {
    if ps == [] {
      CutsNothing(last);
    } else {
      CutsBlob(ps[0].garbage, ps[0].blob, Stream(ps[1..], last));
      CutsStream(ps[1..], last);
      assert BlobsOf(ps) == [ps[0].blob] + BlobsOf(ps[1..]);
    }
  }
}
