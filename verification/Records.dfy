/** StreamAssembler: cutting a channel's byte stream back into self-delimiting records. */
module Records {
  import opened Bytes
  import opened Framing

  /** A sizer answers NEED_MORE, BAD_RECORD, or the length of the record at the front. */
  const NEED_MORE: nat := 0
  const BAD_RECORD: nat := 0xFFFF_FFFF_FFFF_FFFF

  datatype Meter = Meter(sizer: seq<byte> -> nat, magic: seq<byte>, maxRecord: nat)

  predicate Contradicts(s: seq<byte>, magic: seq<byte>) {
    exists i :: 0 <= i < |s| && i < |magic| && s[i] != magic[i]
  }

  /** What a sizer has to keep at `s`: a verdict stays when `d` arrives, bytes that contradict the magic
      are bad at once, and no record is shorter than the magic. */
  ghost predicate MeasuresAt(m: Meter, s: seq<byte>, d: seq<byte>) {
    && (s != [] && m.sizer(s) != NEED_MORE ==> m.sizer(s + d) == m.sizer(s) >= |m.magic|)
    && (Contradicts(s, m.magic) ==> m.sizer(s) == BAD_RECORD)
  }

  ghost predicate Measures(m: Meter) {
    1 <= |m.magic| <= 8 && forall s: seq<byte>, d: seq<byte> :: MeasuresAt(m, s, d)
  }

  predicate Dead(m: Meter, s: seq<byte>) {
    s != [] && (m.sizer(s) == BAD_RECORD || m.sizer(s) > m.maxRecord)
  }

  // ----- the cutter: no buffer, no jumps, one byte dropped at a time -----

  datatype Cut = Cut(records: seq<seq<byte>>, rest: seq<byte>)

  function CutUp(m: Meter, s: seq<byte>): (r: Cut)
    decreases |s|
  {
    if s == [] then Cut([], s)
    else if Dead(m, s) then CutUp(m, s[1..])
    else var n := m.sizer(s);
      if n == NEED_MORE || |s| < n then Cut([], s)
      else var r := CutUp(m, s[n..]); Cut([s[..n]] + r.records, r.rest)
  }

  lemma DeadStays(m: Meter, s: seq<byte>, d: seq<byte>)
    requires Measures(m) && Dead(m, s)
    ensures Dead(m, s + d)
  {
    assert MeasuresAt(m, s, d);
  }

  lemma {:induction false} CutSplits(m: Meter, s: seq<byte>, d: seq<byte>)
    requires Measures(m)
    ensures var a := CutUp(m, s); var b := CutUp(m, a.rest + d);
            CutUp(m, s + d) == Cut(a.records + b.records, b.rest)
    decreases |s|
  {
    if s == [] {
    } else if Dead(m, s) {
      DeadStays(m, s, d);
      assert (s + d)[1..] == s[1..] + d;
      CutSplits(m, s[1..], d);
    } else {
      var n := m.sizer(s);
      if n != NEED_MORE && n <= |s| {
        assert MeasuresAt(m, s, d);
        assert (s + d)[n..] == s[n..] + d && (s + d)[..n] == s[..n];
        CutSplits(m, s[n..], d);
      }
    }
  }

  // ----- the code's own moves on its buffer and read offset -----

  datatype Asm = Asm(buf: seq<byte>, pos: nat, resyncs: nat) {
    predicate Ok() { pos <= |buf| }

    function Pending(): seq<byte>
      requires Ok()
    {
      buf[pos..]
    }
  }

  function Compacted(a: Asm): (r: Asm)
    requires a.Ok()
    ensures r.Ok() && r.Pending() == a.Pending()
  {
    if a.pos == 0 then a
    else if a.pos >= |a.buf| then a.(buf := [], pos := 0)
    else if a.pos >= USB_BUF_SIZE then a.(buf := a.buf[a.pos..], pos := 0)
    else a
  }

  /** With no magic ahead the offset goes to the last |magic| - 1 bytes of the buffer, which can be a step back. */
  function Resynced(m: Meter, a: Asm): (r: (Asm, bool))
    requires a.Ok() && a.pos < |a.buf|
    ensures r.0.Ok()
    ensures r.1 ==> |r.0.buf| - r.0.pos < |a.buf| - a.pos
  {
    var at := First(a.buf, a.pos + 1, m.magic);
    var b := a.(resyncs := a.resyncs + 1);
    if at >= |a.buf| then
      var keep := if |m.magic| > 0 then |m.magic| - 1 else 0;
      (Compacted(if |a.buf| > keep then b.(pos := |a.buf| - keep) else b), false)
    else (b.(pos := at), true)
  }

  predicate MustResync(m: Meter, s: seq<byte>) {
    || (0 < |m.magic| <= |s| && s[..|m.magic|] != m.magic)
    || Dead(m, s)
  }

  /** The parsing loop of `feed`. */
  function Drain(m: Meter, a: Asm): (r: (Asm, seq<seq<byte>>))
    requires a.Ok()
    ensures r.0.Ok()
    decreases |a.buf| - a.pos
  {
    var s := a.Pending();
    if s == [] then (a, [])
    else if MustResync(m, s) then
      var (b, found) := Resynced(m, a);
      if found then Drain(m, b) else (b, [])
    else var n := m.sizer(s);
      if n == NEED_MORE || |s| < n then (a, [])
      else var r := Drain(m, Compacted(a.(pos := a.pos + n))); (r.0, [s[..n]] + r.1)
  }

  function Fed(m: Meter, a: Asm, data: seq<byte>): (r: (Asm, seq<seq<byte>>))
    requires a.Ok()
    ensures r.0.Ok()
  {
    var r := Drain(m, a.(buf := a.buf + data)); (Compacted(r.0), r.1)
  }

  // ----- what the buffer owes to the stream -----

  ghost predicate LinkedAt(m: Meter, fed: seq<byte>, emitted: seq<seq<byte>>, pending: seq<byte>, d: seq<byte>) {
    CutUp(m, fed + d).records == emitted + CutUp(m, pending + d).records
  }

  /** Whatever arrives next, the stream yields what was emitted and then what the pending bytes yield. */
  ghost predicate Linked(m: Meter, fed: seq<byte>, emitted: seq<seq<byte>>, pending: seq<byte>) {
    forall d: seq<byte> :: LinkedAt(m, fed, emitted, pending, d)
  }

  /** No proper prefix of the magic of 1 to |magic| - 2 bytes ends `s`: stepping back into `s` finds no record start. */
  ghost predicate SafeEnd(m: Meter, s: seq<byte>) {
    forall k: nat :: 1 <= k < |m.magic| - 1 && k <= |s| ==> s[|s| - k..] != m.magic[..k]
  }

  /** A record that cannot be stepped back into: it ends safely, or it is long enough to be erased at once. */
  ghost predicate SafeRecord(m: Meter, r: seq<byte>) {
    SafeEnd(m, r) || USB_BUF_SIZE <= |r|
  }

  ghost predicate Safe(m: Meter, fed: seq<byte>) {
    forall r :: r in CutUp(m, fed).records ==> SafeRecord(m, r)
  }

  ghost predicate Inv(m: Meter, fed: seq<byte>, emitted: seq<seq<byte>>, a: Asm) {
    && a.Ok()
    && Linked(m, fed, emitted, a.Pending())
    && (|m.magic| - 1 <= |a.Pending()| || SafeEnd(m, a.buf[..a.pos]))
  }

  lemma LinkedNow(m: Meter, fed: seq<byte>, emitted: seq<seq<byte>>, pending: seq<byte>)
    requires Linked(m, fed, emitted, pending)
    ensures CutUp(m, fed).records == emitted + CutUp(m, pending).records
  {
    assert fed + [] == fed && pending + [] == pending;
    assert LinkedAt(m, fed, emitted, pending, []);
  }

  /** Dead positions can be skipped forwards, and taken back. */
  lemma {:induction false} DeadRun(m: Meter, t: seq<byte>, n: nat)
    requires n <= |t| && forall k: nat :: k < n ==> Dead(m, t[k..])
    ensures CutUp(m, t).records == CutUp(m, t[n..]).records
    decreases n
  {
    if n == 0 {
      assert t[n..] == t;
    } else {
      assert t[0..] == t && t[1..][n - 1..] == t[n..];
      assert Dead(m, t[0..]);
      forall k: nat | k < n - 1 ensures Dead(m, t[1..][k..]) {
        assert t[1..][k..] == t[k + 1..];
      }
      DeadRun(m, t[1..], n - 1);
    }
  }

  lemma LinkedMoves(m: Meter, fed: seq<byte>, emitted: seq<seq<byte>>, buf: seq<byte>, lo: nat, hi: nat)
    requires Measures(m) && lo <= hi <= |buf|
    requires forall k: nat :: lo <= k < hi ==> Dead(m, buf[k..])
    ensures Linked(m, fed, emitted, buf[lo..]) <==> Linked(m, fed, emitted, buf[hi..])
  {
    forall d: seq<byte>
      ensures LinkedAt(m, fed, emitted, buf[lo..], d) <==> LinkedAt(m, fed, emitted, buf[hi..], d)
    {
      DeadRunThen(m, buf, lo, hi, d);
    }
    if Linked(m, fed, emitted, buf[lo..]) {
      forall d: seq<byte> ensures LinkedAt(m, fed, emitted, buf[hi..], d) {
        assert LinkedAt(m, fed, emitted, buf[lo..], d);
      }
    }
    if Linked(m, fed, emitted, buf[hi..]) {
      forall d: seq<byte> ensures LinkedAt(m, fed, emitted, buf[lo..], d) {
        assert LinkedAt(m, fed, emitted, buf[hi..], d);
      }
    }
  }

  lemma DeadRunThen(m: Meter, buf: seq<byte>, lo: nat, hi: nat, d: seq<byte>)
    requires Measures(m) && lo <= hi <= |buf|
    requires forall k: nat :: lo <= k < hi ==> Dead(m, buf[k..])
    ensures CutUp(m, buf[lo..] + d).records == CutUp(m, buf[hi..] + d).records
  {
    var t, n := buf[lo..] + d, hi - lo;
    forall k: nat | k < n ensures Dead(m, t[k..]) {
      assert Dead(m, buf[lo + k..]);
      DeadStays(m, buf[lo + k..], d);
      assert t[k..] == buf[lo + k..] + d;
    }
    DeadRun(m, t, n);
    assert t[n..] == buf[hi..] + d;
  }

  lemma LinkedFeeds(m: Meter, fed: seq<byte>, emitted: seq<seq<byte>>, pending: seq<byte>, data: seq<byte>)
    requires Linked(m, fed, emitted, pending)
    ensures Linked(m, fed + data, emitted, pending + data)
  {
    forall d: seq<byte> ensures LinkedAt(m, fed + data, emitted, pending + data, d) {
      assert fed + data + d == fed + (data + d) && pending + data + d == pending + (data + d);
      assert LinkedAt(m, fed, emitted, pending, data + d);
    }
  }

  lemma LinkedEmits(m: Meter, fed: seq<byte>, emitted: seq<seq<byte>>, p: seq<byte>)
    requires Measures(m) && Linked(m, fed, emitted, p)
    requires p != [] && !Dead(m, p) && 0 < m.sizer(p) <= |p|
    ensures Linked(m, fed, emitted + [p[..m.sizer(p)]], p[m.sizer(p)..])
  {
    var n := m.sizer(p);
    forall d: seq<byte> ensures LinkedAt(m, fed, emitted + [p[..n]], p[n..], d) {
      LinkedEmitsAt(m, fed, emitted, p, d);
    }
  }

  lemma LinkedEmitsAt(m: Meter, fed: seq<byte>, emitted: seq<seq<byte>>, p: seq<byte>, d: seq<byte>)
    requires Measures(m) && Linked(m, fed, emitted, p)
    requires p != [] && !Dead(m, p) && 0 < m.sizer(p) <= |p|
    ensures LinkedAt(m, fed, emitted + [p[..m.sizer(p)]], p[m.sizer(p)..], d)
  {
    assert LinkedAt(m, fed, emitted, p, d);
    CutsFirst(m, p, d);
    var r, more := [p[..m.sizer(p)]], CutUp(m, p[m.sizer(p)..] + d).records;
    assert emitted + (r + more) == emitted + r + more;
  }

  lemma EmitsARecord(m: Meter, fed: seq<byte>, emitted: seq<seq<byte>>, p: seq<byte>)
    requires Measures(m) && Linked(m, fed, emitted, p)
    requires p != [] && !Dead(m, p) && 0 < m.sizer(p) <= |p|
    ensures p[..m.sizer(p)] in CutUp(m, fed).records
  {
    LinkedNow(m, fed, emitted, p);
    CutsFirst(m, p, []);
    assert p + [] == p;
    var cut := CutUp(m, p).records;
    assert cut[0] == p[..m.sizer(p)];
    assert (emitted + cut)[|emitted|] == cut[0];
  }

  lemma CutsFirst(m: Meter, p: seq<byte>, d: seq<byte>)
    requires Measures(m)
    requires p != [] && !Dead(m, p) && 0 < m.sizer(p) <= |p|
    ensures CutUp(m, p + d).records == [p[..m.sizer(p)]] + CutUp(m, p[m.sizer(p)..] + d).records
  {
    var n := m.sizer(p);
    assert MeasuresAt(m, p, d);
    assert (p + d)[n..] == p[n..] + d && (p + d)[..n] == p[..n];
  }

  lemma NotMagicIsDead(m: Meter, buf: seq<byte>, k: nat)
    requires Measures(m) && k + |m.magic| <= |buf| && !MatchAt(buf, k, m.magic)
    ensures Dead(m, buf[k..])
  {
    var s, g := buf[k..], m.magic;
    assert s[..|g|] == buf[k..k + |g|];
    DiffersIsDead(m, s, |g|);
  }

  lemma DiffersIsDead(m: Meter, s: seq<byte>, k: nat)
    requires Measures(m) && 1 <= k <= |m.magic| && k <= |s| && s[..k] != m.magic[..k]
    ensures Dead(m, s)
  {
    assert MeasuresAt(m, s, []);
    var g := m.magic;
    assert !forall i :: 0 <= i < k ==> s[..k][i] == g[..k][i];
    var i :| 0 <= i < k && s[..k][i] != g[..k][i];
    assert s[i] != g[i];
  }

  /** `k` bytes before the offset stand there a magic cannot begin, whatever follows. */
  lemma SafeEndIsDead(m: Meter, buf: seq<byte>, pos: nat, k: nat)
    requires Measures(m) && pos <= |buf| && SafeEnd(m, buf[..pos])
    requires 1 <= k < |m.magic| - 1 && k <= pos
    ensures Dead(m, buf[pos - k..])
  {
    var s := buf[pos - k..];
    assert buf[..pos][pos - k..] == s[..k];
    DiffersIsDead(m, s, k);
  }

  lemma MustResyncIsDead(m: Meter, a: Asm)
    requires Measures(m) && a.Ok() && a.pos < |a.buf| && MustResync(m, a.Pending())
    ensures Dead(m, a.buf[a.pos..])
  {
    if 0 < |m.magic| <= |a.Pending()| && a.Pending()[..|m.magic|] != m.magic {
      DiffersIsDead(m, a.buf[a.pos..], |m.magic|);
    }
  }

  /** Forwards, over positions where no magic stands. */
  lemma JumpKeeps(m: Meter, fed: seq<byte>, emitted: seq<seq<byte>>, a: Asm, to: nat)
    requires Measures(m) && a.Ok() && Linked(m, fed, emitted, a.Pending())
    requires a.pos < |a.buf| && MustResync(m, a.Pending())
    requires a.pos <= to && to + |m.magic| - 1 <= |a.buf| && NoMatch(a.buf, a.pos + 1, to, m.magic)
    ensures Linked(m, fed, emitted, a.buf[to..])
  {
    MustResyncIsDead(m, a);
    forall k: nat | a.pos <= k < to ensures Dead(m, a.buf[k..]) {
      if k > a.pos {
        assert !MatchAt(a.buf, k, m.magic);
        NotMagicIsDead(m, a.buf, k);
      }
    }
    LinkedMoves(m, fed, emitted, a.buf, a.pos, to);
  }

  /** Backwards, into a record that ends safely. */
  lemma StepBackKeeps(m: Meter, fed: seq<byte>, emitted: seq<seq<byte>>, a: Asm, to: nat)
    requires Measures(m) && a.Ok() && Linked(m, fed, emitted, a.Pending())
    requires to < a.pos < to + |m.magic| - 1 && SafeEnd(m, a.buf[..a.pos])
    ensures Linked(m, fed, emitted, a.buf[to..])
  {
    forall k: nat | to <= k < a.pos ensures Dead(m, a.buf[k..]) {
      SafeEndIsDead(m, a.buf, a.pos, a.pos - k);
    }
    LinkedMoves(m, fed, emitted, a.buf, to, a.pos);
  }

  lemma ResyncKeeps(m: Meter, fed: seq<byte>, emitted: seq<seq<byte>>, a: Asm)
    requires Measures(m) && Inv(m, fed, emitted, a)
    requires a.pos < |a.buf| && MustResync(m, a.Pending())
    ensures Inv(m, fed, emitted, Resynced(m, a).0)
    ensures !Resynced(m, a).1 ==> |Resynced(m, a).0.Pending()| < |m.magic|
  {
    var at := First(a.buf, a.pos + 1, m.magic);
    var keep := |m.magic| - 1;
    if at < |a.buf| {
      JumpKeeps(m, fed, emitted, a, at);
    } else if |a.buf| > keep {
      var to := |a.buf| - keep;
      if a.pos <= to {
        JumpKeeps(m, fed, emitted, a, to);
      } else {
        StepBackKeeps(m, fed, emitted, a, to);
      }
      assert Resynced(m, a).0.Pending() == a.buf[to..];
    }
  }

  lemma EmitKeeps(m: Meter, fed: seq<byte>, emitted: seq<seq<byte>>, a: Asm)
    requires Measures(m) && Inv(m, fed, emitted, a) && Safe(m, fed)
    requires a.Pending() != [] && !MustResync(m, a.Pending()) && 0 < m.sizer(a.Pending()) <= |a.Pending()|
    ensures var n := m.sizer(a.Pending());
            Inv(m, fed, emitted + [a.Pending()[..n]], Compacted(a.(pos := a.pos + n)))
  {
    var s := a.Pending();
    var n := m.sizer(s);
    LinkedEmits(m, fed, emitted, s);
    EmitsARecord(m, fed, emitted, s);
    var b := a.(pos := a.pos + n);
    assert b.Pending() == s[n..];
    if SafeEnd(m, s[..n]) {
      assert MeasuresAt(m, s, []);
      forall k: nat | 1 <= k < |m.magic| - 1 ensures b.buf[..b.pos][b.pos - k..] != m.magic[..k] {
        assert b.buf[..b.pos][b.pos - k..] == s[..n][n - k..];
      }
    }
  }

  lemma DrainEmits(m: Meter, a: Asm)
    requires a.Ok() && a.Pending() != [] && !MustResync(m, a.Pending())
    requires 0 < m.sizer(a.Pending()) <= |a.Pending()|
    ensures var n := m.sizer(a.Pending());
            var r := Drain(m, Compacted(a.(pos := a.pos + n)));
            Drain(m, a) == (r.0, [a.Pending()[..n]] + r.1)
  {
  }

  lemma DrainResyncs(m: Meter, a: Asm)
    requires a.Ok() && a.Pending() != [] && MustResync(m, a.Pending())
    ensures var (b, found) := Resynced(m, a);
            Drain(m, a) == if found then Drain(m, b) else (b, [])
  {
  }

  lemma DrainStops(m: Meter, a: Asm)
    requires a.Ok()
    requires a.Pending() != [] ==>
        !MustResync(m, a.Pending()) && (m.sizer(a.Pending()) == NEED_MORE || |a.Pending()| < m.sizer(a.Pending()))
    ensures Drain(m, a) == (a, [])
  {
  }

  /** One run of the loop: the invariant holds again and nothing deliverable is left behind. */
  lemma {:induction false} DrainKeeps(m: Meter, fed: seq<byte>, emitted: seq<seq<byte>>, a: Asm)
    requires Measures(m) && Inv(m, fed, emitted, a) && Safe(m, fed)
    ensures Inv(m, fed, emitted + Drain(m, a).1, Drain(m, a).0)
    ensures CutUp(m, Drain(m, a).0.Pending()).records == []
    decreases |a.buf| - a.pos
  {
    assert a.Ok();
    hide Measures;
    hide Inv;
    hide Safe;
    hide Drain;
    hide CutUp;
    hide MustResync;
    var s := a.Pending();
    Units(emitted);
    if s != [] && MustResync(m, s) {
      DrainResyncs(m, a);
      ResyncKeeps(m, fed, emitted, a);
      var (b, found) := Resynced(m, a);
      if found {
        DrainKeeps(m, fed, emitted, b);
      } else {
        ShortYieldsNothing(m, b.Pending());
      }
    } else if s != [] && m.sizer(s) != NEED_MORE && m.sizer(s) <= |s| {
      DrainEmits(m, a);
      EmitKeeps(m, fed, emitted, a);
      var b, r := Compacted(a.(pos := a.pos + m.sizer(s))), [s[..m.sizer(s)]];
      DrainKeeps(m, fed, emitted + r, b);
      Assoc(emitted, r, Drain(m, b).1);
    } else {
      DrainStops(m, a);
      StopsYieldNothing(m, s);
    }
  }

  lemma StopsYieldNothing(m: Meter, s: seq<byte>)
    requires s == [] || (!MustResync(m, s) && (m.sizer(s) == NEED_MORE || |s| < m.sizer(s)))
    ensures CutUp(m, s).records == []
  {
  }

  lemma {:induction false} ShortYieldsNothing(m: Meter, s: seq<byte>)
    requires Measures(m) && |s| < |m.magic|
    ensures CutUp(m, s).records == []
    decreases |s|
  {
    assert MeasuresAt(m, s, []);
    if s != [] && Dead(m, s) {
      ShortYieldsNothing(m, s[1..]);
    }
  }

  lemma SafeBefore(m: Meter, fed: seq<byte>, data: seq<byte>)
    requires Measures(m) && Safe(m, fed + data)
    ensures Safe(m, fed)
  {
    CutSplits(m, fed, data);
  }

  // ----- whole runs -----

  function FedAll(m: Meter, a: Asm, chunks: seq<seq<byte>>): (r: (Asm, seq<seq<byte>>))
    requires a.Ok()
    ensures r.0.Ok()
    decreases |chunks|
  {
    if chunks == [] then (a, [])
    else
      var b := Fed(m, a, chunks[0]);
      var r := FedAll(m, b.0, chunks[1..]);
      (r.0, b.1 + r.1)
  }

  const FRESH: Asm := Asm([], 0, 0)

  lemma FedKeeps(m: Meter, fed: seq<byte>, emitted: seq<seq<byte>>, a: Asm, data: seq<byte>)
    requires Measures(m) && Inv(m, fed, emitted, a) && Safe(m, fed + data)
    ensures var r := Fed(m, a, data); Inv(m, fed + data, emitted + r.1, r.0)
    ensures emitted + Fed(m, a, data).1 == CutUp(m, fed + data).records
  {
    var b := a.(buf := a.buf + data);
    assert b.Pending() == a.Pending() + data;
    assert b.buf[..b.pos] == a.buf[..a.pos];
    LinkedFeeds(m, fed, emitted, a.Pending(), data);
    DrainKeeps(m, fed + data, emitted, b);
    var (c, recs) := Drain(m, b);
    LinkedNow(m, fed + data, emitted + recs, c.Pending());
    assert emitted + recs + [] == emitted + recs;
  }

  lemma FreshInv(m: Meter)
    ensures Inv(m, [], [], FRESH)
  {
    forall d: seq<byte> ensures LinkedAt(m, [], [], FRESH.Pending(), d) {
      assert [] + d == d && FRESH.Pending() + d == d;
      assert [] + CutUp(m, d).records == CutUp(m, d).records;
    }
  }

  /** However a stream of safely ending records is chunked, the records are those of the one-byte-at-a-time cutter. */
  lemma {:induction false} ChunksDoNotMatter(m: Meter, chunks: seq<seq<byte>>)
    requires Measures(m) && Safe(m, Concat(chunks))
    ensures FedAll(m, FRESH, chunks).1 == CutUp(m, Concat(chunks)).records
  {
    FreshInv(m);
    assert [] + Concat(chunks) == Concat(chunks);
    RunFrom(m, [], [], FRESH, chunks);
    assert [] + FedAll(m, FRESH, chunks).1 == FedAll(m, FRESH, chunks).1;
  }

  lemma {:induction false} RunFrom(m: Meter, fed: seq<byte>, emitted: seq<seq<byte>>, a: Asm, chunks: seq<seq<byte>>)
    requires Measures(m) && Inv(m, fed, emitted, a) && Safe(m, fed + Concat(chunks))
    requires emitted == CutUp(m, fed).records
    ensures emitted + FedAll(m, a, chunks).1 == CutUp(m, fed + Concat(chunks)).records
    decreases |chunks|
  {
    if chunks == [] {
      Units(fed);
      Units(emitted);
    } else {
      var more := Concat(chunks[1..]);
      Assoc(fed, chunks[0], more);
      SafeBefore(m, fed + chunks[0], more);
      FedKeeps(m, fed, emitted, a, chunks[0]);
      var b := Fed(m, a, chunks[0]);
      RunFrom(m, fed + chunks[0], emitted + b.1, b.0, chunks[1..]);
      var r := FedAll(m, b.0, chunks[1..]);
      Assoc(emitted, b.1, r.1);
    }
  }

  // ----- why the condition is needed -----

  ghost predicate IsRecord(m: Meter, r: seq<byte>) {
    0 < |m.magic| <= |r| && m.sizer(r) == |r| <= m.maxRecord && |r| < BAD_RECORD
  }

  lemma RecordBeginsWithMagic(m: Meter, r: seq<byte>)
    requires Measures(m) && IsRecord(m, r)
    ensures r[..|m.magic|] == m.magic && !MustResync(m, r)
  {
    assert MeasuresAt(m, r, []);
    if r[..|m.magic|] != m.magic {
      DiffersIsDead(m, r, |m.magic|);
    }
  }

  lemma {:induction false} RecordsFit(m: Meter, s: seq<byte>)
    ensures forall r :: r in CutUp(m, s).records ==> |r| <= |s|
    decreases |s|
  {
    if s != [] {
      if Dead(m, s) {
        RecordsFit(m, s[1..]);
      } else if m.sizer(s) != NEED_MORE && m.sizer(s) <= |s| {
        RecordsFit(m, s[m.sizer(s)..]);
      }
    }
  }

  lemma DeliversFirst(m: Meter, r: seq<byte>, tail: seq<byte>)
    requires Measures(m) && IsRecord(m, r)
    ensures var d := Drain(m, Compacted(Asm(r + tail, |r|, 0)));
            Drain(m, Asm(r + tail, 0, 0)) == (d.0, [r] + d.1)
  {
    var a := Asm(r + tail, 0, 0);
    assert a.Pending() == r + tail;
    RecordBeginsWithMagic(m, r);
    assert MeasuresAt(m, r, tail);
    assert (r + tail)[..|m.magic|] == r[..|m.magic|] && (r + tail)[..|r|] == r;
    DrainEmits(m, a);
  }

  lemma BackStep(m: Meter, buf: seq<byte>, pos: nat)
    requires Measures(m) && pos < |buf| < pos + |m.magic| - 1 && |m.magic| - 1 < |buf|
    requires Contradicts(buf[pos..], m.magic) && pos < USB_BUF_SIZE
    ensures Drain(m, Asm(buf, pos, 0)) == (Asm(buf, |buf| - (|m.magic| - 1), 1), [])
  {
    var b := Asm(buf, pos, 0);
    assert b.Pending() == buf[pos..];
    assert MeasuresAt(m, buf[pos..], []);
    DrainResyncs(m, b);
  }

  /** The first feed delivers `r`, finds a contradicting tail shorter than the magic, and steps back into `r`. */
  lemma StepsBack(m: Meter, r: seq<byte>, k: nat)
    requires Measures(m) && IsRecord(m, r) && |r| < USB_BUF_SIZE
    requires 1 <= k < |m.magic| - 1
    requires Contradicts(r[k..|m.magic| - 1], m.magic)
    ensures Fed(m, FRESH, Echo(m, r, k)[0]) == (AfterEcho(m, r, k), [r])
  {
    hide Fed;
    hide Measures;
    hide Contradicts;
    FirstDelivery(m, r, r[k..|m.magic| - 1]);
  }

  lemma FirstDelivery(m: Meter, r: seq<byte>, tail: seq<byte>)
    requires Measures(m) && IsRecord(m, r) && |r| < USB_BUF_SIZE
    requires 1 <= |tail| < |m.magic| - 1 && Contradicts(tail, m.magic)
    ensures Fed(m, FRESH, r + tail) == (Asm(r + tail, |r| + |tail| - (|m.magic| - 1), 1), [r])
  {
    assert FRESH.buf + (r + tail) == r + tail;
    DeliversAndStepsBack(m, r, tail);
  }

  lemma NotShort(m: Meter, r: seq<byte>)
    requires IsRecord(m, r) && Measures(m)
    ensures |m.magic| <= |r|
  {
    RecordBeginsWithMagic(m, r);
    hide Measures;
    hide IsRecord;
  }

  lemma StillThere(buf: seq<byte>, pos: nat)
    requires pos < |buf| && pos < USB_BUF_SIZE
    ensures Compacted(Asm(buf, pos, 0)) == Asm(buf, pos, 0)
  {
  }

  lemma TailOf(r: seq<byte>, tail: seq<byte>)
    ensures (r + tail)[|r|..] == tail && |r + tail| == |r| + |tail|
  {
  }

  /** The first record is out, and what is behind it steps back into it. */
  lemma StepsBackAfter(m: Meter, buf: seq<byte>, at: nat, r: seq<byte>)
    requires Measures(m) && at < |buf| < at + |m.magic| - 1 && |m.magic| - 1 < |buf| && at < USB_BUF_SIZE
    requires Contradicts(buf[at..], m.magic)
    requires var d := Drain(m, Compacted(Asm(buf, at, 0))); Drain(m, Asm(buf, 0, 0)) == (d.0, [r] + d.1)
    ensures Drain(m, Asm(buf, 0, 0)) == (Asm(buf, |buf| - (|m.magic| - 1), 1), [r])
  {
    hide Measures;
    hide Contradicts;
    hide Drain;
    hide Compacted;
    StillThere(buf, at);
    BackStep(m, buf, at);
    Units([r]);
  }

  lemma DeliversAndStepsBack(m: Meter, r: seq<byte>, tail: seq<byte>)
    requires Measures(m) && IsRecord(m, r) && |r| < USB_BUF_SIZE
    requires 1 <= |tail| < |m.magic| - 1 && Contradicts(tail, m.magic)
    ensures Drain(m, Asm(r + tail, 0, 0)) == (Asm(r + tail, |r| + |tail| - (|m.magic| - 1), 1), [r])
  {
    hide Measures;
    hide IsRecord;
    hide Contradicts;
    hide Drain;
    hide Compacted;
    NotShort(m, r);
    DeliversFirst(m, r, tail);
    TailOf(r, tail);
    StepsBackAfter(m, r + tail, |r|, r);
  }

  function AfterEcho(m: Meter, r: seq<byte>, k: nat): (a: Asm)
    requires 1 <= k < |m.magic| - 1 && |m.magic| <= |r|
    ensures a.Ok()
  {
    Asm(r + r[k..|m.magic| - 1], |r| - k, 1)
  }

  /**
   * A record that ends in the magic's first `k` bytes is delivered twice from a stream that holds it
   * once, followed by its own tail. This covers the magics whose bytes from `k` on, the last one left
   * out, do not repeat the magic's beginning: every one without a repeated byte, "DRP1" among them.
   */
  lemma UnsafeRecordBreaks(m: Meter, r: seq<byte>, k: nat)
    requires Measures(m) && IsRecord(m, r) && |r| < USB_BUF_SIZE
    requires 1 <= k < |m.magic| - 1 && r[|r| - k..] == m.magic[..k]
    requires Contradicts(m.magic[k..|m.magic| - 1], m.magic)
    ensures Concat(Echo(m, r, k)) == r + r[k..]
    ensures FedAll(m, FRESH, Echo(m, r, k)).1 == [r] + [r] != CutUp(m, r + r[k..]).records
  {
    EchoIsTheStream(m, r, k);
    PrefixOfMagic(m, r, k);
    EchoRedelivers(m, r, k);
    DeliveredOnce(m, r, k);
  }

  lemma EchoIsTheStream(m: Meter, r: seq<byte>, k: nat)
    requires 1 <= k < |m.magic| - 1 && |m.magic| <= |r|
    ensures Concat(Echo(m, r, k)) == r + r[k..]
  {
    var keep := |m.magic| - 1;
    PairConcat(r + r[k..keep], r[keep..]);
    SplitTail(r, k, keep);
  }

  lemma EchoRedelivers(m: Meter, r: seq<byte>, k: nat)
    requires Measures(m) && IsRecord(m, r) && |r| < USB_BUF_SIZE
    requires 1 <= k < |m.magic| - 1 && r[|r| - k..] == r[..k]
    requires Contradicts(r[k..|m.magic| - 1], m.magic)
    ensures FedAll(m, FRESH, Echo(m, r, k)).1 == [r] + [r]
  {
    var chunks := Echo(m, r, k);
    StepsBack(m, r, k);
    SecondDelivery(m, r, k);
    TwoFeeds(m, chunks[0], chunks[1]);
    assert chunks == [chunks[0], chunks[1]];
  }

  function Echo(m: Meter, r: seq<byte>, k: nat): seq<seq<byte>>
    requires 1 <= k < |m.magic| - 1 && |m.magic| <= |r|
  {
    [r + r[k..|m.magic| - 1], r[|m.magic| - 1..]]
  }

  lemma SplitTail(r: seq<byte>, k: nat, keep: nat)
    requires k <= keep <= |r|
    ensures r + r[k..keep] + r[keep..] == r + r[k..]
  {
    assert r[k..] == r[k..keep] + r[keep..];
  }

  lemma PrefixOfMagic(m: Meter, r: seq<byte>, k: nat)
    requires Measures(m) && IsRecord(m, r) && 1 <= k < |m.magic| - 1
    ensures r[..k] == m.magic[..k] && r[k..|m.magic| - 1] == m.magic[k..|m.magic| - 1]
  {
    RecordBeginsWithMagic(m, r);
    assert r[..k] == r[..|m.magic|][..k];
    assert r[k..|m.magic| - 1] == r[..|m.magic|][k..|m.magic| - 1];
  }

  lemma PairConcat(c0: seq<byte>, c1: seq<byte>)
    ensures Concat([c0, c1]) == c0 + c1
  {
    var last: seq<seq<byte>> := [c1];
    assert [c0, c1][1..] == last && last[1..] == [];
    Units(c1);
    assert Concat(last) == c1;
  }

  lemma TwoFeeds(m: Meter, c0: seq<byte>, c1: seq<byte>)
    ensures var a := Fed(m, FRESH, c0);
            FedAll(m, FRESH, [c0, c1]).1 == a.1 + Fed(m, a.0, c1).1
  {
    var last: seq<seq<byte>> := [c1];
    assert [c0, c1][1..] == last && last[1..] == [];
    var a := Fed(m, FRESH, c0);
    var b := Fed(m, a.0, c1);
    Units(b.1);
    assert FedAll(m, a.0, last).1 == b.1;
  }

  lemma DeliveredOnce(m: Meter, r: seq<byte>, k: nat)
    requires Measures(m) && IsRecord(m, r) && 1 <= k <= |r|
    ensures CutUp(m, r + r[k..]).records != [r] + [r]
  {
    RecordsFit(m, r[k..]);
    RecordBeginsWithMagic(m, r);
    CutsFirst(m, r, r[k..]);
    assert r[..|r|] == r && r[|r|..] == [];
    Units(r[k..]);
    var rest := CutUp(m, r[k..]).records;
    assert ([r] + rest)[1..] == rest;
    assert ([r] + [r])[1..] == [r];
    assert r !in rest;
  }

  lemma EchoPending(r: seq<byte>, k: nat, keep: nat)
    requires k <= keep <= |r| && r[|r| - k..] == r[..k]
    ensures (r + r[k..keep] + r[keep..])[|r| - k..] == r
  {
    assert (r + r[k..keep] + r[keep..])[|r| - k..] == r[|r| - k..] + r[k..keep] + r[keep..];
    assert r == r[..k] + r[k..keep] + r[keep..];
  }

  /** A buffer whose unread part is one record delivers that record and no more. */
  lemma LastRecord(m: Meter, b: Asm, r: seq<byte>)
    requires Measures(m) && IsRecord(m, r) && b.Ok() && b.Pending() == r
    ensures Drain(m, b).1 == [r]
  {
    RecordBeginsWithMagic(m, r);
    DrainEmits(m, b);
    var c := Compacted(b.(pos := b.pos + |r|));
    assert c.Pending() == [];
    DrainStops(m, c);
    Units([r]);
    assert r[..|r|] == r;
  }

  /** The second chunk goes behind what the first one left. */
  lemma EchoFed(m: Meter, r: seq<byte>, k: nat)
    requires 1 <= k < |m.magic| - 1 && |m.magic| <= |r|
    ensures var keep := |m.magic| - 1;
            Fed(m, AfterEcho(m, r, k), Echo(m, r, k)[1]).1 == Drain(m, Asm(r + r[k..keep] + r[keep..], |r| - k, 1)).1
  {
    hide Drain;
    hide Compacted;
  }

  lemma SecondDelivery(m: Meter, r: seq<byte>, k: nat)
    requires Measures(m) && IsRecord(m, r)
    requires 1 <= k < |m.magic| - 1 && r[|r| - k..] == r[..k]
    ensures Fed(m, AfterEcho(m, r, k), Echo(m, r, k)[1]).1 == [r]
  {
    hide *;
    NotShort(m, r);
    EchoFed(m, r, k);
    SecondDrain(m, r, k, |m.magic| - 1);
  }

  lemma SecondDrain(m: Meter, r: seq<byte>, k: nat, keep: nat)
    requires Measures(m) && IsRecord(m, r) && k <= keep <= |r| && r[|r| - k..] == r[..k]
    ensures Drain(m, Asm(r + r[k..keep] + r[keep..], |r| - k, 1)).1 == [r]
  {
    hide Measures;
    hide IsRecord;
    hide Drain;
    EchoPending(r, k, keep);
    LastRecord(m, Asm(r + r[k..keep] + r[keep..], |r| - k, 1), r);
  }

  // ----- the class -----

  class StreamAssembler {
    const m: Meter
    var m_buf: seq<byte>
    var m_pos: nat
    var m_resyncs: nat
    ghost var fed: seq<byte>            // every byte given to Feed since the last reset
    ghost var emitted: seq<seq<byte>>   // every record handed out since then

    ghost predicate Valid()
      reads this
    {
      && Measures(m)
      && m_pos <= |m_buf|
      && (Safe(m, fed) ==> Inv(m, fed, emitted, State()) && emitted == CutUp(m, fed).records)
    }

    ghost function State(): Asm
      reads this
    {
      Asm(m_buf, m_pos, m_resyncs)
    }

    constructor (m: Meter)
      requires Measures(m)
      ensures Valid() && this.m == m && State() == FRESH && fed == [] && emitted == []
    {
      this.m := m;
      m_buf, m_pos, m_resyncs := [], 0, 0;
      fed, emitted := [], [];
      FreshInv(m);
    }

    method Reset()
      requires Valid()
      modifies this
      ensures Valid() && State() == FRESH.(resyncs := old(m_resyncs)) && fed == [] && emitted == []
    {
      m_buf, m_pos := [], 0;
      fed, emitted := [], [];
      FreshInv(m);
      assert State().Pending() == FRESH.Pending();
    }

    method Compact()
      requires m_pos <= |m_buf|
      modifies `m_buf, `m_pos
      ensures State() == Compacted(old(State()))
    {
      if m_pos == 0 {
        return;
      }
      if m_pos >= |m_buf| {
        m_buf := [];
        m_pos := 0;
      } else if m_pos >= USB_BUF_SIZE {
        m_buf := m_buf[m_pos..];
        m_pos := 0;
      }
    }

    method Resync() returns (found: bool)
      requires m_pos < |m_buf|
      modifies `m_buf, `m_pos, `m_resyncs
      ensures (State(), found) == Resynced(m, old(State()))
    {
      hide First;
      m_resyncs := m_resyncs + 1;
      var at := FindPattern(m_buf, m_pos + 1, m.magic);
      if at >= |m_buf| {
        var keep := if |m.magic| > 0 then |m.magic| - 1 else 0;
        if |m_buf| > keep {
          m_pos := |m_buf| - keep;
        }
        Compact();
        return false;
      }
      m_pos := at;
      return true;
    }

    /** One turn of the parsing loop: whether to go on, and the record it delivers. */
    method Turn() returns (go: bool, records: seq<seq<byte>>)
      requires m_pos <= |m_buf|
      modifies `m_buf, `m_pos, `m_resyncs
      ensures m_pos <= |m_buf|
      ensures go ==> |m_buf| - m_pos < old(|m_buf| - m_pos)
      ensures go ==> Drain(m, old(State())) == (Drain(m, State()).0, records + Drain(m, State()).1)
      ensures !go ==> Drain(m, old(State())) == (State(), []) && records == []
    {
      hide Drain;
      ghost var a := State();
      records := [];
      var avail := |m_buf| - m_pos;
      if avail == 0 {
        DrainStops(m, a);
        return false, [];
      }
      var s := m_buf[m_pos..];
      assert s == a.Pending();
      // Bytes that already contradict the magic are not shown to the sizer.
      var lost := |m.magic| > 0 && avail >= |m.magic| && s[..|m.magic|] != m.magic;
      var need := if lost then BAD_RECORD else m.sizer(s);
      if need == BAD_RECORD || need > m.maxRecord {
        DrainResyncs(m, a);
        go := Resync();
        Units(Drain(m, State()).1);
      } else if need == NEED_MORE || avail < need {
        DrainStops(m, a);
        go := false;
      } else {
        DrainEmits(m, a);
        go, records := true, [s[..need]];
        Skip(need);
      }
    }

    method Skip(n: nat)
      requires m_pos + n <= |m_buf|
      modifies `m_buf, `m_pos
      ensures State() == Compacted(old(State()).(pos := old(m_pos) + n))
    {
      m_pos := m_pos + n;
      Compact();
    }

    method Loop() returns (records: seq<seq<byte>>)
      requires m_pos <= |m_buf|
      modifies `m_buf, `m_pos, `m_resyncs
      ensures (State(), records) == Drain(m, old(State()))
    {
      ghost var whole := Drain(m, State());
      Units(whole.1);
      records := [];
      var go := true;
      while go
        invariant m_pos <= |m_buf|
        invariant go ==> whole == (Drain(m, State()).0, records + Drain(m, State()).1)
        invariant !go ==> whole == (State(), records)
        decreases go, |m_buf| - m_pos
      {
        var more;
        ghost var before := records;
        go, more := Turn();
        records := records + more;
        Assoc(before, more, Drain(m, State()).1);
        Units(before);
      }
    }

    method Feed(data: seq<byte>) returns (records: seq<seq<byte>>)
      requires Valid()
      modifies this
      ensures Valid()
      ensures fed == old(fed) + data && emitted == old(emitted) + records
      ensures (State(), records) == Fed(m, old(State()), data)
      ensures Safe(m, fed) ==> emitted == CutUp(m, fed).records
    {
      if Safe(m, fed + data) {
        SafeBefore(m, fed, data);
        FedKeeps(m, fed, emitted, State(), data);
      }
      m_buf := m_buf + data;
      records := Loop();
      Compact();
      fed := fed + data;
      emitted := emitted + records;
    }
  }
}
