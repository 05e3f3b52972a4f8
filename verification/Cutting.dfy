/** What cutting a stream finds: records that stand in it, apart from each other, and no other. */
module Cutting {
  import opened Bytes
  import opened DrawReplay
  import opened Records
  import opened Blob
  import F = Framing

  /** A record stands in `s` at `i`: the sizer, shown the bytes from there on, says so, and it is within bounds. */
  predicate Stands(m: Meter, s: seq<byte>, i: nat, r: seq<byte>) {
    && i + |r| <= |s| && s[i..i + |r|] == r
    && r != [] && m.sizer(s[i..]) == |r| != BAD_RECORD && |r| <= m.maxRecord
  }

  ghost predicate StandAt(m: Meter, s: seq<byte>, at: seq<nat>, records: seq<seq<byte>>) {
    && |at| == |records|
    && (forall k :: 0 <= k < |at| ==> Stands(m, s, at[k], records[k]))
    && (forall j, k :: 0 <= j < k < |at| ==> at[j] + |records[j]| <= at[k])
  }

  /** Byte `i` belongs to one of them. */
  ghost predicate Inside(at: seq<nat>, records: seq<seq<byte>>, i: nat)
    requires |at| == |records|
  {
    exists k :: 0 <= k < |at| && at[k] <= i < at[k] + |records[k]|
  }

  /** Every record that stands at one of the first `n` bytes of `s` begins inside one of those at `at`. */
  ghost predicate NoneMissed(m: Meter, s: seq<byte>, at: seq<nat>, records: seq<seq<byte>>, n: int)
    requires |at| == |records|
  {
    forall i: nat, r :: i < n && Stands(m, s, i, r) ==> Inside(at, records, i)
  }

  /** What is left to wait for: nothing, or the beginning of what may become a record. */
  predicate RestWaits(m: Meter, s: seq<byte>, rest: seq<byte>) {
    && |rest| <= |s| && rest == s[|s| - |rest|..]
    && (rest == [] || (!Dead(m, rest) && (m.sizer(rest) == NEED_MORE || |rest| < m.sizer(rest))))
  }

  ghost predicate FoundIn(m: Meter, s: seq<byte>, at: seq<nat>, c: Cut) {
    StandAt(m, s, at, c.records) && RestWaits(m, s, c.rest) && NoneMissed(m, s, at, c.records, |s| - |c.rest|)
  }

  lemma StandsShifted(m: Meter, s: seq<byte>, d: nat, i: nat, r: seq<byte>)
    requires d <= |s|
    ensures Stands(m, s[d..], i, r) <==> Stands(m, s, i + d, r)
  {
    if i + |r| <= |s[d..]| {
      assert s[d..][i..i + |r|] == s[i + d..i + d + |r|];
      assert s[d..][i..] == s[i + d..];
    }
  }

  lemma AllShifted(m: Meter, s: seq<byte>, d: nat, at: seq<nat>, records: seq<seq<byte>>)
    requires d <= |s| && StandAt(m, s[d..], at, records)
    ensures StandAt(m, s, F.Shifted(at, d), records)
  {
    hide Stands;
    forall k | 0 <= k < |at| ensures Stands(m, s, F.Shifted(at, d)[k], records[k]) {
      StandsShifted(m, s, d, at[k], records[k]);
    }
  }

  lemma InsideShifted(at: seq<nat>, records: seq<seq<byte>>, d: nat, i: nat)
    requires |at| == |records| && Inside(at, records, i)
    ensures Inside(F.Shifted(at, d), records, i + d)
  {
    var k :| 0 <= k < |at| && at[k] <= i < at[k] + |records[k]|;
    assert F.Shifted(at, d)[k] == at[k] + d;
  }

  lemma FirstStands(m: Meter, s: seq<byte>)
    requires s != []
    ensures Dead(m, s) ==> forall r :: !Stands(m, s, 0, r)
    ensures !Dead(m, s) && 0 < m.sizer(s) <= |s| ==> Stands(m, s, 0, s[..m.sizer(s)])
  {
    assert s[0..] == s;
  }

  lemma RestBehind(m: Meter, s: seq<byte>, d: nat, rest: seq<byte>)
    requires d <= |s| && RestWaits(m, s[d..], rest)
    ensures RestWaits(m, s, rest)
  {
    assert s[d..][|s[d..]| - |rest|..] == s[|s| - |rest|..];
  }

  lemma MissedBehindByte(m: Meter, s: seq<byte>, at: seq<nat>, records: seq<seq<byte>>, n: int)
    requires s != [] && Dead(m, s) && |at| == |records| && NoneMissed(m, s[1..], at, records, n)
    ensures NoneMissed(m, s, F.Shifted(at, 1), records, n + 1)
  {
    FirstStands(m, s);
    hide Dead;
    hide Stands;
    forall i: nat, r | i < n + 1 && Stands(m, s, i, r) ensures Inside(F.Shifted(at, 1), records, i) {
      StandsShifted(m, s, 1, i - 1, r);
      InsideShifted(at, records, 1, i - 1);
    }
  }

  lemma FoundBehindByte(m: Meter, s: seq<byte>, at: seq<nat>, c: Cut)
    requires s != [] && Dead(m, s) && FoundIn(m, s[1..], at, c)
    ensures FoundIn(m, s, F.Shifted(at, 1), c)
  {
    AllShifted(m, s, 1, at, c.records);
    MissedBehindByte(m, s, at, c.records, |s[1..]| - |c.rest|);
    RestBehind(m, s, 1, c.rest);
    hide NoneMissed;
    hide RestWaits;
    hide StandAt;
  }

  lemma StandBehind(m: Meter, s: seq<byte>, at: seq<nat>, r: seq<byte>, records: seq<seq<byte>>)
    requires Stands(m, s, 0, r) && StandAt(m, s[|r|..], at, records)
    ensures StandAt(m, s, [0] + F.Shifted(at, |r|), [r] + records)
  {
    AllShifted(m, s, |r|, at, records);
    hide Stands;
  }

  lemma InsideBehind(at: seq<nat>, r: seq<byte>, records: seq<seq<byte>>, i: nat)
    requires |at| == |records|
    ensures i < |r| ==> Inside([0] + at, [r] + records, i)
    ensures Inside(at, records, i) ==> Inside([0] + at, [r] + records, i)
  {
    var all, more := [0] + at, [r] + records;
    assert all[0] == 0 && more[0] == r;
    if Inside(at, records, i) {
      var k :| 0 <= k < |at| && at[k] <= i < at[k] + |records[k]|;
      assert all[k + 1] == at[k] && more[k + 1] == records[k];
    }
  }

  lemma MissedBehindRecord(m: Meter, s: seq<byte>, at: seq<nat>, r: seq<byte>, records: seq<seq<byte>>, n: int)
    requires |r| <= |s| && |at| == |records| && NoneMissed(m, s[|r|..], at, records, n)
    ensures NoneMissed(m, s, [0] + F.Shifted(at, |r|), [r] + records, |r| + n)
  {
    var d := |r|;
    hide Stands;
    hide Inside;
    forall i: nat, q | i < d + n && Stands(m, s, i, q) ensures Inside([0] + F.Shifted(at, d), [r] + records, i) {
      InsideBehind(F.Shifted(at, d), r, records, i);
      if i >= d {
        StandsShifted(m, s, d, i - d, q);
        InsideShifted(at, records, d, i - d);
      }
    }
  }

  lemma FoundBehindRecord(m: Meter, s: seq<byte>, at: seq<nat>, r: seq<byte>, c: Cut)
    requires |r| <= |s| && Stands(m, s, 0, r) && FoundIn(m, s[|r|..], at, c)
    ensures FoundIn(m, s, [0] + F.Shifted(at, |r|), Cut([r] + c.records, c.rest))
  {
    StandBehind(m, s, at, r, c.records);
    MissedBehindRecord(m, s, at, r, c.records, |s[|r|..]| - |c.rest|);
    RestBehind(m, s, |r|, c.rest);
    hide Stands;
    hide StandAt;
    hide NoneMissed;
    hide RestWaits;
  }

  lemma FoundNothing(m: Meter, s: seq<byte>)
    requires s == [] || (!Dead(m, s) && (m.sizer(s) == NEED_MORE || |s| < m.sizer(s)))
    ensures FoundIn(m, s, [], Cut([], s))
  {
    assert s[0..] == s;
  }

  /** The cutter finds records that stand in the stream, apart from each other, and misses none outside them. */
  lemma {:induction false} CutFinds(m: Meter, s: seq<byte>) returns (at: seq<nat>)
    ensures FoundIn(m, s, at, CutUp(m, s))
    decreases |s|
  {
    hide FoundIn;
    hide Stands;
    at := [];
    if s == [] {
      FoundNothing(m, s);
    } else if Dead(m, s) {
      at := CutFinds(m, s[1..]);
      FoundBehindByte(m, s, at, CutUp(m, s[1..]));
      at := F.Shifted(at, 1);
    } else {
      var n := m.sizer(s);
      if n == NEED_MORE || |s| < n {
        FoundNothing(m, s);
      } else {
        at := CutFinds(m, s[n..]);
        FirstStands(m, s);
        FoundBehindRecord(m, s, at, s[..n], CutUp(m, s[n..]));
        at := [0] + F.Shifted(at, n);
      }
    }
  }

  // ----- recordings among the bytes -----

  /** A recording stands in `s` at `i`: magic, a version known, a length within bounds, and that many bytes. */
  predicate BlobAt(s: seq<byte>, i: nat, b: seq<byte>) {
    && i + |b| <= |s| && s[i..i + |b|] == b
    && DR_HEADER_SIZE <= |b| <= F.MAX_FRAME_SIZE
    && b[..4] == DR_MAGIC && U16At(b, 4) <= DR_VERSION && |b| == DR_HEADER_SIZE + U32At(b, 16)
  }

  lemma SizedByBytes(s: seq<byte>)
    ensures RecordSize(s) == NEED_MORE <==> |s| < DR_HEADER_SIZE && !Contradicts(s, DR_MAGIC)
    ensures RecordSize(s) !in {NEED_MORE, BAD_RECORD} ==>
              |s| >= DR_HEADER_SIZE && s[..4] == DR_MAGIC && U16At(s, 4) <= DR_VERSION
    ensures |s| >= DR_HEADER_SIZE && s[..4] == DR_MAGIC && U16At(s, 4) <= DR_VERSION ==>
              RecordSize(s) == DR_HEADER_SIZE + U32At(s, 16) < BAD_RECORD
  {
    hide U16At;
    hide U32At;
    if |s| >= 4 {
      assert s[..4] == DR_MAGIC <==> !Contradicts(s, DR_MAGIC) by {
        assert forall k :: 0 <= k < 4 ==> s[..4][k] == s[k];
      }
    }
  }

  /** What the recordings' cutter takes for a record is told by its bytes alone. */
  lemma StandsAreBlobs(s: seq<byte>, i: nat, b: seq<byte>)
    ensures Stands(DR, s, i, b) <==> BlobAt(s, i, b)
  {
    if i + |b| <= |s| && s[i..i + |b|] == b {
      var t := s[i..];
      SizedByBytes(t);
      assert t[..|b|] == b;
      if |b| >= DR_HEADER_SIZE {
        assert t[..4] == b[..4] && U16At(t, 4) == U16At(b, 4) && U32At(t, 16) == U32At(b, 16);
      }
    }
  }
}
