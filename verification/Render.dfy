/** Whole bodies and blobs: what a replay issues, and why a recording replays as itself. */
module Render {
  import opened Bytes
  import opened DrawCalls
  import opened DrawReplay

  datatype Outcome = Outcome(calls: seq<Call<byte>>, error: DRError)

  /** The decode loop from offset `i`; `i` only grows and never passes the end of the body. */
  function Replay(s: seq<byte>, i: nat): (r: Outcome)
    requires i <= |s|
    decreases |s| - i
  {
    match DecodeAt(s, i)
    case End => Outcome([], Ok)
    case Fail(e) => Outcome([], e)
    case Cmd(c, next) => var r := Replay(s, next); Outcome([c] + r.calls, r.error)
  }

  // ----- prefix monotonicity -----

  /** Reads of `a` are reads of any longer stream. */
  lemma SameReads(a: seq<byte>, b: seq<byte>, i: nat)
    requires i < |a|
    ensures (a + b)[i] == a[i]
    ensures i + 2 <= |a| ==> U16At(a + b, i) == U16At(a, i) && I16At(a + b, i) == I16At(a, i)
    ensures i + 4 <= |a| ==> U32At(a + b, i) == U32At(a, i)
  {
  }

  lemma SameSlice(a: seq<byte>, b: seq<byte>, i: nat, j: nat)
    requires i <= j <= |a|
    ensures (a + b)[i..j] == a[i..j]
  {
  }

  lemma SameU16s(a: seq<byte>, b: seq<byte>, i: nat, n: nat)
    requires i + 2 * n <= |a|
    ensures U16sAt(a + b, i, n) == U16sAt(a, i, n)
  {
    forall k | 0 <= k < n ensures U16sAt(a + b, i, n)[k] == U16sAt(a, i, n)[k] {
      SameReads(a, b, i + 2 * k);
    }
  }

  lemma SameU32s(a: seq<byte>, b: seq<byte>, i: nat, n: nat)
    requires i + 4 * n <= |a|
    ensures U32sAt(a + b, i, n) == U32sAt(a, i, n)
  {
    forall k | 0 <= k < n ensures U32sAt(a + b, i, n)[k] == U32sAt(a, i, n)[k] {
      SameReads(a, b, i + 4 * k);
    }
  }

  lemma StableGeometry(a: seq<byte>, b: seq<byte>, op: byte, j: nat)
    requires j <= |a| && DecodeGeometry(a, op, j).Cmd?
    ensures DecodeGeometry(a + b, op, j) == DecodeGeometry(a, op, j)
  {
  }

  lemma StableState(a: seq<byte>, b: seq<byte>, op: byte, j: nat)
    requires j <= |a| && DecodeState(a, op, j).Cmd?
    ensures DecodeState(a + b, op, j) == DecodeState(a, op, j)
  {
  }

  lemma StableWriteText(a: seq<byte>, b: seq<byte>, j: nat)
    requires j <= |a| && DecodeText(a, 0x36, j).Cmd?
    ensures DecodeText(a + b, 0x36, j) == DecodeText(a, 0x36, j)
  {
    hide CStr;
    hide U16At;
    hide U32At;
    hide I16At;
    SameReads(a, b, j);
    SameSlice(a, b, j + 2, j + 2 + U16At(a, j));
  }

  lemma StableText(a: seq<byte>, b: seq<byte>, op: byte, j: nat)
    requires j <= |a| && DecodeText(a, op, j).Cmd?
    ensures DecodeText(a + b, op, j) == DecodeText(a, op, j)
  {
    hide CStr;
    hide Signed;
    if op == 0x36 {
      StableWriteText(a, b, j);
      hide DecodeText;
    } else if op == 0x38 {
      SameReads(a, b, j + 16);
      SameSlice(a, b, j + 18, j + 18 + U16At(a, j + 16));
    }
  }

  lemma StablePixels(a: seq<byte>, b: seq<byte>, op: byte, x: i16, y: i16, w: i16, h: i16, p: nat)
    requires p <= |a| && w > 0 && h > 0 && DecodePixels(a, op, x, y, w, h, p).Cmd?
    ensures DecodePixels(a + b, op, x, y, w, h, p) == DecodePixels(a, op, x, y, w, h, p)
  {
    var area, mono := Area(w, h), MonoBytes(w, h);
    if op == 0x42 {
      SameSlice(a, b, p, p + area);
    } else if op == 0x43 {
      SameSlice(a, b, p, p + area);
      SameSlice(a, b, p + area, p + area + mono);
    } else if op == 0x44 {
      SameU32s(a, b, p, area);
    } else if op == 0x45 {
      SameU32s(a, b, p, area);
      SameSlice(a, b, p + 4 * area, p + 4 * area + mono);
    } else if op == 0x46 {
      SameU16s(a, b, p, area);
    }
  }

  lemma SameFour(a: seq<byte>, b: seq<byte>, j: nat)
    requires j + 8 <= |a|
    ensures I16At(a + b, j) == I16At(a, j) && I16At(a + b, j + 2) == I16At(a, j + 2)
    ensures I16At(a + b, j + 4) == I16At(a, j + 4) && I16At(a + b, j + 6) == I16At(a, j + 6)
  {
  }

  lemma StableMono(a: seq<byte>, b: seq<byte>, op: byte, j: nat)
    requires j <= |a| && (op == 0x40 || op == 0x41) && DecodeBitmap(a, op, j).Cmd?
    ensures DecodeBitmap(a + b, op, j) == DecodeBitmap(a, op, j)
  {
    SameFour(a, b, j);
    SameReads(a, b, j + 8);
    var need := MonoBytes(I16At(a, j + 4), I16At(a, j + 6));
    if op == 0x40 {
      SameReads(a, b, j + 12);
      SameSlice(a, b, j + 16, j + 16 + need);
    } else {
      SameSlice(a, b, j + 12, j + 12 + need);
    }
  }

  lemma StableTriangle(a: seq<byte>, b: seq<byte>, j: nat)
    requires j <= |a| && DecodeBitmap(a, 0x47, j).Cmd?
    ensures DecodeBitmap(a + b, 0x47, j) == DecodeBitmap(a, 0x47, j)
  {
    SameFour(a, b, j);
    SameFour(a, b, j + 8);
    SameU32s(a, b, j + 16, Area(I16At(a, j + 12), I16At(a, j + 14)));
  }

  lemma StableBitmap(a: seq<byte>, b: seq<byte>, op: byte, j: nat)
    requires j <= |a| && DecodeBitmap(a, op, j).Cmd?
    ensures DecodeBitmap(a + b, op, j) == DecodeBitmap(a, op, j)
  {
    if op == 0x40 || op == 0x41 {
      StableMono(a, b, op, j);
    } else if op == 0x47 {
      StableTriangle(a, b, j);
    } else {
      SameFour(a, b, j);
      StablePixels(a, b, op, I16At(a, j), I16At(a, j + 2), I16At(a, j + 4), I16At(a, j + 6), j + 8);
    }
  }

  /** A command, or the end, once decoded stays what it is when more bytes follow. */
  lemma StableDecode(a: seq<byte>, b: seq<byte>, i: nat)
    requires i <= |a| && !DecodeAt(a, i).Fail?
    ensures DecodeAt(a + b, i) == DecodeAt(a, i)
  {
    var op, j := a[i], i + 1;
    SameReads(a, b, i);
    if op == OP_END {
    } else if op <= 0x0E {
      StableGeometry(a, b, op, j);
    } else if 0x30 <= op <= 0x38 {
      StableText(a, b, op, j);
    } else if 0x40 <= op <= 0x47 {
      StableBitmap(a, b, op, j);
    } else {
      StableState(a, b, op, j);
    }
  }

  /** The calls issued for a body are a prefix of those issued for any longer body. */
  lemma {:induction false} PrefixMonotone(a: seq<byte>, b: seq<byte>, i: nat)
    requires i <= |a|
    ensures Replay(a, i).calls <= Replay(a + b, i).calls
    decreases |a| - i
  {
    if !DecodeAt(a, i).Fail? {
      StableDecode(a, b, i);
      if DecodeAt(a, i).Cmd? {
        PrefixMonotone(a, b, DecodeAt(a, i).next);
      }
    }
  }

  // ----- recordings -----

  /** Each block, wherever it stands, is decoded as its command. */
  ghost predicate Reads(cmds: seq<Call<byte>>, blocks: seq<seq<byte>>) {
    |cmds| == |blocks| && forall k, s, i: nat :: 0 <= k < |cmds| && Has(s, i, blocks[k]) ==>
      ReadsAt(cmds[k], s, i, blocks[k])
  }

  ghost predicate ReadsAt(c: Call<byte>, s: seq<byte>, i: nat, block: seq<byte>)
    requires Has(s, i, block)
  {
    DecodeAt(s, i) == Cmd(c, i + |block|)
  }

  lemma RecordingReads(cmds: seq<Call<byte>>)
    requires AllEncodable(cmds)
    ensures Reads(cmds, Blocks(cmds))
  {
    var blocks := Blocks(cmds);
    forall k, s, i: nat | 0 <= k < |cmds| && Has(s, i, blocks[k]) ensures ReadsAt(cmds[k], s, i, blocks[k]) {
      ReadsBack(cmds[k], s, i);
    }
  }

  lemma DecodesAt(cmds: seq<Call<byte>>, blocks: seq<seq<byte>>, k: nat, n: nat, s: seq<byte>)
    requires Reads(cmds, blocks) && k < n <= |blocks| && Has(s, 0, Concat(blocks[..n]))
    ensures Offset(blocks, k) < Offset(blocks, k + 1) <= |s|
    ensures DecodeAt(s, Offset(blocks, k)) == Cmd(cmds[k], Offset(blocks, k + 1))
  {
    BlockAt(blocks, k, n, s);
    assert ReadsAt(cmds[k], s, Offset(blocks, k), blocks[k]);
  }

  /** A body that begins with `n` commands replays them from the `k`-th on and goes on behind them. */
  lemma {:induction false} ReplaysFrom(cmds: seq<Call<byte>>, blocks: seq<seq<byte>>, k: nat, n: nat, s: seq<byte>)
    requires Reads(cmds, blocks) && k <= n <= |blocks| && Has(s, 0, Concat(blocks[..n]))
    requires Offset(blocks, k) <= |s|
    ensures Offset(blocks, n) <= |s|
    ensures var r := Replay(s, Offset(blocks, n));
            Replay(s, Offset(blocks, k)) == Outcome(cmds[k..n] + r.calls, r.error)
    decreases n - k
  {
    var r := Replay(s, Offset(blocks, n));
    if k == n {
      Units(r.calls);
    } else {
      DecodesAt(cmds, blocks, k, n, s);
      ReplaysFrom(cmds, blocks, k + 1, n, s);
      assert cmds[k..n] == [cmds[k]] + cmds[k + 1..n];
      Assoc([cmds[k]], cmds[k + 1..n], r.calls);
    }
  }

  lemma ReplaysBlocks(cmds: seq<Call<byte>>, blocks: seq<seq<byte>>)
    requires Reads(cmds, blocks)
    ensures Replay(Concat(blocks) + [OP_END], 0) == Outcome(cmds, Ok)
  {
    var b := Concat(blocks);
    var s := b + [OP_END];
    SliceHas(s, 0, b);
    assert blocks[..|blocks|] == blocks;
    ReplaysFrom(cmds, blocks, 0, |blocks|, s);
    assert cmds[0..|cmds|] == cmds;
    assert s[|b|] == OP_END;
    Units(cmds);
  }

  /** A recording and its end marker replay as the recording. */
  lemma ReplaysItself(cmds: seq<Call<byte>>)
    requires AllEncodable(cmds)
    ensures Replay(EncodeAll(cmds) + [OP_END], 0) == Outcome(cmds, Ok)
  {
    RecordingReads(cmds);
    ReplaysBlocks(cmds, Blocks(cmds));
  }

  // ----- truncated recordings -----

  /** How many blocks lie wholly within the first `n` bytes. */
  function WholeWithin(blocks: seq<seq<byte>>, n: nat): (k: nat)
    ensures k <= |blocks| && Offset(blocks, k) <= n
    ensures k < |blocks| ==> n < Offset(blocks, k + 1)
  {
    WholeFrom(blocks, n, 0)
  }

  function WholeFrom(blocks: seq<seq<byte>>, n: nat, k: nat): (r: nat)
    requires k <= |blocks| && Offset(blocks, k) <= n
    ensures r <= |blocks| && Offset(blocks, r) <= n
    ensures r < |blocks| ==> n < Offset(blocks, r + 1)
    decreases |blocks| - k
  {
    if k < |blocks| && Offset(blocks, k + 1) <= n then WholeFrom(blocks, n, k + 1) else k
  }

  /** A recording cut short, anywhere, replays exactly its whole commands and never reports success. */
  lemma CutShort(cmds: seq<Call<byte>>, n: nat)
    requires AllEncodable(cmds) && n <= |EncodeAll(cmds)|
    ensures var r := Replay(EncodeAll(cmds)[..n], 0);
            r.calls == cmds[..WholeWithin(Blocks(cmds), n)] && r.error != Ok
  {
    RecordingReads(cmds);
    BlocksCutShort(cmds, Blocks(cmds), n);
  }

  lemma BlocksCutShort(cmds: seq<Call<byte>>, blocks: seq<seq<byte>>, n: nat)
    requires Reads(cmds, blocks) && n <= |Concat(blocks)|
    ensures var r := Replay(Concat(blocks)[..n], 0);
            r.calls == cmds[..WholeWithin(blocks, n)] && r.error != Ok
  {
    var s, k := Concat(blocks)[..n], WholeWithin(blocks, n);
    HeadHas(blocks, k, n);
    ReplaysFrom(cmds, blocks, 0, k, s);
    NextFails(cmds, blocks, n, k);
    Units(cmds[..k]);
  }

  lemma NextFails(cmds: seq<Call<byte>>, blocks: seq<seq<byte>>, n: nat, k: nat)
    requires Reads(cmds, blocks) && k <= |blocks| && Offset(blocks, k) <= n <= |Concat(blocks)|
    requires k < |blocks| ==> n < Offset(blocks, k + 1)
    ensures DecodeAt(Concat(blocks)[..n], Offset(blocks, k)).Fail?
  {
    var all, i := Concat(blocks), Offset(blocks, k);
    assert blocks[..|blocks|] == blocks;
    if k < |blocks| {
      if !DecodeAt(all[..n], i).Fail? {
        StableDecode(all[..n], all[n..], i);
        assert all[..n] + all[n..] == all;
        assert all[..|all|] == all;
        HeadHas(blocks, |blocks|, |all|);
        DecodesAt(cmds, blocks, k, |blocks|, all);
      }
    }
  }
}
