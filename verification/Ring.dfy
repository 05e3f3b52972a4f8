/** usbd's byte ring: free-running 32-bit head and tail over a buffer whose size divides 2^32. */
module Ring {
  import opened Bytes

  // ----- remainders -----

  lemma MulAtLeast(c: nat, k: nat)
    requires k >= 1
    ensures c * k >= c
  {
  }

  lemma ModUnique(x: int, cap: nat, q: int, r: nat)
    requires r < cap && x == cap * q + r
    ensures x % cap == r
  {
    var p := x / cap;
    assert x == cap * p + x % cap;
    assert cap * (q - p) == cap * q - cap * p;
    if q > p {
      MulAtLeast(cap, q - p);
    } else if q < p {
      MulAtLeast(cap, p - q);
    }
  }

  lemma ModPlus(q: int, cap: nat, x: int)
    requires cap > 0
    ensures (cap * q + x) % cap == x % cap
  {
    var p := x / cap;
    assert x == cap * p + x % cap;
    assert cap * q + x == cap * (q + p) + x % cap by {
      assert cap * (q + p) == cap * q + cap * p;
    }
    ModUnique(cap * q + x, cap, q + p, x % cap);
  }

  /** The offset of a free-running 32-bit counter survives its wrap exactly when the capacity divides 2^32. */
  lemma OffsetSurvivesWrap(cap: nat)
    requires 0 < cap < TWO32
    ensures (forall x: nat :: x % TWO32 % cap == x % cap) <==> TWO32 % cap == 0
  {
    if TWO32 % cap == 0 {
      forall x: nat ensures x % TWO32 % cap == x % cap {
        WrapMod(x, cap);
      }
    } else {
      assert TWO32 % TWO32 % cap == 0;
    }
  }

  lemma WrapMod(x: nat, cap: nat)
    requires 0 < cap && TWO32 % cap == 0
    ensures x % TWO32 % cap == x % cap
  {
    var m, q := TWO32 / cap, x / TWO32;
    assert TWO32 == cap * m;
    assert x == TWO32 * q + x % TWO32;
    assert TWO32 * q == cap * (m * q) by {
      assert cap * m * q == cap * (m * q);
    }
    ModPlus(m * q, cap, x % TWO32);
  }

  /** `j` places on from counter `c`, as an offset. */
  lemma OffsetAdd(c: nat, j: nat, cap: nat)
    requires cap > 0 && j <= cap
    ensures (c + j) % cap == if c % cap + j < cap then c % cap + j else c % cap + j - cap
  {
    var q, r := c / cap, c % cap;
    assert c == cap * q + r;
    if r + j < cap {
      ModUnique(c + j, cap, q, r + j);
    } else {
      assert cap * (q + 1) == cap * q + cap;
      ModUnique(c + j, cap, q + 1, r + j - cap);
    }
  }

  lemma OffsetsDiffer(a: nat, b: nat, cap: nat)
    requires cap > 0 && a < b < a + cap
    ensures a % cap != b % cap
  {
    OffsetAdd(a, b - a, cap);
  }

  // ----- windows over a circular buffer -----

  /** Where the byte numbered `c` lives. */
  function Slot(c: nat, cap: nat): (k: nat)
    requires cap > 0
    ensures k < cap
  {
    c % cap
  }

  /** Bytes `from` to `to` of the stream. */
  function Window(b: seq<byte>, from: nat, to: nat): (w: seq<byte>)
    requires |b| > 0 && from <= to
    ensures |w| == to - from
  {
    seq(to - from, k requires 0 <= k < to - from => b[Slot(from + k, |b|)])
  }

  /** `after` is `before` with `data` laid down from offset `pos` on, wrapping once. */
  ghost predicate Laid(before: seq<byte>, after: seq<byte>, data: seq<byte>, pos: nat) {
    |after| == |before| && forall k :: 0 <= k < |before| ==> after[k] == LaidByte(before, data, pos, k)
  }

  function LaidByte(before: seq<byte>, data: seq<byte>, pos: nat, k: nat): byte
    requires k < |before|
  {
    if pos <= k < pos + |data| then data[k - pos]
    else if pos <= k + |before| < pos + |data| then data[k + |before| - pos]
    else before[k]
  }

  lemma LaidData(before: seq<byte>, after: seq<byte>, data: seq<byte>, wrote: nat, j: nat)
    requires |before| > 0 && j < |data| <= |before| && Laid(before, after, data, Slot(wrote, |before|))
    ensures after[Slot(wrote + j, |before|)] == data[j]
  {
    OffsetAdd(wrote, j, |before|);
  }

  lemma LaidElsewhere(before: seq<byte>, after: seq<byte>, data: seq<byte>, wrote: nat, c: nat)
    requires |before| > 0 && c < wrote && wrote + |data| <= c + |before|
    requires Laid(before, after, data, Slot(wrote, |before|))
    ensures after[Slot(c, |before|)] == before[Slot(c, |before|)]
  {
    var cap, k, pos := |before|, Slot(c, |before|), Slot(wrote, |before|);
    if pos <= k < pos + |data| {
      OffsetAdd(wrote, k - pos, cap);
      OffsetsDiffer(c, wrote + (k - pos), cap);
    } else if pos <= k + cap < pos + |data| {
      OffsetAdd(wrote, k + cap - pos, cap);
      OffsetsDiffer(c, wrote + (k + cap - pos), cap);
    }
  }

  /** Laying data down at the writer's offset appends it to the window. */
  lemma WindowGrows(before: seq<byte>, after: seq<byte>, data: seq<byte>, took: nat, wrote: nat)
    requires |before| > 0 && took <= wrote && wrote + |data| <= took + |before|
    requires Laid(before, after, data, Slot(wrote, |before|))
    ensures Window(after, took, wrote + |data|) == Window(before, took, wrote) + data
  {
    var w := Window(after, took, wrote + |data|);
    forall k: nat | k < |w| ensures w[k] == (Window(before, took, wrote) + data)[k] {
      if took + k < wrote {
        LaidElsewhere(before, after, data, wrote, took + k);
      } else {
        LaidData(before, after, data, wrote, took + k - wrote);
      }
    }
  }

  /** Taking bytes off the front of a window. */
  lemma WindowShrinks(b: seq<byte>, took: nat, wrote: nat, n: nat)
    requires |b| > 0 && took + n <= wrote
    ensures Window(b, took, wrote)[..n] == Window(b, took, took + n)
    ensures Window(b, took, wrote)[n..] == Window(b, took + n, wrote)
  {
    var w := Window(b, took, wrote);
    forall k: nat | k < wrote - took - n ensures w[n..][k] == Window(b, took + n, wrote)[k] {
      assert took + (n + k) == took + n + k;
    }
  }

  /** The oldest `n` bytes lie in one stretch, or in two around the end. */
  lemma WindowIsSlices(b: seq<byte>, took: nat, n: nat)
    requires 0 < |b| && n <= |b|
    ensures var pos, cap := Slot(took, |b|), |b|;
            Window(b, took, took + n) ==
              if pos + n <= cap then b[pos..pos + n] else b[pos..] + b[..n - (cap - pos)]
  {
    var pos, cap, w := Slot(took, |b|), |b|, Window(b, took, took + n);
    if pos + n <= cap {
      forall k: nat | k < n ensures w[k] == b[pos..pos + n][k] {
        OffsetAdd(took, k, cap);
        assert w[k] == b[Slot(took + k, cap)];
      }
    } else {
      var two := b[pos..] + b[..n - (cap - pos)];
      forall k: nat | k < n ensures w[k] == two[k] {
        OffsetAdd(took, k, cap);
        assert w[k] == b[Slot(took + k, cap)];
      }
    }
  }

  /** Twice the capacity still fits 32 bits, so `offset + length` does not overflow. */
  lemma CapIsHalf(cap: nat)
    requires 0 < cap < TWO32 && TWO32 % cap == 0
    ensures 2 * cap <= TWO32
  {
    var m := TWO32 / cap;
    assert TWO32 == cap * m;
    assert m != 0 && m != 1;
    assert cap * m == cap * 2 + cap * (m - 2);
  }

  // ----- the buffer -----

  /** memcpy into an array. */
  method MemCpy(dst: array<byte>, at: nat, src: seq<byte>)
    requires at + |src| <= dst.Length
    modifies dst
    ensures forall k :: 0 <= k < dst.Length ==>
      dst[k] == if at <= k < at + |src| then src[k - at] else old(dst[k])
  {
    for i := 0 to |src|
      invariant forall k :: 0 <= k < dst.Length ==>
        dst[k] == if at <= k < at + i then src[k - at] else old(dst[k])
    {
      dst[at + i] := src[i];
    }
  }

  /** A wake of the waiting reader: what the writer has offered since, and whether the time was up. */
  datatype Wake = Wake(data: seq<byte>, timedOut: bool)

  /** What fits of `data` behind `held` in a ring of `cap` bytes. */
  function Fitting(held: nat, data: seq<byte>, cap: nat): (f: seq<byte>)
    requires held <= cap
    ensures f <= data && held + |f| <= cap
  {
    if |data| <= cap - held then data else data[..cap - held]
  }

  /** The ring's bytes once the writes of `wakes` are in. */
  function Filled(bytes: seq<byte>, wakes: seq<Wake>, cap: nat): (r: seq<byte>)
    requires |bytes| <= cap
    ensures bytes <= r && |r| <= cap
  {
    if wakes == [] then bytes
    else
      var before := Filled(bytes, wakes[..|wakes| - 1], cap);
      before + Fitting(|before|, wakes[|wakes| - 1].data, cap)
  }

  /** Up to its last wake the reader found too little, with time left. */
  ghost predicate KeptWaiting(bytes: seq<byte>, wakes: seq<Wake>, used: nat, len: nat, cap: nat)
    requires |bytes| <= cap && used <= |wakes|
  {
    && (forall k :: 0 <= k < used ==> |Filled(bytes, wakes[..k], cap)| < len)
    && (forall k :: 0 <= k < used - 1 ==> !wakes[k].timedOut)
  }

  lemma FilledNone(bytes: seq<byte>, wakes: seq<Wake>, cap: nat)
    requires |bytes| <= cap
    ensures Filled(bytes, wakes[..0], cap) == bytes
  {
  }

  lemma FilledSnoc(bytes: seq<byte>, wakes: seq<Wake>, k: nat, cap: nat)
    requires |bytes| <= cap && k < |wakes|
    ensures var before := Filled(bytes, wakes[..k], cap);
            Filled(bytes, wakes[..k + 1], cap) == before + Fitting(|before|, wakes[k].data, cap)
  {
    assert wakes[..k + 1][..k] == wakes[..k];
  }

  class RingBuffer {
    const buf: array<byte>
    const cap: u32
    var head: u32
    var tail: u32
    ghost var wrote: nat   // bytes ever written; head is this modulo 2^32
    ghost var took: nat    // bytes ever read; tail is this modulo 2^32

    ghost predicate Valid()
      reads this
    {
      && 0 < cap == buf.Length && TWO32 % cap == 0
      && took <= wrote <= took + cap
      && head == wrote % TWO32 && tail == took % TWO32
    }

    /** The bytes in the ring, oldest first. */
    ghost function Contents(): (s: seq<byte>)
      requires Valid()
      reads this, buf
      ensures |s| == wrote - took
    {
      Window(buf[..], took, wrote)
    }

    constructor (capacity: u32)
      requires 0 < capacity && TWO32 % capacity == 0
      ensures Valid() && Contents() == [] && cap == capacity && fresh(buf)
    {
      cap := capacity;
      buf := new byte[capacity];
      head, tail := 0, 0;
      wrote, took := 0, 0;
    }

    /** head - tail in 32-bit arithmetic. */
    function Used(): (n: u32)
      requires Valid()
      reads this
      ensures n == wrote - took
    {
      UsedIsDifference();
      (head as int - tail as int) % TWO32
    }

    lemma UsedIsDifference()
      requires Valid()
      ensures (head as int - tail as int) % TWO32 == wrote - took
    {
      var a, b := wrote / TWO32, took / TWO32;
      assert head as int - tail as int == TWO32 * (b - a) + (wrote - took);
      ModPlus(b - a, TWO32, wrote - took);
      assert cap <= TWO32 - 1;
    }

    /** Copies what fits, in one or two pieces, and says how much that was. */
    method Write(data: seq<byte>) returns (n: nat)
      requires Valid() && |data| < TWO32
      modifies this, buf
      ensures Valid()
      ensures n == if |data| <= cap - |old(Contents())| then |data| else cap - |old(Contents())|
      ensures Contents() == old(Contents()) + data[..n]
      ensures data[..n] == Fitting(|old(Contents())|, data, cap)
    {
      var avail := cap - Used();
      n := if avail < |data| then avail else |data|;
      var pos := head % cap;
      WrapMod(wrote, cap);
      LayDown(pos, data[..n]);
      WindowGrows(old(buf[..]), buf[..], data[..n], took, wrote);
      CounterAdds(wrote, n);
      head := (head + n) % TWO32;
      wrote := wrote + n;
    }

    method LayDown(pos: nat, data: seq<byte>)
      requires Valid() && pos < cap && |data| <= cap
      modifies buf
      ensures Laid(old(buf[..]), buf[..], data, pos)
    {
      CapIsHalf(cap);
      var end: u32 := pos + |data|;
      if end <= cap {
        MemCpy(buf, pos, data);
      } else {
        var first := cap - pos;
        MemCpy(buf, pos, data[..first]);
        MemCpy(buf, 0, data[first..]);
      }
    }

    /**
     * Waits until `len` bytes are there, one wake after another, and takes exactly the oldest `len`; gives up,
     * taking nothing, at the first wake that says the time is up, even if it brought the bytes, or when no
     * wake is left (none at all for a caller who does not wait). `used` is the number of wakes it took.
     */
    method ReadExact(len: u32, wakes: seq<Wake>) returns (ok: bool, out: seq<byte>, used: nat)
      requires Valid() && forall k :: 0 <= k < |wakes| ==> |wakes[k].data| < TWO32
      modifies this, buf
      ensures Valid() && used <= |wakes|
      ensures KeptWaiting(old(Contents()), wakes, used, len, cap)
      ensures ok == (len <= |Filled(old(Contents()), wakes[..used], cap)| && (used > 0 ==> !wakes[used - 1].timedOut))
      ensures !ok ==> used == |wakes| || (used > 0 && wakes[used - 1].timedOut)
      ensures var bytes := Filled(old(Contents()), wakes[..used], cap);
              if ok then out == bytes[..len] && Contents() == bytes[len..] else out == [] && Contents() == bytes
    {
      ok, used := Await(len, wakes);
      out := [];
      if ok {
        out := Take(len);
      }
    }

    /** The first half of a read, under the lock but for the waits. */
    method Await(len: u32, wakes: seq<Wake>) returns (ready: bool, used: nat)
      requires Valid() && forall k :: 0 <= k < |wakes| ==> |wakes[k].data| < TWO32
      modifies this, buf
      ensures Valid() && used <= |wakes| && Contents() == Filled(old(Contents()), wakes[..used], cap)
      ensures KeptWaiting(old(Contents()), wakes, used, len, cap)
      ensures ready == (len <= |Contents()| && (used > 0 ==> !wakes[used - 1].timedOut))
      ensures !ready ==> used == |wakes| || (used > 0 && wakes[used - 1].timedOut)
    {
      hide Filled;
      hide Window;
      hide Fitting;
      ghost var before := Contents();
      FilledNone(before, wakes, cap);
      used := 0;
      while Used() < len
        invariant Valid() && used <= |wakes| && Contents() == Filled(before, wakes[..used], cap)
        invariant KeptWaiting(before, wakes, used, len, cap)
        invariant used > 0 ==> !wakes[used - 1].timedOut
        decreases |wakes| - used
      {
        if used == |wakes| {
          return false, used;
        }
        FilledSnoc(before, wakes, used, cap);
        var n := Write(wakes[used].data);
        used := used + 1;
        if wakes[used - 1].timedOut {
          return false, used;
        }
      }
      ready := true;
    }

    /** The second half of a read: the bytes are there. */
    method Take(len: u32) returns (out: seq<byte>)
      requires Valid() && len <= |Contents()|
      modifies `tail, `took
      ensures Valid()
      ensures out == old(Contents())[..len] && Contents() == old(Contents())[len..]
    {
      var pos := tail % cap;
      WrapMod(took, cap);
      CapIsHalf(cap);
      var end: u32 := pos + len;
      if end <= cap {
        out := buf[pos..end];
      } else {
        var first := cap - pos;
        out := buf[pos..cap] + buf[..len - first];
      }
      WindowIsSlices(buf[..], took, len);
      WindowShrinks(buf[..], took, wrote, len);
      assert buf[pos..cap] == buf[..][pos..] && buf[..] == buf[..][..];
      CounterAdds(took, len);
      tail := (tail + len) % TWO32;
      took := took + len;
    }
  }

  lemma CounterAdds(c: nat, n: nat)
    ensures (c % TWO32 + n) % TWO32 == (c + n) % TWO32
  {
    var q := c / TWO32;
    assert c + n == TWO32 * q + (c % TWO32 + n);
    ModPlus(q, TWO32, c % TWO32 + n);
  }
}
