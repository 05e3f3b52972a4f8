/** writeLine: Bresenham's line in 16-bit arithmetic. */
module Line {
  import opened Bytes

  type Point = (i16, i16)

  function Abs(a: int): nat {
    if a < 0 then -a else a
  }

  function Max(a: nat, b: nat): nat {
    if a < b then b else a
  }

  /** Twice the area between the ideal line and `p`; divided by the longer side, the distance on the minor axis. */
  function Cross(a: Point, b: Point, p: Point): int {
    (p.0 as int - a.0 as int) * (b.1 as int - a.1 as int) - (p.1 as int - a.1 as int) * (b.0 as int - a.0 as int)
  }

  function Dx(a: Point, b: Point): nat {
    Abs(b.0 as int - a.0 as int)
  }

  function Dy(a: Point, b: Point): nat {
    Abs(b.1 as int - a.1 as int)
  }

  /** Within half a pixel of the ideal line, measured on the minor axis. */
  predicate Near(a: Point, b: Point, p: Point) {
    2 * Abs(Cross(a, b, p)) <= Max(Dx(a, b), Dy(a, b))
  }

  predicate Neighbours(p: Point, q: Point) {
    Abs(p.0 as int - q.0 as int) <= 1 && Abs(p.1 as int - q.1 as int) <= 1 && p != q
  }

  /** The point `i` columns and `j` rows on from `a` towards `b`. */
  predicate Walked(a: Point, b: Point, p: Point, i: nat, j: nat) {
    && p.0 as int == a.0 as int + (if a.0 < b.0 then i else -(i as int))
    && p.1 as int == a.1 as int + (if a.1 < b.1 then j else -(j as int))
  }

  /** Steps on the shorter axis after `k` on the longer one: k * minor / major, rounded to the nearest, halves down. */
  function MinorSteps(major: nat, minor: nat, k: nat): nat {
    if major == 0 then 0 else (2 * k * minor + major - 1) / (2 * major)
  }

  /** Where pixel `k` of the line stands. */
  predicate Placed(a: Point, b: Point, p: Point, k: nat) {
    var dx, dy := Dx(a, b), Dy(a, b);
    if dx >= dy then Walked(a, b, p, k, MinorSteps(dx, dy, k)) else Walked(a, b, p, MinorSteps(dy, dx, k), k)
  }

  lemma CrossIsDeviation(a: Point, b: Point, p: Point, i: nat, j: nat)
    requires Walked(a, b, p, i, j) && i <= Dx(a, b) && j <= Dy(a, b)
    ensures Abs(Cross(a, b, p)) == Abs(j * Dx(a, b) - i * Dy(a, b))
  {
    Signs(i, Dy(a, b), p.0 as int - a.0 as int, b.1 as int - a.1 as int);
    Signs(j, Dx(a, b), p.1 as int - a.1 as int, b.0 as int - a.0 as int);
  }

  lemma Signs(i: int, d: int, u: int, t: int)
    requires (u == i || u == -i) && (t == d || t == -d)
    ensures u * t == if (u == i) == (t == d) then i * d else -(i * d)
  {
    assert (-i) * d == -(i * d);
    assert i * (-d) == -(i * d);
    assert (-i) * (-d) == i * d;
  }

  // ----- the loop's error, and when sixteen bits hold it -----

  /** `err` once the first test of a turn is done. */
  function MidErr(dx: nat, dy: nat, err: int): int {
    if 2 * err > -(dy as int) then err - dy else err
  }

  /** `err` at the end of the turn. */
  function NextErr(dx: nat, dy: nat, err: int): int {
    if 2 * err < dx then MidErr(dx, dy, err) + dx else MidErr(dx, dy, err)
  }

  /** The loop's error after `n` turns, in unbounded arithmetic. */
  function ErrAfter(dx: nat, dy: nat, n: nat): int {
    if n == 0 then dx - dy else NextErr(dx, dy, ErrAfter(dx, dy, n - 1))
  }

  predicate Short(v: int) {
    -0x8000 <= v < 0x8000
  }

  /** Everything a turn computes fits 16 bits. */
  predicate TurnFits(dx: nat, dy: nat, err: int) {
    Short(2 * err) && Short(MidErr(dx, dy, err)) && Short(NextErr(dx, dy, err))
  }

  /** No value of the loop leaves 16 bits on a line of these extents. */
  predicate Fits16(dx: nat, dy: nat) {
    dx < 0x8000 && dy < 0x8000 && forall n :: 0 <= n < Max(dx, dy) ==> TurnFits(dx, dy, ErrAfter(dx, dy, n))
  }

  /** The largest bound on both extents that is enough whatever the line. */
  const MAX_EXTENT: nat := 10923

  /** How far the rows walked run ahead of the ideal line, times dx. */
  function Dev(dx: nat, dy: nat, i: nat, j: nat): int {
    j * dx - i * dy
  }

  lemma DevSteps(dx: nat, dy: nat, i: nat, j: nat)
    ensures Dev(dx, dy, i + 1, j) == Dev(dx, dy, i, j) - dy
    ensures Dev(dx, dy, i, j + 1) == Dev(dx, dy, i, j) + dx
    ensures Dev(dx, dy, i + 1, j + 1) == Dev(dx, dy, i, j) - dy + dx
    ensures Dev(dx, dy, 0, 0) == 0
  {
    assert (i + 1) * dy == i * dy + dy;
    assert (j + 1) * dx == j * dx + dx;
  }

  /** Within half a pixel of the ideal line, and on which side a tie is. */
  predicate Tied(dx: nat, dy: nat, dev: int) {
    dev == 0 || if dx >= dy then -(dx as int) <= 2 * dev < dx else -(dy as int) < 2 * dev <= dy
  }

  lemma Nearest(major: nat, minor: nat, k: nat, m: nat)
    requires 0 < major && -(major as int) <= 2 * (m * major - k * minor) < major
    ensures m == MinorSteps(major, minor, k)
  {
    var n := 2 * k * minor + major - 1;
    assert 2 * (m * major - k * minor) == 2 * major * m - 2 * k * minor;
    assert 2 * major * (m + 1) == 2 * major * m + 2 * major;
    QuotientIs(n, 2 * major, m);
  }

  lemma QuotientIs(n: nat, d: nat, q: nat)
    requires 0 < d && d * q <= n < d * (q + 1)
    ensures n / d == q
  {
    var r := n - d * q;
    assert n == d * q + r && 0 <= r < d;
    if n / d < q {
      AtLeast(d, q - n / d);
    } else if n / d > q {
      AtLeast(d, n / d - q);
    }
  }

  /** Bookkeeping of the loop: after `i` columns and `j` rows the longer side has advanced once per turn and
      the shorter one is within half a pixel. */
  ghost predicate Balanced(dx: nat, dy: nat, i: nat, j: nat, turn: nat, err: int) {
    && i <= dx && j <= dy
    && err == Dev(dx, dy, i, j) + dx - dy
    && Tied(dx, dy, Dev(dx, dy, i, j))
    && (dx == dy || dx == 0 || dy == 0 ==> Dev(dx, dy, i, j) == 0)
    && turn == if dx >= dy then i else j
  }

  /** When the longer side has arrived, so has the shorter one, and not before. */
  lemma Arrives(dx: nat, dy: nat, i: nat, j: nat, turn: nat, err: int)
    requires Balanced(dx, dy, i, j, turn, err)
    ensures (i == dx && j == dy) <==> turn == Max(dx, dy)
  {
    if dx >= dy && i == dx {
      NoRowsLeft(dx, dy, j);
    } else if dy > dx && j == dy {
      NoRowsLeft(dy, dx, i);
    }
  }

  lemma NoRowsLeft(d: nat, e: nat, j: nat)
    requires j <= e <= d && 2 * Abs(j * d - d * e) <= d
    ensures j == e
  {
    if j < e {
      assert j * d - d * e == -(d * (e - j));
      AtLeast(d, e - j);
    }
  }

  lemma AtLeast(d: nat, k: nat)
    requires k >= 1
    ensures d * k >= d
  {
  }

  lemma AtLeastZero(a: nat, b: nat)
    ensures a * b >= 0
  {
  }

  lemma RowsFit(d: nat, e: nat, i: nat, j: nat)
    requires 0 < d && i <= d && 2 * (j * d - i * e) <= d
    ensures j <= e
  {
    assert d * e == i * e + (d - i) * e;
    AtLeastZero(d - i, e);
    assert j * d == e * d + d * (j - e);
    if j > e {
      AtLeast(d, j - e);
    }
  }

  /** The numbers of one turn: `dev` before, everything else after. */
  lemma TurnArithmetic(dx: nat, dy: nat, dev: int, err: int)
    requires 0 < Max(dx, dy)
    requires err == dev + dx - dy && Tied(dx, dy, dev)
    requires dx == dy || dx == 0 || dy == 0 ==> dev == 0
    ensures var e2 := 2 * err;
            var stepX, stepY := e2 > -(dy as int), e2 < dx;
            var err1 := if stepX then err - dy else err;
            var dev1 := if stepX then dev - dy else dev;
            var err2 := if stepY then err1 + dx else err1;
            var dev2 := if stepY then dev1 + dx else dev1;
            && (dx <= MAX_EXTENT && dy <= MAX_EXTENT ==> Short(e2) && Short(err1) && Short(err2))
            && (if dx >= dy then stepX else stepY)
            && err2 == dev2 + dx - dy && Tied(dx, dy, dev2)
            && (dx == dy || dx == 0 || dy == 0 ==> dev2 == 0)
  {
  }

  /** One turn of the loop, away from the end point: the longer side moves and the balance holds again. */
  lemma Turns(dx: nat, dy: nat, i: nat, j: nat, turn: nat, err: int)
    requires Balanced(dx, dy, i, j, turn, err) && turn < Max(dx, dy)
    ensures var e2 := 2 * err;
            var stepX, stepY := e2 > -(dy as int), e2 < dx;
            var i1, j1 := if stepX then i + 1 else i, if stepY then j + 1 else j;
            && (stepX || stepY) && Balanced(dx, dy, i1, j1, turn + 1, NextErr(dx, dy, err))
    ensures dx <= MAX_EXTENT && dy <= MAX_EXTENT ==> TurnFits(dx, dy, err)
  {
    DevSteps(dx, dy, i, j);
    TurnArithmetic(dx, dy, Dev(dx, dy, i, j), err);
    var e2 := 2 * err;
    var i1, j1 := if e2 > -(dy as int) then i + 1 else i, if e2 < dx then j + 1 else j;
    if dx >= dy {
      RowsFit(dx, dy, i1, j1);
    } else {
      RowsFit(dy, dx, j1, i1);
    }
  }

  /** Pixels written so far: each where it belongs, near the line, and next to the one before. */
  ghost predicate PathFrom(a: Point, b: Point, pixels: seq<Point>) {
    pixels == [] ||
    var n := |pixels| - 1;
    && PathFrom(a, b, pixels[..n]) && Near(a, b, pixels[n]) && Placed(a, b, pixels[n], n)
    && if n == 0 then pixels[0] == a else Neighbours(pixels[n - 1], pixels[n])
  }

  lemma PathEmpty(a: Point, b: Point)
    ensures PathFrom(a, b, [])
  {
  }

  lemma PathGrows(a: Point, b: Point, pixels: seq<Point>, p: Point)
    requires PathFrom(a, b, pixels) && Near(a, b, p) && Placed(a, b, p, |pixels|)
    requires if pixels == [] then p == a else Neighbours(pixels[|pixels| - 1], p)
    ensures PathFrom(a, b, pixels + [p])
  {
    assert (pixels + [p])[..|pixels|] == pixels;
  }

  ghost predicate AllNear(a: Point, b: Point, pixels: seq<Point>) {
    forall k :: 0 <= k < |pixels| ==> Near(a, b, pixels[k])
  }

  ghost predicate AllPlaced(a: Point, b: Point, pixels: seq<Point>) {
    forall k :: 0 <= k < |pixels| ==> Placed(a, b, pixels[k], k)
  }

  /** Each pixel and the next are neighbours. */
  ghost predicate Chained(pixels: seq<Point>) {
    forall i, j :: 0 <= i < j < |pixels| && j == i + 1 ==> Neighbours(pixels[i], pixels[j])
  }

  lemma {:induction false} PathMeans(a: Point, b: Point, pixels: seq<Point>)
    requires PathFrom(a, b, pixels)
    ensures pixels != [] ==> pixels[0] == a
    ensures AllPlaced(a, b, pixels) && AllNear(a, b, pixels) && Chained(pixels)
  {
    hide Near;
    hide Placed;
    hide Neighbours;
    if pixels != [] {
      var n := |pixels| - 1;
      var init := pixels[..n];
      PathMeans(a, b, init);
      forall k | 0 <= k <= n ensures Near(a, b, pixels[k]) && Placed(a, b, pixels[k], k) {
        if k < n {
          assert init[k] == pixels[k];
        }
      }
      forall i, j | 0 <= i < j < |pixels| && j == i + 1 ensures Neighbours(pixels[i], pixels[j]) {
        if j < n {
          assert init[i] == pixels[i] && init[j] == pixels[j];
        }
      }
    }
  }

  lemma NearEnough(a: Point, b: Point, p: Point, i: nat, j: nat, turn: nat, err: int)
    requires Walked(a, b, p, i, j) && Balanced(Dx(a, b), Dy(a, b), i, j, turn, err)
    ensures Near(a, b, p)
  {
    CrossIsDeviation(a, b, p, i, j);
  }

  /** The loop's balance puts the pixel where it belongs. */
  lemma Stands(a: Point, b: Point, p: Point, i: nat, j: nat, turn: nat, err: int)
    requires Walked(a, b, p, i, j) && Balanced(Dx(a, b), Dy(a, b), i, j, turn, err)
    ensures Placed(a, b, p, turn)
  {
    var dx, dy := Dx(a, b), Dy(a, b);
    hide Walked;
    hide Dx;
    hide Dy;
    if Max(dx, dy) == 0 {
      assert turn == 0;
    } else if dx >= dy {
      Nearest(dx, dy, i, j);
    } else {
      Nearest(dy, dx, j, i);
    }
  }

  lemma Starts(a: Point, b: Point)
    ensures Balanced(Dx(a, b), Dy(a, b), 0, 0, 0, Dx(a, b) - Dy(a, b)) && Walked(a, b, a, 0, 0)
  {
    DevSteps(Dx(a, b), Dy(a, b), 0, 0);
  }

  lemma AtEnd(a: Point, b: Point, p: Point, i: nat, j: nat, turn: nat, err: int)
    requires Walked(a, b, p, i, j) && Balanced(Dx(a, b), Dy(a, b), i, j, turn, err)
    ensures p == b <==> turn == Max(Dx(a, b), Dy(a, b))
    ensures turn <= Max(Dx(a, b), Dy(a, b))
  {
    Arrives(Dx(a, b), Dy(a, b), i, j, turn, err);
  }

  /** The loop's state `turn` turns on: where it is, how it got there, and its error. */
  ghost predicate Along(a: Point, b: Point, p: Point, i: nat, j: nat, turn: nat, err: int) {
    && Walked(a, b, p, i, j)
    && Balanced(Dx(a, b), Dy(a, b), i, j, turn, err) && err == ErrAfter(Dx(a, b), Dy(a, b), turn)
  }

  lemma StartsAlong(a: Point, b: Point)
    ensures Along(a, b, a, 0, 0, 0, Dx(a, b) - Dy(a, b))
  {
    Starts(a, b);
  }

  /** Writing the pixel where the loop stands extends the path, and it is the end point after the last turn only. */
  lemma Visits(a: Point, b: Point, pixels: seq<Point>, p: Point, i: nat, j: nat, err: int)
    requires Along(a, b, p, i, j, |pixels|, err) && PathFrom(a, b, pixels)
    requires if pixels == [] then p == a else Neighbours(pixels[|pixels| - 1], p)
    ensures PathFrom(a, b, pixels + [p])
    ensures |pixels| <= Max(Dx(a, b), Dy(a, b)) && (p == b <==> |pixels| == Max(Dx(a, b), Dy(a, b)))
  {
    hide Walked;
    hide Balanced;
    hide ErrAfter;
    hide PathFrom;
    hide Neighbours;
    hide Placed;
    NearEnough(a, b, p, i, j, |pixels|, err);
    Stands(a, b, p, i, j, |pixels|, err);
    PathGrows(a, b, pixels, p);
    AtEnd(a, b, p, i, j, |pixels|, err);
  }

  /** The pixels writeLine writes, in order: max(dx, dy) + 1 of them, from end to end. Pixel k is k steps on along the
      longer axis and on the shorter one where the ideal line is nearest, halves going to `a`'s side, so each is a
      neighbour of the one before and within half a pixel of the line. */
  method WriteLine(a: Point, b: Point) returns (pixels: seq<Point>)
    requires Fits16(Dx(a, b), Dy(a, b))
    ensures |pixels| == Max(Dx(a, b), Dy(a, b)) + 1
    ensures pixels[0] == a && pixels[|pixels| - 1] == b
    ensures AllPlaced(a, b, pixels)
    ensures AllNear(a, b, pixels) && Chained(pixels)
  {
    var dx: i16, dy: i16 := Dx(a, b), Dy(a, b);
    var err: i16, x: i16, y: i16 := dx - dy, a.0, a.1;
    ghost var i: nat, j: nat := 0, 0;
    hide *;
    StartsAlong(a, b);
    pixels := [];
    PathEmpty(a, b);
    while true
      invariant Along(a, b, (x, y), i, j, |pixels|, err) && PathFrom(a, b, pixels)
      invariant if pixels == [] then (x, y) == a else Neighbours(pixels[|pixels| - 1], (x, y))
      decreases Max(dx, dy) - |pixels|
    {
      Visits(a, b, pixels, (x, y), i, j, err);
      pixels := pixels + [(x, y)];
      if x == b.0 && y == b.1 {
        break;
      }
      x, y, err, i, j := Advance(a, b, x, y, dx, dy, err, i, j, |pixels| - 1);
    }
    PathMeans(a, b, pixels);
  }

  lemma NextTurn(dx: nat, dy: nat, n: nat)
    requires Fits16(dx, dy) && n < Max(dx, dy)
    ensures TurnFits(dx, dy, ErrAfter(dx, dy, n)) && ErrAfter(dx, dy, n + 1) == NextErr(dx, dy, ErrAfter(dx, dy, n))
  {
  }

  /** The coordinates after a turn that steps along the named axes. */
  function Moved(a: Point, b: Point, x: int, y: int, stepX: bool, stepY: bool): (int, int) {
    (if !stepX then x else if a.0 < b.0 then x + 1 else x - 1, if !stepY then y else if a.1 < b.1 then y + 1 else y - 1)
  }

  lemma MovesOn(a: Point, b: Point, x: i16, y: i16, i: nat, j: nat, stepX: bool, stepY: bool)
    requires Walked(a, b, (x, y), i, j) && (stepX || stepY)
    requires (if stepX then i + 1 else i) <= Dx(a, b) && (if stepY then j + 1 else j) <= Dy(a, b)
    ensures var q := Moved(a, b, x, y, stepX, stepY);
            && Short(q.0) && Short(q.1) && Neighbours((x, y), q)
            && Walked(a, b, q, if stepX then i + 1 else i, if stepY then j + 1 else j)
  {
  }

  lemma TurnsAlong(a: Point, b: Point, x: i16, y: i16, i: nat, j: nat, turn: nat, err: int)
    requires Along(a, b, (x, y), i, j, turn, err) && Fits16(Dx(a, b), Dy(a, b)) && turn < Max(Dx(a, b), Dy(a, b))
    ensures var dx, dy := Dx(a, b), Dy(a, b);
            var stepX, stepY := 2 * err > -(dy as int), 2 * err < dx;
            var q := Moved(a, b, x, y, stepX, stepY);
            && TurnFits(dx, dy, err) && Short(q.0) && Short(q.1) && Neighbours((x, y), q)
            && Along(a, b, q, if stepX then i + 1 else i, if stepY then j + 1 else j, turn + 1, NextErr(dx, dy, err))
  {
    var dx, dy := Dx(a, b), Dy(a, b);
    NextTurn(dx, dy, turn);
    Turns(dx, dy, i, j, turn, err);
    MovesOn(a, b, x, y, i, j, 2 * err > -(dy as int), 2 * err < dx);
    hide Walked;
    hide Dx;
    hide Dy;
    hide Max;
    hide Dev;
    hide Neighbours;
    hide ErrAfter;
    hide Fits16;
    hide Moved;
  }

  /** The second half of the loop body: one step of either or both coordinates, all in 16 bits. */
  method Advance(a: Point, b: Point, x0: i16, y0: i16, dx: i16, dy: i16, err0: i16, ghost i0: nat, ghost j0: nat,
                 ghost turn: nat)
    returns (x: i16, y: i16, err: i16, ghost i: nat, ghost j: nat)
    requires dx == Dx(a, b) && dy == Dy(a, b) && Fits16(dx, dy)
    requires Along(a, b, (x0, y0), i0, j0, turn, err0) && turn < Max(dx, dy)
    ensures Along(a, b, (x, y), i, j, turn + 1, err) && Neighbours((x0, y0), (x, y))
  {
    TurnsAlong(a, b, x0, y0, i0, j0, turn, err0);
    hide Along;
    hide Neighbours;
    hide Fits16;
    hide Dx;
    hide Dy;
    hide Max;
    var sx: i16, sy: i16 := if a.0 < b.0 then 1 else -1, if a.1 < b.1 then 1 else -1;
    x, y, err, i, j := x0, y0, err0, i0, j0;
    var e2: i16 := 2 * err;
    if e2 > -dy {
      err := err - dy;
      x := x + sx;
      i := i + 1;
    }
    if e2 < dx {
      err := err + dx;
      y := y + sy;
      j := j + 1;
    }
  }

  // ----- which bound on the extents is enough -----

  lemma {:induction false} BalancedAfter(dx: nat, dy: nat, n: nat) returns (i: nat, j: nat)
    requires n <= Max(dx, dy)
    ensures Balanced(dx, dy, i, j, n, ErrAfter(dx, dy, n))
  {
    i, j := 0, 0;
    if n == 0 {
      DevSteps(dx, dy, 0, 0);
    } else {
      i, j := BalancedAfter(dx, dy, n - 1);
      var e2 := 2 * ErrAfter(dx, dy, n - 1);
      Turns(dx, dy, i, j, n - 1, ErrAfter(dx, dy, n - 1));
      i, j := if e2 > -(dy as int) then i + 1 else i, if e2 < dx then j + 1 else j;
    }
  }

  lemma ShortLinesFit(dx: nat, dy: nat)
    requires dx <= MAX_EXTENT && dy <= MAX_EXTENT
    ensures Fits16(dx, dy)
  {
    forall n | 0 <= n < Max(dx, dy) ensures TurnFits(dx, dy, ErrAfter(dx, dy, n)) {
      var i, j := BalancedAfter(dx, dy, n);
      Turns(dx, dy, i, j, n, ErrAfter(dx, dy, n));
    }
  }

  lemma {:induction false} FlatRun(n: nat)
    requires n <= 5462
    ensures ErrAfter(10924, 1, n) == 10923 - n
  {
    if n > 0 {
      FlatRun(n - 1);
    }
  }

  /** A line of slope 1/10924 needs an e2 of 32768. */
  lemma FlatLineOverflows()
    ensures 2 * ErrAfter(10924, 1, 5463) == 0x8000 && !Fits16(10924, 1)
  {
    FlatRun(5462);
    assert ErrAfter(10924, 1, 5462) == 5461;
    assert 2 * ErrAfter(10924, 1, 5463) == 0x8000;
    assert !TurnFits(10924, 1, ErrAfter(10924, 1, 5463));
  }

  /** Every line with extents of at most `bound` stays within 16 bits if and only if the bound is at most 10923. */
  lemma BoundIsSharp(bound: nat)
    ensures (forall dx: nat, dy: nat :: dx <= bound && dy <= bound ==> Fits16(dx, dy)) <==> bound <= MAX_EXTENT
  {
    hide Fits16;
    FlatLineOverflows();
    forall dx: nat, dy: nat | dx <= MAX_EXTENT && dy <= MAX_EXTENT ensures Fits16(dx, dy) {
      ShortLinesFit(dx, dy);
    }
  }
}
