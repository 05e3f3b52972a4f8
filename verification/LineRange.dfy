/** Which lines Bresenham's loop draws without leaving 16 bits: a condition on the two extents alone. */
module LineRange {
  import opened Line

  // ----- the greatest common divisor -----

  function Gcd(a: nat, b: nat): (g: nat)
    requires a > 0 || b > 0
    ensures g > 0
    decreases b
  {
    if b == 0 then a else Gcd(b, a % b)
  }

  lemma DivisionStep(a: int, b: nat)
    requires b > 0
    ensures a == b * (a / b) + a % b && 0 <= a % b < b
  {
  }

  lemma Distributes(g: int, p: int, k: int, q: int)
    ensures g * p * k + g * q == g * (p * k + q)
  {
    assert g * p * k == g * (p * k);
  }

  lemma {:induction false} GcdDivides(a: nat, b: nat) returns (p: nat, q: nat)
    requires a > 0 || b > 0
    ensures a == Gcd(a, b) * p && b == Gcd(a, b) * q
    decreases b
  {
    if b == 0 {
      p, q := 1, 0;
    } else {
      var x, y := GcdDivides(b, a % b);
      DivisionStep(a, b);
      Distributes(Gcd(a, b), x, a / b, y);
      p, q := x * (a / b) + y, x;
    }
  }

  lemma Rearranged(u: int, v: int, a: int, b: int, k: int, r: int)
    requires a == b * k + r
    ensures u * b + v * r == v * a + (u - v * k) * b
  {
    assert v * a == v * (b * k) + v * r;
    assert (u - v * k) * b == u * b - v * k * b;
    assert v * (b * k) == v * k * b;
  }

  lemma {:induction false} Bezout(a: nat, b: nat) returns (u: int, v: int)
    requires a > 0 || b > 0
    ensures u * a + v * b == Gcd(a, b)
    decreases b
  {
    if b == 0 {
      u, v := 1, 0;
    } else {
      var x, y := Bezout(b, a % b);
      DivisionStep(a, b);
      Rearranged(x, y, a, b, a / b, a % b);
      u, v := y, x - y * (a / b);
    }
  }

  // ----- the deviation turn by turn -----

  /** By how much the loop is off the ideal line after `n` turns, times the longer side. */
  function DevAfter(dx: nat, dy: nat, n: nat): int {
    ErrAfter(dx, dy, n) - dx + dy
  }

  /** Within half a pixel, and on which side a tie is. */
  predicate InWindow(dx: nat, dy: nat, dev: int) {
    if dx >= dy then -(dx as int) <= 2 * dev < dx && (dx == dy ==> dev == 0)
    else -(dy as int) < 2 * dev <= dy
  }

  lemma WindowStep(dx: nat, dy: nat, err: int)
    requires 0 < Max(dx, dy) && InWindow(dx, dy, err - dx + dy)
    ensures InWindow(dx, dy, NextErr(dx, dy, err) - dx + dy)
    ensures if dx >= dy then 2 * err > -(dy as int) else 2 * err < dx
  {
  }

  lemma {:induction false} StaysInWindow(dx: nat, dy: nat, n: nat)
    requires 0 < Max(dx, dy)
    ensures InWindow(dx, dy, DevAfter(dx, dy, n))
  {
    if n > 0 {
      StaysInWindow(dx, dy, n - 1);
      WindowStep(dx, dy, ErrAfter(dx, dy, n - 1));
    }
  }

  /** The longer side moves once a turn, so the deviation is what the shorter side's moves leave of it. */
  lemma {:induction false} DevIs(dx: nat, dy: nat, n: nat) returns (k: int)
    requires 0 < Max(dx, dy)
    ensures DevAfter(dx, dy, n) == if dx >= dy then k * dx - n * dy else n * dx - k * dy
  {
    k := 0;
    if n > 0 {
      var before := DevIs(dx, dy, n - 1);
      var err := ErrAfter(dx, dy, n - 1);
      StaysInWindow(dx, dy, n - 1);
      WindowStep(dx, dy, err);
      k := if dx >= dy then (if 2 * err < dx then before + 1 else before)
           else if 2 * err > -(dy as int) then before + 1 else before;
      OneMore(before, dx);
      OneMore(before, dy);
      OneMore(n - 1, dx);
      OneMore(n - 1, dy);
    }
  }

  lemma OneMore(k: int, d: int)
    ensures (k + 1) * d == k * d + d
  {
  }

  // ----- every multiple of the divisor in the window comes up -----

  lemma SmallMultiple(d: nat, z: int)
    requires -(d as int) < d * z < d
    ensures z == 0
  {
    if z >= 1 {
      AtLeast(d, z);
    } else if z <= -1 {
      assert d * z == -(d * -z);
      AtLeast(d, -z);
    }
  }

  /** With `g == u * d + v * e` and `n` congruent to `-t * v` modulo `d`, `-n * e` is congruent to `g * t`. */
  lemma Congruent(d: int, e: int, u: int, v: int, g: int, t: int, w: int, n: int, k: int)
    requires g == u * d + v * e && -t * v == d * w + n
    ensures k * d - n * e - g * t == d * (k - t * u + w * e)
  {
    assert n * e == -t * v * e - d * w * e;
    assert t * v * e == t * (v * e) == t * (g - u * d) == t * g - t * u * d;
    assert d * (k - t * u + w * e) == d * k - d * (t * u) + d * (w * e);
    assert d * w * e == d * (w * e) && d * (t * u) == t * u * d && g * t == t * g && d * k == k * d;
  }

  lemma SameInWindow(dx: nat, dy: nat, a: int, b: int, z: int)
    requires 0 < Max(dx, dy) && InWindow(dx, dy, a) && InWindow(dx, dy, b) && a - b == Max(dx, dy) * z
    ensures a == b
  {
    SmallMultiple(Max(dx, dy), z);
  }

  lemma ReachesWide(dx: nat, dy: nat, t: int) returns (n: nat)
    requires 0 < dx && dx >= dy && InWindow(dx, dy, Gcd(dx, dy) * t)
    ensures n < dx && DevAfter(dx, dy, n) == Gcd(dx, dy) * t
  {
    hide InWindow;
    hide Gcd;
    hide DevAfter;
    var u, v := Bezout(dx, dy);
    var x := -t * v;
    DivisionStep(x, dx);
    n := x % dx;
    var k := DevIs(dx, dy, n);
    StaysInWindow(dx, dy, n);
    Congruent(dx, dy, u, v, Gcd(dx, dy), t, x / dx, n, k);
    SameInWindow(dx, dy, DevAfter(dx, dy, n), Gcd(dx, dy) * t, k - t * u + x / dx * dy);
  }

  lemma ReachesTall(dx: nat, dy: nat, t: int) returns (n: nat)
    requires dx < dy && InWindow(dx, dy, Gcd(dx, dy) * t)
    ensures n < dy && DevAfter(dx, dy, n) == Gcd(dx, dy) * t
  {
    hide InWindow;
    hide Gcd;
    hide DevAfter;
    var u, v := Bezout(dx, dy);
    var g, s := Gcd(dx, dy), -t;
    var x := -s * u;
    DivisionStep(x, dy);
    n := x % dy;
    var k := DevIs(dx, dy, n);
    StaysInWindow(dx, dy, n);
    Congruent(dy, dx, v, u, g, s, x / dy, n, k);
    assert g * s == -(g * t);
    var z := k - s * v + x / dy * dx;
    assert dy * z == -(dy * -z);
    SameInWindow(dx, dy, DevAfter(dx, dy, n), g * t, -z);
  }

  lemma Reaches(dx: nat, dy: nat, t: int) returns (n: nat)
    requires 0 < Max(dx, dy) && InWindow(dx, dy, Gcd(dx, dy) * t)
    ensures n < Max(dx, dy) && DevAfter(dx, dy, n) == Gcd(dx, dy) * t
  {
    if dx >= dy {
      n := ReachesWide(dx, dy, t);
    } else {
      n := ReachesTall(dx, dy, t);
    }
  }

  // ----- how far the deviation goes -----

  /** How often the divisor goes into the longer side. */
  function Parts(dx: nat, dy: nat): int
    requires 0 < Max(dx, dy)
  {
    Max(dx, dy) / Gcd(dx, dy)
  }

  /** The largest deviation away from the side of a tie, and towards it. */
  function Far(dx: nat, dy: nat): int
    requires 0 < Max(dx, dy)
  {
    Gcd(dx, dy) * ((Parts(dx, dy) - 1) / 2)
  }

  function Tie(dx: nat, dy: nat): int
    requires 0 < Max(dx, dy)
  {
    Gcd(dx, dy) * (Parts(dx, dy) / 2)
  }

  lemma Quotient(m: nat, g: nat, p: nat)
    requires g > 0 && m == g * p
    ensures m / g == p
  {
    DivisionStep(m, g);
    assert g * p - g * (m / g) == g * (p - m / g);
    SmallMultiple(g, p - m / g);
  }

  lemma Scaled(g: nat, a: int, b: int)
    requires a <= b
    ensures g * a <= g * b
  {
  }

  lemma ScaledBack(g: nat, a: int, b: int)
    requires g > 0 && g * a < g * b
    ensures a < b
  {
    if a >= b {
      Scaled(g, b, a);
    }
  }

  lemma PartsIs(dx: nat, dy: nat)
    requires 0 < Max(dx, dy)
    ensures Max(dx, dy) == Gcd(dx, dy) * Parts(dx, dy) && Parts(dx, dy) >= 1
  {
    var p, q := GcdDivides(dx, dy);
    var r := if dx >= dy then p else q;
    Quotient(Max(dx, dy), Gcd(dx, dy), r);
    assert r != 0;
  }

  lemma SameExtents(d: nat)
    requires d > 0
    ensures Gcd(d, d) == d && Parts(d, d) == 1
  {
    DivisionStep(d, d);
    Quotient(d, d, 1);
    SmallMultiple(d, d / d - 1);
  }

  lemma AsMultiple(dx: nat, dy: nat, n: nat) returns (c: int)
    requires 0 < Max(dx, dy)
    ensures DevAfter(dx, dy, n) == Gcd(dx, dy) * c
  {
    var k := DevIs(dx, dy, n);
    var p, q := GcdDivides(dx, dy);
    var i, j := if dx >= dy then n as int else k, if dx >= dy then k else n as int;
    c := j * p - i * q;
    TwoMultiples(Gcd(dx, dy), p, q, i, j);
  }

  lemma TwoMultiples(g: int, p: int, q: int, i: int, j: int)
    ensures j * (g * p) - i * (g * q) == g * (j * p - i * q)
  {
    assert j * (g * p) == g * (j * p);
    assert i * (g * q) == g * (i * q);
  }

  lemma UnderHalf(g: nat, p: int, c: int)
    requires g > 0
    ensures 2 * (g * c) < g * p ==> g * c <= g * ((p - 1) / 2)
  {
    assert 2 * (g * c) == g * (2 * c);
    if 2 * (g * c) < g * p {
      ScaledBack(g, 2 * c, p);
      Scaled(g, c, (p - 1) / 2);
    }
  }

  lemma UnderHalfOnly(g: nat, p: int, c: int)
    requires g > 0
    ensures g * c <= g * ((p - 1) / 2) ==> 2 * (g * c) < g * p
  {
    if g * c <= g * ((p - 1) / 2) {
      NotBelow(g, c, (p - 1) / 2);
      Scaled(g, 2 * c + 1, p);
      assert g * (2 * c + 1) == g * (2 * c) + g == 2 * (g * c) + g;
    }
  }

  lemma Negated(g: int, a: int)
    ensures g * -a == -(g * a)
  {
  }

  lemma OverHalf(g: nat, p: int, c: int)
    requires g > 0
    ensures -(g * p) <= 2 * (g * c) <==> -(g * (p / 2)) <= g * c
  {
    Negated(g, p);
    Negated(g, p / 2);
    assert 2 * (g * c) == g * (2 * c);
    if -(g * p) <= 2 * (g * c) {
      NotBelow(g, -p, 2 * c);
      Scaled(g, -(p / 2), c);
    }
    if -(g * (p / 2)) <= g * c {
      NotBelow(g, -(p / 2), c);
      Scaled(g, -p, 2 * c);
    }
  }

  /** Among the multiples of the divisor, those in the window are the ones between these two. */
  lemma Between(g: nat, p: int, c: int)
    requires g > 0
    ensures 2 * (g * c) < g * p <==> g * c <= g * ((p - 1) / 2)
    ensures -(g * p) <= 2 * (g * c) <==> -(g * (p / 2)) <= g * c
  {
    UnderHalf(g, p, c);
    UnderHalfOnly(g, p, c);
    OverHalf(g, p, c);
  }

  lemma NotBelow(g: nat, a: int, b: int)
    requires g > 0 && g * a <= g * b
    ensures a <= b
  {
    if b < a {
      assert g * (b + 1) == g * b + g;
      Scaled(g, b + 1, a);
    }
  }

  lemma BetweenEither(g: nat, p: int, c: int)
    requires g > 0
    ensures -(g * p) <= 2 * (g * c) < g * p ==> -(g * (p / 2)) <= g * c <= g * ((p - 1) / 2)
    ensures -(g * p) < 2 * (g * c) <= g * p ==> -(g * ((p - 1) / 2)) <= g * c <= g * (p / 2)
  {
    Between(g, p, c);
    Between(g, p, -c);
    assert g * -c == -(g * c);
  }

  /** The deviation never goes further than `Far` and `Tie`. */
  lemma Bounded(dx: nat, dy: nat, n: nat)
    requires 0 < Max(dx, dy)
    ensures if dx >= dy then -Tie(dx, dy) <= DevAfter(dx, dy, n) <= Far(dx, dy)
            else -Far(dx, dy) <= DevAfter(dx, dy, n) <= Tie(dx, dy)
  {
    hide Gcd;
    hide Parts;
    hide DevAfter;
    StaysInWindow(dx, dy, n);
    PartsIs(dx, dy);
    var c := AsMultiple(dx, dy, n);
    var g, p := Gcd(dx, dy), Parts(dx, dy);
    BetweenEither(g, p, c);
  }

  /** And it goes that far. */
  lemma FarReached(dx: nat, dy: nat) returns (n: nat)
    requires 0 < Max(dx, dy)
    ensures n < Max(dx, dy) && DevAfter(dx, dy, n) == if dx >= dy then Far(dx, dy) else -Far(dx, dy)
  {
    hide Gcd;
    hide Parts;
    hide DevAfter;
    PartsIs(dx, dy);
    var g, p := Gcd(dx, dy), Parts(dx, dy);
    var t := (p - 1) / 2;
    Between(g, p, t);
    if dx == dy {
      SameExtents(dx);
    }
    AtLeastZero(g, t);
    assert g * -t == -(g * t);
    n := Reaches(dx, dy, if dx >= dy then t else -t);
  }

  lemma TieReached(dx: nat, dy: nat) returns (n: nat)
    requires 0 < dx && dx >= dy
    ensures n < dx && DevAfter(dx, dy, n) == -Tie(dx, dy)
  {
    hide Gcd;
    hide Parts;
    hide DevAfter;
    PartsIs(dx, dy);
    var g, p := Gcd(dx, dy), Parts(dx, dy);
    var t := p / 2;
    Between(g, p, -t);
    if dx == dy {
      SameExtents(dx);
    }
    AtLeastZero(g, t);
    assert g * -t == -(g * t);
    n := Reaches(dx, dy, -t);
  }

  // ----- the condition -----

  /** What the extents must satisfy, in terms of how far the deviation goes. */
  predicate Narrow(dx: nat, dy: nat) {
    && dx < 0x8000 && dy < 0x8000
    && if dx == dy == 0 then true
       else if dx >= dy then 2 * (dx - dy + Far(dx, dy)) < 0x8000 && 2 * dy - dx + Tie(dx, dy) <= 0x8000
       else 2 * (dy - dx + Far(dx, dy)) <= 0x8000 && dy + Far(dx, dy) <= 0x8000
  }

  lemma WideTurnFits(dx: nat, dy: nat, err: int)
    requires dx >= dy && 0 < dx < 0x8000 && 2 * (dx - dy + Far(dx, dy)) < 0x8000 && 2 * dy - dx + Tie(dx, dy) <= 0x8000
    requires -Tie(dx, dy) <= err - dx + dy <= Far(dx, dy)
    requires -Tie(dx, dy) <= NextErr(dx, dy, err) - dx + dy <= Far(dx, dy)
    requires InWindow(dx, dy, err - dx + dy) && InWindow(dx, dy, NextErr(dx, dy, err) - dx + dy)
    requires 2 * err > -(dy as int)
    ensures TurnFits(dx, dy, err)
  {
    hide Far;
    hide Tie;
  }

  lemma TallTurnFits(dx: nat, dy: nat, err: int)
    requires dx < dy < 0x8000 && 2 * (dy - dx + Far(dx, dy)) <= 0x8000 && dy + Far(dx, dy) <= 0x8000
    requires -Far(dx, dy) <= err - dx + dy <= Tie(dx, dy)
    requires -Far(dx, dy) <= NextErr(dx, dy, err) - dx + dy <= Tie(dx, dy)
    requires InWindow(dx, dy, err - dx + dy) && InWindow(dx, dy, NextErr(dx, dy, err) - dx + dy)
    requires 2 * err < dx
    ensures TurnFits(dx, dy, err)
  {
    hide Far;
    hide Tie;
  }

  lemma NarrowTurnFits(dx: nat, dy: nat, n: nat)
    requires Narrow(dx, dy) && n < Max(dx, dy)
    ensures TurnFits(dx, dy, ErrAfter(dx, dy, n))
  {
    hide Far;
    hide Tie;
    Bounded(dx, dy, n);
    Bounded(dx, dy, n + 1);
    StaysInWindow(dx, dy, n);
    StaysInWindow(dx, dy, n + 1);
    var err := ErrAfter(dx, dy, n);
    assert ErrAfter(dx, dy, n + 1) == NextErr(dx, dy, err);
    hide ErrAfter;
    WindowStep(dx, dy, err);
    if dx >= dy {
      WideTurnFits(dx, dy, err);
    } else {
      TallTurnFits(dx, dy, err);
    }
  }

  lemma WideFitsOnly(dx: nat, dy: nat)
    requires Fits16(dx, dy) && 0 < dx && dx >= dy
    ensures Narrow(dx, dy)
  {
    var n := FarReached(dx, dy);
    var m := TieReached(dx, dy);
    assert TurnFits(dx, dy, ErrAfter(dx, dy, n));
    assert TurnFits(dx, dy, ErrAfter(dx, dy, m));
    StaysInWindow(dx, dy, m);
    WindowStep(dx, dy, ErrAfter(dx, dy, m));
    hide Fits16;
    hide Far;
    hide Tie;
    hide ErrAfter;
  }

  lemma TallFitsOnly(dx: nat, dy: nat)
    requires Fits16(dx, dy) && dx < dy
    ensures Narrow(dx, dy)
  {
    var n := FarReached(dx, dy);
    assert TurnFits(dx, dy, ErrAfter(dx, dy, n));
    if n > 0 {
      assert TurnFits(dx, dy, ErrAfter(dx, dy, n - 1));
      Bounded(dx, dy, n - 1);
      StaysInWindow(dx, dy, n - 1);
      WindowStep(dx, dy, ErrAfter(dx, dy, n - 1));
      assert ErrAfter(dx, dy, n) == NextErr(dx, dy, ErrAfter(dx, dy, n - 1));
    } else {
      assert ErrAfter(dx, dy, 0) == dx - dy;
    }
    hide Fits16;
    hide Far;
    hide Tie;
    hide ErrAfter;
  }

  /** The loop stays within 16 bits if and only if the extents are narrow. */
  lemma FitsWhenNarrow(dx: nat, dy: nat)
    ensures Fits16(dx, dy) <==> Narrow(dx, dy)
  {
    hide TurnFits;
    if Narrow(dx, dy) {
      forall n | 0 <= n < Max(dx, dy) ensures TurnFits(dx, dy, ErrAfter(dx, dy, n)) {
        NarrowTurnFits(dx, dy, n);
      }
    }
    if Fits16(dx, dy) {
      if dx < dy {
        TallFitsOnly(dx, dy);
      } else if dx > 0 {
        WideFitsOnly(dx, dy);
      }
    }
  }
}
