/** libgfx's ARGB8888 draw surface: pixel and span writes, and the NC5874's dirty-rectangle present. */
module Surface {
  import opened Bytes

  const GFX_BLACK: u32 := 0xFF00_0000

  // ----- colours -----

  function Alpha(c: u32): byte {
    c / 0x100_0000
  }

  /** Channel `k` of a colour: 0 blue, 1 green, 2 red. */
  function Channel(c: u32, shift: u32): byte
    requires shift > 0
  {
    c / shift % 0x100
  }

  function Weighted(src: byte, dst: byte, alpha: byte): int {
    src * alpha + dst * (255 - alpha)
  }

  lemma NonNegative(a: nat, b: nat)
    ensures a * b >= 0
  {
  }

  /** A weighted mean lies between what it mixes. */
  lemma WeightedLiesBetween(src: byte, dst: byte, alpha: byte)
    ensures src <= dst ==> 255 * src <= Weighted(src, dst, alpha) <= 255 * dst
    ensures dst <= src ==> 255 * dst <= Weighted(src, dst, alpha) <= 255 * src
  {
    assert Weighted(src, dst, alpha) == 255 * dst + (src - dst) * alpha;
    assert Weighted(src, dst, alpha) == 255 * src + (dst - src) * (255 - alpha);
    if src <= dst {
      NonNegative(dst - src, alpha);
      NonNegative(dst - src, 255 - alpha);
      assert (src - dst) * alpha == -((dst - src) * alpha);
    } else {
      NonNegative(src - dst, alpha);
      NonNegative(src - dst, 255 - alpha);
      assert (dst - src) * (255 - alpha) == -((src - dst) * (255 - alpha));
    }
  }

  function Mixed(src: byte, dst: byte, alpha: byte): byte {
    WeightedLiesBetween(src, dst, alpha);
    Weighted(src, dst, alpha) / 255
  }

  function BlendARGB(src: u32, dst: u32): (r: u32)
    ensures Alpha(src) == 255 ==> r == src
    ensures Alpha(src) == 0 ==> r == dst
    ensures 0 < Alpha(src) < 255 ==> Alpha(r) == 255
  {
    var a := Alpha(src);
    if a == 255 then src
    else if a == 0 then dst
    else 0xFF00_0000 + 0x1_0000 * Mixed(Channel(src, 0x1_0000), Channel(dst, 0x1_0000), a)
         + 0x100 * Mixed(Channel(src, 0x100), Channel(dst, 0x100), a) + Mixed(Channel(src, 1), Channel(dst, 1), a)
  }

  /** Blending never overshoots: each channel lands between the two it mixes. */
  lemma MixedLiesBetween(src: byte, dst: byte, alpha: byte)
    ensures src <= dst ==> src <= Mixed(src, dst, alpha) <= dst
    ensures dst <= src ==> dst <= Mixed(src, dst, alpha) <= src
    ensures Mixed(src, src, alpha) == src
  {
    WeightedLiesBetween(src, dst, alpha);
  }

  /** A colour is its alpha and its three channels, alpha on top, then red, green and blue. */
  lemma ColourIs(c: u32)
    ensures c == 0x100_0000 * Alpha(c) + 0x1_0000 * Channel(c, 0x1_0000) + 0x100 * Channel(c, 0x100) + Channel(c, 1)
  {
    var a := c / 0x100;
    var b := a / 0x100;
    Quarters(c);
    assert c == 0x100 * a + c % 0x100 && a == 0x100 * b + a % 0x100 && b == 0x100 * (b / 0x100) + b % 0x100;
  }

  lemma Quarters(c: u32)
    ensures c / 0x1_0000 == c / 0x100 / 0x100 && c / 0x100_0000 == c / 0x100 / 0x100 / 0x100
    ensures c / 1 == c
  {
  }

  /** And channels put together come apart again. */
  lemma PartsOf(a: byte, r: byte, g: byte, b: byte)
    ensures var c := 0x100_0000 * a + 0x1_0000 * r + 0x100 * g + b;
            && Alpha(c) == a && Channel(c, 0x1_0000) == r && Channel(c, 0x100) == g && Channel(c, 1) == b
  {
    var c := 0x100_0000 * a + 0x1_0000 * r + 0x100 * g + b;
    Quarters(c);
    assert c / 0x100 == 0x1_0000 * a + 0x100 * r + g;
    assert c / 0x100 / 0x100 == 0x100 * a + r;
    assert c / 0x100 / 0x100 / 0x100 == a;
  }

  /** `r` is the mean of `src` and `dst` in the proportion of alpha to the rest of 255, rounded down. */
  predicate Mean(r: byte, src: byte, dst: byte, alpha: byte) {
    255 * r <= src * alpha + dst * (255 - alpha) < 255 * r + 255
  }

  lemma MixedIsMean(src: byte, dst: byte, alpha: byte)
    ensures Mean(Mixed(src, dst, alpha), src, dst, alpha)
  {
  }

  /** Each channel of a blended pixel is the mean of that channel of the two pixels it mixes. */
  lemma BlendedChannels(src: u32, dst: u32, shift: u32)
    requires shift in {1, 0x100, 0x1_0000} && 0 < Alpha(src) < 255
    ensures var r := Channel(BlendARGB(src, dst), shift);
            255 * r <= Channel(src, shift) * Alpha(src) + Channel(dst, shift) * (255 - Alpha(src)) < 255 * r + 255
  {
    var a := Alpha(src);
    hide Mixed;
    hide Alpha;
    hide Channel;
    MixedIsMean(Channel(src, 0x1_0000), Channel(dst, 0x1_0000), a);
    MixedIsMean(Channel(src, 0x100), Channel(dst, 0x100), a);
    MixedIsMean(Channel(src, 1), Channel(dst, 1), a);
    PartsOf(255, Mixed(Channel(src, 0x1_0000), Channel(dst, 0x1_0000), a),
            Mixed(Channel(src, 0x100), Channel(dst, 0x100), a), Mixed(Channel(src, 1), Channel(dst, 1), a));
  }

  /** So for what a write leaves: the pixel itself, the colour itself, or an opaque mean channel by channel. */
  lemma InkedChannels(color: u32, dst: u32, shift: u32)
    requires shift in {1, 0x100, 0x1_0000}
    ensures Alpha(color) == 0 ==> Inked(color, dst) == dst
    ensures Alpha(color) == 255 ==> Inked(color, dst) == color
    ensures 0 < Alpha(color) < 255 ==> Alpha(Inked(color, dst)) == 255
    ensures 0 < Alpha(color) < 255 ==>
              var r := Channel(Inked(color, dst), shift);
              255 * r <= Channel(color, shift) * Alpha(color) + Channel(dst, shift) * (255 - Alpha(color)) <
                255 * r + 255
  {
    if 0 < Alpha(color) < 255 {
      BlendedChannels(color, dst, shift);
    }
    hide BlendARGB;
  }

  /** What one write leaves in a pixel that held `dst`. */
  function Inked(color: u32, dst: u32): u32 {
    if Alpha(color) == 0 then dst else if Alpha(color) == 255 then color else BlendARGB(color, dst)
  }

  /** ARGB8888 to the overlay's ARGB1555: transparent below half alpha, and never the colour key. */
  function Nc5874Px(p: u32): (c: u16)
    ensures c != 0x801F
    ensures c == 0 <==> Alpha(p) < 128
  {
    if p < 0x8000_0000 then 0
    else
      var c := 0x8000 + 0x400 * (p / 0x8_0000 % 32) + 0x20 * (p / 0x800 % 32) + p / 8 % 32;
      if c == 0x801F then 0x801E else c
  }

  /** What the overlay shows for a pixel: nothing below half alpha, else its five high bits of red, green and blue,
      blue one less where the three would spell the colour key. */
  predicate ShowsAs(p: u32, c: u16) {
    if Alpha(p) < 128 then c == 0
    else
      var blue := Channel(p, 1) / 8;
      && c / 0x8000 == 1
      && c / 0x400 % 32 == Channel(p, 0x1_0000) / 8
      && c / 0x20 % 32 == Channel(p, 0x100) / 8
      && c % 32 == if Channel(p, 0x1_0000) / 8 == 0 && Channel(p, 0x100) / 8 == 0 && blue == 31 then 30 else blue
  }

  lemma FieldsOf(r: int, g: int, b: int)
    requires 0 <= r < 32 && 0 <= g < 32 && 0 <= b < 32
    ensures var c := 0x8000 + 0x400 * r + 0x20 * g + b;
            && c / 0x8000 == 1 && c / 0x400 % 32 == r && c / 0x20 % 32 == g && c % 32 == b
            && (c == 0x801F <==> r == 0 && g == 0 && b == 31)
  {
  }

  lemma RedHigh(h: nat, r: byte, low: nat)
    requires low < 0x1_0000
    ensures (0x100_0000 * h + 0x1_0000 * r + low) / 0x8_0000 % 32 == r / 8
  {
    var q, s := r / 8, r % 8;
    assert 0x100_0000 * h + 0x1_0000 * r + low == 0x8_0000 * (32 * h + q) + (0x1_0000 * s + low);
    assert (0x100_0000 * h + 0x1_0000 * r + low) / 0x8_0000 == 32 * h + q;
  }

  lemma GreenHigh(h: nat, g: byte, low: nat)
    requires low < 0x100
    ensures (0x1_0000 * h + 0x100 * g + low) / 0x800 % 32 == g / 8
  {
    var q, s := g / 8, g % 8;
    assert 0x1_0000 * h + 0x100 * g + low == 0x800 * (32 * h + q) + (0x100 * s + low);
    assert (0x1_0000 * h + 0x100 * g + low) / 0x800 == 32 * h + q;
  }

  lemma BlueHigh(h: nat, b: byte)
    ensures (0x100 * h + b) / 8 % 32 == b / 8
  {
    var q, s := b / 8, b % 8;
    assert 0x100 * h + b == 8 * (32 * h + q) + s;
    assert (0x100 * h + b) / 8 == 32 * h + q;
  }

  /** Dropping the low three bits of a channel is taking the colour apart three bits further up. */
  lemma HighBits(p: u32)
    ensures p / 0x8_0000 % 32 == Channel(p, 0x1_0000) / 8
    ensures p / 0x800 % 32 == Channel(p, 0x100) / 8
    ensures p / 8 % 32 == Channel(p, 1) / 8
    ensures p < 0x8000_0000 <==> Alpha(p) < 128
  {
    ColourIs(p);
    var a: int, r: int, g: int, b: int := Alpha(p), Channel(p, 0x1_0000), Channel(p, 0x100), Channel(p, 1);
    hide Alpha;
    hide Channel;
    RedHigh(a, r, 0x100 * g + b);
    GreenHigh(0x100 * a + r, g, b);
    BlueHigh(0x1_0000 * a + 0x100 * r + g, b);
  }

  lemma PixelShows(p: u32)
    ensures ShowsAs(p, Nc5874Px(p))
  {
    HighBits(p);
    var r, g, b := p / 0x8_0000 % 32, p / 0x800 % 32, p / 8 % 32;
    FieldsOf(r, g, b);
    FieldsOf(0, 0, 30);
    hide Channel;
    hide Alpha;
  }

  // ----- spans -----

  function Max(a: int, b: int): int {
    if a < b then b else a
  }

  function Min(a: int, b: int): int {
    if a < b then a else b
  }

  /** The half-open run of columns (or rows) a span fast path writes. */
  function SpanStart(at: i16): nat {
    Max(0, at)
  }

  function SpanEnd(at: i16, length: i16, size: nat): int {
    Min(size, Cut16(at + length))
  }

  predicate SpanCovers(at: i16, length: i16, size: nat, k: int) {
    SpanStart(at) <= k < SpanEnd(at, length, size)
  }

  /** When the end of a span is told truly: it fits 16 bits, or the clip is empty all the same. */
  predicate SpanFits(at: i16, length: i16, size: nat) {
    -0x8000 <= at + length < 0x8000 || at >= size || at + length == -0x1_0000
  }

  /** The fast paths clip to exactly the pixels of the span that are on the surface if and only if the span fits. */
  lemma SpanClipExact(at: i16, length: i16, size: nat)
    requires 0 < size < 0x8000
    ensures (forall k :: SpanCovers(at, length, size, k) <==> 0 <= k < size && at <= k < at + length) <==>
            SpanFits(at, length, size)
  {
    if at + length >= 0x8000 {
      assert Cut16(at + length) == at + length - 0x1_0000;
      if at < size {
        assert !SpanCovers(at, length, size, at);
      }
    } else if at + length < -0x8000 {
      assert Cut16(at + length) == at + length + 0x1_0000;
      if at + length > -0x1_0000 {
        assert SpanCovers(at, length, size, 0);
      }
    }
  }

  // ----- the 16-bit row counter of the unclipped loops -----

  /** The counter after `n` turns of `for (int16_t i = y; ...; i++)`, wrapping. */
  function RowAfter(y: i16, n: nat): i16 {
    if n == 0 then y else Cut16(RowAfter(y, n - 1) + 1)
  }

  /** The loop up to row `y + h`, compared as plain integers, is over after `n` turns. */
  predicate RowsDone(y: i16, h: i16, n: nat) {
    RowAfter(y, n) >= y + h
  }

  lemma CutNext(a: int)
    ensures Cut16(Cut16(a) + 1) == Cut16(a + 1)
  {
    var q, r := (a + 0x8000) / 0x1_0000, (a + 0x8000) % 0x1_0000;
    assert a + 0x8000 == 0x1_0000 * q + r;
    assert Cut16(a) + 1 + 0x8000 == r + 1;
  }

  lemma CutSame(a: i16)
    ensures Cut16(a) == a
  {
  }

  lemma {:induction false} RowIsCut(y: i16, n: nat)
    ensures RowAfter(y, n) == Cut16(y + n)
  {
    hide Cut16;
    if n == 0 {
      CutSame(y);
    } else {
      RowIsCut(y, n - 1);
      CutNext(y + (n - 1));
    }
  }

  /** Until the counter wraps it counts. */
  lemma RowCounts(y: i16, n: nat)
    requires y + n < 0x8000
    ensures RowAfter(y, n) == y + n
  {
    RowIsCut(y, n);
    CutSame(y + n);
    hide Cut16;
    hide RowAfter;
  }

  /** The loop ever ends if and only if the row behind its last fits 16 bits. */
  lemma RowsEnd(y: i16, h: i16)
    ensures (exists n: nat :: RowsDone(y, h, n)) <==> y + h < 0x8000
  {
    if y + h < 0x8000 {
      var n: nat := if h < 0 then 0 else h;
      RowCounts(y, n);
      assert RowsDone(y, h, n);
    }
  }

  /** And then after `h` turns, none if that is negative. */
  lemma RowsTake(y: i16, h: i16, n: nat)
    requires y + h < 0x8000
    ensures RowsDone(y, h, if h < 0 then 0 else h)
    ensures n < h ==> !RowsDone(y, h, n)
  {
    RowCounts(y, if h < 0 then 0 else h);
    if n < h {
      RowCounts(y, n);
    }
    hide RowAfter;
  }

  lemma NotYet(y: i16, h: i16, n: nat)
    requires !RowsDone(y, h, n) && forall k :: 0 <= k < n ==> !RowsDone(y, h, k)
    ensures !(y + h < 0x8000 && h <= n)
  {
    if y + h < 0x8000 {
      RowsTake(y, h, n);
    }
  }

  lemma CutAgain(a: int)
    ensures Cut16(a + 0x1_0000) == Cut16(a)
  {
  }

  /** A rectangle that starts on the surface is enough for a loop without end: the same rows come again and again. */
  lemma TallRowsNeverEnd(n: nat)
    ensures !RowsDone(100, 0x7FFF, n) && RowAfter(100, n + 0x1_0000) == RowAfter(100, n)
  {
    hide Cut16;
    hide RowAfter;
    RowIsCut(100, n);
    RowIsCut(100, n + 0x1_0000);
    CutAgain(100 + n);
  }

  /** How often `n` turns come to row `v`. */
  function Visits(y: i16, n: nat, v: int): nat {
    if n == 0 then 0 else Visits(y, n - 1, v) + if RowAfter(y, n - 1) == v then 1 else 0
  }

  lemma {:induction false} VisitsOnce(y: i16, n: nat, v: int)
    requires y + n <= 0x8000
    ensures Visits(y, n, v) == if y <= v < y + n then 1 else 0
  {
    if n > 0 {
      VisitsOnce(y, n - 1, v);
      RowCounts(y, n - 1);
      hide RowAfter;
    }
  }

  /** The turns of a loop that ends come to each row of the rectangle once. */
  lemma EndedTurns(y: i16, h: i16, n: nat)
    requires RowsDone(y, h, n) && forall k :: 0 <= k < n ==> !RowsDone(y, h, k)
    ensures y + h < 0x8000 && h <= n
    ensures forall v :: Visits(y, n, v) == if y <= v < y + h then 1 else 0
  {
    RowsEnd(y, h);
    RowsTake(y, h, n);
    assert n == if h < 0 then 0 else h;
    forall v ensures Visits(y, n, v) == if y <= v < y + h then 1 else 0 {
      VisitsOnce(y, n, v);
    }
  }

  lemma InkedOnce(color: u32)
    ensures forall dst :: InkedTimes(color, dst, 0) == dst && InkedTimes(color, dst, 1) == Inked(color, dst)
  {
    forall dst: u32 ensures InkedTimes(color, dst, 0) == dst && InkedTimes(color, dst, 1) == Inked(color, dst) {
      assert InkedTimes(color, dst, 1) == Inked(color, InkedTimes(color, dst, 0));
    }
  }

  function InkedTimes(color: u32, dst: u32, k: nat): u32 {
    if k == 0 then dst else Inked(color, InkedTimes(color, dst, k - 1))
  }

  // ----- the surface -----

  class Overlay {
    const width: nat
    const height: nat
    /** The draw surface and the overlay plane, row by row. */
    const buffer: array2<u32>
    const osd: array2<u16>
    /** Where the plane begins in memory. */
    const osdAddress: nat
    var dx0: i16
    var dy0: i16
    var dx1: i16
    var dy1: i16
    var fullDirty: bool

    predicate On(x: int, y: int) {
      0 <= x < width && 0 <= y < height
    }

    predicate Tracked(x: int, y: int)
      reads this
    {
      fullDirty || (dx0 <= x <= dx1 && dy0 <= y <= dy1)
    }

    ghost predicate Shape()
    {
      && 16 <= width <= 1920 && 16 <= height <= 1080 && osdAddress % 4 == 0
      && buffer.Length0 == osd.Length0 == height && buffer.Length1 == osd.Length1 == width
    }

    ghost predicate Presented(x: int, y: int)
      requires Shape() && On(x, y)
      reads buffer, osd
    {
      osd[y, x] == Nc5874Px(buffer[y, x])
    }

    /** Every pixel outside the dirty rectangle shows what the surface holds. */
    ghost predicate Valid()
      reads this, buffer, osd
    {
      && Shape()
      && dx0 >= 0 && dy0 >= 0 && dx1 < width && dy1 < height
      && (forall x, y | On(x, y) && !Tracked(x, y) :: Presented(x, y))
    }

    /** The draw surface is as it was, but for one write to each pixel of a rectangle. */
    twostate predicate Painted(x0: int, y0: int, x1: int, y1: int, color: u32)
      requires Shape()
      reads buffer
    {
      forall x, y | On(x, y) ::
        buffer[y, x] == if x0 <= x < x1 && y0 <= y < y1 then Inked(color, old(buffer[y, x])) else old(buffer[y, x])
    }

    /** The same for `n` turns of a row loop from `y` on, each writing columns `x0` to `x1` of its row. */
    twostate predicate PaintedTurns(x0: int, x1: int, y: i16, n: nat, color: u32)
      requires Shape()
      reads buffer
    {
      forall u, v | On(u, v) ::
        buffer[v, u] ==
        if x0 <= u < x1 then InkedTimes(color, old(buffer[v, u]), Visits(y, n, v)) else old(buffer[v, u])
    }

    constructor (width: nat, height: nat, osdAddress: nat)
      requires 16 <= width <= 1920 && 16 <= height <= 1080 && osdAddress % 4 == 0
      ensures Valid() && this.width == width && this.height == height && !fullDirty
      ensures forall x, y | On(x, y) :: buffer[y, x] == 0 && osd[y, x] == 0
      ensures fresh(buffer) && fresh(osd)
    {
      this.width, this.height, this.osdAddress := width, height, osdAddress;
      buffer := new u32[height, width]((_, _) => 0);
      osd := new u16[height, width]((_, _) => 0);
      dx0, dy0, dx1, dy1, fullDirty := 0x7FFF, 0x7FFF, -1, -1, false;
    }

    method Dirty(x0: i16, y0: i16, x1: i16, y1: i16)
      modifies `dx0, `dy0, `dx1, `dy1
      ensures dx0 == Min(old(dx0), x0) && dy0 == Min(old(dy0), y0) && dx1 == Max(old(dx1), x1) &&
              dy1 == Max(old(dy1), y1)
    {
      if x0 < dx0 { dx0 := x0; }
      if y0 < dy0 { dy0 := y0; }
      if x1 > dx1 { dx1 := x1; }
      if y1 > dy1 { dy1 := y1; }
    }

    method SetPixel(x: i16, y: i16, color: u32)
      requires Valid()
      modifies `dx0, `dy0, `dx1, `dy1, buffer
      ensures Valid()
      ensures forall u, v | On(u, v) :: buffer[v, u] == if u == x && v == y then color else old(buffer[v, u])
    {
      if x < 0 || x >= width || y < 0 || y >= height {
        return;
      }
      buffer[y, x] := color;
      Dirty(x, y, x, y);
    }

    function GetPixel(x: i16, y: i16): u32
      requires Shape()
      reads buffer
    {
      if On(x, y) then buffer[y, x] else 0
    }

    method WritePixel(x: i16, y: i16, color: u32)
      requires Valid()
      modifies `dx0, `dy0, `dx1, `dy1, buffer
      ensures Valid() && Painted(x, y, x + 1, y + 1, color)
    {
      hide BlendARGB;
      hide Nc5874Px;
      var alpha := Alpha(color);
      if alpha == 0 {
        return;
      }
      if x < 0 || x >= width || y < 0 || y >= height {
        return;
      }
      if alpha == 255 {
        SetPixel(x, y, color);
      } else {
        SetPixel(x, y, BlendARGB(color, GetPixel(x, y)));
      }
    }

    method InkRow(y: nat, xs: nat, xe: nat, color: u32)
      requires Shape() && On(xs, y) && xs < xe <= width && Alpha(color) != 0
      modifies buffer
      ensures forall u, v | On(u, v) ::
        buffer[v, u] == if v == y && xs <= u < xe then Inked(color, old(buffer[v, u])) else old(buffer[v, u])
    {
      hide BlendARGB;
      var i := xs;
      while i < xe
        invariant xs <= i <= xe
        invariant forall u, v | On(u, v) ::
          buffer[v, u] == if v == y && xs <= u < i then Inked(color, old(buffer[v, u])) else old(buffer[v, u])
      {
        if Alpha(color) == 255 {
          buffer[y, i] := color;
        } else {
          buffer[y, i] := BlendARGB(color, buffer[y, i]);
        }
        i := i + 1;
      }
    }

    /** The row fast path: clip once, write the row. */
    method WriteFastHLine(x: i16, y: i16, w: i16, color: u32)
      requires Valid()
      modifies `dx0, `dy0, `dx1, `dy1, buffer
      ensures Valid() && Painted(SpanStart(x), y, SpanEnd(x, w, width), y + 1, color)
      ensures SpanFits(x, w, width) ==> Painted(x, y, x + w, y + 1, color)
    {
      hide BlendARGB;
      hide Nc5874Px;
      if Alpha(color) == 0 {
        return;
      }
      if y < 0 || y >= height {
        return;
      }
      SpanClipExact(x, w, width);
      var xs, xe := SpanStart(x), SpanEnd(x, w, width);
      if xs >= xe {
        assert forall k :: !SpanCovers(x, w, width, k);
        return;
      }
      InkRow(y, xs, xe, color);
      assert SpanFits(x, w, width) ==> forall u | 0 <= u < width :: SpanCovers(x, w, width, u) <==> x <= u < x + w;
      Dirty(xs, y, xe - 1, y);
    }

    /** The same span by single writes, the path of surfaces without a plain buffer. */
    method HLineByPixels(x: i16, y: i16, w: i16, color: u32)
      requires Valid()
      modifies `dx0, `dy0, `dx1, `dy1, buffer
      ensures Valid() && Painted(SpanStart(x), y, SpanEnd(x, w, width), y + 1, color)
      ensures SpanFits(x, w, width) ==> Painted(x, y, x + w, y + 1, color)
    {
      hide BlendARGB;
      hide Nc5874Px;
      if Alpha(color) == 0 {
        return;
      }
      if y < 0 || y >= height {
        return;
      }
      SpanClipExact(x, w, width);
      var xs, xe := SpanStart(x), SpanEnd(x, w, width);
      assert SpanFits(x, w, width) ==> forall u | 0 <= u < width :: SpanCovers(x, w, width, u) <==> x <= u < x + w;
      var i := xs;
      while i < xe
        invariant xs <= i && (xs <= xe ==> i <= xe) && (xs > xe ==> i == xs) && Valid()
        invariant Painted(xs, y, i, y + 1, color)
      {
        WritePixel(i, y, color);
        i := i + 1;
      }
    }

    method InkColumn(x: nat, ys: nat, ye: nat, color: u32)
      requires Shape() && On(x, ys) && ys < ye <= height && Alpha(color) != 0
      modifies buffer
      ensures forall u, v | On(u, v) ::
        buffer[v, u] == if u == x && ys <= v < ye then Inked(color, old(buffer[v, u])) else old(buffer[v, u])
    {
      hide BlendARGB;
      var i := ys;
      while i < ye
        invariant ys <= i <= ye
        invariant forall u, v | On(u, v) ::
          buffer[v, u] == if u == x && ys <= v < i then Inked(color, old(buffer[v, u])) else old(buffer[v, u])
      {
        if Alpha(color) == 255 {
          buffer[i, x] := color;
        } else {
          buffer[i, x] := BlendARGB(color, buffer[i, x]);
        }
        i := i + 1;
      }
    }

    /** The column fast path. */
    method WriteFastVLine(x: i16, y: i16, h: i16, color: u32)
      requires Valid()
      modifies `dx0, `dy0, `dx1, `dy1, buffer
      ensures Valid() && Painted(x, SpanStart(y), x + 1, SpanEnd(y, h, height), color)
      ensures SpanFits(y, h, height) ==> Painted(x, y, x + 1, y + h, color)
    {
      hide BlendARGB;
      hide Nc5874Px;
      if Alpha(color) == 0 {
        return;
      }
      if x < 0 || x >= width {
        return;
      }
      SpanClipExact(y, h, height);
      var ys, ye := SpanStart(y), SpanEnd(y, h, height);
      if ys >= ye {
        assert forall k :: !SpanCovers(y, h, height, k);
        return;
      }
      InkColumn(x, ys, ye, color);
      assert SpanFits(y, h, height) ==> forall v | 0 <= v < height :: SpanCovers(y, h, height, v) <==> y <= v < y + h;
      Dirty(x, ys, x, ye - 1);
    }

    /**
     * The column by single writes, unclipped, for as many `turns` of the loop as are waited for. It ends if and
     * only if nothing is to be drawn or the row behind its last fits 16 bits; until then it goes round.
     */
    method VLineByPixels(x: i16, y: i16, h: i16, color: u32, turns: nat) returns (ended: bool)
      requires Valid()
      modifies `dx0, `dy0, `dx1, `dy1, buffer
      ensures Valid() && ended == (Alpha(color) == 0 || (y + h < 0x8000 && h <= turns))
      ensures if ended then Painted(x, y, x + 1, y + h, color) else PaintedTurns(x, x + 1, y, turns, color)
    {
      hide BlendARGB;
      hide Nc5874Px;
      ended := true;
      if Alpha(color) == 0 {
        return;
      }
      var i: i16, n := y, 0;
      while i < y + h
        invariant n <= turns && i == RowAfter(y, n) && Valid()
        invariant forall k :: 0 <= k < n ==> !RowsDone(y, h, k)
        invariant PaintedTurns(x, x + 1, y, n, color)
        decreases turns - n
      {
        if n == turns {
          NotYet(y, h, n);
          return false;
        }
        WritePixel(x, i, color);
        i, n := Cut16(i + 1), n + 1;
      }
      EndedTurns(y, h, n);
      InkedOnce(color);
    }

    /** The row loop, for as many `turns` as are waited for. */
    method FillRows(x: i16, y: i16, w: i16, h: i16, color: u32, turns: nat) returns (ended: bool)
      requires Valid() && Alpha(color) != 0
      modifies `dx0, `dy0, `dx1, `dy1, buffer
      ensures Valid() && ended == (y + h < 0x8000 && h <= turns)
      ensures if ended then Painted(SpanStart(x), y, SpanEnd(x, w, width), y + h, color)
              else PaintedTurns(SpanStart(x), SpanEnd(x, w, width), y, turns, color)
    {
      hide BlendARGB;
      hide Nc5874Px;
      hide Inked;
      hide SpanEnd;
      hide SpanFits;
      var i: i16, n := y, 0;
      while i < y + h
        invariant n <= turns && i == RowAfter(y, n) && Valid()
        invariant forall k :: 0 <= k < n ==> !RowsDone(y, h, k)
        invariant PaintedTurns(SpanStart(x), SpanEnd(x, w, width), y, n, color)
        decreases turns - n
      {
        if n == turns {
          NotYet(y, h, n);
          return false;
        }
        WriteFastHLine(x, i, w, color);
        i, n := Cut16(i + 1), n + 1;
      }
      EndedTurns(y, h, n);
      InkedOnce(color);
      ended := true;
    }

    /**
     * Every pixel of the rectangle on the surface is inked exactly once, and no other, if the row behind its last
     * fits 16 bits. Otherwise, unless nothing is to be drawn, the loop goes round for as many `turns` as are waited
     * for, inking its rows again each time.
     */
    method WriteFillRect(x: i16, y: i16, w: i16, h: i16, color: u32, turns: nat) returns (ended: bool)
      requires Valid()
      modifies `dx0, `dy0, `dx1, `dy1, buffer
      ensures Valid() && ended == (Alpha(color) == 0 || (y + h < 0x8000 && h <= turns))
      ensures if ended then Painted(SpanStart(x), y, SpanEnd(x, w, width), y + h, color)
              else PaintedTurns(SpanStart(x), SpanEnd(x, w, width), y, turns, color)
      ensures ended && SpanFits(x, w, width) ==> Painted(x, y, x + w, y + h, color)
    {
      hide BlendARGB;
      hide Nc5874Px;
      if Alpha(color) == 0 {
        return true;
      }
      SpanClipExact(x, w, width);
      assert SpanFits(x, w, width) ==> forall u | 0 <= u < width :: SpanCovers(x, w, width, u) <==> x <= u < x + w;
      ended := FillRows(x, y, w, h, color, turns);
    }

    /** Black is cleared by zeroing, which leaves transparent pixels rather than opaque ones. */
    method ClearBuffer(idx: int, color: u32)
      requires Valid() && -0x80 <= idx < 0x80
      modifies `fullDirty, buffer
      ensures Valid() && fullDirty
      ensures forall x, y | On(x, y) ::
        buffer[y, x] == if idx !in {-1, -2, 0} then old(buffer[y, x]) else if color == GFX_BLACK then 0 else color
    {
      if idx == -1 || idx == -2 || idx == 0 {
        var c := if color == GFX_BLACK then 0 else color;
        forall y, x | 0 <= y < height && 0 <= x < width {
          buffer[y, x] := c;
        }
      }
      fullDirty := true;
    }

    function Address(x: nat, y: nat): nat {
      osdAddress + 2 * (y * width + x)
    }

    /** Two pixels in one aligned 32-bit store, the left one in the low half. */
    method StorePair(x: nat, y: nat, left: u16, right: u16)
      requires Shape() && On(x, y) && On(x + 1, y) && Address(x, y) % 4 == 0
      modifies osd
      ensures osd[y, x] == left && osd[y, x + 1] == right
      ensures forall u, v | On(u, v) && !(v == y && x <= u <= x + 1) :: osd[v, u] == old(osd[v, u])
    {
      var word: int := left as int + 0x1_0000 * right as int;
      osd[y, x], osd[y, x + 1] := word % 0x1_0000, word / 0x1_0000;
    }

    lemma NextAddress(x: nat, y: nat)
      requires osdAddress % 4 == 0
      ensures Address(x + 1, y) == Address(x, y) + 2 && Address(x, y) % 2 == 0
      ensures Address(x, y) / 2 % 2 == 1 <==> Address(x, y) % 4 == 2
    {
    }

    lemma FirstAligned(x: nat, y: nat)
      requires osdAddress % 4 == 0
      ensures Aligned(if Address(x, y) / 2 % 2 == 1 then x + 1 else x, y)
    {
      NextAddress(x, y);
      hide Address;
    }

    lemma NextAligned(x: nat, y: nat)
      requires osdAddress % 4 == 0 && Aligned(x, y)
      ensures Aligned(x + 2, y)
    {
      NextAddress(x, y);
      NextAddress(x + 1, y);
      hide Address;
    }

    /** A pixel with which a 32-bit store can begin. */
    predicate Aligned(x: nat, y: nat) {
      Address(x, y) % 4 == 0
    }

    method PresentOne(x: nat, y: nat)
      requires Shape() && On(x, y)
      modifies osd
      ensures Presented(x, y)
      ensures forall u, v | On(u, v) && !(v == y && u == x) ::
        osd[v, u] == old(osd[v, u]) && Presented(u, v) == old(Presented(u, v))
    {
      osd[y, x] := Nc5874Px(buffer[y, x]);
    }

    method PresentPair(x: nat, y: nat)
      requires Shape() && On(x, y) && On(x + 1, y) && Aligned(x, y)
      modifies osd
      ensures Presented(x, y) && Presented(x + 1, y)
      ensures forall u, v | On(u, v) && !(v == y && x <= u <= x + 1) ::
        osd[v, u] == old(osd[v, u]) && Presented(u, v) == old(Presented(u, v))
    {
      hide Nc5874Px;
      hide Address;
      StorePair(x, y, Nc5874Px(buffer[y, x]), Nc5874Px(buffer[y, x + 1]));
    }

    /** One row of the present: a lone pixel until aligned, pairs, and a lone last pixel. */
    method PresentRow(y: nat, x0: nat, x1: nat)
      requires Shape() && y < height && x0 <= x1 < width
      modifies osd
      ensures forall x | x0 <= x <= x1 :: Presented(x, y)
      ensures forall u, v | On(u, v) && !(v == y && x0 <= u <= x1) :: osd[v, u] == old(osd[v, u])
    {
      hide Nc5874Px;
      hide Address;
      hide Aligned;
      var x := x0;
      FirstAligned(x, y);
      if Address(x, y) / 2 % 2 == 1 {
        PresentOne(x, y);
        x := x + 1;
      }
      while x + 1 <= x1
        invariant x0 <= x <= x1 + 1 && Aligned(x, y)
        invariant forall u | x0 <= u < x :: Presented(u, y)
        invariant forall u, v | On(u, v) && !(v == y && x0 <= u < x) :: osd[v, u] == old(osd[v, u])
      {
        PresentPair(x, y);
        NextAligned(x, y);
        x := x + 2;
      }
      if x == x1 {
        PresentOne(x, y);
      }
    }

    /** A present, of the dirty rectangle or of everything, leaves the whole plane showing the surface. */
    method Present(full: bool)
      requires Valid()
      modifies `dx0, `dy0, `dx1, `dy1, `fullDirty, osd
      ensures Valid() && !fullDirty && forall x, y | On(x, y) :: Presented(x, y) && !Tracked(x, y)
      ensures forall x, y | On(x, y) :: ShowsAs(buffer[y, x], osd[y, x])
    {
      PresentDirty(full);
      hide Nc5874Px;
      hide ShowsAs;
      forall x, y | On(x, y) ensures ShowsAs(buffer[y, x], osd[y, x]) {
        PixelShows(buffer[y, x]);
        assert Presented(x, y);
      }
    }

    method PresentDirty(full: bool)
      requires Valid()
      modifies `dx0, `dy0, `dx1, `dy1, `fullDirty, osd
      ensures Valid() && !fullDirty && forall x, y | On(x, y) :: Presented(x, y) && !Tracked(x, y)
    {
      hide Nc5874Px;
      var x0, y0, x1, y1 := dx0, dy0, dx1, dy1;
      ghost var rect := (x0, y0, x1, y1);
      if full || fullDirty {
        x0, y0, x1, y1 := 0, 0, width - 1, height - 1;
      }
      assert forall u, v | On(u, v) && !(x0 <= u <= x1 && y0 <= v <= y1) :: Presented(u, v);
      dx0, dy0, dx1, dy1 := 0x7FFF, 0x7FFF, -1, -1;
      fullDirty := false;
      if x1 < x0 || y1 < y0 {
        return;
      }
      var y := y0;
      while y <= y1
        invariant y0 <= y <= y1 + 1
        invariant forall u, v | On(u, v) && !(x0 <= u <= x1 && y <= v <= y1) :: Presented(u, v)
        modifies osd
      {
        PresentRow(y, x0, x1);
        y := y + 1;
      }
    }
  }
}
