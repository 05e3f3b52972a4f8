/** Draw calls and their wire form: one opcode byte, then packed little-endian fields. */
module DrawCalls {
  import opened Bytes

  /** A call on a draw target. `F` is how a font is named: a local font, or its one-byte wire id.
      A float travels as its 32 bits. */
  datatype Call<F> =
    | DrawPixel(x: i16, y: i16, color: u32)
    | FastVLine(x: i16, y: i16, h: i16, color: u32)
    | FastHLine(x: i16, y: i16, w: i16, color: u32)
    | Line(x0: i16, y0: i16, x1: i16, y1: i16, color: u32)
    | Rect(x: i16, y: i16, w: i16, h: i16, color: u32)
    | FillRect(x: i16, y: i16, w: i16, h: i16, color: u32)
    | FillScreen(color: u32)
    | Circle(x: i16, y: i16, r: i16, color: u32)
    | FillCircle(x: i16, y: i16, r: i16, color: u32)
    | Arc(x: i16, y: i16, r: i16, start: u32, end: u32, color: u32)
    | RoundRect(x: i16, y: i16, w: i16, h: i16, r: i16, color: u32)
    | FillRoundRect(x: i16, y: i16, w: i16, h: i16, r: i16, color: u32)
    | Triangle(x0: i16, y0: i16, x1: i16, y1: i16, x2: i16, y2: i16, color: u32)
    | FillTriangle(x0: i16, y0: i16, x1: i16, y1: i16, x2: i16, y2: i16, color: u32)
    | SetDrawStyle(stroke: byte, cap: byte, join: byte, on: bool)
    | SetRotation(rot: byte)
    | InvertDisplay(on: bool)
    | SetCursor(x: i16, y: i16)
    | SetTextColor(color: u32, bg: u32)
    | SetTextSize(sx: byte, sy: byte)
    | SetTextWrap(on: bool)
    | SetTextRotation(rot: byte)
    | SetFont(font: F)
    | WriteText(text: seq<byte>)
    | DrawChar(x: i16, y: i16, ch: byte, color: u32, bg: u32, sx: byte, sy: byte)
    | SetText(x: i16, y: i16, color: u32, bg: u32, sx: byte, sy: byte, font: F, rot: byte, text: seq<byte>)
    | Bitmap1Bit(x: i16, y: i16, w: i16, h: i16, color: u32, bg: u32, bits: seq<byte>)
    | XBitmap(x: i16, y: i16, w: i16, h: i16, color: u32, bits: seq<byte>)
    | GrayBitmap(x: i16, y: i16, w: i16, h: i16, gray: seq<byte>)
    | GrayBitmapMask(x: i16, y: i16, w: i16, h: i16, gray: seq<byte>, bits: seq<byte>)
    | RGBBitmap(x: i16, y: i16, w: i16, h: i16, argb: seq<u32>)
    | RGBBitmapMask(x: i16, y: i16, w: i16, h: i16, argb: seq<u32>, bits: seq<byte>)
    | RGB565Bitmap(x: i16, y: i16, w: i16, h: i16, rgb: seq<u16>)
    | BitmapTriangle(x0: i16, y0: i16, x1: i16, y1: i16, x2: i16, y2: i16, w: i16, h: i16, argb: seq<u32>)
    | SwapBuffers(on: bool)

  function MapFont<F, G>(c: Call<F>, f: F -> G): Call<G> {
    match c
    case DrawPixel(x, y, k) => DrawPixel(x, y, k)
    case FastVLine(x, y, h, k) => FastVLine(x, y, h, k)
    case FastHLine(x, y, w, k) => FastHLine(x, y, w, k)
    case Line(x0, y0, x1, y1, k) => Line(x0, y0, x1, y1, k)
    case Rect(x, y, w, h, k) => Rect(x, y, w, h, k)
    case FillRect(x, y, w, h, k) => FillRect(x, y, w, h, k)
    case FillScreen(k) => FillScreen(k)
    case Circle(x, y, r, k) => Circle(x, y, r, k)
    case FillCircle(x, y, r, k) => FillCircle(x, y, r, k)
    case Arc(x, y, r, a, b, k) => Arc(x, y, r, a, b, k)
    case RoundRect(x, y, w, h, r, k) => RoundRect(x, y, w, h, r, k)
    case FillRoundRect(x, y, w, h, r, k) => FillRoundRect(x, y, w, h, r, k)
    case Triangle(x0, y0, x1, y1, x2, y2, k) => Triangle(x0, y0, x1, y1, x2, y2, k)
    case FillTriangle(x0, y0, x1, y1, x2, y2, k) => FillTriangle(x0, y0, x1, y1, x2, y2, k)
    case SetDrawStyle(s, cap, j, on) => SetDrawStyle(s, cap, j, on)
    case SetRotation(r) => SetRotation(r)
    case InvertDisplay(on) => InvertDisplay(on)
    case SetCursor(x, y) => SetCursor(x, y)
    case SetTextColor(k, bg) => SetTextColor(k, bg)
    case SetTextSize(sx, sy) => SetTextSize(sx, sy)
    case SetTextWrap(on) => SetTextWrap(on)
    case SetTextRotation(r) => SetTextRotation(r)
    case SetFont(font) => SetFont(f(font))
    case WriteText(t) => WriteText(t)
    case DrawChar(x, y, ch, k, bg, sx, sy) => DrawChar(x, y, ch, k, bg, sx, sy)
    case SetText(x, y, k, bg, sx, sy, font, rot, t) => SetText(x, y, k, bg, sx, sy, f(font), rot, t)
    case Bitmap1Bit(x, y, w, h, k, bg, bits) => Bitmap1Bit(x, y, w, h, k, bg, bits)
    case XBitmap(x, y, w, h, k, bits) => XBitmap(x, y, w, h, k, bits)
    case GrayBitmap(x, y, w, h, g) => GrayBitmap(x, y, w, h, g)
    case GrayBitmapMask(x, y, w, h, g, bits) => GrayBitmapMask(x, y, w, h, g, bits)
    case RGBBitmap(x, y, w, h, a) => RGBBitmap(x, y, w, h, a)
    case RGBBitmapMask(x, y, w, h, a, bits) => RGBBitmapMask(x, y, w, h, a, bits)
    case RGB565Bitmap(x, y, w, h, p) => RGB565Bitmap(x, y, w, h, p)
    case BitmapTriangle(x0, y0, x1, y1, x2, y2, w, h, a) => BitmapTriangle(x0, y0, x1, y1, x2, y2, w, h, a)
    case SwapBuffers(on) => SwapBuffers(on)
  }

  // ----- bitmap extents -----

  /** `a * b`, by repeated addition so that proofs about layout stay linear. */
  function Times(a: nat, b: nat): nat {
    if b == 0 then 0 else Times(a, b - 1) + a
  }

  lemma {:induction false} TimesIsProduct(a: nat, b: nat)
    ensures Times(a, b) == a * b
  {
    if b > 0 {
      TimesIsProduct(a, b - 1);
    }
  }

  function Area(w: i16, h: i16): nat
    requires w > 0 && h > 0
  {
    Times(w, h)
  }

  /** Bytes in a 1-bit-per-pixel plane. */
  function MonoBytes(w: i16, h: i16): nat
    requires w > 0 && h > 0
  {
    Times((w as int + 7) / 8, h)
  }

  // ----- layout -----

  function Shorts(xs: seq<i16>): (b: seq<byte>)
    ensures |b| == 2 * |xs|
  {
    if xs == [] then [] else Shorts(xs[..|xs| - 1]) + LEi16(xs[|xs| - 1])
  }

  function Halves(xs: seq<u16>): (b: seq<byte>)
    ensures |b| == 2 * |xs|
  {
    if xs == [] then [] else Halves(xs[..|xs| - 1]) + LE16(xs[|xs| - 1])
  }

  function Longs(xs: seq<u32>): (b: seq<byte>)
    ensures |b| == 4 * |xs|
  {
    if xs == [] then [] else Longs(xs[..|xs| - 1]) + LE32(xs[|xs| - 1])
  }

  function Pack(op: byte, shorts: seq<i16>, longs: seq<u32>, blob: seq<byte>): (b: seq<byte>)
    ensures |b| == 1 + 2 * |shorts| + 4 * |longs| + |blob|
  {
    [op] + Shorts(shorts) + Longs(longs) + blob
  }

  function Flag(on: bool): byte {
    if on then 1 else 0
  }

  /** What the recorder can put on the wire: sizes that fit their fields, data that fits its extent. */
  predicate Encodable<F>(c: Call<F>) {
    match c
    case WriteText(t) => |t| < 0x1_0000 && 0 !in t
    case SetText(_, _, _, _, _, _, _, _, t) => |t| < 0x1_0000 && 0 !in t
    case Bitmap1Bit(_, _, w, h, _, _, bits) => w > 0 && h > 0 && |bits| == MonoBytes(w, h)
    case XBitmap(_, _, w, h, _, bits) => w > 0 && h > 0 && |bits| == MonoBytes(w, h)
    case GrayBitmap(_, _, w, h, g) => w > 0 && h > 0 && |g| == Area(w, h)
    case GrayBitmapMask(_, _, w, h, g, bits) => w > 0 && h > 0 && |g| == Area(w, h) && |bits| == MonoBytes(w, h)
    case RGBBitmap(_, _, w, h, a) => w > 0 && h > 0 && |a| == Area(w, h)
    case RGBBitmapMask(_, _, w, h, a, bits) => w > 0 && h > 0 && |a| == Area(w, h) && |bits| == MonoBytes(w, h)
    case RGB565Bitmap(_, _, w, h, p) => w > 0 && h > 0 && |p| == Area(w, h)
    case BitmapTriangle(_, _, _, _, _, _, w, h, a) => w > 0 && h > 0 && |a| == Area(w, h)
    case _ => true
  }

  function Encode(c: Call<byte>): (b: seq<byte>)
    requires Encodable(c)
    ensures b != []
  {
    match c
    case DrawPixel(x, y, k) => Pack(0x01, [x, y], [k], [])
    case FastVLine(x, y, h, k) => Pack(0x02, [x, y, h], [k], [])
    case FastHLine(x, y, w, k) => Pack(0x03, [x, y, w], [k], [])
    case Line(x0, y0, x1, y1, k) => Pack(0x04, [x0, y0, x1, y1], [k], [])
    case Rect(x, y, w, h, k) => Pack(0x05, [x, y, w, h], [k], [])
    case FillRect(x, y, w, h, k) => Pack(0x06, [x, y, w, h], [k], [])
    case FillScreen(k) => Pack(0x07, [], [k], [])
    case Circle(x, y, r, k) => Pack(0x08, [x, y, r], [k], [])
    case FillCircle(x, y, r, k) => Pack(0x09, [x, y, r], [k], [])
    case Arc(x, y, r, a, e, k) => Pack(0x0A, [x, y, r], [a, e, k], [])
    case RoundRect(x, y, w, h, r, k) => Pack(0x0B, [x, y, w, h, r], [k], [])
    case FillRoundRect(x, y, w, h, r, k) => Pack(0x0C, [x, y, w, h, r], [k], [])
    case Triangle(x0, y0, x1, y1, x2, y2, k) => Pack(0x0D, [x0, y0, x1, y1, x2, y2], [k], [])
    case FillTriangle(x0, y0, x1, y1, x2, y2, k) => Pack(0x0E, [x0, y0, x1, y1, x2, y2], [k], [])
    case SetDrawStyle(s, cap, j, on) => Pack(0x20, [], [], [s, cap, j, Flag(on)])
    case SetRotation(r) => Pack(0x21, [], [], [r])
    case InvertDisplay(on) => Pack(0x22, [], [], [Flag(on)])
    case SetCursor(x, y) => Pack(0x30, [x, y], [], [])
    case SetTextColor(k, bg) => Pack(0x31, [], [k, bg], [])
    case SetTextSize(sx, sy) => Pack(0x32, [], [], [sx, sy])
    case SetTextWrap(on) => Pack(0x33, [], [], [Flag(on)])
    case SetTextRotation(r) => Pack(0x34, [], [], [r])
    case SetFont(id) => Pack(0x35, [], [], [id])
    case WriteText(t) => Pack(0x36, [], [], LE16(|t|) + t)
    case DrawChar(x, y, ch, k, bg, sx, sy) => Pack(0x37, [x, y], [], [ch] + LE32(k) + LE32(bg) + [sx, sy])
    case SetText(x, y, k, bg, sx, sy, id, rot, t) =>
      Pack(0x38, [x, y], [k, bg], [sx, sy, id, rot] + (LE16(|t|) + t))
    case Bitmap1Bit(x, y, w, h, k, bg, bits) => Pack(0x40, [x, y, w, h], [k, bg], bits)
    case XBitmap(x, y, w, h, k, bits) => Pack(0x41, [x, y, w, h], [k], bits)
    case GrayBitmap(x, y, w, h, g) => Pack(0x42, [x, y, w, h], [], g)
    case GrayBitmapMask(x, y, w, h, g, bits) => Pack(0x43, [x, y, w, h], [], g + bits)
    case RGBBitmap(x, y, w, h, a) => Pack(0x44, [x, y, w, h], [], Longs(a))
    case RGBBitmapMask(x, y, w, h, a, bits) => Pack(0x45, [x, y, w, h], [], Longs(a) + bits)
    case RGB565Bitmap(x, y, w, h, p) => Pack(0x46, [x, y, w, h], [], Halves(p))
    case BitmapTriangle(x0, y0, x1, y1, x2, y2, w, h, a) =>
      Pack(0x47, [x0, y0, x1, y1, x2, y2, w, h], [], Longs(a))
    case SwapBuffers(on) => Pack(0x50, [], [], [Flag(on)])
  }

  predicate AllEncodable<F>(cmds: seq<Call<F>>) {
    forall k :: 0 <= k < |cmds| ==> Encodable(cmds[k])
  }

  /** One block of bytes per command. */
  function Blocks(cmds: seq<Call<byte>>): (b: seq<seq<byte>>)
    requires AllEncodable(cmds)
    ensures |b| == |cmds|
  {
    seq(|cmds|, k requires 0 <= k < |cmds| && AllEncodable(cmds) => Encode(cmds[k]))
  }

  function EncodeAll(cmds: seq<Call<byte>>): seq<byte>
    requires AllEncodable(cmds)
  {
    Concat(Blocks(cmds))
  }

  lemma EncodeAllSnoc(cmds: seq<Call<byte>>, c: Call<byte>)
    requires AllEncodable(cmds) && Encodable(c)
    ensures AllEncodable(cmds + [c]) && EncodeAll(cmds + [c]) == EncodeAll(cmds) + Encode(c)
  {
    assert Blocks(cmds + [c]) == Blocks(cmds) + [Encode(c)];
    ConcatSnoc(Blocks(cmds), Encode(c));
  }

  // ----- reading fields back -----

  /** `piece` stands in `s` at offset `i`. */
  predicate Has(s: seq<byte>, i: nat, piece: seq<byte>)
    ensures Has(s, i, piece) ==> i + |piece| <= |s|
    decreases |piece|
  {
    if piece == [] then i <= |s| else i < |s| && s[i] == piece[0] && Has(s, i + 1, piece[1..])
  }

  lemma {:induction false} HasAt(s: seq<byte>, i: nat, piece: seq<byte>, k: nat)
    requires Has(s, i, piece) && k < |piece|
    ensures s[i + k] == piece[k]
    decreases k
  {
    if k > 0 {
      HasAt(s, i + 1, piece[1..], k - 1);
    }
  }

  lemma {:induction false} SliceHas(s: seq<byte>, i: nat, piece: seq<byte>)
    requires i + |piece| <= |s| && s[i..i + |piece|] == piece
    ensures Has(s, i, piece)
    decreases |piece|
  {
    if piece != [] {
      assert s[i] == s[i..i + |piece|][0];
      assert s[i + 1..i + |piece|] == s[i..i + |piece|][1..];
      SliceHas(s, i + 1, piece[1..]);
    }
  }

  lemma HasIsSlice(s: seq<byte>, i: nat, piece: seq<byte>)
    requires Has(s, i, piece)
    ensures s[i..i + |piece|] == piece
  {
    forall k: nat | k < |piece| ensures s[i..i + |piece|][k] == piece[k] {
      HasAt(s, i, piece, k);
    }
  }

  lemma {:induction false} HasSplits(s: seq<byte>, i: nat, a: seq<byte>, b: seq<byte>)
    ensures Has(s, i, a + b) <==> Has(s, i, a) && Has(s, i + |a|, b)
    decreases |a|
  {
    if a == [] {
      Units(b);
    } else {
      assert (a + b)[1..] == a[1..] + b;
      HasSplits(s, i + 1, a[1..], b);
    }
  }

  lemma Has16(s: seq<byte>, i: nat, v: u16)
    requires Has(s, i, LE16(v))
    ensures i + 2 <= |s| && U16At(s, i) == v
  {
    HasAt(s, i, LE16(v), 0);
    HasAt(s, i, LE16(v), 1);
  }

  lemma Has32(s: seq<byte>, i: nat, v: u32)
    requires Has(s, i, LE32(v))
    ensures i + 4 <= |s| && U32At(s, i) == v
  {
    var p := LE32(v);
    HasAt(s, i, p, 0);
    HasAt(s, i, p, 1);
    HasAt(s, i, p, 2);
    HasAt(s, i, p, 3);
  }

  /** Where block `k` starts in a concatenation. */
  function Offset(blocks: seq<seq<byte>>, k: nat): nat
    requires k <= |blocks|
  {
    |Concat(blocks[..k])|
  }

  lemma BlockAt(blocks: seq<seq<byte>>, k: nat, n: nat, s: seq<byte>)
    requires k < n <= |blocks| && Has(s, 0, Concat(blocks[..n]))
    ensures Has(s, Offset(blocks, k), blocks[k])
    ensures Offset(blocks, k + 1) == Offset(blocks, k) + |blocks[k]| <= |s|
  {
    var before, b, after := blocks[..k], blocks[k], blocks[k + 1..n];
    assert blocks[..n] == before + [b] + after;
    assert blocks[..k + 1] == before + [b];
    ConcatAppend(before + [b], after);
    ConcatSnoc(before, b);
    HasSplits(s, 0, Concat(before) + b, Concat(after));
    HasSplits(s, 0, Concat(before), b);
    assert 0 + |Concat(before)| == Offset(blocks, k);
  }

  lemma HeadHas(blocks: seq<seq<byte>>, k: nat, n: nat)
    requires k <= |blocks| && Offset(blocks, k) <= n <= |Concat(blocks)|
    ensures Has(Concat(blocks)[..n], 0, Concat(blocks[..k]))
  {
    var part := Concat(blocks[..k]);
    assert blocks == blocks[..k] + blocks[k..];
    ConcatAppend(blocks[..k], blocks[k..]);
    assert Concat(blocks)[..n][0..|part|] == part;
    SliceHas(Concat(blocks)[..n], 0, part);
  }

  function U16sAt(s: seq<byte>, i: nat, n: nat): seq<u16>
    requires i + 2 * n <= |s|
  {
    seq(n, k requires 0 <= k < n => U16At(s, i + 2 * k))
  }

  function U32sAt(s: seq<byte>, i: nat, n: nat): seq<u32>
    requires i + 4 * n <= |s|
  {
    seq(n, k requires 0 <= k < n => U32At(s, i + 4 * k))
  }

  lemma {:induction false} ShortRead(s: seq<byte>, i: nat, xs: seq<i16>, k: nat)
    requires Has(s, i, Shorts(xs)) && k < |xs|
    ensures i + 2 * |xs| <= |s| && I16At(s, i + 2 * k) == xs[k]
  {
    var n := |xs| - 1;
    HasSplits(s, i, Shorts(xs[..n]), LEi16(xs[n]));
    if k == n {
      Has16(s, i + 2 * n, Unsigned(xs[n]));
    } else {
      ShortRead(s, i, xs[..n], k);
    }
  }

  lemma {:induction false} LongRead(s: seq<byte>, i: nat, xs: seq<u32>, k: nat)
    requires Has(s, i, Longs(xs)) && k < |xs|
    ensures i + 4 * |xs| <= |s| && U32At(s, i + 4 * k) == xs[k]
  {
    var n := |xs| - 1;
    HasSplits(s, i, Longs(xs[..n]), LE32(xs[n]));
    if k == n {
      Has32(s, i + 4 * n, xs[n]);
    } else {
      LongRead(s, i, xs[..n], k);
    }
  }

  lemma {:induction false} HalfRead(s: seq<byte>, i: nat, xs: seq<u16>, k: nat)
    requires Has(s, i, Halves(xs)) && k < |xs|
    ensures i + 2 * |xs| <= |s| && U16At(s, i + 2 * k) == xs[k]
  {
    var n := |xs| - 1;
    HasSplits(s, i, Halves(xs[..n]), LE16(xs[n]));
    if k == n {
      Has16(s, i + 2 * n, xs[n]);
    } else {
      HalfRead(s, i, xs[..n], k);
    }
  }

  lemma HalvesRead(s: seq<byte>, i: nat, xs: seq<u16>)
    requires Has(s, i, Halves(xs))
    ensures U16sAt(s, i, |xs|) == xs
  {
    forall k | 0 <= k < |xs| ensures U16sAt(s, i, |xs|)[k] == xs[k] {
      HalfRead(s, i, xs, k);
    }
  }

  lemma LongsRead(s: seq<byte>, i: nat, xs: seq<u32>)
    requires Has(s, i, Longs(xs))
    ensures U32sAt(s, i, |xs|) == xs
  {
    forall k | 0 <= k < |xs| ensures U32sAt(s, i, |xs|)[k] == xs[k] {
      LongRead(s, i, xs, k);
    }
  }

  /** Where the fields of a packed command are found. */
  lemma PackRead(s: seq<byte>, i: nat, op: byte, xs: seq<i16>, ys: seq<u32>, blob: seq<byte>)
    requires Has(s, i, Pack(op, xs, ys, blob))
    ensures i < |s| && s[i] == op
    ensures Has(s, i + 1, Shorts(xs)) && Has(s, i + 1 + 2 * |xs|, Longs(ys))
    ensures Has(s, i + 1 + 2 * |xs| + 4 * |ys|, blob)
  {
    Split4(s, i, [op], Shorts(xs), Longs(ys), blob);
    HasAt(s, i, [op], 0);
  }

  lemma Split4(s: seq<byte>, i: nat, a: seq<byte>, b: seq<byte>, c: seq<byte>, d: seq<byte>)
    requires Has(s, i, a + b + c + d)
    ensures Has(s, i, a) && Has(s, i + |a|, b) && Has(s, i + |a| + |b|, c) && Has(s, i + |a| + |b| + |c|, d)
  {
    HasSplits(s, i, a + b + c, d);
    HasSplits(s, i, a + b, c);
    HasSplits(s, i, a, b);
  }

  lemma ShortsReadFirst(s: seq<byte>, i: nat, xs: seq<i16>)
    requires Has(s, i, Shorts(xs))
    ensures i + 2 * |xs| <= |s|
    ensures |xs| > 0 ==> I16At(s, i) == xs[0]
    ensures |xs| > 1 ==> I16At(s, i + 2) == xs[1]
    ensures |xs| > 2 ==> I16At(s, i + 4) == xs[2]
    ensures |xs| > 3 ==> I16At(s, i + 6) == xs[3]
    ensures |xs| > 4 ==> I16At(s, i + 8) == xs[4]
    ensures |xs| > 5 ==> I16At(s, i + 10) == xs[5]
    ensures |xs| > 6 ==> I16At(s, i + 12) == xs[6]
    ensures |xs| > 7 ==> I16At(s, i + 14) == xs[7]
  {
    if |xs| > 0 { ShortRead(s, i, xs, 0); }
    if |xs| > 1 { ShortRead(s, i, xs, 1); }
    if |xs| > 2 { ShortRead(s, i, xs, 2); }
    if |xs| > 3 { ShortRead(s, i, xs, 3); }
    if |xs| > 4 { ShortRead(s, i, xs, 4); }
    if |xs| > 5 { ShortRead(s, i, xs, 5); }
    if |xs| > 6 { ShortRead(s, i, xs, 6); }
    if |xs| > 7 { ShortRead(s, i, xs, 7); }
  }

  lemma LongsReadFirst(s: seq<byte>, i: nat, ys: seq<u32>)
    requires Has(s, i, Longs(ys))
    ensures i + 4 * |ys| <= |s|
    ensures |ys| > 0 ==> U32At(s, i) == ys[0]
    ensures |ys| > 1 ==> U32At(s, i + 4) == ys[1]
    ensures |ys| > 2 ==> U32At(s, i + 8) == ys[2]
  {
    if |ys| > 0 { LongRead(s, i, ys, 0); }
    if |ys| > 1 { LongRead(s, i, ys, 1); }
    if |ys| > 2 { LongRead(s, i, ys, 2); }
  }

  /** The fields of a packed command, by offset; `p` is where its blob begins. */
  lemma PackFields(s: seq<byte>, i: nat, op: byte, xs: seq<i16>, ys: seq<u32>, blob: seq<byte>, l: nat, p: nat)
    requires Has(s, i, Pack(op, xs, ys, blob))
    requires l == i + 1 + 2 * |xs| && p == l + 4 * |ys|
    ensures i < |s| && s[i] == op && p + |blob| <= |s|
    ensures |xs| > 0 ==> I16At(s, i + 1) == xs[0]
    ensures |xs| > 1 ==> I16At(s, i + 1 + 2) == xs[1]
    ensures |xs| > 2 ==> I16At(s, i + 1 + 4) == xs[2]
    ensures |xs| > 3 ==> I16At(s, i + 1 + 6) == xs[3]
    ensures |xs| > 4 ==> I16At(s, i + 1 + 8) == xs[4]
    ensures |xs| > 5 ==> I16At(s, i + 1 + 10) == xs[5]
    ensures |xs| > 6 ==> I16At(s, i + 1 + 12) == xs[6]
    ensures |xs| > 7 ==> I16At(s, i + 1 + 14) == xs[7]
    ensures |ys| > 0 ==> U32At(s, l) == ys[0]
    ensures |ys| > 1 ==> U32At(s, l + 4) == ys[1]
    ensures |ys| > 2 ==> U32At(s, l + 8) == ys[2]
    ensures Has(s, p, blob) && s[p..p + |blob|] == blob
  {
    PackRead(s, i, op, xs, ys, blob);
    ShortsReadFirst(s, i + 1, xs);
    LongsReadFirst(s, l, ys);
    HasIsSlice(s, p, blob);
  }
}
