/** The wire form of every command, field by field and by offset. */
module Layout {
  import opened Bytes
  import opened DrawCalls

  /** `b` begins with opcode `op`, then 16-bit fields, then 32-bit fields, low bytes first, and has `n` bytes more. */
  predicate Opens(b: seq<byte>, op: byte, xs: seq<i16>, ys: seq<u32>, n: nat) {
    && |b| == 1 + 2 * |xs| + 4 * |ys| + n
    && b[0] == op
    && (forall k :: 0 <= k < |xs| ==> I16At(b, 1 + 2 * k) == xs[k])
    && (forall k :: 0 <= k < |ys| ==> U32At(b, 1 + 2 * |xs| + 4 * k) == ys[k])
  }

  /** And those are `more`. */
  predicate Fields(b: seq<byte>, op: byte, xs: seq<i16>, ys: seq<u32>, more: seq<byte>) {
    Opens(b, op, xs, ys, |more|) && b[|b| - |more|..] == more
  }

  predicate Geometry(c: Call<byte>, b: seq<byte>) {
    match c
    case DrawPixel(x, y, color) => Fields(b, 0x01, [x, y], [color], [])
    case FastVLine(x, y, h, color) => Fields(b, 0x02, [x, y, h], [color], [])
    case FastHLine(x, y, w, color) => Fields(b, 0x03, [x, y, w], [color], [])
    case Line(x0, y0, x1, y1, color) => Fields(b, 0x04, [x0, y0, x1, y1], [color], [])
    case Rect(x, y, w, h, color) => Fields(b, 0x05, [x, y, w, h], [color], [])
    case FillRect(x, y, w, h, color) => Fields(b, 0x06, [x, y, w, h], [color], [])
    case FillScreen(color) => Fields(b, 0x07, [], [color], [])
    case Circle(x, y, r, color) => Fields(b, 0x08, [x, y, r], [color], [])
    case FillCircle(x, y, r, color) => Fields(b, 0x09, [x, y, r], [color], [])
    case Arc(x, y, r, start, end, color) => Fields(b, 0x0A, [x, y, r], [start, end, color], [])
    case RoundRect(x, y, w, h, r, color) => Fields(b, 0x0B, [x, y, w, h, r], [color], [])
    case FillRoundRect(x, y, w, h, r, color) => Fields(b, 0x0C, [x, y, w, h, r], [color], [])
    case Triangle(x0, y0, x1, y1, x2, y2, color) => Fields(b, 0x0D, [x0, y0, x1, y1, x2, y2], [color], [])
    case FillTriangle(x0, y0, x1, y1, x2, y2, color) => Fields(b, 0x0E, [x0, y0, x1, y1, x2, y2], [color], [])
    case _ => true
  }

  predicate State(c: Call<byte>, b: seq<byte>) {
    match c
    case SetDrawStyle(stroke, cap, join, on) => b == [0x20, stroke, cap, join, if on then 1 else 0]
    case SetRotation(rot) => b == [0x21, rot]
    case InvertDisplay(on) => b == [0x22, if on then 1 else 0]
    case SetCursor(x, y) => Fields(b, 0x30, [x, y], [], [])
    case SetTextColor(color, bg) => Fields(b, 0x31, [], [color, bg], [])
    case SetTextSize(sx, sy) => b == [0x32, sx, sy]
    case SetTextWrap(on) => b == [0x33, if on then 1 else 0]
    case SetTextRotation(rot) => b == [0x34, rot]
    case SetFont(id) => b == [0x35, id]
    case SwapBuffers(on) => b == [0x50, if on then 1 else 0]
    case _ => true
  }

  /** Text stands behind its 16-bit count. */
  predicate Texts(c: Call<byte>, b: seq<byte>) {
    match c
    case WriteText(text) => |b| == 3 + |text| && b[0] == 0x36 && U16At(b, 1) == |text| && b[3..] == text
    case DrawChar(x, y, ch, color, bg, sx, sy) =>
      && Opens(b, 0x37, [x, y], [], 11) && b[5] == ch && U32At(b, 6) == color && U32At(b, 10) == bg
      && b[14] == sx && b[15] == sy
    case SetText(x, y, color, bg, sx, sy, id, rot, text) =>
      && Opens(b, 0x38, [x, y], [color, bg], 6 + |text|) && b[13] == sx && b[14] == sy && b[15] == id && b[16] == rot
      && U16At(b, 17) == |text| && b[19..] == text
    case _ => true
  }

  /** Pixels stand behind the extent, a mask behind the pixels. */
  predicate Bitmaps(c: Call<byte>, b: seq<byte>) {
    match c
    case Bitmap1Bit(x, y, w, h, color, bg, bits) => Fields(b, 0x40, [x, y, w, h], [color, bg], bits)
    case XBitmap(x, y, w, h, color, bits) => Fields(b, 0x41, [x, y, w, h], [color], bits)
    case GrayBitmap(x, y, w, h, gray) => Fields(b, 0x42, [x, y, w, h], [], gray)
    case GrayBitmapMask(x, y, w, h, gray, bits) => Fields(b, 0x43, [x, y, w, h], [], gray + bits)
    case RGBBitmap(x, y, w, h, argb) => Fields(b, 0x44, [x, y, w, h], argb, [])
    case RGBBitmapMask(x, y, w, h, argb, bits) => Fields(b, 0x45, [x, y, w, h], argb, bits)
    case RGB565Bitmap(x, y, w, h, rgb) =>
      Opens(b, 0x46, [x, y, w, h], [], 2 * |rgb|) && U16sAt(b, 9, |rgb|) == rgb
    case BitmapTriangle(x0, y0, x1, y1, x2, y2, w, h, argb) =>
      Fields(b, 0x47, [x0, y0, x1, y1, x2, y2, w, h], argb, [])
    case _ => true
  }

  lemma HasItself(b: seq<byte>)
    ensures Has(b, 0, b)
  {
    assert b[0..0 + |b|] == b;
    SliceHas(b, 0, b);
  }

  lemma PackLaid(op: byte, xs: seq<i16>, ys: seq<u32>, more: seq<byte>)
    ensures Fields(Pack(op, xs, ys, more), op, xs, ys, more)
  {
    var b := Pack(op, xs, ys, more);
    HasItself(b);
    PackRead(b, 0, op, xs, ys, more);
    var l := 1 + 2 * |xs|;
    var p := l + 4 * |ys|;
    HasIsSlice(b, p, more);
    assert b[|b| - |more|..] == b[p..p + |more|];
    hide Has;
    hide Pack;
    hide I16At;
    hide U32At;
    forall k | 0 <= k < |xs| ensures I16At(b, 1 + 2 * k) == xs[k] {
      ShortRead(b, 1, xs, k);
    }
    forall k | 0 <= k < |ys| ensures U32At(b, 1 + 2 * |xs| + 4 * k) == ys[k] {
      LongRead(b, l, ys, k);
    }
  }

  /** Pixels of 32 bits are fields like any other. */
  lemma PixelsLaid(op: byte, xs: seq<i16>, ys: seq<u32>, more: seq<byte>)
    ensures Fields(Pack(op, xs, [], Longs(ys) + more), op, xs, ys, more)
  {
    assert Longs([]) == [];
    Units([op] + Shorts(xs));
    Assoc([op] + Shorts(xs), Longs(ys), more);
    assert Pack(op, xs, [], Longs(ys) + more) == Pack(op, xs, ys, more);
    PackLaid(op, xs, ys, more);
    hide Fields;
    hide Pack;
  }

  lemma GeometryLaid(c: Call<byte>)
    requires c.DrawPixel? || c.FastVLine? || c.FastHLine? || c.Line? || c.Rect? || c.FillRect? || c.FillScreen?
    ensures Geometry(c, Encode(c))
  {
    hide Fields;
    hide Pack;
    match c
    case DrawPixel(x, y, k) => PackLaid(0x01, [x, y], [k], []);
    case FastVLine(x, y, h, k) => PackLaid(0x02, [x, y, h], [k], []);
    case FastHLine(x, y, w, k) => PackLaid(0x03, [x, y, w], [k], []);
    case Line(x0, y0, x1, y1, k) => PackLaid(0x04, [x0, y0, x1, y1], [k], []);
    case Rect(x, y, w, h, k) => PackLaid(0x05, [x, y, w, h], [k], []);
    case FillRect(x, y, w, h, k) => PackLaid(0x06, [x, y, w, h], [k], []);
    case FillScreen(k) => PackLaid(0x07, [], [k], []);
  }

  lemma CurvesLaid(c: Call<byte>)
    requires c.Circle? || c.FillCircle? || c.Arc? || c.RoundRect? || c.FillRoundRect? || c.Triangle? || c.FillTriangle?
    ensures Geometry(c, Encode(c))
  {
    hide Fields;
    hide Pack;
    match c
    case Circle(x, y, r, k) => PackLaid(0x08, [x, y, r], [k], []);
    case FillCircle(x, y, r, k) => PackLaid(0x09, [x, y, r], [k], []);
    case Arc(x, y, r, a, e, k) => PackLaid(0x0A, [x, y, r], [a, e, k], []);
    case RoundRect(x, y, w, h, r, k) => PackLaid(0x0B, [x, y, w, h, r], [k], []);
    case FillRoundRect(x, y, w, h, r, k) => PackLaid(0x0C, [x, y, w, h, r], [k], []);
    case Triangle(x0, y0, x1, y1, x2, y2, k) => PackLaid(0x0D, [x0, y0, x1, y1, x2, y2], [k], []);
    case FillTriangle(x0, y0, x1, y1, x2, y2, k) => PackLaid(0x0E, [x0, y0, x1, y1, x2, y2], [k], []);
  }

  lemma PlainLaid(op: byte, more: seq<byte>)
    ensures Pack(op, [], [], more) == [op] + more
  {
    assert Shorts([]) == [] && Longs([]) == [];
    Units([op]);
  }

  lemma StateLaid(c: Call<byte>)
    requires Encodable(c)
    ensures State(c, Encode(c))
  {
    hide Fields;
    hide Pack;
    match c
    case SetCursor(x, y) => PackLaid(0x30, [x, y], [], []);
    case SetTextColor(k, bg) => PackLaid(0x31, [], [k, bg], []);
    case SetDrawStyle(s, cap, j, on) => PlainLaid(0x20, [s, cap, j, Flag(on)]);
    case SetRotation(r) => PlainLaid(0x21, [r]);
    case InvertDisplay(on) => PlainLaid(0x22, [Flag(on)]);
    case SwapBuffers(on) => PlainLaid(0x50, [Flag(on)]);
    case _ => TextStateLaid(c);
  }

  lemma TextStateLaid(c: Call<byte>)
    requires !c.SetCursor? && !c.SetTextColor? && !c.SetDrawStyle? && !c.SetRotation? && !c.InvertDisplay?
    requires !c.SwapBuffers? && Encodable(c)
    ensures State(c, Encode(c))
  {
    hide Fields;
    hide Pack;
    if c.SetTextSize? {
      PlainLaid(0x32, [c.sx, c.sy]);
    } else if c.SetTextWrap? {
      PlainLaid(0x33, [Flag(c.on)]);
    } else if c.SetTextRotation? {
      PlainLaid(0x34, [c.rot]);
    } else if c.SetFont? {
      PlainLaid(0x35, [c.font]);
    }
  }

  lemma WriteTextLaid(t: seq<byte>)
    requires |t| < 0x1_0000
    ensures var b := Pack(0x36, [], [], LE16(|t|) + t);
            |b| == 3 + |t| && b[0] == 0x36 && U16At(b, 1) == |t| && b[3..] == t
  {
    var n := LE16(|t|);
    PlainLaid(0x36, n + t);
    var b := [0x36] + (n + t);
    assert b[1] == n[0] && b[2] == n[1];
  }

  lemma DrawCharLaid(c: Call<byte>)
    requires c.DrawChar?
    ensures Texts(c, Encode(c))
  {
    var k, bg := LE32(c.color), LE32(c.bg);
    var more := [c.ch] + k + bg + [c.sx, c.sy];
    PackLaid(0x37, [c.x, c.y], [], more);
    var b := Encode(c);
    hide Pack;
    hide LE32;
    assert more[0] == c.ch && more[9] == c.sx && more[10] == c.sy;
    assert more[1..5] == k && more[5..9] == bg;
    assert forall i :: 0 <= i < 11 ==> b[5..][i] == b[5 + i];
    WordIn(more, 1, k);
    WordIn(more, 5, bg);
    WordIn(b, 6, k);
    WordIn(b, 10, bg);
  }

  lemma WordIn(s: seq<byte>, i: nat, w: seq<byte>)
    requires |w| == 4 && i + 4 <= |s|
    requires s[i] == w[0] && s[i + 1] == w[1] && s[i + 2] == w[2] && s[i + 3] == w[3]
    ensures U32At(s, i) == U32At(w, 0)
  {
  }

  lemma SetTextLaid(c: Call<byte>)
    requires c.SetText? && Encodable(c)
    ensures Texts(c, Encode(c))
  {
    var n, t := LE16(|c.text|), c.text;
    var more := [c.sx, c.sy, c.font, c.rot] + (n + t);
    PackLaid(0x38, [c.x, c.y], [c.color, c.bg], more);
    var b := Encode(c);
    hide Pack;
    hide LE16;
    assert forall i :: 0 <= i < |more| ==> b[13..][i] == b[13 + i];
    assert b[17] == n[0] && b[18] == n[1];
    assert b[19..] == more[6..] == t;
  }

  lemma TextLaid(c: Call<byte>)
    requires Encodable(c)
    ensures Texts(c, Encode(c))
  {
    if c.WriteText? {
      WriteTextLaid(c.text);
      hide Pack;
    } else if c.DrawChar? {
      DrawCharLaid(c);
    } else if c.SetText? {
      SetTextLaid(c);
    }
  }

  lemma MoreAt(op: byte, xs: seq<i16>, more: seq<byte>, at: nat)
    requires at == 1 + 2 * |xs|
    ensures Has(Pack(op, xs, [], more), at, more)
  {
    var b := Pack(op, xs, [], more);
    HasItself(b);
    PackRead(b, 0, op, xs, [], more);
    hide Has;
    hide Pack;
  }

  lemma HalvesLaid(op: byte, xs: seq<i16>, hs: seq<u16>)
    ensures var b := Pack(op, xs, [], Halves(hs));
            Fields(b, op, xs, [], Halves(hs)) && U16sAt(b, 1 + 2 * |xs|, |hs|) == hs
  {
    hide Pack;
    hide Has;
    hide Fields;
    hide Halves;
    hide U16sAt;
    var b, at := Pack(op, xs, [], Halves(hs)), 1 + 2 * |xs|;
    PackLaid(op, xs, [], Halves(hs));
    MoreAt(op, xs, Halves(hs), at);
    HalvesRead(b, at, hs);
  }

  lemma BitmapLaid(c: Call<byte>)
    requires Encodable(c)
    ensures Bitmaps(c, Encode(c))
  {
    hide Opens;
    hide Pack;
    match c
    case Bitmap1Bit(x, y, w, h, k, bg, bits) => PackLaid(0x40, [x, y, w, h], [k, bg], bits);
    case XBitmap(x, y, w, h, k, bits) => PackLaid(0x41, [x, y, w, h], [k], bits);
    case GrayBitmap(x, y, w, h, g) => PackLaid(0x42, [x, y, w, h], [], g);
    case GrayBitmapMask(x, y, w, h, g, bits) => PackLaid(0x43, [x, y, w, h], [], g + bits);
    case _ => ColourBitmapLaid(c);
  }

  lemma ColourBitmapLaid(c: Call<byte>)
    requires Encodable(c) && !c.Bitmap1Bit? && !c.XBitmap? && !c.GrayBitmap? && !c.GrayBitmapMask?
    ensures Bitmaps(c, Encode(c))
  {
    hide Opens;
    hide Pack;
    hide Fields;
    hide Area;
    hide MonoBytes;
    match c
    case RGBBitmap(x, y, w, h, a) =>
      Units(Longs(a));
      PixelsLaid(0x44, [x, y, w, h], a, []);
    case RGBBitmapMask(x, y, w, h, a, bits) => PixelsLaid(0x45, [x, y, w, h], a, bits);
    case RGB565Bitmap(x, y, w, h, p) => PackedLaid(c);
    case BitmapTriangle(x0, y0, x1, y1, x2, y2, w, h, a) =>
      Units(Longs(a));
      PixelsLaid(0x47, [x0, y0, x1, y1, x2, y2, w, h], a, []);
    case _ =>
  }

  lemma PackedLaid(c: Call<byte>)
    requires Encodable(c) && c.RGB565Bitmap?
    ensures Bitmaps(c, Encode(c))
  {
    HalvesLaid(0x46, [c.x, c.y, c.w, c.h], c.rgb);
    hide Opens;
    hide Pack;
  }
}
