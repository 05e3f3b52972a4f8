/** DrawReplay's recording side: the mask gate, the stream writers, and what survives the wire. */
module Recorder {
  import opened Bytes
  import opened DrawCalls
  import opened DrawReplay
  import opened Render
  import opened Blob
  import opened Replayer

  const REC_GEOMETRY: bv32 := 0x1
  const REC_TEXT: bv32 := 0x2
  const REC_STYLE: bv32 := 0x4
  const REC_FRAME: bv32 := 0x8
  const REC_PIXEL: bv32 := 0x10
  const REC_BITMAP_1BIT: bv32 := 0x100
  const REC_BITMAP_XBM: bv32 := 0x200
  const REC_BITMAP_GRAY: bv32 := 0x400
  const REC_BITMAP_RGB: bv32 := 0x800
  const REC_BITMAP_565: bv32 := 0x1000
  const REC_BITMAP_TRI: bv32 := 0x2000
  const REC_ALL: bv32 := 0xFFFF_FFFF

  const MAX_TEXT: nat := 0xFFFF

  datatype Binding = Binding(font: Font, id: byte)

  function IdOf(ids: seq<Binding>, font: Font): (id: byte)
    ensures font.Null? ==> id == FONT_BUILTIN
    ensures (forall k :: 0 <= k < |ids| ==> ids[k].font != font) ==> id == FONT_BUILTIN
  {
    if font.Null? || ids == [] then FONT_BUILTIN
    else if ids[0].font == font then ids[0].id
    else IdOf(ids[1..], font)
  }

  function Ids(ids: seq<Binding>): Font -> byte {
    (font: Font) => IdOf(ids, font)
  }

  /** What the C++ signatures promise of a call: text has no NUL inside, and a bitmap pointer is null
      (an empty sequence) or points at exactly the data its extent needs. */
  predicate Supplied(c: Call<Font>) {
    match c
    case WriteText(t) => 0 !in t
    case SetText(_, _, _, _, _, _, _, _, t) => 0 !in t
    case Bitmap1Bit(_, _, w, h, _, _, bits) => w > 0 && h > 0 ==> |bits| in {0, MonoBytes(w, h)}
    case XBitmap(_, _, w, h, _, bits) => w > 0 && h > 0 ==> |bits| in {0, MonoBytes(w, h)}
    case GrayBitmap(_, _, w, h, g) => w > 0 && h > 0 ==> |g| in {0, Area(w, h)}
    case GrayBitmapMask(_, _, w, h, g, bits) =>
      w > 0 && h > 0 ==> |g| in {0, Area(w, h)} && |bits| in {0, MonoBytes(w, h)}
    case RGBBitmap(_, _, w, h, a) => w > 0 && h > 0 ==> |a| in {0, Area(w, h)}
    case RGBBitmapMask(_, _, w, h, a, bits) =>
      w > 0 && h > 0 ==> |a| in {0, Area(w, h)} && |bits| in {0, MonoBytes(w, h)}
    case RGB565Bitmap(_, _, w, h, p) => w > 0 && h > 0 ==> |p| in {0, Area(w, h)}
    case BitmapTriangle(_, _, _, _, _, _, w, h, a) => w > 0 && h > 0 ==> |a| in {0, Area(w, h)}
    case _ => true
  }

  /** Calls that draw something: no empty text, no null bitmap, no empty extent. */
  predicate Drawable(c: Call<Font>) {
    match c
    case WriteText(t) => t != []
    case Bitmap1Bit(_, _, w, h, _, _, bits) => bits != [] && w > 0 && h > 0
    case XBitmap(_, _, w, h, _, bits) => bits != [] && w > 0 && h > 0
    case GrayBitmap(_, _, w, h, g) => g != [] && w > 0 && h > 0
    case GrayBitmapMask(_, _, w, h, g, bits) => g != [] && bits != [] && w > 0 && h > 0
    case RGBBitmap(_, _, w, h, a) => a != [] && w > 0 && h > 0
    case RGBBitmapMask(_, _, w, h, a, bits) => a != [] && bits != [] && w > 0 && h > 0
    case RGB565Bitmap(_, _, w, h, p) => p != [] && w > 0 && h > 0
    case BitmapTriangle(_, _, _, _, _, _, w, h, a) => a != [] && w > 0 && h > 0
    case _ => true
  }

  function Feature(c: Call<Font>): bv32 {
    match c
    case DrawPixel(_, _, _) => REC_PIXEL
    case SetDrawStyle(_, _, _, _) => REC_STYLE
    case SetRotation(_) => REC_STYLE
    case InvertDisplay(_) => REC_STYLE
    case SwapBuffers(_) => REC_FRAME
    case SetCursor(_, _) => REC_TEXT
    case SetTextColor(_, _) => REC_TEXT
    case SetTextSize(_, _) => REC_TEXT
    case SetTextWrap(_) => REC_TEXT
    case SetTextRotation(_) => REC_TEXT
    case SetFont(_) => REC_TEXT
    case WriteText(_) => REC_TEXT
    case DrawChar(_, _, _, _, _, _, _) => REC_TEXT
    case SetText(_, _, _, _, _, _, _, _, _) => REC_TEXT
    case Bitmap1Bit(_, _, _, _, _, _, _) => REC_BITMAP_1BIT
    case XBitmap(_, _, _, _, _, _) => REC_BITMAP_XBM
    case GrayBitmap(_, _, _, _, _) => REC_BITMAP_GRAY
    case GrayBitmapMask(_, _, _, _, _, _) => REC_BITMAP_GRAY
    case RGBBitmap(_, _, _, _, _) => REC_BITMAP_RGB
    case RGBBitmapMask(_, _, _, _, _, _) => REC_BITMAP_RGB
    case RGB565Bitmap(_, _, _, _, _) => REC_BITMAP_565
    case BitmapTriangle(_, _, _, _, _, _, _, _, _) => REC_BITMAP_TRI
    case _ => REC_GEOMETRY
  }

  /** Pixel data a call would put inline; zero for everything but bitmaps. */
  function InlineBytes(c: Call<Font>): nat {
    match c
    case Bitmap1Bit(_, _, _, _, _, _, bits) => |bits|
    case XBitmap(_, _, _, _, _, bits) => |bits|
    case GrayBitmap(_, _, _, _, g) => |g|
    case GrayBitmapMask(_, _, _, _, g, bits) => |g| + |bits|
    case RGBBitmap(_, _, _, _, a) => 4 * |a|
    case RGBBitmapMask(_, _, _, _, a, bits) => 4 * |a| + |bits|
    case RGB565Bitmap(_, _, _, _, p) => 2 * |p|
    case BitmapTriangle(_, _, _, _, _, _, _, _, a) => 4 * |a|
    case _ => 0
  }

  /** Primitives the base class reaches while a text call is only keeping the cursor in step. */
  predicate Primitive(c: Call<Font>) {
    c.DrawPixel? || c.FastVLine? || c.FastHLine? || c.FillScreen?
  }

  datatype Config = Config(mask: bv32, maxInline: nat, suppress: bool, ids: seq<Binding>)

  const RECORD_ALL: Config := Config(REC_ALL, 0, false, [])

  predicate Wants(mask: bv32, feature: bv32) {
    mask & feature != 0
  }

  predicate Allows(cfg: Config, c: Call<Font>) {
    Wants(cfg.mask, Feature(c)) && (cfg.maxInline != 0 ==> InlineBytes(c) <= cfg.maxInline)
  }

  predicate Reaches(cfg: Config, c: Call<Font>) {
    Drawable(c) && !(cfg.suppress && Primitive(c))
  }

  function Trimmed<F>(c: Call<F>): Call<F> {
    match c
    case WriteText(t) => if |t| > MAX_TEXT then WriteText(t[..MAX_TEXT]) else c
    case SetText(x, y, k, bg, sx, sy, f, rot, t) =>
      if |t| > MAX_TEXT then SetText(x, y, k, bg, sx, sy, f, rot, t[..MAX_TEXT]) else c
    case _ => c
  }

  /** The command a call becomes, if any. */
  function Recorded(cfg: Config, c: Call<Font>): (r: seq<Call<byte>>)
    requires Supplied(c)
    ensures AllEncodable(r)
  {
    if Reaches(cfg, c) && Allows(cfg, c) then [MapFont(Trimmed(c), Ids(cfg.ids))] else []
  }

  class DrawRecorder {
    var width: i16
    var height: i16
    var m_stream: seq<byte>
    var m_cmdCount: nat
    var m_recordMask: bv32
    var m_skipped: nat
    var m_maxInlineBytes: nat
    var m_suppress: bool
    var m_fontIds: seq<Binding>
    ghost var cmds: seq<Call<byte>>   // the commands in the stream

    ghost predicate Valid()
      reads this
    {
      AllEncodable(cmds) && m_stream == EncodeAll(cmds) && m_cmdCount == |cmds|
    }

    ghost function Cfg(): Config
      reads this
    {
      Config(m_recordMask, m_maxInlineBytes, m_suppress, m_fontIds)
    }

    constructor (w: i16, h: i16)
      ensures Valid() && cmds == [] && Cfg() == RECORD_ALL && m_skipped == 0
      ensures width == (if w > 0 then w else 0) && height == (if h > 0 then h else 0)
    {
      width := if w > 0 then w else 0;
      height := if h > 0 then h else 0;
      m_stream, m_cmdCount, m_skipped := [], 0, 0;
      m_recordMask, m_maxInlineBytes, m_suppress, m_fontIds := REC_ALL, 0, false, [];
      cmds := [];
      new;
      assert Blocks(cmds) == [];
    }

    method RegisterFont(font: Font, id: byte)
      requires Valid()
      modifies `m_fontIds
      ensures Valid()
      ensures forall f: Font :: IdOf(m_fontIds, f) == if f == font && font != Null then id else old(IdOf(m_fontIds, f))
    {
      if font == Null {
        return;
      }
      var i := 0;
      ghost var before := m_fontIds;
      while i < |m_fontIds|
        invariant i <= |m_fontIds| && m_fontIds == before
        invariant forall k :: 0 <= k < i ==> before[k].font != font
      {
        if m_fontIds[i].font == font {
          m_fontIds := m_fontIds[i := Binding(font, id)];
          forall f: Font ensures IdOf(m_fontIds, f) == if f == font then id else IdOf(before, f) {
            IdOfRebound(before, i, font, id, f);
          }
          return;
        }
        i := i + 1;
      }
      m_fontIds := m_fontIds + [Binding(font, id)];
      forall f: Font ensures IdOf(m_fontIds, f) == if f == font then id else IdOf(before, f) {
        IdOfAppended(before, font, id, f);
      }
    }

    method Allow(feature: bv32, inlineBytes: nat) returns (ok: bool)
      modifies `m_skipped
      ensures ok == (Wants(m_recordMask, feature) && (m_maxInlineBytes != 0 ==> inlineBytes <= m_maxInlineBytes))
      ensures m_skipped == old(m_skipped) + if ok then 0 else 1
    {
      if m_recordMask & feature == 0 {
        m_skipped := m_skipped + 1;
        return false;
      }
      if m_maxInlineBytes != 0 && inlineBytes > m_maxInlineBytes {
        m_skipped := m_skipped + 1;
        return false;
      }
      return true;
    }

    method PutI16s(xs: seq<i16>)
      modifies `m_stream
      ensures m_stream == old(m_stream) + Shorts(xs)
    {
      Units(m_stream);
      for i := 0 to |xs|
        invariant m_stream == old(m_stream) + Shorts(xs[..i])
      {
        Assoc(old(m_stream), Shorts(xs[..i]), LEi16(xs[i]));
        m_stream := m_stream + LEi16(xs[i]);
        assert xs[..i + 1][..i] == xs[..i];
      }
      assert xs[..|xs|] == xs;
    }

    method PutU32s(xs: seq<u32>)
      modifies `m_stream
      ensures m_stream == old(m_stream) + Longs(xs)
    {
      Units(m_stream);
      for i := 0 to |xs|
        invariant m_stream == old(m_stream) + Longs(xs[..i])
      {
        Assoc(old(m_stream), Longs(xs[..i]), LE32(xs[i]));
        m_stream := m_stream + LE32(xs[i]);
        assert xs[..i + 1][..i] == xs[..i];
      }
      assert xs[..|xs|] == xs;
    }

    method PutU16s(xs: seq<u16>)
      modifies `m_stream
      ensures m_stream == old(m_stream) + Halves(xs)
    {
      Units(m_stream);
      for i := 0 to |xs|
        invariant m_stream == old(m_stream) + Halves(xs[..i])
      {
        Assoc(old(m_stream), Halves(xs[..i]), LE16(xs[i]));
        m_stream := m_stream + LE16(xs[i]);
        assert xs[..i + 1][..i] == xs[..i];
      }
      assert xs[..|xs|] == xs;
    }

    /** One command: its opcode, then its fields in the order of the wire format. */
    method Emit(op: byte, shorts: seq<i16>, longs: seq<u32>, blob: seq<byte>)
      modifies `m_stream, `m_cmdCount
      ensures m_stream == old(m_stream) + Pack(op, shorts, longs, blob)
      ensures m_cmdCount == old(m_cmdCount) + 1
    {
      m_stream := m_stream + [op];
      m_cmdCount := m_cmdCount + 1;
      PutI16s(shorts);
      PutU32s(longs);
      m_stream := m_stream + blob;
      PackAssoc(old(m_stream), op, shorts, longs, blob);
    }

    /** Commands that carry an array of pixels write it after their fields. */
    method EmitWords(op: byte, shorts: seq<i16>, words: seq<u32>, blob: seq<byte>)
      modifies `m_stream, `m_cmdCount
      ensures m_stream == old(m_stream) + Pack(op, shorts, [], Longs(words) + blob)
      ensures m_cmdCount == old(m_cmdCount) + 1
    {
      Emit(op, shorts, [], []);
      PutU32s(words);
      m_stream := m_stream + blob;
      PackAppends(old(m_stream), op, shorts, Longs(words), blob);
    }

    method EmitHalves(op: byte, shorts: seq<i16>, halves: seq<u16>)
      modifies `m_stream, `m_cmdCount
      ensures m_stream == old(m_stream) + Pack(op, shorts, [], Halves(halves))
      ensures m_cmdCount == old(m_cmdCount) + 1
    {
      Emit(op, shorts, [], []);
      PutU16s(halves);
      Units(m_stream);
      PackAppends(old(m_stream), op, shorts, Halves(halves), []);
      Units(Halves(halves));
    }

    /** Single pixels and straight geometry. */
    method WriteStraight(c: Call<byte>)
      requires Straight(c)
      modifies `m_stream, `m_cmdCount
      ensures m_stream == old(m_stream) + Encode(c) && m_cmdCount == old(m_cmdCount) + 1
    {
      hide Pack;
      match c
      case DrawPixel(x, y, k) => Emit(0x01, [x, y], [k], []);
      case FastVLine(x, y, h, k) => Emit(0x02, [x, y, h], [k], []);
      case FastHLine(x, y, w, k) => Emit(0x03, [x, y, w], [k], []);
      case Line(x0, y0, x1, y1, k) => Emit(0x04, [x0, y0, x1, y1], [k], []);
      case Rect(x, y, w, h, k) => Emit(0x05, [x, y, w, h], [k], []);
      case FillRect(x, y, w, h, k) => Emit(0x06, [x, y, w, h], [k], []);
      case FillScreen(k) => Emit(0x07, [], [k], []);
    }

    /** Curves, corners, style and frame marks. */
    method WriteShape(c: Call<byte>)
      requires !TextCall(c) && !BitmapCall(c) && !Straight(c)
      modifies `m_stream, `m_cmdCount
      ensures m_stream == old(m_stream) + Encode(c) && m_cmdCount == old(m_cmdCount) + 1
    {
      hide Pack;
      match c
      case Circle(x, y, r, k) => Emit(0x08, [x, y, r], [k], []);
      case FillCircle(x, y, r, k) => Emit(0x09, [x, y, r], [k], []);
      case Arc(x, y, r, a, e, k) => Emit(0x0A, [x, y, r], [a, e, k], []);
      case RoundRect(x, y, w, h, r, k) => Emit(0x0B, [x, y, w, h, r], [k], []);
      case FillRoundRect(x, y, w, h, r, k) => Emit(0x0C, [x, y, w, h, r], [k], []);
      case Triangle(x0, y0, x1, y1, x2, y2, k) => Emit(0x0D, [x0, y0, x1, y1, x2, y2], [k], []);
      case FillTriangle(x0, y0, x1, y1, x2, y2, k) => Emit(0x0E, [x0, y0, x1, y1, x2, y2], [k], []);
      case SetDrawStyle(s, cap, j, on) => Emit(0x20, [], [], [s, cap, j, Flag(on)]);
      case SetRotation(r) => Emit(0x21, [], [], [r]);
      case InvertDisplay(on) => Emit(0x22, [], [], [Flag(on)]);
      case SwapBuffers(on) => Emit(0x50, [], [], [Flag(on)]);
    }

    method WriteTextState(c: Call<byte>)
      requires TextCall(c) && !c.WriteText? && !c.DrawChar? && !c.SetText?
      modifies `m_stream, `m_cmdCount
      ensures m_stream == old(m_stream) + Encode(c) && m_cmdCount == old(m_cmdCount) + 1
    {
      hide Pack;
      match c
      case SetCursor(x, y) => Emit(0x30, [x, y], [], []);
      case SetTextColor(k, bg) => Emit(0x31, [], [k, bg], []);
      case SetTextSize(sx, sy) => Emit(0x32, [], [], [sx, sy]);
      case SetTextWrap(on) => Emit(0x33, [], [], [Flag(on)]);
      case SetTextRotation(r) => Emit(0x34, [], [], [r]);
      case SetFont(id) => Emit(0x35, [], [], [id]);
    }

    method WriteTextCall(c: Call<byte>)
      requires Encodable(c) && (c.WriteText? || c.DrawChar? || c.SetText?)
      modifies `m_stream, `m_cmdCount
      ensures m_stream == old(m_stream) + Encode(c) && m_cmdCount == old(m_cmdCount) + 1
    {
      hide Pack;
      hide LE16;
      hide LE32;
      match c
      case WriteText(t) => Emit(0x36, [], [], LE16(|t|) + t);
      case DrawChar(x, y, ch, k, bg, sx, sy) =>
        Emit(0x37, [x, y], [], [ch] + LE32(k) + LE32(bg) + [sx, sy]);
      case SetText(x, y, k, bg, sx, sy, id, rot, t) =>
        Emit(0x38, [x, y], [k, bg], [sx, sy, id, rot] + (LE16(|t|) + t));
    }

    method WriteMonoBitmap(c: Call<byte>)
      requires Encodable(c) && (c.Bitmap1Bit? || c.XBitmap? || c.GrayBitmap? || c.GrayBitmapMask?)
      modifies `m_stream, `m_cmdCount
      ensures m_stream == old(m_stream) + Encode(c) && m_cmdCount == old(m_cmdCount) + 1
    {
      hide Pack;
      match c
      case Bitmap1Bit(x, y, w, h, k, bg, bits) => Emit(0x40, [x, y, w, h], [k, bg], bits);
      case XBitmap(x, y, w, h, k, bits) => Emit(0x41, [x, y, w, h], [k], bits);
      case GrayBitmap(x, y, w, h, g) => Emit(0x42, [x, y, w, h], [], g);
      case GrayBitmapMask(x, y, w, h, g, bits) => Emit(0x43, [x, y, w, h], [], g + bits);
    }

    method WriteColourBitmap(c: Call<byte>)
      requires Encodable(c) && (c.RGBBitmap? || c.RGBBitmapMask? || c.RGB565Bitmap? || c.BitmapTriangle?)
      modifies `m_stream, `m_cmdCount
      ensures m_stream == old(m_stream) + Encode(c) && m_cmdCount == old(m_cmdCount) + 1
    {
      hide Pack;
      hide Longs;
      hide Halves;
      match c
      case RGBBitmap(x, y, w, h, a) =>
        EmitWords(0x44, [x, y, w, h], a, []);
        Units(Longs(a));
      case RGBBitmapMask(x, y, w, h, a, bits) => EmitWords(0x45, [x, y, w, h], a, bits);
      case RGB565Bitmap(x, y, w, h, p) => EmitHalves(0x46, [x, y, w, h], p);
      case BitmapTriangle(x0, y0, x1, y1, x2, y2, w, h, a) =>
        EmitWords(0x47, [x0, y0, x1, y1, x2, y2, w, h], a, []);
        Units(Longs(a));
    }

    /** Any recording overload: the mask gate first, then one command, or nothing. */
    method Record(c: Call<Font>)
      requires Valid() && Supplied(c)
      modifies this
      ensures Valid() && Cfg() == old(Cfg()) && width == old(width) && height == old(height)
      ensures cmds == old(cmds) + Recorded(old(Cfg()), c)
      ensures m_skipped == old(m_skipped) + if Reaches(old(Cfg()), c) && !Allows(old(Cfg()), c) then 1 else 0
    {
      ghost var cfg := Cfg();
      var ok := Gate(c);
      if !ok {
        Units(cmds);
        return;
      }
      var wire := MapFont(Trimmed(c), Ids(m_fontIds));
      RecordedIs(cfg, c);
      Commit(wire);
    }

    method Gate(c: Call<Font>) returns (ok: bool)
      modifies `m_skipped
      ensures ok == (Reaches(Cfg(), c) && Allows(Cfg(), c))
      ensures m_skipped == old(m_skipped) + if Reaches(Cfg(), c) && !Allows(Cfg(), c) then 1 else 0
    {
      hide Wants;
      hide Drawable;
      hide Feature;
      hide InlineBytes;
      hide Primitive;
      if !Drawable(c) || (m_suppress && Primitive(c)) {
        return false;
      }
      ok := Allow(Feature(c), InlineBytes(c));
    }

    method Commit(wire: Call<byte>)
      requires Valid() && Encodable(wire)
      modifies `m_stream, `m_cmdCount, `cmds
      ensures Valid() && cmds == old(cmds) + [wire]
    {
      WriteCall(wire);
      EncodeAllSnoc(cmds, wire);
      cmds := cmds + [wire];
    }

    method WriteCall(c: Call<byte>)
      requires Encodable(c)
      modifies `m_stream, `m_cmdCount
      ensures m_stream == old(m_stream) + Encode(c) && m_cmdCount == old(m_cmdCount) + 1
    {
      hide Encode;
      if c.WriteText? || c.DrawChar? || c.SetText? {
        WriteTextCall(c);
      } else if TextCall(c) {
        WriteTextState(c);
      } else if c.Bitmap1Bit? || c.XBitmap? || c.GrayBitmap? || c.GrayBitmapMask? {
        WriteMonoBitmap(c);
      } else if BitmapCall(c) {
        WriteColourBitmap(c);
      } else if Straight(c) {
        WriteStraight(c);
      } else {
        WriteShape(c);
      }
    }

    /** Header, stream and end marker, appended to `out`. */
    method DRExport(out: seq<byte>) returns (blob: seq<byte>)
      requires Valid()
      ensures blob == out + Export(width, height, cmds)
    {
      blob := out + DR_MAGIC + LE16(DR_VERSION) + LE16(0) + LEi16(width) + LEi16(height)
        + LE32(m_cmdCount % TWO32) + LE32((|m_stream| + 1) % TWO32);
      blob := blob + m_stream;
      blob := blob + [OP_END];
      ghost var h := Header(width, height, m_cmdCount, |m_stream| + 1);
      assert blob == out + h + m_stream + [OP_END];
      Assoc(out, h, m_stream);
      Assoc(out, h + m_stream, [OP_END]);
      Assoc(h, m_stream, [OP_END]);
    }

    /** The scope that keeps base-class drawing out of the stream opens and closes. */
    method Suppress(on: bool)
      requires Valid()
      modifies `m_suppress
      ensures Valid() && m_suppress == on
    {
      m_suppress := on;
    }

    /** A quarter turn swaps the recorder's own extent. */
    method SwapExtent()
      requires Valid()
      modifies `width, `height
      ensures Valid() && width == old(height) && height == old(width)
    {
      width, height := height, width;
    }

    method DRFlush()
      requires Valid()
      modifies this
      ensures Valid() && cmds == [] && Cfg() == old(Cfg()) && m_skipped == 0 && width == old(width) &&
              height == old(height)
    {
      m_stream, m_cmdCount, m_skipped := [], 0, 0;
      cmds := [];
      assert Blocks(cmds) == [];
    }
  }

  lemma RecordedIs(cfg: Config, c: Call<Font>)
    requires Supplied(c) && Reaches(cfg, c) && Allows(cfg, c)
    ensures var wire := MapFont(Trimmed(c), Ids(cfg.ids));
            Recorded(cfg, c) == [wire] && Encodable(wire)
  {
    assert Encodable(Recorded(cfg, c)[0]);
  }

  predicate Straight<F>(c: Call<F>) {
    c.DrawPixel? || c.FastVLine? || c.FastHLine? || c.Line? || c.Rect? || c.FillRect? || c.FillScreen?
  }

  predicate TextCall<F>(c: Call<F>) {
    c.SetCursor? || c.SetTextColor? || c.SetTextSize? || c.SetTextWrap? || c.SetTextRotation? || c.SetFont? ||
    c.WriteText? || c.DrawChar? || c.SetText?
  }

  predicate BitmapCall<F>(c: Call<F>) {
    c.Bitmap1Bit? || c.XBitmap? || c.GrayBitmap? || c.GrayBitmapMask? || c.RGBBitmap? || c.RGBBitmapMask? ||
    c.RGB565Bitmap? || c.BitmapTriangle?
  }

  // ----- what survives -----

  predicate RecordsAll(cfg: Config) {
    cfg.mask == REC_ALL && cfg.maxInline == 0 && !cfg.suppress
  }

  /** Both sides agree on the font a call names. */
  predicate FontAgrees(c: Call<Font>, ids: seq<Binding>, fonts: seq<Font>) {
    c.SetFont? || c.SetText? ==> FontOf(fonts, IdOf(ids, c.font)) == c.font
  }

  predicate TextFits(c: Call<Font>) {
    c.WriteText? || c.SetText? ==> |c.text| <= MAX_TEXT
  }

  predicate Survives(c: Call<Font>, ids: seq<Binding>, fonts: seq<Font>) {
    Drawable(c) && TextFits(c) && FontAgrees(c, ids, fonts)
  }

  lemma FeatureIsSome(c: Call<Font>)
    ensures Feature(c) != 0
  {
  }

  lemma EveryFeatureIsRecorded(c: Call<Font>)
    ensures REC_ALL & Feature(c) != 0
  {
    FeatureIsSome(c);
    hide Feature;
    MaskBits(Feature(c));
  }

  lemma MaskBits(f: bv32)
    ensures 0xFFFF_FFFF & f == f
  {
  }

  lemma MappedBack(c: Call<Font>, ids: seq<Binding>, fonts: seq<Font>)
    ensures MapFont(MapFont(Trimmed(c), Ids(ids)), Lookup(fonts)) == c <==> TextFits(c) && FontAgrees(c, ids, fonts)
  {
    hide IdOf;
    hide FontOf;
    if !c.SetFont? && !c.SetText? && !c.WriteText? {
      MappedPlain(c, Ids(ids), Lookup(fonts));
    }
  }

  lemma MappedPlain<F, G>(c: Call<F>, f: F -> G, g: G -> F)
    requires !c.SetFont? && !c.SetText?
    ensures MapFont(MapFont(c, f), g) == c
  {
    if BitmapCall(c) {
      MappedBitmap(c, f, g);
    } else if Straight(c) {
      MappedStraight(c, f, g);
    }
  }

  lemma MappedBitmap<F, G>(c: Call<F>, f: F -> G, g: G -> F)
    requires BitmapCall(c)
    ensures MapFont(MapFont(c, f), g) == c
  {
  }

  lemma MappedStraight<F, G>(c: Call<F>, f: F -> G, g: G -> F)
    requires Straight(c)
    ensures MapFont(MapFont(c, f), g) == c
  {
  }

  /** With everything recorded, the call that reaches the far target is the call that was made, if and only if
      it draws something, its text fits, and both sides agree on its font. */
  lemma CallSurvives(cfg: Config, c: Call<Font>, fonts: seq<Font>)
    requires Supplied(c) && RecordsAll(cfg)
    ensures MapAll(Recorded(cfg, c), Lookup(fonts)) == [c] <==> Survives(c, cfg.ids, fonts)
  {
    EveryFeatureIsRecorded(c);
    if Drawable(c) {
      RecordedIs(cfg, c);
      var wire := MapFont(Trimmed(c), Ids(cfg.ids));
      assert MapAll([wire], Lookup(fonts)) == [MapFont(wire, Lookup(fonts))];
      MappedBack(c, cfg.ids, fonts);
    } else {
      assert MapAll(Recorded(cfg, c), Lookup(fonts)) == [];
    }
  }

  // ----- which calls are recorded, call by call -----

  /** Drawing primitives: recorded under the geometry bit. The three a text call's own drawing can reach are not
      recorded while it runs. */
  lemma GeometryRecorded(cfg: Config, c: Call<Font>)
    requires Supplied(c)
    ensures c.Line? || c.Rect? || c.FillRect? || c.Circle? || c.FillCircle? || c.Arc? || c.RoundRect? ||
            c.FillRoundRect? || c.Triangle? || c.FillTriangle? ==>
              |Recorded(cfg, c)| == if cfg.mask & REC_GEOMETRY != 0 then 1 else 0
    ensures c.FastVLine? || c.FastHLine? || c.FillScreen? ==>
              |Recorded(cfg, c)| == if cfg.mask & REC_GEOMETRY != 0 && !cfg.suppress then 1 else 0
    ensures c.DrawPixel? ==> |Recorded(cfg, c)| == if cfg.mask & REC_PIXEL != 0 && !cfg.suppress then 1 else 0
  {
  }

  /** Style and frame commands: recorded under their bit. */
  lemma StyleRecorded(cfg: Config, c: Call<Font>)
    requires Supplied(c)
    ensures c.SetDrawStyle? || c.SetRotation? || c.InvertDisplay? ==>
              |Recorded(cfg, c)| == if cfg.mask & REC_STYLE != 0 then 1 else 0
    ensures c.SwapBuffers? ==> |Recorded(cfg, c)| == if cfg.mask & REC_FRAME != 0 then 1 else 0
  {
  }

  /** Text commands: recorded under the text bit, an empty run of text excepted; a long text is cut. */
  lemma TextRecorded(cfg: Config, c: Call<Font>)
    requires Supplied(c)
    ensures c.SetCursor? || c.SetTextColor? || c.SetTextSize? || c.SetTextWrap? || c.SetTextRotation? || c.SetFont? ||
            c.DrawChar? || c.SetText? ==>
              |Recorded(cfg, c)| == if cfg.mask & REC_TEXT != 0 then 1 else 0
    ensures c.WriteText? ==> |Recorded(cfg, c)| == if cfg.mask & REC_TEXT != 0 && c.text != [] then 1 else 0
    ensures (c.WriteText? || c.SetText?) && Recorded(cfg, c) != [] ==>
              (Recorded(cfg, c)[0].WriteText? || Recorded(cfg, c)[0].SetText?) &&
              Recorded(cfg, c)[0].text == if |c.text| > 0xFFFF then c.text[..0xFFFF] else c.text
  {
  }

  /** The gate every bitmap call goes through. */
  lemma BitmapGate(cfg: Config, c: Call<Font>, feature: bv32, data: bool, size: nat)
    requires Supplied(c) && BitmapCall(c)
    requires Feature(c) == feature && InlineBytes(c) == size && Drawable(c) == data
    ensures |Recorded(cfg, c)| ==
            if Wants(cfg.mask, feature) && data && (cfg.maxInline == 0 || size <= cfg.maxInline) then 1 else 0
  {
    hide Wants;
    hide Feature;
    hide InlineBytes;
    hide Drawable;
    hide Supplied;
  }

  /** Bitmaps of one bit a pixel: recorded under their bit with data and an extent, if not too big. */
  lemma OneBitRecorded(cfg: Config, c: Call<Font>)
    requires Supplied(c)
    ensures c.Bitmap1Bit? ==>
              |Recorded(cfg, c)| ==
              if cfg.mask & REC_BITMAP_1BIT != 0 && c.bits != [] && c.w > 0 && c.h > 0 &&
                 (cfg.maxInline == 0 || |c.bits| <= cfg.maxInline) then 1 else 0
    ensures c.XBitmap? ==>
              |Recorded(cfg, c)| ==
              if cfg.mask & REC_BITMAP_XBM != 0 && c.bits != [] && c.w > 0 && c.h > 0 &&
                 (cfg.maxInline == 0 || |c.bits| <= cfg.maxInline) then 1 else 0
  {
    if c.Bitmap1Bit? {
      BitmapGate(cfg, c, REC_BITMAP_1BIT, c.bits != [] && c.w > 0 && c.h > 0, |c.bits|);
    } else if c.XBitmap? {
      BitmapGate(cfg, c, REC_BITMAP_XBM, c.bits != [] && c.w > 0 && c.h > 0, |c.bits|);
    }
    hide Recorded;
  }

  /** Grey bitmaps: the same, a mask counting as data. */
  lemma GrayRecorded(cfg: Config, c: Call<Font>)
    requires Supplied(c)
    ensures c.GrayBitmap? ==>
              |Recorded(cfg, c)| ==
              if cfg.mask & REC_BITMAP_GRAY != 0 && c.gray != [] && c.w > 0 && c.h > 0 &&
                 (cfg.maxInline == 0 || |c.gray| <= cfg.maxInline) then 1 else 0
    ensures c.GrayBitmapMask? ==>
              |Recorded(cfg, c)| ==
              if cfg.mask & REC_BITMAP_GRAY != 0 && c.gray != [] && c.bits != [] && c.w > 0 && c.h > 0 &&
                 (cfg.maxInline == 0 || |c.gray| + |c.bits| <= cfg.maxInline) then 1 else 0
  {
    if c.GrayBitmap? {
      BitmapGate(cfg, c, REC_BITMAP_GRAY, c.gray != [] && c.w > 0 && c.h > 0, |c.gray|);
    } else if c.GrayBitmapMask? {
      BitmapGate(cfg, c, REC_BITMAP_GRAY, c.gray != [] && c.bits != [] && c.w > 0 && c.h > 0, |c.gray| + |c.bits|);
    }
    hide Recorded;
  }

  /** Colour bitmaps: the same. */
  lemma ColourRecorded(cfg: Config, c: Call<Font>)
    requires Supplied(c)
    ensures c.RGBBitmap? ==>
              |Recorded(cfg, c)| ==
              if cfg.mask & REC_BITMAP_RGB != 0 && c.argb != [] && c.w > 0 && c.h > 0 &&
                 (cfg.maxInline == 0 || 4 * |c.argb| <= cfg.maxInline) then 1 else 0
    ensures c.RGBBitmapMask? ==>
              |Recorded(cfg, c)| ==
              if cfg.mask & REC_BITMAP_RGB != 0 && c.argb != [] && c.bits != [] && c.w > 0 && c.h > 0 &&
                 (cfg.maxInline == 0 || 4 * |c.argb| + |c.bits| <= cfg.maxInline) then 1 else 0
  {
    if c.RGBBitmap? {
      BitmapGate(cfg, c, REC_BITMAP_RGB, c.argb != [] && c.w > 0 && c.h > 0, 4 * |c.argb|);
    } else if c.RGBBitmapMask? {
      BitmapGate(cfg, c, REC_BITMAP_RGB, c.argb != [] && c.bits != [] && c.w > 0 && c.h > 0, 4 * |c.argb| + |c.bits|);
    }
    hide Recorded;
  }

  /** Packed bitmaps and textures: the same. */
  lemma PackedRecorded(cfg: Config, c: Call<Font>)
    requires Supplied(c)
    ensures c.RGB565Bitmap? ==>
              |Recorded(cfg, c)| ==
              if cfg.mask & REC_BITMAP_565 != 0 && c.rgb != [] && c.w > 0 && c.h > 0 &&
                 (cfg.maxInline == 0 || 2 * |c.rgb| <= cfg.maxInline) then 1 else 0
    ensures c.BitmapTriangle? ==>
              |Recorded(cfg, c)| ==
              if cfg.mask & REC_BITMAP_TRI != 0 && c.argb != [] && c.w > 0 && c.h > 0 &&
                 (cfg.maxInline == 0 || 4 * |c.argb| <= cfg.maxInline) then 1 else 0
  {
    if c.RGB565Bitmap? {
      BitmapGate(cfg, c, REC_BITMAP_565, c.rgb != [] && c.w > 0 && c.h > 0, 2 * |c.rgb|);
    } else if c.BitmapTriangle? {
      BitmapGate(cfg, c, REC_BITMAP_TRI, c.argb != [] && c.w > 0 && c.h > 0, 4 * |c.argb|);
    }
    hide Recorded;
  }

  /** With everything recorded, only an empty text and a bitmap without data or extent are left out. */
  lemma LeftOut(cfg: Config, c: Call<Font>)
    requires Supplied(c) && RecordsAll(cfg)
    ensures c.WriteText? ==> |Recorded(cfg, c)| == if c.text != [] then 1 else 0
    ensures c.Bitmap1Bit? || c.XBitmap? ==>
              |Recorded(cfg, c)| == if c.bits != [] && c.w > 0 && c.h > 0 then 1 else 0
    ensures c.GrayBitmap? ==> |Recorded(cfg, c)| == if c.gray != [] && c.w > 0 && c.h > 0 then 1 else 0
    ensures c.GrayBitmapMask? ==>
              |Recorded(cfg, c)| == if c.gray != [] && c.bits != [] && c.w > 0 && c.h > 0 then 1 else 0
    ensures c.RGBBitmap? || c.BitmapTriangle? ==>
              |Recorded(cfg, c)| == if c.argb != [] && c.w > 0 && c.h > 0 then 1 else 0
    ensures c.RGBBitmapMask? ==>
              |Recorded(cfg, c)| == if c.argb != [] && c.bits != [] && c.w > 0 && c.h > 0 then 1 else 0
    ensures c.RGB565Bitmap? ==> |Recorded(cfg, c)| == if c.rgb != [] && c.w > 0 && c.h > 0 then 1 else 0
    ensures |Recorded(cfg, c)| == 1 || c.WriteText? || c.Bitmap1Bit? || c.XBitmap? || c.GrayBitmap? ||
            c.GrayBitmapMask? || c.RGBBitmap? || c.RGBBitmapMask? || c.RGB565Bitmap? || c.BitmapTriangle?
  {
    EveryFeatureIsRecorded(c);
    GeometryRecorded(cfg, c);
    StyleRecorded(cfg, c);
    TextRecorded(cfg, c);
    OneBitRecorded(cfg, c);
    GrayRecorded(cfg, c);
    ColourRecorded(cfg, c);
    PackedRecorded(cfg, c);
    AllBits();
    hide Recorded;
  }

  lemma AllBits()
    ensures REC_ALL & REC_GEOMETRY != 0 && REC_ALL & REC_TEXT != 0 && REC_ALL & REC_STYLE != 0
    ensures REC_ALL & REC_FRAME != 0 && REC_ALL & REC_PIXEL != 0 && REC_ALL & REC_BITMAP_1BIT != 0
    ensures REC_ALL & REC_BITMAP_XBM != 0 && REC_ALL & REC_BITMAP_GRAY != 0 && REC_ALL & REC_BITMAP_RGB != 0
    ensures REC_ALL & REC_BITMAP_565 != 0 && REC_ALL & REC_BITMAP_TRI != 0
  {
  }

  function RecordedAll(cfg: Config, calls: seq<Call<Font>>): (r: seq<Call<byte>>)
    requires forall k :: 0 <= k < |calls| ==> Supplied(calls[k])
    ensures AllEncodable(r)
  {
    if calls == [] then [] else RecordedAll(cfg, calls[..|calls| - 1]) + Recorded(cfg, calls[|calls| - 1])
  }

  lemma {:induction false} RunSurvives(cfg: Config, calls: seq<Call<Font>>, fonts: seq<Font>)
    requires RecordsAll(cfg)
    requires forall k :: 0 <= k < |calls| ==> Supplied(calls[k]) && Survives(calls[k], cfg.ids, fonts)
    ensures MapAll(RecordedAll(cfg, calls), Lookup(fonts)) == calls
  {
    if calls != [] {
      var n := |calls| - 1;
      RunSurvives(cfg, calls[..n], fonts);
      CallSurvives(cfg, calls[n], fonts);
      MapAllAppends(RecordedAll(cfg, calls[..n]), Recorded(cfg, calls[n]), Lookup(fonts));
      assert calls == calls[..n] + [calls[n]];
    }
  }

  lemma MapAllAppends<F, G>(a: seq<Call<F>>, b: seq<Call<F>>, f: F -> G)
    ensures MapAll(a + b, f) == MapAll(a, f) + MapAll(b, f)
  {
  }

  /** Record, export, render: a run of surviving calls reaches the far target as exactly that run. */
  lemma RecordedRunReplays(cfg: Config, calls: seq<Call<Font>>, fonts: seq<Font>, w: i16, h: i16, more: seq<byte>)
    requires RecordsAll(cfg)
    requires forall k :: 0 <= k < |calls| ==> Supplied(calls[k]) && Survives(calls[k], cfg.ids, fonts)
    requires |Body(RecordedAll(cfg, calls))| < TWO32
    ensures var r := Rendered(Export(w, h, RecordedAll(cfg, calls)) + more);
            r.error == Ok && MapAll(r.calls, Lookup(fonts)) == calls
  {
    RoundTrip(w, h, RecordedAll(cfg, calls), more);
    RunSurvives(cfg, calls, fonts);
  }

  /** The call can reach the far target as it was made: there is something to record, it fits, and its font is known. */
  predicate Whole(c: Call<Font>, ids: seq<Binding>, fonts: seq<Font>) {
    && (c.WriteText? ==> 0 < |c.text| <= 0xFFFF)
    && (c.SetText? ==> |c.text| <= 0xFFFF)
    && (c.SetFont? || c.SetText? ==> FontOf(fonts, IdOf(ids, c.font)) == c.font)
    && (c.Bitmap1Bit? || c.XBitmap? || c.GrayBitmapMask? || c.RGBBitmapMask? ==> c.bits != [])
    && (c.GrayBitmap? || c.GrayBitmapMask? ==> c.gray != [])
    && (c.RGBBitmap? || c.RGBBitmapMask? || c.BitmapTriangle? ==> c.argb != [])
    && (c.RGB565Bitmap? ==> c.rgb != [])
    && (BitmapCall(c) ==> c.w > 0 && c.h > 0)
  }

  lemma WholeSurvives(c: Call<Font>, ids: seq<Binding>, fonts: seq<Font>)
    ensures Whole(c, ids, fonts) <==> Survives(c, ids, fonts)
  {
    hide FontOf;
    hide IdOf;
  }

  lemma {:induction false} RecordedCounts(cfg: Config, calls: seq<Call<Font>>)
    requires forall k :: 0 <= k < |calls| ==> Supplied(calls[k])
    ensures |RecordedAll(cfg, calls)| <= |calls|
  {
    hide Reaches;
    hide Allows;
    if calls != [] {
      RecordedCounts(cfg, calls[..|calls| - 1]);
    }
  }

  /** Only a run whose every call survives comes back as itself. */
  lemma {:induction false} RunSurvivesOnly(cfg: Config, calls: seq<Call<Font>>, fonts: seq<Font>)
    requires RecordsAll(cfg) && forall k :: 0 <= k < |calls| ==> Supplied(calls[k])
    requires MapAll(RecordedAll(cfg, calls), Lookup(fonts)) == calls
    ensures forall k :: 0 <= k < |calls| ==> Survives(calls[k], cfg.ids, fonts)
  {
    hide Survives;
    hide RecordsAll;
    hide Supplied;
    if calls != [] {
      var n := |calls| - 1;
      var before, last := RecordedAll(cfg, calls[..n]), Recorded(cfg, calls[n]);
      RecordedCounts(cfg, calls[..n]);
      AtMostOne(cfg, calls[n]);
      hide Recorded;
      MapAllAppends(before, last, Lookup(fonts));
      assert |before| == n && |last| == 1;
      var a, b := MapAll(before, Lookup(fonts)), MapAll(last, Lookup(fonts));
      hide MapAll;
      assert a == (a + b)[..n] == calls[..n];
      assert b == (a + b)[n..] == [calls[n]];
      CallSurvives(cfg, calls[n], fonts);
      RunSurvivesOnly(cfg, calls[..n], fonts);
    }
  }

  lemma AtMostOne(cfg: Config, c: Call<Font>)
    requires Supplied(c)
    ensures |Recorded(cfg, c)| <= 1
  {
    hide Reaches;
    hide Allows;
  }

  /** Record everything, export, render: the run reaches the far target as it was made if and only if every call can. */
  lemma RunReplaysIff(cfg: Config, calls: seq<Call<Font>>, fonts: seq<Font>, w: i16, h: i16, more: seq<byte>)
    requires RecordsAll(cfg) && forall k :: 0 <= k < |calls| ==> Supplied(calls[k])
    requires |Body(RecordedAll(cfg, calls))| < TWO32
    ensures var r := Rendered(Export(w, h, RecordedAll(cfg, calls)) + more);
            && r.error == Ok
            && (MapAll(r.calls, Lookup(fonts)) == calls <==> forall k :: 0 <= k < |calls| ==>
              Whole(calls[k], cfg.ids, fonts))
  {
    RoundTrip(w, h, RecordedAll(cfg, calls), more);
    hide *;
    forall k | 0 <= k < |calls| ensures Whole(calls[k], cfg.ids, fonts) <==> Survives(calls[k], cfg.ids, fonts) {
      WholeSurvives(calls[k], cfg.ids, fonts);
    }
    if MapAll(RecordedAll(cfg, calls), Lookup(fonts)) == calls {
      RunSurvivesOnly(cfg, calls, fonts);
    }
    if forall k :: 0 <= k < |calls| ==> Survives(calls[k], cfg.ids, fonts) {
      RunSurvives(cfg, calls, fonts);
    }
  }

  lemma PackAssoc(s: seq<byte>, op: byte, shorts: seq<i16>, longs: seq<u32>, blob: seq<byte>)
    ensures s + [op] + Shorts(shorts) + Longs(longs) + blob == s + Pack(op, shorts, longs, blob)
  {
    Assoc(s, [op], Shorts(shorts));
    Assoc(s, [op] + Shorts(shorts), Longs(longs));
    Assoc(s, [op] + Shorts(shorts) + Longs(longs), blob);
  }

  lemma PackAppends(s: seq<byte>, op: byte, shorts: seq<i16>, a: seq<byte>, b: seq<byte>)
    ensures s + Pack(op, shorts, [], []) + a + b == s + Pack(op, shorts, [], a + b)
  {
    var p := Pack(op, shorts, [], []);
    Units([op] + Shorts(shorts));
    Units(p);
    Assoc(s, p, a);
    Assoc(s, p + a, b);
    Assoc(p, a, b);
  }

  lemma {:induction false} IdOfRebound(ids: seq<Binding>, i: nat, font: Font, id: byte, f: Font)
    requires i < |ids| && ids[i].font == font && font != Null
    requires forall k :: 0 <= k < i ==> ids[k].font != font
    ensures IdOf(ids[i := Binding(font, id)], f) == if f == font then id else IdOf(ids, f)
    decreases i
  {
    var next := ids[i := Binding(font, id)];
    if i == 0 {
      assert next[1..] == ids[1..];
    } else {
      assert ids[0].font != font;
      forall k | 0 <= k < i - 1 ensures ids[1..][k].font != font {
        assert ids[k + 1].font != font;
      }
      IdOfRebound(ids[1..], i - 1, font, id, f);
      assert next[1..] == ids[1..][i - 1 := Binding(font, id)] && next[0] == ids[0];
    }
  }

  lemma {:induction false} IdOfAppended(ids: seq<Binding>, font: Font, id: byte, f: Font)
    requires font != Null && forall k :: 0 <= k < |ids| ==> ids[k].font != font
    ensures IdOf(ids + [Binding(font, id)], f) == if f == font then id else IdOf(ids, f)
    decreases |ids|
  {
    if ids != [] {
      assert ids[0].font != font;
      forall k | 0 <= k < |ids[1..]| ensures ids[1..][k].font != font {
        assert ids[k + 1].font != font;
      }
      IdOfAppended(ids[1..], font, id, f);
      var next := ids + [Binding(font, id)];
      assert next[1..] == ids[1..] + [Binding(font, id)] && next[0] == ids[0];
    }
  }
}
