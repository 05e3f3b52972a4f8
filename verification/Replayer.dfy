/** DrawReplay::DRRender: the latching reader, the font table, and the decode loop that calls a target. */
module Replayer {
  import opened Bytes
  import opened DrawCalls
  import opened DrawReplay
  import opened Render
  import opened Blob

  /** A local font; `Null` is the built-in one. */
  datatype Font = Null | Ptr(address: nat)

  const FONT_BUILTIN: byte := 0xFF

  function FontOf(fonts: seq<Font>, id: byte): Font {
    if id == FONT_BUILTIN || id >= |fonts| then Null else fonts[id]
  }

  class FontTable {
    var m_fonts: seq<Font>

    constructor ()
      ensures m_fonts == []
    {
      m_fonts := [];
    }

    method Bind(id: byte, font: Font)
      modifies this
      ensures forall k: byte ::
        FontOf(m_fonts, k) == if k == id != FONT_BUILTIN then font else FontOf(old(m_fonts), k)
    {
      if id == FONT_BUILTIN {
        return;
      }
      if |m_fonts| <= id {
        m_fonts := m_fonts + seq(id + 1 - |m_fonts|, _ => Null);
      }
      m_fonts := m_fonts[id := font];
    }
  }

  function Lookup(fonts: seq<Font>): byte -> Font {
    (id: byte) => FontOf(fonts, id)
  }

  function MapAll<F, G>(calls: seq<Call<F>>, f: F -> G): (r: seq<Call<G>>)
    ensures |r| == |calls|
  {
    seq(|calls|, k requires 0 <= k < |calls| => MapFont(calls[k], f))
  }

  lemma MapAllSnoc<F, G>(calls: seq<Call<F>>, c: Call<F>, f: F -> G)
    ensures MapAll(calls + [c], f) == MapAll(calls, f) + [MapFont(c, f)]
  {
  }

  /** Any surface that can be drawn on, seen through the calls it receives. */
  class Target {
    var calls: seq<Call<Font>>

    constructor ()
      ensures calls == []
    {
      calls := [];
    }

    method Issue(c: Call<Font>)
      modifies this
      ensures calls == old(calls) + [c]
    {
      calls := calls + [c];
    }
  }

  /** Bounds-checked little-endian reader. Once a read fails `ok` stays false and reads return 0. */
  class Reader {
    const p: seq<byte>
    var i: nat
    var ok: bool

    ghost predicate Valid()
      reads this
    {
      i <= |p|
    }

    /** The state after asking for `k` bytes in state `(i0, ok0)`. */
    ghost predicate Took(k: nat, i0: nat, ok0: bool)
      reads this
    {
      ok == (ok0 && i0 + k <= |p|) && (ok ==> i == i0 + k)
    }

    constructor (data: seq<byte>)
      ensures Valid() && p == data && i == 0 && ok
    {
      p, i, ok := data, 0, true;
    }

    method Need(k: nat) returns (fits: bool)
      requires Valid()
      modifies `ok
      ensures fits == ok == (old(ok) && i + k <= |p|)
    {
      if !ok || k > |p| - i {
        ok := false;
      }
      fits := ok;
    }

    method U8() returns (v: byte)
      requires Valid()
      modifies this
      ensures Valid() && Took(1, old(i), old(ok)) && v == if ok then p[old(i)] else 0
    {
      var fits := Need(1);
      if !fits {
        return 0;
      }
      v := p[i];
      i := i + 1;
    }

    method U16() returns (v: u16)
      requires Valid()
      modifies this
      ensures Valid() && Took(2, old(i), old(ok)) && v == if ok then U16At(p, old(i)) else 0
    {
      var fits := Need(2);
      if !fits {
        return 0;
      }
      v := U16At(p, i);
      i := i + 2;
    }

    method I16() returns (v: i16)
      requires Valid()
      modifies this
      ensures Valid() && Took(2, old(i), old(ok)) && v == if ok then I16At(p, old(i)) else 0
    {
      var u := U16();
      v := Signed(u);
    }

    method U32() returns (v: u32)
      requires Valid()
      modifies this
      ensures Valid() && Took(4, old(i), old(ok)) && v == if ok then U32At(p, old(i)) else 0
    {
      var fits := Need(4);
      if !fits {
        return 0;
      }
      v := U32At(p, i);
      i := i + 4;
    }

    method TakeBytes(k: nat) returns (b: seq<byte>)
      requires Valid()
      modifies this
      ensures Valid() && Took(k, old(i), old(ok)) && b == if ok then p[old(i)..old(i) + k] else []
    {
      var fits := Need(k);
      if !fits {
        return [];
      }
      b := p[i..i + k];
      i := i + k;
    }

    /** A 16-bit count and that many bytes, as the C string the target will read. */
    method TakeText() returns (t: seq<byte>)
      requires Valid()
      modifies this
      ensures Valid()
      ensures ok == (old(ok) && old(i) + 2 <= |p| && old(i) + 2 + U16At(p, old(i)) <= |p|)
      ensures ok ==> i == old(i) + 2 + U16At(p, old(i)) && t == CStr(p[old(i) + 2..i])
    {
      var n := U16();
      var s := TakeBytes(n);
      t := CStr(s);
    }

    /** `n` calls of I16, in order. */
    method I16s(n: nat) returns (v: seq<i16>)
      requires Valid()
      modifies this
      ensures Valid() && Took(2 * n, old(i), old(ok)) && |v| == n
      ensures ok ==> forall k :: 0 <= k < n ==> v[k] == I16At(p, old(i) + 2 * k)
    {
      v := [];
      while |v| < n
        invariant Valid() && |v| <= n && Took(2 * |v|, old(i), old(ok))
        invariant ok ==> forall k :: 0 <= k < |v| ==> v[k] == I16At(p, old(i) + 2 * k)
      {
        var x := I16();
        v := v + [x];
      }
    }

    method U32s(n: nat) returns (v: seq<u32>)
      requires Valid()
      modifies this
      ensures Valid() && Took(4 * n, old(i), old(ok)) && |v| == n
      ensures ok ==> v == U32sAt(p, old(i), n)
      ensures ok ==> forall k :: 0 <= k < n ==> v[k] == U32At(p, old(i) + 4 * k)
    {
      v := [];
      while |v| < n
        invariant Valid() && |v| <= n && Took(4 * |v|, old(i), old(ok))
        invariant ok ==> forall k :: 0 <= k < |v| ==> v[k] == U32At(p, old(i) + 4 * k)
      {
        var x := U32();
        v := v + [x];
      }
    }

    method U16s(n: nat) returns (v: seq<u16>)
      requires Valid()
      modifies this
      ensures Valid() && Took(2 * n, old(i), old(ok)) && |v| == n
      ensures ok ==> v == U16sAt(p, old(i), n)
    {
      v := [];
      while |v| < n
        invariant Valid() && |v| <= n && Took(2 * |v|, old(i), old(ok))
        invariant ok ==> forall k :: 0 <= k < |v| ==> v[k] == U16At(p, old(i) + 2 * k)
      {
        var x := U16();
        v := v + [x];
      }
    }
  }

  /** What one turn of the decode loop did, against the command that stands there. */
  ghost predicate Did(d: Decoded, fonts: seq<Font>, before: seq<Call<Font>>, after: seq<Call<Font>>,
                      ok: bool, i: nat, stop: DRError)
  {
    match d
    case End => false
    case Cmd(c, next) => stop == Ok && ok && i == next && after == before + [MapFont(c, Lookup(fonts))]
    case Fail(e) => after == before && if e == Truncated then stop == Ok && !ok else stop == e
  }

  method RenderGeometry(rd: Reader, op: byte, target: Target, fonts: seq<Font>) returns (stop: DRError)
    requires rd.Valid() && rd.ok && 1 <= op <= 7
    modifies rd, target
    ensures rd.Valid()
    ensures Did(DecodeGeometry(rd.p, op, old(rd.i)), fonts, old(target.calls), target.calls, rd.ok, rd.i, stop)
  {
    hide U32At;
    hide U16At;
    hide I16At;
    stop := Ok;
    var n := if op == 1 then 2 else if op <= 3 then 3 else if op <= 6 then 4 else 0;
    var v := rd.I16s(n);
    var c := rd.U32();
    if !rd.ok {
      return;
    }
    if op == 0x01 {
      target.Issue(DrawPixel(v[0], v[1], c));
    } else if op == 0x02 {
      target.Issue(FastVLine(v[0], v[1], v[2], c));
    } else if op == 0x03 {
      target.Issue(FastHLine(v[0], v[1], v[2], c));
    } else if op == 0x04 {
      target.Issue(Line(v[0], v[1], v[2], v[3], c));
    } else if op == 0x05 {
      target.Issue(Rect(v[0], v[1], v[2], v[3], c));
    } else if op == 0x06 {
      target.Issue(FillRect(v[0], v[1], v[2], v[3], c));
    } else {
      target.Issue(FillScreen(c));
    }
  }

  method RenderCurves(rd: Reader, op: byte, target: Target, fonts: seq<Font>) returns (stop: DRError)
    requires rd.Valid() && rd.ok && 8 <= op <= 0x0E
    modifies rd, target
    ensures rd.Valid()
    ensures Did(DecodeCurves(rd.p, op, old(rd.i)), fonts, old(target.calls), target.calls, rd.ok, rd.i, stop)
  {
    hide U32At;
    hide U16At;
    hide I16At;
    hide Lookup;
    stop := Ok;
    var n := if op <= 0x0A then 3 else if op <= 0x0C then 5 else 6;
    var v := rd.I16s(n);
    var c := rd.U32s(if op == 0x0A then 3 else 1);
    if !rd.ok {
      return;
    }
    if op == 0x08 {
      target.Issue(Circle(v[0], v[1], v[2], c[0]));
    } else if op == 0x09 {
      target.Issue(FillCircle(v[0], v[1], v[2], c[0]));
    } else if op == 0x0A {
      target.Issue(Arc(v[0], v[1], v[2], c[0], c[1], c[2]));
    } else if op == 0x0B {
      target.Issue(RoundRect(v[0], v[1], v[2], v[3], v[4], c[0]));
    } else if op == 0x0C {
      target.Issue(FillRoundRect(v[0], v[1], v[2], v[3], v[4], c[0]));
    } else if op == 0x0D {
      target.Issue(Triangle(v[0], v[1], v[2], v[3], v[4], v[5], c[0]));
    } else {
      target.Issue(FillTriangle(v[0], v[1], v[2], v[3], v[4], v[5], c[0]));
    }
  }

  method RenderState(rd: Reader, op: byte, target: Target, fonts: seq<Font>) returns (stop: DRError)
    requires rd.Valid() && rd.ok
    modifies rd, target
    ensures rd.Valid()
    ensures Did(DecodeState(rd.p, op, old(rd.i)), fonts, old(target.calls), target.calls, rd.ok, rd.i, stop)
  {
    stop := Ok;
    if op == 0x20 {
      var stroke := rd.U8();
      var cap := rd.U8();
      var join := rd.U8();
      var aa := rd.U8();
      if rd.ok {
        target.Issue(SetDrawStyle(stroke, cap, join, aa != 0));
      }
    } else if op == 0x21 || op == 0x22 || op == 0x50 {
      var b := rd.U8();
      if rd.ok {
        target.Issue(if op == 0x21 then SetRotation(b)
                     else if op == 0x22 then InvertDisplay(b != 0) else SwapBuffers(b != 0));
      }
    } else {
      stop := UnknownOpcode;
    }
  }

  method RenderTextState(rd: Reader, op: byte, target: Target, fonts: seq<Font>) returns (stop: DRError)
    requires rd.Valid() && rd.ok && 0x30 <= op <= 0x35
    modifies rd, target
    ensures rd.Valid()
    ensures Did(DecodeText(rd.p, op, old(rd.i)), fonts, old(target.calls), target.calls, rd.ok, rd.i, stop)
  {
    hide U32At;
    hide U16At;
    hide I16At;
    stop := Ok;
    if op == 0x30 {
      var v := rd.I16s(2);
      if rd.ok {
        target.Issue(SetCursor(v[0], v[1]));
      }
    } else if op == 0x31 {
      var c := rd.U32s(2);
      if rd.ok {
        target.Issue(SetTextColor(c[0], c[1]));
      }
    } else if op == 0x32 {
      var sx := rd.U8();
      var sy := rd.U8();
      if rd.ok {
        target.Issue(SetTextSize(sx, sy));
      }
    } else {
      var b := rd.U8();
      if rd.ok {
        target.Issue(if op == 0x33 then SetTextWrap(b != 0)
                     else if op == 0x34 then SetTextRotation(b) else SetFont(FontOf(fonts, b)));
      }
    }
  }

  method RenderWriteText(rd: Reader, target: Target, fonts: seq<Font>) returns (stop: DRError)
    requires rd.Valid() && rd.ok
    modifies rd, target
    ensures rd.Valid()
    ensures Did(DecodeText(rd.p, 0x36, old(rd.i)), fonts, old(target.calls), target.calls, rd.ok, rd.i, stop)
  {
    hide U32At;
    hide U16At;
    hide I16At;
    stop := Ok;
    var t := rd.TakeText();
    if rd.ok {
      target.Issue(WriteText(t));
    }
  }

  method RenderChar(rd: Reader, target: Target, fonts: seq<Font>) returns (stop: DRError)
    requires rd.Valid() && rd.ok
    modifies rd, target
    ensures rd.Valid()
    ensures Did(DecodeText(rd.p, 0x37, old(rd.i)), fonts, old(target.calls), target.calls, rd.ok, rd.i, stop)
  {
    hide U32At;
    hide U16At;
    hide I16At;
    stop := Ok;
    var v := rd.I16s(2);
    var ch := rd.U8();
    var c := rd.U32s(2);
    var sx := rd.U8();
    var sy := rd.U8();
    if rd.ok {
      target.Issue(DrawChar(v[0], v[1], ch, c[0], c[1], sx, sy));
    }
  }

  /** The fixed fields of an all-in-one text command. */
  method TextFields(rd: Reader) returns (v: seq<i16>, c: seq<u32>, style: seq<byte>)
    requires rd.Valid() && rd.ok
    modifies rd
    ensures rd.Valid() && rd.Took(16, old(rd.i), true)
    ensures |v| == 2 && |c| == 2 && |style| == 4
    ensures rd.ok ==> v == [I16At(rd.p, old(rd.i)), I16At(rd.p, old(rd.i) + 2)]
    ensures rd.ok ==> c == [U32At(rd.p, old(rd.i) + 4), U32At(rd.p, old(rd.i) + 8)]
    ensures rd.ok ==> style == rd.p[old(rd.i) + 12..old(rd.i) + 16]
  {
    hide U32At;
    hide I16At;
    v := rd.I16s(2);
    c := rd.U32s(2);
    var sx := rd.U8();
    var sy := rd.U8();
    var fid := rd.U8();
    var rot := rd.U8();
    style := [sx, sy, fid, rot];
  }

  method RenderSetText(rd: Reader, target: Target, fonts: seq<Font>) returns (stop: DRError)
    requires rd.Valid() && rd.ok
    modifies rd, target
    ensures rd.Valid()
    ensures Did(DecodeText(rd.p, 0x38, old(rd.i)), fonts, old(target.calls), target.calls, rd.ok, rd.i, stop)
  {
    hide CStr;
    hide U32At;
    hide U16At;
    hide I16At;
    stop := Ok;
    var v, c, style := TextFields(rd);
    var t := rd.TakeText();
    if rd.ok {
      assert DecodeText(rd.p, 0x38, old(rd.i)) ==
             Cmd(SetText(v[0], v[1], c[0], c[1], style[0], style[1], style[2], style[3], t), rd.i);
      target.Issue(SetText(v[0], v[1], c[0], c[1], style[0], style[1], FontOf(fonts, style[2]), style[3], t));
    }
  }

  method RenderBitmap1Bit(rd: Reader, target: Target, fonts: seq<Font>) returns (stop: DRError)
    requires rd.Valid() && rd.ok
    modifies rd, target
    ensures rd.Valid()
    ensures Did(DecodeBitmap(rd.p, 0x40, old(rd.i)), fonts, old(target.calls), target.calls, rd.ok, rd.i, stop)
  {
    hide U32At;
    hide U16At;
    hide I16At;
    hide MonoBytes;
    hide Area;
    hide DecodePixels;
    hide Lookup;
    stop := Ok;
    ghost var j := rd.i;
    var v := rd.I16s(4);
    var color := rd.U32();
    var bg := rd.U32();
    if !rd.ok {
      return;
    }
    assert rd.i == j + 16;
    var w, h := v[2], v[3];
    if w <= 0 || h <= 0 || MonoBytes(w, h) > |rd.p| - rd.i {
      return BadPayload;
    }
    var bits := rd.TakeBytes(MonoBytes(w, h));
    assert DecodeBitmap(rd.p, 0x40, j) == Cmd(Bitmap1Bit(v[0], v[1], w, h, color, bg, bits), rd.i);
    target.Issue(Bitmap1Bit(v[0], v[1], w, h, color, bg, bits));
  }

  method RenderXBitmap(rd: Reader, target: Target, fonts: seq<Font>) returns (stop: DRError)
    requires rd.Valid() && rd.ok
    modifies rd, target
    ensures rd.Valid()
    ensures Did(DecodeBitmap(rd.p, 0x41, old(rd.i)), fonts, old(target.calls), target.calls, rd.ok, rd.i, stop)
  {
    hide U32At;
    hide U16At;
    hide I16At;
    hide MonoBytes;
    hide Area;
    stop := Ok;
    ghost var j := rd.i;
    var v := rd.I16s(4);
    var color := rd.U32();
    if !rd.ok {
      return;
    }
    assert rd.i == j + 12;
    var w, h := v[2], v[3];
    if w <= 0 || h <= 0 || MonoBytes(w, h) > |rd.p| - rd.i {
      return BadPayload;
    }
    var bits := rd.TakeBytes(MonoBytes(w, h));
    assert DecodeBitmap(rd.p, 0x41, j) == Cmd(XBitmap(v[0], v[1], w, h, color, bits), rd.i);
    target.Issue(XBitmap(v[0], v[1], w, h, color, bits));
  }

  method RenderBitmapTriangle(rd: Reader, target: Target, fonts: seq<Font>) returns (stop: DRError)
    requires rd.Valid() && rd.ok
    modifies rd, target
    ensures rd.Valid()
    ensures Did(DecodeBitmap(rd.p, 0x47, old(rd.i)), fonts, old(target.calls), target.calls, rd.ok, rd.i, stop)
  {
    hide U32At;
    hide U16At;
    hide I16At;
    hide MonoBytes;
    hide Area;
    stop := Ok;
    var v := rd.I16s(8);
    if !rd.ok {
      return;
    }
    var w, h := v[6], v[7];
    if w <= 0 || h <= 0 || 4 * Area(w, h) > |rd.p| - rd.i {
      return BadPayload;
    }
    var argb := rd.U32s(Area(w, h));
    target.Issue(BitmapTriangle(v[0], v[1], v[2], v[3], v[4], v[5], w, h, argb));
  }

  method RenderBitmap(rd: Reader, op: byte, target: Target, fonts: seq<Font>) returns (stop: DRError)
    requires rd.Valid() && rd.ok && 0x42 <= op <= 0x46
    modifies rd, target
    ensures rd.Valid()
    ensures Did(DecodeBitmap(rd.p, op, old(rd.i)), fonts, old(target.calls), target.calls, rd.ok, rd.i, stop)
  {
    stop := Ok;
    var v := rd.I16s(4);
    if !rd.ok {
      return;
    }
    if v[2] <= 0 || v[3] <= 0 {
      return BadPayload;
    }
    stop := RenderPixels(rd, op, target, fonts, v[0], v[1], v[2], v[3]);
  }

  /** Bitmaps of one byte a pixel, with or without a mask. */
  method RenderGray(rd: Reader, op: byte, target: Target, fonts: seq<Font>, x: i16, y: i16, w: i16, h: i16, mono: nat)
    requires rd.Valid() && rd.ok && 0x42 <= op <= 0x43 && w > 0 && h > 0
    requires mono == (if op == 0x43 then MonoBytes(w, h) else 0) && Area(w, h) + mono <= |rd.p| - rd.i
    modifies rd, target
    ensures rd.Valid()
    ensures Did(DecodePixels(rd.p, op, x, y, w, h, old(rd.i)), fonts, old(target.calls), target.calls, rd.ok, rd.i, Ok)
  {
    hide MonoBytes;
    hide Area;
    hide Lookup;
    hide U32sAt;
    hide U16sAt;
    var px := rd.TakeBytes(Area(w, h));
    var mask := rd.TakeBytes(mono);
    target.Issue(if op == 0x42 then GrayBitmap(x, y, w, h, px) else GrayBitmapMask(x, y, w, h, px, mask));
  }

  /** Bitmaps of four bytes a pixel, with or without a mask. */
  method RenderColour(rd: Reader, op: byte, target: Target, fonts: seq<Font>, x: i16, y: i16, w: i16, h: i16, mono: nat)
    requires rd.Valid() && rd.ok && 0x44 <= op <= 0x45 && w > 0 && h > 0
    requires mono == (if op == 0x45 then MonoBytes(w, h) else 0) && 4 * Area(w, h) + mono <= |rd.p| - rd.i
    modifies rd, target
    ensures rd.Valid()
    ensures Did(DecodePixels(rd.p, op, x, y, w, h, old(rd.i)), fonts, old(target.calls), target.calls, rd.ok, rd.i, Ok)
  {
    hide U32At;
    hide U32sAt;
    hide MonoBytes;
    hide Area;
    var argb := rd.U32s(Area(w, h));
    var mask := rd.TakeBytes(mono);
    target.Issue(if op == 0x44 then RGBBitmap(x, y, w, h, argb) else RGBBitmapMask(x, y, w, h, argb, mask));
  }

  method RenderPixels(rd: Reader, op: byte, target: Target, fonts: seq<Font>, x: i16, y: i16, w: i16, h: i16)
    returns (stop: DRError)
    requires rd.Valid() && rd.ok && 0x42 <= op <= 0x46 && w > 0 && h > 0
    modifies rd, target
    ensures rd.Valid()
    ensures Did(DecodePixels(rd.p, op, x, y, w, h, old(rd.i)), fonts, old(target.calls), target.calls,
                rd.ok, rd.i, stop)
  {
    hide U32At;
    hide U16At;
    hide MonoBytes;
    hide Area;
    hide U32sAt;
    hide U16sAt;
    stop := Ok;
    var area := Area(w, h);
    var mono := if op == 0x43 || op == 0x45 then MonoBytes(w, h) else 0;
    var size := if op <= 0x43 then area else if op <= 0x45 then 4 * area else 2 * area;
    if size + mono > |rd.p| - rd.i {
      return BadPayload;
    }
    if op <= 0x43 {
      RenderGray(rd, op, target, fonts, x, y, w, h, mono);
    } else if op <= 0x45 {
      RenderColour(rd, op, target, fonts, x, y, w, h, mono);
    } else {
      var rgb := rd.U16s(area);
      target.Issue(RGB565Bitmap(x, y, w, h, rgb));
    }
  }

  method RenderCommand(rd: Reader, op: byte, target: Target, fonts: seq<Font>) returns (stop: DRError)
    requires rd.Valid() && rd.ok && 1 <= rd.i && op == rd.p[rd.i - 1] != OP_END
    modifies rd, target
    ensures rd.Valid()
    ensures Did(DecodeAt(rd.p, old(rd.i) - 1), fonts, old(target.calls), target.calls, rd.ok, rd.i, stop)
  {
    match op
    case 0x36 => stop := RenderWriteText(rd, target, fonts);
    case 0x37 => stop := RenderChar(rd, target, fonts);
    case 0x38 => stop := RenderSetText(rd, target, fonts);
    case 0x40 => stop := RenderBitmap1Bit(rd, target, fonts);
    case 0x41 => stop := RenderXBitmap(rd, target, fonts);
    case 0x47 => stop := RenderBitmapTriangle(rd, target, fonts);
    case _ =>
      if op <= 0x07 {
        stop := RenderGeometry(rd, op, target, fonts);
      } else if op <= 0x0E {
        stop := RenderCurves(rd, op, target, fonts);
      } else if 0x30 <= op <= 0x35 {
        stop := RenderTextState(rd, op, target, fonts);
      } else if 0x42 <= op <= 0x46 {
        stop := RenderBitmap(rd, op, target, fonts);
      } else {
        stop := RenderState(rd, op, target, fonts);
      }
  }

  /** Issuing one more command takes the loop from `i` on to where that command ends. */
  lemma ReplaysOn(p: seq<byte>, i: nat, done: seq<Call<byte>>, d: Call<byte>, next: nat, f: byte -> Font,
                  was: seq<Call<Font>>)
    requires i <= |p| && DecodeAt(p, i) == Cmd(d, next)
    ensures done + Replay(p, i).calls == done + [d] + Replay(p, next).calls &&
            Replay(p, i).error == Replay(p, next).error
    ensures was + MapAll(done, f) + [MapFont(d, f)] == was + MapAll(done + [d], f)
  {
    hide DecodeAt;
    hide MapAll;
    hide MapFont;
    MapAllSnoc(done, d, f);
    Assoc(done, [d], Replay(p, next).calls);
    Assoc(was, MapAll(done, f), [MapFont(d, f)]);
  }

  /** The decode loop, over the declared body. */
  method RenderBody(rd: Reader, target: Target, fonts: seq<Font>) returns (e: DRError)
    requires rd.Valid() && rd.ok && rd.i == 0
    modifies rd, target
    ensures e == Replay(rd.p, 0).error
    ensures target.calls == old(target.calls) + MapAll(Replay(rd.p, 0).calls, Lookup(fonts))
  {
    ghost var f := Lookup(fonts);
    ghost var done: seq<Call<byte>> := [];
    hide Lookup;
    Units(Replay(rd.p, 0).calls);
    while true
      invariant rd.Valid() && rd.ok
      invariant Replay(rd.p, 0).calls == done + Replay(rd.p, rd.i).calls &&
                Replay(rd.p, 0).error == Replay(rd.p, rd.i).error
      invariant target.calls == old(target.calls) + MapAll(done, f)
      decreases |rd.p| - rd.i
    {
      ghost var at, d := rd.i, DecodeAt(rd.p, rd.i);
      Units(done);
      var op := rd.U8();
      if !rd.ok {
        return Truncated;
      }
      if op == OP_END {
        return Ok;
      }
      var stop := RenderCommand(rd, op, target, fonts);
      if stop != Ok {
        return stop;
      }
      if !rd.ok {
        return Truncated;
      }
      ReplaysOn(rd.p, at, done, d.call, rd.i, f, old(target.calls));
      done := done + [d.call];
    }
  }

  /** The commands of the declared body reach the target in order, up to the first error. */
  method DRRender(data: seq<byte>, target: Target, fonts: seq<Font>) returns (e: DRError)
    modifies target
    ensures e == Rendered(data).error
    ensures target.calls == old(target.calls) + MapAll(Rendered(data).calls, Lookup(fonts))
  {
    var header := Peek(data);
    if header.Bad? {
      return header.error;
    }
    var rd := new Reader(data[DR_HEADER_SIZE..DR_HEADER_SIZE + header.bodyBytes]);
    e := RenderBody(rd, target, fonts);
  }
}
