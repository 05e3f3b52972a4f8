/** DrawReplay's decoder: command at an offset, whole body, whole blob. */
module DrawReplay {
  import opened Bytes
  import opened DrawCalls

  datatype DRError = Ok | BadMagic | BadVersion | Truncated | UnknownOpcode | BadPayload

  const DR_HEADER_SIZE: nat := 20
  const DR_VERSION: u16 := 1
  const DR_MAGIC: seq<byte> := [0x44, 0x52, 0x50, 0x31]   // 'D', 'R', 'P', '1'
  const OP_END: byte := 0

  datatype Decoded =
    | End
    | Cmd(call: Call<byte>, next: nat)
    | Fail(error: DRError)

  /** A C string ends at its first NUL. */
  function CStr(t: seq<byte>): (r: seq<byte>)
    ensures 0 !in r && (0 !in t ==> r == t)
    ensures r <= t && (|r| < |t| ==> t[|r|] == 0)
  {
    if t == [] || t[0] == 0 then [] else [t[0]] + CStr(t[1..])
  }

  function DecodeGeometry(s: seq<byte>, op: byte, j: nat): (d: Decoded)
    requires j <= |s|
    ensures d.Cmd? ==> j <= d.next <= |s|
    ensures !d.End?
  {
    var n := |s| - j;
    if op == 0x01 then
      if n < 8 then Fail(Truncated)
      else Cmd(DrawPixel(I16At(s, j), I16At(s, j + 2), U32At(s, j + 4)), j + 8)
    else if op == 0x02 then
      if n < 10 then Fail(Truncated)
      else Cmd(FastVLine(I16At(s, j), I16At(s, j + 2), I16At(s, j + 4), U32At(s, j + 6)), j + 10)
    else if op == 0x03 then
      if n < 10 then Fail(Truncated)
      else Cmd(FastHLine(I16At(s, j), I16At(s, j + 2), I16At(s, j + 4), U32At(s, j + 6)), j + 10)
    else if op == 0x04 then
      if n < 12 then Fail(Truncated)
      else Cmd(Line(I16At(s, j), I16At(s, j + 2), I16At(s, j + 4), I16At(s, j + 6), U32At(s, j + 8)), j + 12)
    else if op == 0x05 then
      if n < 12 then Fail(Truncated)
      else Cmd(Rect(I16At(s, j), I16At(s, j + 2), I16At(s, j + 4), I16At(s, j + 6), U32At(s, j + 8)), j + 12)
    else if op == 0x06 then
      if n < 12 then Fail(Truncated)
      else Cmd(FillRect(I16At(s, j), I16At(s, j + 2), I16At(s, j + 4), I16At(s, j + 6), U32At(s, j + 8)), j + 12)
    else if op == 0x07 then
      if n < 4 then Fail(Truncated) else Cmd(FillScreen(U32At(s, j)), j + 4)
    else DecodeCurves(s, op, j)
  }

  function DecodeCurves(s: seq<byte>, op: byte, j: nat): (d: Decoded)
    requires j <= |s|
    ensures d.Cmd? ==> j <= d.next <= |s|
    ensures !d.End?
  {
    var n := |s| - j;
    if op == 0x08 then
      if n < 10 then Fail(Truncated)
      else Cmd(Circle(I16At(s, j), I16At(s, j + 2), I16At(s, j + 4), U32At(s, j + 6)), j + 10)
    else if op == 0x09 then
      if n < 10 then Fail(Truncated)
      else Cmd(FillCircle(I16At(s, j), I16At(s, j + 2), I16At(s, j + 4), U32At(s, j + 6)), j + 10)
    else if op == 0x0A then
      if n < 18 then Fail(Truncated)
      else Cmd(Arc(I16At(s, j), I16At(s, j + 2), I16At(s, j + 4),
                   U32At(s, j + 6), U32At(s, j + 10), U32At(s, j + 14)), j + 18)
    else if op == 0x0B then
      if n < 14 then Fail(Truncated)
      else Cmd(RoundRect(I16At(s, j), I16At(s, j + 2), I16At(s, j + 4), I16At(s, j + 6), I16At(s, j + 8),
                         U32At(s, j + 10)), j + 14)
    else if op == 0x0C then
      if n < 14 then Fail(Truncated)
      else Cmd(FillRoundRect(I16At(s, j), I16At(s, j + 2), I16At(s, j + 4), I16At(s, j + 6), I16At(s, j + 8),
                             U32At(s, j + 10)), j + 14)
    else if op == 0x0D then
      if n < 16 then Fail(Truncated)
      else Cmd(Triangle(I16At(s, j), I16At(s, j + 2), I16At(s, j + 4), I16At(s, j + 6), I16At(s, j + 8),
                        I16At(s, j + 10), U32At(s, j + 12)), j + 16)
    else if op == 0x0E then
      if n < 16 then Fail(Truncated)
      else Cmd(FillTriangle(I16At(s, j), I16At(s, j + 2), I16At(s, j + 4), I16At(s, j + 6), I16At(s, j + 8),
                            I16At(s, j + 10), U32At(s, j + 12)), j + 16)
    else Fail(UnknownOpcode)
  }

  function DecodeState(s: seq<byte>, op: byte, j: nat): (d: Decoded)
    requires j <= |s|
    ensures d.Cmd? ==> j <= d.next <= |s|
    ensures !d.End?
  {
    var n := |s| - j;
    if op == 0x20 then
      if n < 4 then Fail(Truncated) else Cmd(SetDrawStyle(s[j], s[j + 1], s[j + 2], s[j + 3] != 0), j + 4)
    else if op == 0x21 then
      if n < 1 then Fail(Truncated) else Cmd(SetRotation(s[j]), j + 1)
    else if op == 0x22 then
      if n < 1 then Fail(Truncated) else Cmd(InvertDisplay(s[j] != 0), j + 1)
    else if op == 0x50 then
      if n < 1 then Fail(Truncated) else Cmd(SwapBuffers(s[j] != 0), j + 1)
    else Fail(UnknownOpcode)
  }

  function DecodeText(s: seq<byte>, op: byte, j: nat): (d: Decoded)
    requires j <= |s|
    ensures d.Cmd? ==> j <= d.next <= |s|
    ensures !d.End?
  {
    var n := |s| - j;
    if op == 0x30 then
      if n < 4 then Fail(Truncated) else Cmd(SetCursor(I16At(s, j), I16At(s, j + 2)), j + 4)
    else if op == 0x31 then
      if n < 8 then Fail(Truncated) else Cmd(SetTextColor(U32At(s, j), U32At(s, j + 4)), j + 8)
    else if op == 0x32 then
      if n < 2 then Fail(Truncated) else Cmd(SetTextSize(s[j], s[j + 1]), j + 2)
    else if op == 0x33 then
      if n < 1 then Fail(Truncated) else Cmd(SetTextWrap(s[j] != 0), j + 1)
    else if op == 0x34 then
      if n < 1 then Fail(Truncated) else Cmd(SetTextRotation(s[j]), j + 1)
    else if op == 0x35 then
      if n < 1 then Fail(Truncated) else Cmd(SetFont(s[j]), j + 1)
    else if op == 0x36 then
      if n < 2 || n - 2 < U16At(s, j) then Fail(Truncated)
      else Cmd(WriteText(CStr(s[j + 2..j + 2 + U16At(s, j)])), j + 2 + U16At(s, j))
    else if op == 0x37 then
      if n < 15 then Fail(Truncated)
      else Cmd(DrawChar(I16At(s, j), I16At(s, j + 2), s[j + 4], U32At(s, j + 5), U32At(s, j + 9),
                        s[j + 13], s[j + 14]), j + 15)
    else if op == 0x38 then
      if n < 18 || n - 18 < U16At(s, j + 16) then Fail(Truncated)
      else Cmd(SetText(I16At(s, j), I16At(s, j + 2), U32At(s, j + 4), U32At(s, j + 8), s[j + 12], s[j + 13],
                       s[j + 14], s[j + 15], CStr(s[j + 18..j + 18 + U16At(s, j + 16)])), j + 18 + U16At(s, j + 16))
    else Fail(UnknownOpcode)
  }

  /** A bitmap's header is `head` bytes long, with its extent in the last four bytes of its i16 fields. */
  function DecodeBitmap(s: seq<byte>, op: byte, j: nat): (d: Decoded)
    requires j <= |s|
    ensures d.Cmd? ==> j <= d.next <= |s|
    ensures !d.End?
  {
    var n := |s| - j;
    var head := if op == 0x40 then 16 else if op == 0x41 then 12 else if op == 0x47 then 16 else 8;
    if n < head then Fail(Truncated)
    else
      var wAt := if op == 0x47 then j + 12 else j + 4;
      var w, h := I16At(s, wAt), I16At(s, wAt + 2);
      var p := j + head;
      if w <= 0 || h <= 0 then Fail(BadPayload)
      else if op == 0x40 then
        if |s| - p < MonoBytes(w, h) then Fail(BadPayload)
        else Cmd(Bitmap1Bit(I16At(s, j), I16At(s, j + 2), w, h, U32At(s, j + 8), U32At(s, j + 12),
                            s[p..p + MonoBytes(w, h)]), p + MonoBytes(w, h))
      else if op == 0x41 then
        if |s| - p < MonoBytes(w, h) then Fail(BadPayload)
        else Cmd(XBitmap(I16At(s, j), I16At(s, j + 2), w, h, U32At(s, j + 8), s[p..p + MonoBytes(w, h)]),
                 p + MonoBytes(w, h))
      else if op == 0x47 then
        if |s| - p < 4 * Area(w, h) then Fail(BadPayload)
        else Cmd(BitmapTriangle(I16At(s, j), I16At(s, j + 2), I16At(s, j + 4), I16At(s, j + 6), I16At(s, j + 8),
                                I16At(s, j + 10), w, h, U32sAt(s, p, Area(w, h))), p + 4 * Area(w, h))
      else DecodePixels(s, op, I16At(s, j), I16At(s, j + 2), w, h, p)
  }

  function DecodePixels(s: seq<byte>, op: byte, x: i16, y: i16, w: i16, h: i16, p: nat): (d: Decoded)
    requires p <= |s| && w > 0 && h > 0
    ensures d.Cmd? ==> p <= d.next <= |s|
    ensures !d.End?
  {
    var n, area, mono := |s| - p, Area(w, h), MonoBytes(w, h);
    if op == 0x42 then
      if n < area then Fail(BadPayload) else Cmd(GrayBitmap(x, y, w, h, s[p..p + area]), p + area)
    else if op == 0x43 then
      if n < area + mono then Fail(BadPayload)
      else Cmd(GrayBitmapMask(x, y, w, h, s[p..p + area], s[p + area..p + area + mono]), p + area + mono)
    else if op == 0x44 then
      if n < 4 * area then Fail(BadPayload) else Cmd(RGBBitmap(x, y, w, h, U32sAt(s, p, area)), p + 4 * area)
    else if op == 0x45 then
      if n < 4 * area + mono then Fail(BadPayload)
      else Cmd(RGBBitmapMask(x, y, w, h, U32sAt(s, p, area), s[p + 4 * area..p + 4 * area + mono]),
               p + 4 * area + mono)
    else if op == 0x46 then
      if n < 2 * area then Fail(BadPayload) else Cmd(RGB565Bitmap(x, y, w, h, U16sAt(s, p, area)), p + 2 * area)
    else Fail(UnknownOpcode)
  }

  /** The command at offset `i`. */
  function DecodeAt(s: seq<byte>, i: nat): (d: Decoded)
    requires i <= |s|
    ensures d.Cmd? ==> i < d.next <= |s|
    ensures d.End? ==> i < |s|
    ensures d.Fail? ==> d.error in {Truncated, UnknownOpcode, BadPayload}
  {
    if i == |s| then Fail(Truncated)
    else
      var op, j := s[i], i + 1;
      if op == OP_END then End
      else if op <= 0x0E then DecodeGeometry(s, op, j)
      else if 0x30 <= op <= 0x38 then DecodeText(s, op, j)
      else if 0x40 <= op <= 0x47 then DecodeBitmap(s, op, j)
      else DecodeState(s, op, j)
  }

  // ----- a command reads back -----

  lemma ReadsGeometry(c: Call<byte>, s: seq<byte>, i: nat)
    requires c.DrawPixel? || c.FastVLine? || c.FastHLine? || c.Line? || c.Rect? || c.FillRect? || c.FillScreen?
    requires Has(s, i, Encode(c))
    ensures DecodeAt(s, i) == Cmd(c, i + |Encode(c)|)
  {
    hide Has;
    hide U16At;
    hide U32At;
    hide I16At;
    match c
    case DrawPixel(x, y, k) => PackFields(s, i, 0x01, [x, y], [k], [], i + 5, i + 9);
    case FastVLine(x, y, h, k) => PackFields(s, i, 0x02, [x, y, h], [k], [], i + 7, i + 11);
    case FastHLine(x, y, w, k) => PackFields(s, i, 0x03, [x, y, w], [k], [], i + 7, i + 11);
    case Line(x0, y0, x1, y1, k) => PackFields(s, i, 0x04, [x0, y0, x1, y1], [k], [], i + 9, i + 13);
    case Rect(x, y, w, h, k) => PackFields(s, i, 0x05, [x, y, w, h], [k], [], i + 9, i + 13);
    case FillRect(x, y, w, h, k) => PackFields(s, i, 0x06, [x, y, w, h], [k], [], i + 9, i + 13);
    case FillScreen(k) => PackFields(s, i, 0x07, [], [k], [], i + 1, i + 5);
  }

  lemma ReadsCurves(c: Call<byte>, s: seq<byte>, i: nat)
    requires c.Circle? || c.FillCircle? || c.Arc? || c.RoundRect?
    requires Has(s, i, Encode(c))
    ensures DecodeAt(s, i) == Cmd(c, i + |Encode(c)|)
  {
    hide Has;
    hide U16At;
    hide U32At;
    hide I16At;
    match c
    case Circle(x, y, r, k) => PackFields(s, i, 0x08, [x, y, r], [k], [], i + 7, i + 11);
    case FillCircle(x, y, r, k) => PackFields(s, i, 0x09, [x, y, r], [k], [], i + 7, i + 11);
    case Arc(x, y, r, a, e, k) => PackFields(s, i, 0x0A, [x, y, r], [a, e, k], [], i + 7, i + 19);
    case RoundRect(x, y, w, h, r, k) => PackFields(s, i, 0x0B, [x, y, w, h, r], [k], [], i + 11, i + 15);
  }

  lemma ReadsCorners(c: Call<byte>, s: seq<byte>, i: nat)
    requires c.FillRoundRect? || c.Triangle? || c.FillTriangle?
    requires Has(s, i, Encode(c))
    ensures DecodeAt(s, i) == Cmd(c, i + |Encode(c)|)
  {
    hide Has;
    hide U16At;
    hide U32At;
    hide I16At;
    match c
    case FillRoundRect(x, y, w, h, r, k) => PackFields(s, i, 0x0C, [x, y, w, h, r], [k], [], i + 11, i + 15);
    case Triangle(x0, y0, x1, y1, x2, y2, k) =>
      PackFields(s, i, 0x0D, [x0, y0, x1, y1, x2, y2], [k], [], i + 13, i + 17);
    case FillTriangle(x0, y0, x1, y1, x2, y2, k) =>
      PackFields(s, i, 0x0E, [x0, y0, x1, y1, x2, y2], [k], [], i + 13, i + 17);
  }

  /** A command made of bytes only. */
  lemma PlainRead(s: seq<byte>, i: nat, op: byte, blob: seq<byte>)
    requires Has(s, i, Pack(op, [], [], blob))
    ensures i + 1 + |blob| <= |s| && s[i] == op && Has(s, i + 1, blob)
    ensures |blob| > 0 ==> s[i + 1] == blob[0]
    ensures |blob| > 1 ==> s[i + 2] == blob[1]
    ensures |blob| > 2 ==> s[i + 3] == blob[2]
    ensures |blob| > 3 ==> s[i + 4] == blob[3]
  {
    PackFields(s, i, op, [], [], blob, i + 1, i + 1);
    if |blob| > 0 { HasAt(s, i + 1, blob, 0); }
    if |blob| > 1 { HasAt(s, i + 1, blob, 1); }
    if |blob| > 2 { HasAt(s, i + 1, blob, 2); }
    if |blob| > 3 { HasAt(s, i + 1, blob, 3); }
  }

  lemma ReadsState(c: Call<byte>, s: seq<byte>, i: nat)
    requires c.SetDrawStyle? || c.SetRotation? || c.InvertDisplay? || c.SwapBuffers?
    requires Has(s, i, Encode(c))
    ensures DecodeAt(s, i) == Cmd(c, i + |Encode(c)|)
  {
    hide Has;
    hide U16At;
    hide U32At;
    hide I16At;
    match c
    case SetDrawStyle(st, cap, j, on) => PlainRead(s, i, 0x20, [st, cap, j, Flag(on)]);
    case SetRotation(r) => PlainRead(s, i, 0x21, [r]);
    case InvertDisplay(on) => PlainRead(s, i, 0x22, [Flag(on)]);
    case SwapBuffers(on) => PlainRead(s, i, 0x50, [Flag(on)]);
  }

  lemma ReadsTextState(c: Call<byte>, s: seq<byte>, i: nat)
    requires c.SetCursor? || c.SetTextColor? || c.SetTextSize? || c.SetTextWrap? || c.SetTextRotation? || c.SetFont?
    requires Has(s, i, Encode(c))
    ensures DecodeAt(s, i) == Cmd(c, i + |Encode(c)|)
  {
    hide Has;
    hide U16At;
    hide U32At;
    hide I16At;
    match c
    case SetCursor(x, y) => PackFields(s, i, 0x30, [x, y], [], [], i + 5, i + 5);
    case SetTextColor(k, bg) => PackFields(s, i, 0x31, [], [k, bg], [], i + 1, i + 9);
    case SetTextSize(sx, sy) => PlainRead(s, i, 0x32, [sx, sy]);
    case SetTextWrap(on) => PlainRead(s, i, 0x33, [Flag(on)]);
    case SetTextRotation(r) => PlainRead(s, i, 0x34, [r]);
    case SetFont(id) => PlainRead(s, i, 0x35, [id]);
  }

  lemma TextRead(s: seq<byte>, i: nat, t: seq<byte>)
    requires |t| < 0x1_0000 && 0 !in t && Has(s, i, LE16(|t|) + t)
    ensures i + 2 + |t| <= |s| && U16At(s, i) == |t| && CStr(s[i + 2..i + 2 + |t|]) == t
  {
    hide Has;
    hide LE16;
    hide U16At;
    HasSplits(s, i, LE16(|t|), t);
    Has16(s, i, |t|);
    HasIsSlice(s, i + 2, t);
  }

  lemma TextAt(s: seq<byte>, i: nat)
    requires i < |s| && 0x30 <= s[i] <= 0x38
    ensures DecodeAt(s, i) == DecodeText(s, s[i], i + 1)
  {
    hide DecodeText;
  }

  lemma WriteTextFields(c: Call<byte>, s: seq<byte>, i: nat)
    requires c.WriteText? && Encodable(c) && Has(s, i, Pack(0x36, [], [], LE16(|c.text|) + c.text))
    ensures i + 3 + |c.text| <= |s| && s[i] == 0x36
    ensures U16At(s, i + 1) == |c.text| && CStr(s[i + 3..i + 3 + |c.text|]) == c.text
  {
    hide Has;
    hide Pack;
    hide U16At;
    hide LE16;
    hide CStr;
    PackFields(s, i, 0x36, [], [], LE16(|c.text|) + c.text, i + 1, i + 1);
    TextRead(s, i + 1, c.text);
  }

  lemma ReadsWriteText(c: Call<byte>, s: seq<byte>, i: nat)
    requires c.WriteText? && Encodable(c) && Has(s, i, Encode(c))
    ensures DecodeAt(s, i) == Cmd(c, i + |Encode(c)|)
  {
    hide Has;
    hide Pack;
    hide U16At;
    hide CStr;
    WriteTextFields(c, s, i);
    TextAt(s, i);
    hide DecodeAt;
  }

  lemma SetTextFields(c: Call<byte>, s: seq<byte>, i: nat)
    requires c.SetText? && Encodable(c)
    requires Has(s, i, Pack(0x38, [c.x, c.y], [c.color, c.bg], [c.sx, c.sy, c.font, c.rot] + (LE16(|c.text|) + c.text)))
    ensures i + 19 + |c.text| <= |s| && s[i] == 0x38
    ensures I16At(s, i + 1) == c.x && I16At(s, i + 1 + 2) == c.y
    ensures U32At(s, i + 5) == c.color && U32At(s, i + 5 + 4) == c.bg
    ensures s[i + 13] == c.sx && s[i + 14] == c.sy && s[i + 15] == c.font && s[i + 16] == c.rot
    ensures U16At(s, i + 17) == |c.text| && CStr(s[i + 19..i + 19 + |c.text|]) == c.text
  {
    hide CStr;
    hide LE16;
    hide Has;
    hide Pack;
    hide U16At;
    hide U32At;
    hide I16At;
    var small, t := [c.sx, c.sy, c.font, c.rot], c.text;
    PackFields(s, i, 0x38, [c.x, c.y], [c.color, c.bg], small + (LE16(|t|) + t), i + 5, i + 13);
    HasSplits(s, i + 13, small, LE16(|t|) + t);
    HasAt(s, i + 13, small, 0);
    HasAt(s, i + 13, small, 1);
    HasAt(s, i + 13, small, 2);
    HasAt(s, i + 13, small, 3);
    TextRead(s, i + 17, t);
  }

  lemma ReadsSetText(c: Call<byte>, s: seq<byte>, i: nat)
    requires c.SetText? && Encodable(c) && Has(s, i, Encode(c))
    ensures DecodeAt(s, i) == Cmd(c, i + |Encode(c)|)
  {
    hide CStr;
    hide Has;
    hide Pack;
    hide U16At;
    hide U32At;
    hide I16At;
    SetTextFields(c, s, i);
    TextAt(s, i);
    hide DecodeAt;
  }

  lemma CharFields(c: Call<byte>, s: seq<byte>, i: nat)
    requires c.DrawChar? && Has(s, i, Pack(0x37, [c.x, c.y], [], [c.ch] + LE32(c.color) + LE32(c.bg) + [c.sx, c.sy]))
    ensures i + 16 <= |s| && s[i] == 0x37
    ensures I16At(s, i + 1) == c.x && I16At(s, i + 1 + 2) == c.y && s[i + 5] == c.ch
    ensures U32At(s, i + 6) == c.color && U32At(s, i + 10) == c.bg && s[i + 14] == c.sx && s[i + 15] == c.sy
  {
    hide Has;
    hide Pack;
    hide U16At;
    hide U32At;
    hide I16At;
    hide LE32;
    var last := [c.sx, c.sy];
    PackFields(s, i, 0x37, [c.x, c.y], [], [c.ch] + LE32(c.color) + LE32(c.bg) + last, i + 5, i + 5);
    HasSplits(s, i + 5, [c.ch] + LE32(c.color) + LE32(c.bg), last);
    HasSplits(s, i + 5, [c.ch] + LE32(c.color), LE32(c.bg));
    HasSplits(s, i + 5, [c.ch], LE32(c.color));
    Has32(s, i + 6, c.color);
    Has32(s, i + 10, c.bg);
    HasAt(s, i + 5, [c.ch], 0);
    HasAt(s, i + 14, last, 0);
    HasAt(s, i + 14, last, 1);
  }

  lemma ReadsChar(c: Call<byte>, s: seq<byte>, i: nat)
    requires c.DrawChar? && Has(s, i, Encode(c))
    ensures DecodeAt(s, i) == Cmd(c, i + |Encode(c)|)
  {
    hide Has;
    hide Pack;
    hide U32At;
    hide I16At;
    CharFields(c, s, i);
    TextAt(s, i);
    hide DecodeAt;
  }

  lemma BitmapAt(s: seq<byte>, i: nat)
    requires i < |s| && 0x40 <= s[i] <= 0x47
    ensures DecodeAt(s, i) == DecodeBitmap(s, s[i], i + 1)
  {
    hide DecodeBitmap;
  }

  lemma PixelsAt(s: seq<byte>, i: nat, x: i16, y: i16, w: i16, h: i16)
    requires i < |s| && 0x42 <= s[i] <= 0x46 && i + 9 <= |s| && w > 0 && h > 0
    requires I16At(s, i + 1) == x && I16At(s, i + 1 + 2) == y && I16At(s, i + 1 + 4) == w && I16At(s, i + 1 + 6) == h
    ensures DecodeAt(s, i) == DecodePixels(s, s[i], x, y, w, h, i + 9)
  {
    BitmapAt(s, i);
    hide DecodeAt;
    hide DecodePixels;
    hide I16At;
    hide U32At;
  }

  lemma Bitmap1BitFields(c: Call<byte>, s: seq<byte>, i: nat)
    requires Encodable(c) && c.Bitmap1Bit? && Has(s, i, Pack(0x40, [c.x, c.y, c.w, c.h], [c.color, c.bg], c.bits))
    ensures i + 17 + |c.bits| <= |s| && DecodeAt(s, i) == DecodeBitmap(s, 0x40, i + 1)
    ensures I16At(s, i + 1) == c.x && I16At(s, i + 1 + 2) == c.y && I16At(s, i + 1 + 4) == c.w &&
            I16At(s, i + 1 + 6) == c.h
    ensures U32At(s, i + 9) == c.color && U32At(s, i + 9 + 4) == c.bg
    ensures s[i + 17..i + 17 + |c.bits|] == c.bits
  {
    hide Has;
    hide Pack;
    hide I16At;
    hide U32At;
    hide DecodeAt;
    hide DecodeBitmap;
    PackFields(s, i, 0x40, [c.x, c.y, c.w, c.h], [c.color, c.bg], c.bits, i + 9, i + 17);
    BitmapAt(s, i);
  }

  lemma ReadsBitmap1Bit(c: Call<byte>, s: seq<byte>, i: nat)
    requires Encodable(c) && c.Bitmap1Bit? && Has(s, i, Encode(c))
    ensures DecodeAt(s, i) == Cmd(c, i + |Encode(c)|)
  {
    hide Has;
    hide Pack;
    hide I16At;
    hide U32At;
    hide DecodeAt;
    hide DecodePixels;
    Bitmap1BitFields(c, s, i);
  }

  lemma XBitmapFields(c: Call<byte>, s: seq<byte>, i: nat)
    requires Encodable(c) && c.XBitmap? && Has(s, i, Pack(0x41, [c.x, c.y, c.w, c.h], [c.color], c.bits))
    ensures i + 13 + |c.bits| <= |s| && DecodeAt(s, i) == DecodeBitmap(s, 0x41, i + 1)
    ensures I16At(s, i + 1) == c.x && I16At(s, i + 1 + 2) == c.y && I16At(s, i + 1 + 4) == c.w &&
            I16At(s, i + 1 + 6) == c.h
    ensures U32At(s, i + 9) == c.color
    ensures s[i + 13..i + 13 + |c.bits|] == c.bits
  {
    hide Has;
    hide Pack;
    hide I16At;
    hide U32At;
    hide DecodeAt;
    hide DecodeBitmap;
    PackFields(s, i, 0x41, [c.x, c.y, c.w, c.h], [c.color], c.bits, i + 9, i + 13);
    BitmapAt(s, i);
  }

  lemma ReadsXBitmap(c: Call<byte>, s: seq<byte>, i: nat)
    requires Encodable(c) && c.XBitmap? && Has(s, i, Encode(c))
    ensures DecodeAt(s, i) == Cmd(c, i + |Encode(c)|)
  {
    hide Has;
    hide Pack;
    hide I16At;
    hide U32At;
    hide DecodeAt;
    hide DecodePixels;
    XBitmapFields(c, s, i);
  }

  lemma GrayFields(c: Call<byte>, s: seq<byte>, i: nat)
    requires Encodable(c) && c.GrayBitmap? && Has(s, i, Pack(0x42, [c.x, c.y, c.w, c.h], [], c.gray))
    ensures i + 9 + |c.gray| <= |s|
    ensures DecodeAt(s, i) == DecodePixels(s, 0x42, c.x, c.y, c.w, c.h, i + 9)
    ensures s[i + 9..i + 9 + |c.gray|] == c.gray
  {
    hide Has;
    hide Pack;
    hide I16At;
    hide DecodeAt;
    hide DecodePixels;
    PackFields(s, i, 0x42, [c.x, c.y, c.w, c.h], [], c.gray, i + 9, i + 9);
    PixelsAt(s, i, c.x, c.y, c.w, c.h);
  }

  lemma ReadsGray(c: Call<byte>, s: seq<byte>, i: nat)
    requires Encodable(c) && c.GrayBitmap? && Has(s, i, Encode(c))
    ensures DecodeAt(s, i) == Cmd(c, i + |Encode(c)|)
  {
    hide Has;
    hide Pack;
    hide DecodeAt;
    GrayFields(c, s, i);
  }

  lemma TwoParts(s: seq<byte>, p: nat, a: seq<byte>, b: seq<byte>, q: nat)
    requires Has(s, p, a + b) && q == p + |a|
    ensures q + |b| <= |s| && Has(s, p, a) && s[p..q] == a && s[q..q + |b|] == b
  {
    HasSplits(s, p, a, b);
    HasIsSlice(s, p, a);
    HasIsSlice(s, q, b);
  }

  lemma GrayMaskFields(c: Call<byte>, s: seq<byte>, i: nat)
    requires Encodable(c) && c.GrayBitmapMask? && Has(s, i, Pack(0x43, [c.x, c.y, c.w, c.h], [], c.gray + c.bits))
    ensures i + 9 + |c.gray| + |c.bits| <= |s|
    ensures DecodeAt(s, i) == DecodePixels(s, 0x43, c.x, c.y, c.w, c.h, i + 9)
    ensures s[i + 9..i + 9 + |c.gray|] == c.gray
    ensures s[i + 9 + |c.gray|..i + 9 + |c.gray| + |c.bits|] == c.bits
  {
    hide Has;
    hide Pack;
    hide I16At;
    hide DecodeAt;
    hide DecodePixels;
    PackFields(s, i, 0x43, [c.x, c.y, c.w, c.h], [], c.gray + c.bits, i + 9, i + 9);
    PixelsAt(s, i, c.x, c.y, c.w, c.h);
    TwoParts(s, i + 9, c.gray, c.bits, i + 9 + |c.gray|);
  }

  lemma ReadsGrayMask(c: Call<byte>, s: seq<byte>, i: nat)
    requires Encodable(c) && c.GrayBitmapMask? && Has(s, i, Encode(c))
    ensures DecodeAt(s, i) == Cmd(c, i + |Encode(c)|)
  {
    hide Has;
    hide Pack;
    hide DecodeAt;
    GrayMaskFields(c, s, i);
  }

  lemma RGBFields(c: Call<byte>, s: seq<byte>, i: nat)
    requires Encodable(c) && c.RGBBitmap? && Has(s, i, Pack(0x44, [c.x, c.y, c.w, c.h], [], Longs(c.argb)))
    ensures i + 9 + 4 * |c.argb| <= |s|
    ensures DecodeAt(s, i) == DecodePixels(s, 0x44, c.x, c.y, c.w, c.h, i + 9)
    ensures U32sAt(s, i + 9, |c.argb|) == c.argb
  {
    hide Has;
    hide Pack;
    hide I16At;
    hide DecodeAt;
    hide DecodePixels;
    PackFields(s, i, 0x44, [c.x, c.y, c.w, c.h], [], Longs(c.argb), i + 9, i + 9);
    PixelsAt(s, i, c.x, c.y, c.w, c.h);
    LongsRead(s, i + 9, c.argb);
  }

  lemma ReadsRGB(c: Call<byte>, s: seq<byte>, i: nat)
    requires Encodable(c) && c.RGBBitmap? && Has(s, i, Encode(c))
    ensures DecodeAt(s, i) == Cmd(c, i + |Encode(c)|)
  {
    hide Has;
    hide Pack;
    hide DecodeAt;
    hide U32sAt;
    RGBFields(c, s, i);
  }

  lemma RGBMaskFields(c: Call<byte>, s: seq<byte>, i: nat)
    requires Encodable(c) && c.RGBBitmapMask? && Has(s, i, Pack(0x45, [c.x, c.y, c.w, c.h], [], Longs(c.argb) + c.bits))
    ensures i + 9 + 4 * |c.argb| + |c.bits| <= |s|
    ensures DecodeAt(s, i) == DecodePixels(s, 0x45, c.x, c.y, c.w, c.h, i + 9)
    ensures U32sAt(s, i + 9, |c.argb|) == c.argb
    ensures s[i + 9 + 4 * |c.argb|..i + 9 + 4 * |c.argb| + |c.bits|] == c.bits
  {
    hide Has;
    hide Pack;
    hide I16At;
    hide DecodeAt;
    hide DecodePixels;
    PackFields(s, i, 0x45, [c.x, c.y, c.w, c.h], [], Longs(c.argb) + c.bits, i + 9, i + 9);
    PixelsAt(s, i, c.x, c.y, c.w, c.h);
    TwoParts(s, i + 9, Longs(c.argb), c.bits, i + 9 + 4 * |c.argb|);
    LongsRead(s, i + 9, c.argb);
  }

  lemma ReadsRGBMask(c: Call<byte>, s: seq<byte>, i: nat)
    requires Encodable(c) && c.RGBBitmapMask? && Has(s, i, Encode(c))
    ensures DecodeAt(s, i) == Cmd(c, i + |Encode(c)|)
  {
    hide Has;
    hide Pack;
    hide DecodeAt;
    hide U32sAt;
    RGBMaskFields(c, s, i);
  }

  lemma RGB565Fields(c: Call<byte>, s: seq<byte>, i: nat)
    requires Encodable(c) && c.RGB565Bitmap? && Has(s, i, Pack(0x46, [c.x, c.y, c.w, c.h], [], Halves(c.rgb)))
    ensures i + 9 + 2 * |c.rgb| <= |s|
    ensures DecodeAt(s, i) == DecodePixels(s, 0x46, c.x, c.y, c.w, c.h, i + 9)
    ensures U16sAt(s, i + 9, |c.rgb|) == c.rgb
  {
    hide Has;
    hide Pack;
    hide I16At;
    hide DecodeAt;
    hide DecodePixels;
    PackFields(s, i, 0x46, [c.x, c.y, c.w, c.h], [], Halves(c.rgb), i + 9, i + 9);
    PixelsAt(s, i, c.x, c.y, c.w, c.h);
    HalvesRead(s, i + 9, c.rgb);
  }

  lemma ReadsRGB565(c: Call<byte>, s: seq<byte>, i: nat)
    requires Encodable(c) && c.RGB565Bitmap? && Has(s, i, Encode(c))
    ensures DecodeAt(s, i) == Cmd(c, i + |Encode(c)|)
  {
    hide Has;
    hide Pack;
    hide DecodeAt;
    hide U16sAt;
    RGB565Fields(c, s, i);
  }

  lemma BitmapTriangleFields(c: Call<byte>, s: seq<byte>, i: nat)
    requires Encodable(c) && c.BitmapTriangle?
    requires Has(s, i, Pack(0x47, [c.x0, c.y0, c.x1, c.y1, c.x2, c.y2, c.w, c.h], [], Longs(c.argb)))
    ensures i + 17 + 4 * |c.argb| <= |s| && DecodeAt(s, i) == DecodeBitmap(s, 0x47, i + 1)
    ensures I16At(s, i + 1) == c.x0 && I16At(s, i + 1 + 2) == c.y0 && I16At(s, i + 1 + 4) == c.x1
    ensures I16At(s, i + 1 + 6) == c.y1 && I16At(s, i + 1 + 8) == c.x2 && I16At(s, i + 1 + 10) == c.y2
    ensures I16At(s, i + 1 + 12) == c.w && I16At(s, i + 1 + 14) == c.h
    ensures U32sAt(s, i + 17, |c.argb|) == c.argb
  {
    hide Has;
    hide Pack;
    hide I16At;
    hide DecodeAt;
    hide DecodeBitmap;
    PackFields(s, i, 0x47, [c.x0, c.y0, c.x1, c.y1, c.x2, c.y2, c.w, c.h], [], Longs(c.argb), i + 17, i + 17);
    BitmapAt(s, i);
    LongsRead(s, i + 17, c.argb);
  }

  lemma ReadsBitmapTriangle(c: Call<byte>, s: seq<byte>, i: nat)
    requires Encodable(c) && c.BitmapTriangle? && Has(s, i, Encode(c))
    ensures DecodeAt(s, i) == Cmd(c, i + |Encode(c)|)
  {
    hide Has;
    hide Pack;
    hide I16At;
    hide DecodeAt;
    hide DecodePixels;
    hide U32sAt;
    BitmapTriangleFields(c, s, i);
  }

  /** Every command the recorder writes is decoded as itself, and decoding ends where the next one starts. */
  lemma ReadsBack(c: Call<byte>, s: seq<byte>, i: nat)
    requires Encodable(c) && Has(s, i, Encode(c))
    ensures DecodeAt(s, i) == Cmd(c, i + |Encode(c)|)
  {
    hide *;
    match c
    case DrawPixel(_, _, _) => ReadsGeometry(c, s, i);
    case FastVLine(_, _, _, _) => ReadsGeometry(c, s, i);
    case FastHLine(_, _, _, _) => ReadsGeometry(c, s, i);
    case Line(_, _, _, _, _) => ReadsGeometry(c, s, i);
    case Rect(_, _, _, _, _) => ReadsGeometry(c, s, i);
    case FillRect(_, _, _, _, _) => ReadsGeometry(c, s, i);
    case FillScreen(_) => ReadsGeometry(c, s, i);
    case Circle(_, _, _, _) => ReadsCurves(c, s, i);
    case FillCircle(_, _, _, _) => ReadsCurves(c, s, i);
    case Arc(_, _, _, _, _, _) => ReadsCurves(c, s, i);
    case RoundRect(_, _, _, _, _, _) => ReadsCurves(c, s, i);
    case FillRoundRect(_, _, _, _, _, _) => ReadsCorners(c, s, i);
    case Triangle(_, _, _, _, _, _, _) => ReadsCorners(c, s, i);
    case FillTriangle(_, _, _, _, _, _, _) => ReadsCorners(c, s, i);
    case SetDrawStyle(_, _, _, _) => ReadsState(c, s, i);
    case SetRotation(_) => ReadsState(c, s, i);
    case InvertDisplay(_) => ReadsState(c, s, i);
    case SwapBuffers(_) => ReadsState(c, s, i);
    case WriteText(_) => ReadsWriteText(c, s, i);
    case SetText(_, _, _, _, _, _, _, _, _) => ReadsSetText(c, s, i);
    case DrawChar(_, _, _, _, _, _, _) => ReadsChar(c, s, i);
    case Bitmap1Bit(_, _, _, _, _, _, _) => ReadsBitmap1Bit(c, s, i);
    case XBitmap(_, _, _, _, _, _) => ReadsXBitmap(c, s, i);
    case GrayBitmap(_, _, _, _, _) => ReadsGray(c, s, i);
    case GrayBitmapMask(_, _, _, _, _, _) => ReadsGrayMask(c, s, i);
    case RGBBitmap(_, _, _, _, _) => ReadsRGB(c, s, i);
    case RGBBitmapMask(_, _, _, _, _, _) => ReadsRGBMask(c, s, i);
    case RGB565Bitmap(_, _, _, _, _) => ReadsRGB565(c, s, i);
    case BitmapTriangle(_, _, _, _, _, _, _, _, _) => ReadsBitmapTriangle(c, s, i);
    case _ => ReadsTextState(c, s, i);
  }
}
