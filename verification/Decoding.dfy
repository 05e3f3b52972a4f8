/** When a command decodes, how far it reaches, and which error it is otherwise, from opcodes and byte counts alone. */
module Decoding {
  import opened Bytes
  import opened DrawCalls
  import opened DrawReplay

  /** Opcodes whose operands have one size, and that size. */
  const OPERANDS: map<byte, nat> := map[
    0x01 := 8, 0x02 := 10, 0x03 := 10, 0x04 := 12, 0x05 := 12, 0x06 := 12, 0x07 := 4, 0x08 := 10, 0x09 := 10,
    0x0A := 18, 0x0B := 14, 0x0C := 14, 0x0D := 16, 0x0E := 16, 0x20 := 4, 0x21 := 1, 0x22 := 1, 0x30 := 4,
    0x31 := 8, 0x32 := 2, 0x33 := 1, 0x34 := 1, 0x35 := 1, 0x37 := 15, 0x50 := 1]

  /** What `d` is, at offset `i` of `s`, when `n` bytes must follow the opcode. */
  predicate Takes(s: seq<byte>, i: nat, d: Decoded, n: nat, short: DRError) {
    if |s| - i - 1 < n then d == Fail(short) else d.Cmd? && d.next == i + 1 + n
  }

  lemma CurvesDecode(s: seq<byte>, op: byte, i: nat)
    requires i < |s| && 0x08 <= op <= 0x0E
    ensures Takes(s, i, DecodeCurves(s, op, i + 1), OPERANDS[op], Truncated)
  {
    hide I16At;
    hide U32At;
  }

  lemma GeometryDecodes(s: seq<byte>, i: nat)
    requires i < |s| && 0 < s[i] <= 0x0E
    ensures Takes(s, i, DecodeAt(s, i), OPERANDS[s[i]], Truncated)
  {
    hide I16At;
    hide U32At;
    if 0x08 <= s[i] {
      CurvesDecode(s, s[i], i);
      hide DecodeCurves;
    }
  }

  lemma FixedDecodes(s: seq<byte>, i: nat)
    requires i < |s| && s[i] in OPERANDS
    ensures Takes(s, i, DecodeAt(s, i), OPERANDS[s[i]], Truncated)
  {
    hide I16At;
    hide U32At;
    if s[i] <= 0x0E {
      GeometryDecodes(s, i);
      hide DecodeAt;
    } else {
      hide DecodeGeometry;
      hide DecodeBitmap;
    }
  }

  /** Text is counted, and the count comes first or behind sixteen bytes. */
  lemma TextDecodes(s: seq<byte>, i: nat)
    requires i < |s| && (s[i] == 0x36 || s[i] == 0x38)
    ensures var at := if s[i] == 0x36 then i + 1 else i + 17;
            if |s| < at + 2 then DecodeAt(s, i) == Fail(Truncated)
            else Takes(s, i, DecodeAt(s, i), at + 1 - i + U16At(s, at), Truncated)
  {
    hide I16At;
    hide U32At;
    hide U16At;
    hide CStr;
  }

  /** Bytes from the opcode to a bitmap's pixels. */
  function Head(op: byte): nat {
    if op == 0x40 || op == 0x47 then 16 else if op == 0x41 then 12 else 8
  }

  /** Bytes of its pixels and mask: one-bit rows are whole bytes. */
  function PixelBytes(op: byte, w: nat, h: nat): nat {
    var mask := (w + 7) / 8 * h;
    if op == 0x40 || op == 0x41 then mask
    else if op == 0x42 then w * h
    else if op == 0x43 then w * h + mask
    else if op == 0x45 then 4 * (w * h) + mask
    else if op == 0x46 then 2 * (w * h)
    else 4 * (w * h)
  }

  lemma RowBytes(w: i16, h: i16, k: nat)
    requires w > 0 && h > 0 && 8 * k - 8 < w <= 8 * k
    ensures MonoBytes(w, h) == k * h && Area(w, h) == w as int * h as int
  {
    TimesIsProduct(k, h);
    TimesIsProduct(w, h);
  }

  lemma PixelsDecode(s: seq<byte>, op: byte, x: i16, y: i16, w: i16, h: i16, p: nat)
    requires p <= |s| && w > 0 && h > 0 && 0x42 <= op <= 0x46
    ensures var d, n := DecodePixels(s, op, x, y, w, h, p), PixelBytes(op, w, h);
            if |s| - p < n then d == Fail(BadPayload) else d.Cmd? && d.next == p + n
  {
    RowBytes(w, h, (w as int + 7) / 8);
    hide MonoBytes;
    hide Area;
  }

  lemma ExtentDecodes(s: seq<byte>, op: byte, j: nat)
    requires j <= |s| && 0x40 <= op <= 0x47 && |s| - j >= Head(op)
    ensures var at := if op == 0x47 then j + 12 else j + 4;
            var w, h, d := I16At(s, at), I16At(s, at + 2), DecodeBitmap(s, op, j);
            if w <= 0 || h <= 0 || |s| - j < Head(op) + PixelBytes(op, w, h) then d == Fail(BadPayload)
            else d.Cmd? && d.next == j + Head(op) + PixelBytes(op, w, h)
  {
    hide I16At;
    hide U32At;
    hide DecodePixels;
    var at := if op == 0x47 then j + 12 else j + 4;
    var w, h := I16At(s, at), I16At(s, at + 2);
    if w > 0 && h > 0 {
      if 0x42 <= op <= 0x46 {
        PixelsDecode(s, op, I16At(s, j), I16At(s, j + 2), w, h, j + 8);
      } else {
        RowBytes(w, h, (w as int + 7) / 8);
      }
      hide MonoBytes;
      hide Area;
    }
  }

  /** A bitmap's extent stands before its colours or pixels; an empty one, or one without all its bytes, is bad. */
  lemma BitmapDecodes(s: seq<byte>, i: nat)
    requires i < |s| && 0x40 <= s[i] <= 0x47
    ensures |s| - i - 1 < Head(s[i]) ==> DecodeAt(s, i) == Fail(Truncated)
    ensures |s| - i - 1 >= Head(s[i]) ==>
              var at := if s[i] == 0x47 then i + 13 else i + 5;
              var w, h := I16At(s, at), I16At(s, at + 2);
              if w <= 0 || h <= 0 then DecodeAt(s, i) == Fail(BadPayload)
              else Takes(s, i, DecodeAt(s, i), Head(s[i]) + PixelBytes(s[i], w, h), BadPayload)
  {
    BitmapAt(s, i);
    hide DecodeAt;
    hide I16At;
    hide PixelBytes;
    if |s| - i - 1 >= Head(s[i]) {
      ExtentDecodes(s, s[i], i + 1);
      hide DecodeBitmap;
    } else {
      hide DecodePixels;
      hide U32At;
    }
  }

  /** Zero ends the body; any other opcode is unknown. */
  lemma OthersFail(s: seq<byte>, i: nat)
    requires i <= |s|
    ensures i == |s| ==> DecodeAt(s, i) == Fail(Truncated)
    ensures i < |s| && s[i] == 0 ==> DecodeAt(s, i) == End
    ensures i < |s| && s[i] != 0 && s[i] !in OPERANDS && s[i] !in {0x36, 0x38} && !(0x40 <= s[i] <= 0x47) ==>
              DecodeAt(s, i) == Fail(UnknownOpcode)
  {
  }
}
