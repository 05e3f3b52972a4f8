/** The recorder's own text state, kept in step with the target's by re-running the base class unseen. */
module TextMirror {
  import opened Bytes
  import opened DrawCalls
  import opened Render
  import opened Blob
  import opened Replayer
  import opened Recorder

  const NEWLINE: byte := 10
  const RETURN: byte := 13

  /** What the base class keeps for text, with the surface's extent and turn, which text wrapping reads. */
  datatype Text = Text(x: i16, y: i16, color: u32, bg: u32, sx: byte, sy: byte, wrap: bool, rot: byte, font: Font,
    width: i16, height: i16, turned: byte)

  /** A font's advances, and the pixels a glyph writes. */
  datatype Metrics = Metrics(advance: (Font, byte) -> byte, line: Font -> byte,
    ink: (Text, byte) -> seq<(i16, i16, u32)>)

  function Advance(m: Metrics, f: Font, c: byte): byte {
    if f.Null? then 6 else m.advance(f, c)
  }

  function LineHeight(m: Metrics, f: Font): byte {
    if f.Null? then 8 else m.line(f)
  }

  function Least1(s: byte): byte {
    if s == 0 then 1 else s
  }

  function NextLine(t: Text, home: i16, m: Metrics): Text {
    t.(x := home, y := Cut16(t.y + t.sy * LineHeight(m, t.font)))
  }

  /** Where a character goes: wrapped to a new line when it would pass the right edge. */
  function Wrapped(t: Text, c: byte, home: i16, m: Metrics): Text {
    if t.wrap && t.x + t.sx * Advance(m, t.font, c) > t.width then NextLine(t, home, m) else t
  }

  /** One character of text; lines begin at `home`. */
  function Typed(t: Text, c: byte, home: i16, m: Metrics): Text {
    if c == NEWLINE then NextLine(t, home, m)
    else if c == RETURN then t
    else
      var w := Wrapped(t, c, home, m);
      w.(x := Cut16(w.x + w.sx * Advance(m, w.font, c)))
  }

  function Written(t: Text, text: seq<byte>, home: i16, m: Metrics): Text {
    if text == [] then t else Typed(Written(t, text[..|text| - 1], home, m), text[|text| - 1], home, m)
  }

  function SetUp(t: Text, x: i16, y: i16, color: u32, bg: u32, sx: byte, sy: byte, font: Font, rot: byte): Text {
    t.(x := x, y := y, color := color, bg := bg, sx := Least1(sx), sy := Least1(sy), font := font, rot := rot)
  }

  /** The text state after any call on a surface. */
  function After(t: Text, c: Call<Font>, m: Metrics): Text {
    if c.SetCursor? then t.(x := c.x, y := c.y)
    else if c.SetTextColor? then t.(color := c.color, bg := c.bg)
    else if c.SetTextSize? then t.(sx := Least1(c.sx), sy := Least1(c.sy))
    else if c.SetTextWrap? then t.(wrap := c.on)
    else if c.SetTextRotation? then t.(rot := c.rot)
    else if c.SetFont? then t.(font := c.font)
    else if c.WriteText? then Written(t, c.text, 0, m)
    else if c.SetText? then
      Written(SetUp(t, c.x, c.y, c.color, c.bg, c.sx, c.sy, c.font, c.rot), c.text, if c.rot == 0 then 0 else c.x, m)
    else if c.SetRotation? then Turned(t, c.rot)
    else t
  }

  function Turned(t: Text, r: byte): Text {
    if r % 2 == 1 then t.(turned := r % 4, width := t.height, height := t.width) else t.(turned := r % 4)
  }

  function AfterAll(t: Text, calls: seq<Call<Font>>, m: Metrics): Text {
    if calls == [] then t else After(AfterAll(t, calls[..|calls| - 1], m), calls[|calls| - 1], m)
  }

  lemma {:induction false} AfterAppends(t: Text, a: seq<Call<Font>>, b: seq<Call<Font>>, m: Metrics)
    ensures AfterAll(t, a + b, m) == AfterAll(AfterAll(t, a, m), b, m)
    decreases |b|
  {
    if b == [] {
      Units(a);
    } else {
      assert (a + b)[..|a + b| - 1] == a + b[..|b| - 1];
      AfterAppends(t, a, b[..|b| - 1], m);
    }
  }

  lemma WrittenNothing(t: Text, home: i16, m: Metrics)
    ensures Written(t, [], home, m) == t
  {
  }

  // ----- where text goes -----

  /** How far a character moves the cursor along the line, and how far a new line moves it down. */
  function Stride(t: Text, c: byte, m: Metrics): int {
    t.sx * if t.font.Null? then 6 else m.advance(t.font, c)
  }

  function Pitch(t: Text, m: Metrics): int {
    t.sy * if t.font.Null? then 8 else m.line(t.font)
  }

  lemma CutSum(a: int, b: int)
    ensures Cut16(Cut16(a) + b) == Cut16(a + b)
  {
    var q, r := (a + 0x8000) / 0x1_0000, (a + 0x8000) % 0x1_0000;
    assert a + 0x8000 == 0x1_0000 * q + r;
    assert Cut16(a) + b + 0x8000 == r + b;
    assert a + b + 0x8000 == 0x1_0000 * q + (r + b);
    assert (0x1_0000 * q + (r + b)) % 0x1_0000 == (r + b) % 0x1_0000;
  }

  lemma CutSame(a: i16)
    ensures Cut16(a) == a
  {
  }

  /**
   * One character of a run. A newline goes to the start of the next line, a return does nothing, and any other
   * character goes where the cursor stands, unless lines wrap and it would pass the right edge there: then it
   * goes to the start of the next line.
   */
  lemma CharacterGoes(t: Text, text: seq<byte>, k: nat, home: i16, m: Metrics)
    requires k < |text|
    ensures var c, was, now := text[k], Written(t, text[..k], home, m), Written(t, text[..k + 1], home, m);
            && (c == 10 ==> now == was.(x := home, y := Cut16(was.y + Pitch(was, m))))
            && (c == 13 ==> now == was)
            && (c != 10 && c != 13 && (!was.wrap || was.x + Stride(was, c, m) <= was.width) ==>
                  now == was.(x := Cut16(was.x + Stride(was, c, m))))
            && (c != 10 && c != 13 && was.wrap && was.x + Stride(was, c, m) > was.width ==>
                  now == was.(x := Cut16(home + Stride(was, c, m)), y := Cut16(was.y + Pitch(was, m))))
  {
    assert text[..k + 1][..k] == text[..k] && text[..k + 1][k] == text[k];
    hide Cut16;
  }

  /** How many lines a run begins: one for each newline, and one for each character that would not have fitted. */
  function Begun(t: Text, text: seq<byte>, home: i16, m: Metrics): nat {
    if text == [] then 0
    else
      var n := |text| - 1;
      var c, was := text[n], Written(t, text[..n], home, m);
      Begun(t, text[..n], home, m) +
      if c == 10 || (c != 13 && was.wrap && was.x + Stride(was, c, m) > was.width) then 1 else 0
  }

  /** A run moves the cursor and nothing else, down by one line height for each line it begins. */
  lemma {:induction false} LinesBegun(t: Text, text: seq<byte>, home: i16, m: Metrics)
    ensures var now := Written(t, text, home, m);
            now == t.(x := now.x, y := now.y) && now.y == Cut16(t.y + Begun(t, text, home, m) * Pitch(t, m))
  {
    hide Cut16;
    if text == [] {
      CutSame(t.y);
    } else {
      var n := |text| - 1;
      LinesBegun(t, text[..n], home, m);
      CharacterGoes(t, text, n, home, m);
      assert text[..n + 1] == text;
      var begun := Begun(t, text[..n], home, m);
      CutSum(t.y + begun * Pitch(t, m), Pitch(t, m));
      OneMoreLine(begun, Pitch(t, m));
    }
  }

  lemma OneMoreLine(n: nat, d: int)
    ensures (n + 1) * d == n * d + d
  {
  }

  function Newlines(text: seq<byte>): nat {
    if text == [] then 0 else Newlines(text[..|text| - 1]) + if text[|text| - 1] == 10 then 1 else 0
  }

  /** The part of a text behind its last newline. */
  function LastLine(text: seq<byte>): seq<byte> {
    if text == [] || text[|text| - 1] == 10 then [] else LastLine(text[..|text| - 1]) + [text[|text| - 1]]
  }

  /** How far the characters of one line move the cursor, returns not at all. */
  function Width(t: Text, line: seq<byte>, m: Metrics): int {
    if line == [] then 0
    else Width(t, line[..|line| - 1], m) + if line[|line| - 1] == 13 then 0 else Stride(t, line[|line| - 1], m)
  }

  lemma LastLineGrows(text: seq<byte>, t: Text, m: Metrics)
    requires text != []
    ensures var n := |text| - 1;
            var line, c := LastLine(text[..n]), text[n];
            && LastLine(text) == (if c == 10 then [] else line + [c])
            && Newlines(text) == Newlines(text[..n]) + (if c == 10 then 1 else 0)
            && Width(t, LastLine(text), m) ==
               (if c == 10 then 0 else Width(t, line, m) + if c == 13 then 0 else Stride(t, c, m))
            && (10 in text <==> c == 10 || 10 in text[..n])
  {
    var n := |text| - 1;
    var line := LastLine(text[..n]);
    assert (line + [text[n]])[..|line|] == line;
    assert text == text[..n] + [text[n]];
    hide Stride;
  }

  /** Where the cursor stands `dx` along and `n` lines down. */
  function Placed(t: Text, start: i16, dx: int, n: nat, m: Metrics): Text {
    t.(x := Cut16(start + dx), y := Cut16(t.y + n * Pitch(t, m)))
  }

  lemma PlacedOn(t: Text, start: i16, home: i16, dx: int, n: nat, d: int, m: Metrics)
    ensures var was := Placed(t, start, dx, n, m);
            && was.(x := Cut16(was.x + d)) == Placed(t, start, dx + d, n, m)
            && was.(x := home, y := Cut16(was.y + Pitch(t, m))) == Placed(t, home, 0, n + 1, m)
            && Pitch(was, m) == Pitch(t, m)
  {
    CutSum(start + dx, d);
    CutSum(t.y + n * Pitch(t, m), Pitch(t, m));
    OneMoreLine(n, Pitch(t, m));
    CutSame(home);
    hide Cut16;
  }

  /** The same for any character of a run that does not wrap. */
  lemma PlacedNext(t: Text, c: byte, start: i16, home: i16, dx: int, n: nat, now: Text, m: Metrics)
    requires var was := Placed(t, start, dx, n, m);
             && (c == 10 ==> now == was.(x := home, y := Cut16(was.y + Pitch(was, m))))
             && (c == 13 ==> now == was)
             && (c != 10 && c != 13 ==> now == was.(x := Cut16(was.x + Stride(was, c, m))))
    ensures now == if c == 10 then Placed(t, home, 0, n + 1, m)
                   else Placed(t, start, dx + if c == 13 then 0 else Stride(t, c, m), n, m)
  {
    PlacedOn(t, start, home, dx, n, Stride(t, c, m), m);
    hide Pitch;
    hide Cut16;
  }

  /** Without wrapping: as many lines down as there are newlines, and along by the characters behind the last one. */
  lemma {:induction false} UnwrappedText(t: Text, text: seq<byte>, home: i16, m: Metrics)
    requires !t.wrap
    ensures Written(t, text, home, m) ==
            Placed(t, if 10 in text then home else t.x, Width(t, LastLine(text), m), Newlines(text), m)
  {
    hide Cut16;
    if text == [] {
      CutSame(t.x);
      CutSame(t.y);
    } else {
      var n := |text| - 1;
      var c := text[n];
      var start := if 10 in text[..n] then home else t.x;
      var dx, lines := Width(t, LastLine(text[..n]), m), Newlines(text[..n]);
      UnwrappedText(t, text[..n], home, m);
      CharacterGoes(t, text, n, home, m);
      assert text[..n + 1] == text;
      LastLineGrows(text, t, m);
      hide *;
      PlacedNext(t, c, start, home, dx, lines, Written(t, text, home, m), m);
    }
  }

  /** What the calls that set text state set, and that they set nothing else. */
  lemma SettersSet(t: Text, c: Call<Font>, m: Metrics)
    ensures var now := After(t, c, m);
            && (c.SetCursor? ==> now == t.(x := c.x, y := c.y))
            && (c.SetTextColor? ==> now == t.(color := c.color, bg := c.bg))
            && (c.SetTextSize? ==>
                  now == t.(sx := if c.sx == 0 then 1 else c.sx, sy := if c.sy == 0 then 1 else c.sy))
            && (c.SetTextWrap? ==> now == t.(wrap := c.on))
            && (c.SetTextRotation? ==> now == t.(rot := c.rot))
            && (c.SetFont? ==> now == t.(font := c.font))
  {
    hide Written;
  }

  /** A turn of the surface by an odd number of quarters exchanges its extent; no other call touches extent or turn. */
  lemma TurnsSwap(t: Text, c: Call<Font>, m: Metrics)
    ensures var now := After(t, c, m);
            if c.SetRotation? && c.rot % 2 == 1 then
              now == t.(turned := c.rot % 4, width := t.height, height := t.width)
            else if c.SetRotation? then now == t.(turned := c.rot % 4)
            else now.turned == t.turned && now.width == t.width && now.height == t.height
  {
    if c.WriteText? {
      LinesBegun(t, c.text, 0, m);
    } else if c.SetText? {
      var home := if c.rot == 0 then 0 else c.x;
      LinesBegun(SetUp(t, c.x, c.y, c.color, c.bg, c.sx, c.sy, c.font, c.rot), c.text, home, m);
    }
    hide Written;
    hide Begun;
  }

  /** The all-in-one call without wrapping: from the place it names, lines going back to its column when turned. */
  lemma SetTextGoes(t: Text, c: Call<Font>, m: Metrics)
    requires c.SetText? && !t.wrap
    ensures var sy: int := if c.sy == 0 then 1 else c.sy;
            var home := if c.rot == 0 then 0 else c.x;
            var now := After(t, c, m);
            && now.color == c.color && now.bg == c.bg && now.font == c.font && now.rot == c.rot && now.sy == sy
            && now.sx == (if c.sx == 0 then 1 else c.sx)
            && now.y == Cut16(c.y + Newlines(c.text) * (sy * if c.font.Null? then 8 else m.line(c.font)))
            && now.x == Cut16((if 10 in c.text then home else c.x) + Width(now, LastLine(c.text), m))
  {
    hide Cut16;
    var up := SetUp(t, c.x, c.y, c.color, c.bg, c.sx, c.sy, c.font, c.rot);
    UnwrappedText(up, c.text, if c.rot == 0 then 0 else c.x, m);
    SameWidth(up, After(t, c, m), LastLine(c.text), m);
    hide Written;
  }

  lemma {:induction false} SameWidth(t: Text, u: Text, line: seq<byte>, m: Metrics)
    requires t.sx == u.sx && t.font == u.font
    ensures Width(t, line, m) == Width(u, line, m)
  {
    if line != [] {
      SameWidth(t, u, line[..|line| - 1], m);
    }
  }

  /** What a recorder's configuration says of its suppression. */
  twostate lemma SameSuppression(rec: DrawRecorder)
    requires rec.Cfg() == old(rec.Cfg())
    ensures rec.m_suppress == old(rec.m_suppress)
  {
  }

  // ----- the recorder -----

  /** The recording overloads: the command, then the base class for its own state, its pixels going nowhere. */
  class MirroredRecorder {
    const rec: DrawRecorder
    const m: Metrics
    var cursorX: i16
    var cursorY: i16
    var color: u32
    var bg: u32
    var sizeX: byte
    var sizeY: byte
    var wrap: bool
    var rot: byte
    var font: Font
    var turned: byte

    ghost predicate Valid()
      reads this, rec
    {
      rec.Valid() && !rec.m_suppress
    }

    function State(): Text
      reads this, rec
    {
      Text(cursorX, cursorY, color, bg, sizeX, sizeY, wrap, rot, font, rec.width, rec.height, turned)
    }

    constructor (w: i16, h: i16, m: Metrics)
      ensures Valid() && fresh(rec) && rec.cmds == [] && rec.Cfg() == RECORD_ALL && this.m == m
      ensures State() == Text(0, 0, 0xFFFF_FFFF, 0, 1, 1, true, 0, Null, Floor(w), Floor(h), 0)
    {
      this.rec := new DrawRecorder(w, h);
      this.m := m;
      cursorX, cursorY, color, bg, sizeX, sizeY := 0, 0, 0xFFFF_FFFF, 0, 1, 1;
      wrap, rot, font, turned := true, 0, Null, 0;
    }

    /** The base class drawing a glyph, its pixels reaching the recorder's own hook. */
    method DrawGlyph(c: byte)
      requires rec.Valid() && rec.m_suppress
      modifies rec
      ensures rec.Valid() && rec.cmds == old(rec.cmds) && rec.Cfg() == old(rec.Cfg())
      ensures rec.width == old(rec.width) && rec.height == old(rec.height) && rec.m_skipped == old(rec.m_skipped)
    {
      var pixels := m.ink(State(), c);
      for k := 0 to |pixels|
        invariant rec.Valid() && rec.cmds == old(rec.cmds) && rec.Cfg() == old(rec.Cfg())
        invariant rec.width == old(rec.width) && rec.height == old(rec.height) && rec.m_skipped == old(rec.m_skipped)
      {
        rec.Record(DrawPixel(pixels[k].0, pixels[k].1, pixels[k].2));
        Units(rec.cmds);
      }
    }

    /** One character by the base class. */
    method BaseType(c: byte, home: i16)
      requires rec.Valid() && rec.m_suppress
      modifies rec, `cursorX, `cursorY
      ensures rec.Valid() && rec.cmds == old(rec.cmds) && rec.Cfg() == old(rec.Cfg()) &&
              rec.m_skipped == old(rec.m_skipped)
      ensures State() == Typed(old(State()), c, home, m)
    {
      hide DrawRecorder.Valid;
      if c == NEWLINE {
        cursorX := home;
        cursorY := Cut16(cursorY + sizeY * LineHeight(m, font));
      } else if c != RETURN {
        var adv := Advance(m, font, c);
        if wrap && cursorX + sizeX * adv > rec.width {
          cursorX := home;
          cursorY := Cut16(cursorY + sizeY * LineHeight(m, font));
        }
        DrawGlyph(c);
        cursorX := Cut16(cursorX + sizeX * adv);
      }
    }

    /** The base class's text loop, with lines beginning at `home`. */
    method BaseWriteText(text: seq<byte>, home: i16)
      requires rec.Valid() && rec.m_suppress
      modifies rec, `cursorX, `cursorY
      ensures rec.Valid() && rec.cmds == old(rec.cmds) && rec.Cfg() == old(rec.Cfg()) &&
              rec.m_skipped == old(rec.m_skipped)
      ensures State() == Written(old(State()), text, home, m)
    {
      hide DrawRecorder.Valid;
      hide DrawRecorder.Cfg;
      hide Typed;
      hide State;
      for k := 0 to |text|
        invariant rec.Valid() && rec.cmds == old(rec.cmds) && rec.Cfg() == old(rec.Cfg()) &&
                  rec.m_skipped == old(rec.m_skipped)
        invariant State() == Written(old(State()), text[..k], home, m)
      {
        assert text[..k + 1][..k] == text[..k];
        SameSuppression(rec);
        BaseType(text[k], home);
      }
      assert text[..|text|] == text;
    }

    /** The same with pixel output suppressed for as long as it runs. */
    method Suppressed(text: seq<byte>, home: i16)
      requires Valid()
      modifies rec, `cursorX, `cursorY
      ensures Valid() && rec.cmds == old(rec.cmds) && rec.Cfg() == old(rec.Cfg()) && rec.m_skipped == old(rec.m_skipped)
      ensures State() == Written(old(State()), text, home, m)
    {
      hide DrawRecorder.Valid;
      hide Written;
      rec.Suppress(true);
      BaseWriteText(text, home);
      rec.Suppress(false);
    }

    /** Any call: what is recorded is what the mask lets through, and the base class's drawing adds nothing to it. */
    method Make(c: Call<Font>)
      requires Valid() && Supplied(c)
      modifies this, rec
      ensures Valid() && rec.Cfg() == old(rec.Cfg())
      ensures rec.cmds == old(rec.cmds) + Recorded(old(rec.Cfg()), c)
      ensures State() == After(old(State()), c, m)
    {
      hide DrawRecorder.Valid;
      hide DrawRecorder.Cfg;
      hide Recorded;
      hide Supplied;
      hide Written;
      rec.Record(c);
      SameSuppression(rec);
      Mirror(c);
    }

    method BaseSetText(x: i16, y: i16, k: u32, b: u32, sx: byte, sy: byte, f: Font, r: byte, text: seq<byte>)
      requires Valid()
      modifies this, rec
      ensures Valid() && rec.Cfg() == old(rec.Cfg()) && rec.cmds == old(rec.cmds)
      ensures State() == Written(SetUp(old(State()), x, y, k, b, sx, sy, f, r), text, if r == 0 then 0 else x, m)
    {
      hide DrawRecorder.Valid;
      hide DrawRecorder.Cfg;
      hide Written;
      cursorX, cursorY, color, bg := x, y, k, b;
      sizeX, sizeY, font, rot := Least1(sx), Least1(sy), f, r;
      Suppressed(text, if r == 0 then 0 else x);
    }

    method BaseSetRotation(r: byte)
      requires Valid()
      modifies this, rec
      ensures Valid() && rec.Cfg() == old(rec.Cfg()) && rec.cmds == old(rec.cmds)
      ensures State() == Turned(old(State()), r)
    {
      hide DrawRecorder.Valid;
      hide Written;
      turned := r % 4;
      if turned == 1 || turned == 3 {
        rec.SwapExtent();
      }
    }

    /** Plain setters. */
    method BaseSet(c: Call<Font>)
      requires !c.WriteText? && !c.SetText? && !c.SetRotation?
      modifies this
      ensures State() == After(old(State()), c, m)
    {
      hide Written;
      if c.SetCursor? {
        cursorX, cursorY := c.x, c.y;
      } else if c.SetTextColor? {
        color, bg := c.color, c.bg;
      } else if c.SetTextSize? {
        sizeX, sizeY := Least1(c.sx), Least1(c.sy);
      } else if c.SetTextWrap? {
        wrap := c.on;
      } else if c.SetTextRotation? {
        rot := c.rot;
      } else if c.SetFont? {
        font := c.font;
      }
    }

    /** The base class's own reaction to a call. */
    method Mirror(c: Call<Font>)
      requires Valid()
      modifies this, rec
      ensures Valid() && rec.Cfg() == old(rec.Cfg()) && rec.cmds == old(rec.cmds)
      ensures State() == After(old(State()), c, m)
    {
      hide DrawRecorder.Valid;
      hide DrawRecorder.Cfg;
      hide Written;
      hide State;
      if c.WriteText? {
        if c.text == [] {
          WrittenNothing(State(), 0, m);
        } else {
          Suppressed(c.text, 0);
        }
      } else if c.SetText? {
        BaseSetText(c.x, c.y, c.color, c.bg, c.sx, c.sy, c.font, c.rot, c.text);
      } else if c.SetRotation? {
        BaseSetRotation(c.rot);
      } else {
        BaseSet(c);
      }
    }

    method MakeAll(calls: seq<Call<Font>>)
      requires Valid() && forall k :: 0 <= k < |calls| ==> Supplied(calls[k])
      modifies this, rec
      ensures Valid() && rec.Cfg() == old(rec.Cfg())
      ensures rec.cmds == old(rec.cmds) + RecordedAll(old(rec.Cfg()), calls)
      ensures State() == AfterAll(old(State()), calls, m)
    {
      Units(rec.cmds);
      for k := 0 to |calls|
        invariant Valid() && rec.Cfg() == old(rec.Cfg())
        invariant rec.cmds == old(rec.cmds) + RecordedAll(old(rec.Cfg()), calls[..k])
        invariant State() == AfterAll(old(State()), calls[..k], m)
      {
        assert calls[..k + 1][..k] == calls[..k];
        Assoc(old(rec.cmds), RecordedAll(old(rec.Cfg()), calls[..k]), Recorded(old(rec.Cfg()), calls[k]));
        Make(calls[k]);
      }
      assert calls[..|calls|] == calls;
    }
  }

  function Floor(v: i16): i16 {
    if v > 0 then v else 0
  }

  // ----- both sides agree -----

  /** Calls that move text state. */
  predicate Steers(c: Call<Font>) {
    (TextCall(c) && !c.DrawChar?) || c.SetRotation?
  }

  /** A call that moves text state is recorded as it was made. */
  predicate Faithful(cfg: Config, c: Call<Font>, fonts: seq<Font>) {
    Steers(c) ==> Allows(cfg, c) && TextFits(c) && FontAgrees(c, cfg.ids, fonts)
  }

  lemma OneCallInStep(cfg: Config, c: Call<Font>, fonts: seq<Font>, t: Text, m: Metrics)
    requires Supplied(c) && Faithful(cfg, c, fonts)
    ensures AfterAll(t, MapAll(Recorded(cfg, c), Lookup(fonts)), m) == After(t, c, m)
  {
    var wire := MapFont(Trimmed(c), Ids(cfg.ids));
    if Reaches(cfg, c) && Allows(cfg, c) {
      RecordedIs(cfg, c);
      assert MapAll([wire], Lookup(fonts)) == [MapFont(wire, Lookup(fonts))];
      assert AfterAll(t, [MapFont(wire, Lookup(fonts))], m) == After(t, MapFont(wire, Lookup(fonts)), m);
      if Steers(c) {
        MappedBack(c, cfg.ids, fonts);
      }
    } else {
      assert MapAll(Recorded(cfg, c), Lookup(fonts)) == [];
    }
  }

  /**
   * Record any run under any mask, export it, render it on a target that starts in the same text
   * state: as long as the calls that move text state are recorded as made, the target ends with the
   * cursor, sizes, colours, wrap, font and extent the recorder itself reports.
   */
  lemma {:induction false} TextStaysInStep(cfg: Config, calls: seq<Call<Font>>, fonts: seq<Font>, t: Text, m: Metrics)
    requires forall k :: 0 <= k < |calls| ==> Supplied(calls[k]) && Faithful(cfg, calls[k], fonts)
    ensures AfterAll(t, MapAll(RecordedAll(cfg, calls), Lookup(fonts)), m) == AfterAll(t, calls, m)
  {
    if calls != [] {
      var n := |calls| - 1;
      TextStaysInStep(cfg, calls[..n], fonts, t, m);
      MapAllAppends(RecordedAll(cfg, calls[..n]), Recorded(cfg, calls[n]), Lookup(fonts));
      AfterAppends(t, MapAll(RecordedAll(cfg, calls[..n]), Lookup(fonts)),
        MapAll(Recorded(cfg, calls[n]), Lookup(fonts)), m);
      OneCallInStep(cfg, calls[n], fonts, AfterAll(t, calls[..n], m), m);
    }
  }

  lemma RenderedTextInStep(cfg: Config, calls: seq<Call<Font>>, fonts: seq<Font>, t: Text, m: Metrics, w: i16, h: i16,
                           more: seq<byte>)
    requires forall k :: 0 <= k < |calls| ==> Supplied(calls[k]) && Faithful(cfg, calls[k], fonts)
    requires |Body(RecordedAll(cfg, calls))| < TWO32
    ensures var r := Rendered(Export(w, h, RecordedAll(cfg, calls)) + more);
            AfterAll(t, MapAll(r.calls, Lookup(fonts)), m) == AfterAll(t, calls, m)
  {
    RoundTrip(w, h, RecordedAll(cfg, calls), more);
    TextStaysInStep(cfg, calls, fonts, t, m);
  }

  // ----- and when they do not -----

  /** The target's text state after what was recorded of one call. */
  function Replayed(cfg: Config, c: Call<Font>, fonts: seq<Font>, t: Text, m: Metrics): Text
    requires Supplied(c)
  {
    AfterAll(t, MapAll(Recorded(cfg, c), Lookup(fonts)), m)
  }

  lemma {:induction false} WrittenKeeps(t: Text, text: seq<byte>, home: i16, m: Metrics)
    ensures Written(t, text, home, m).color == t.color && Written(t, text, home, m).font == t.font
  {
    if text != [] {
      WrittenKeeps(t, text[..|text| - 1], home, m);
    }
  }

  /** Some text state that a call which sets it does not leave as it is. */
  lemma Moves(c: Call<Font>, m: Metrics) returns (t: Text)
    requires Steers(c) && !c.WriteText?
    ensures After(t, c, m) != t
  {
    var other: u32 := if (c.SetTextColor? || c.SetText?) && c.color == 0 then 1 else 0;
    t := Text(if c.SetCursor? && c.x == 0 then 1 else 0, 0, other, 0, 0, 0, c.SetTextWrap? && !c.on,
              if c.SetTextRotation? && c.rot == 0 then 1 else 0, if c.SetFont? && c.font.Null? then Ptr(0) else Null,
              0, 0, if c.SetRotation? && c.rot % 4 == 0 then 1 else 0);
    if c.SetText? {
      var home := if c.rot == 0 then 0 else c.x;
      WrittenKeeps(SetUp(t, c.x, c.y, c.color, c.bg, c.sx, c.sy, c.font, c.rot), c.text, home, m);
    }
    hide Written;
  }

  lemma NothingReplayed(cfg: Config, c: Call<Font>, fonts: seq<Font>, t: Text, m: Metrics)
    requires Supplied(c) && !Allows(cfg, c)
    ensures Replayed(cfg, c, fonts, t, m) == t
  {
    assert Recorded(cfg, c) == [];
    assert MapAll<byte, Font>([], Lookup(fonts)) == [];
  }

  lemma OneReplayed(cfg: Config, c: Call<Font>, fonts: seq<Font>, t: Text, m: Metrics)
    requires Supplied(c) && Reaches(cfg, c) && Allows(cfg, c)
    ensures Replayed(cfg, c, fonts, t, m) == After(t, MapFont(MapFont(Trimmed(c), Ids(cfg.ids)), Lookup(fonts)), m)
  {
    RecordedIs(cfg, c);
    var wire := MapFont(Trimmed(c), Ids(cfg.ids));
    var far := MapFont(wire, Lookup(fonts));
    hide Trimmed;
    hide MapFont;
    hide After;
    assert MapAll([wire], Lookup(fonts)) == [far];
    assert AfterAll(t, [far], m) == After(AfterAll(t, [], m), far, m);
  }

  /** A call whose font the far end knows otherwise leaves the other font there. */
  lemma FontDrifts(cfg: Config, c: Call<Font>, fonts: seq<Font>, t: Text, m: Metrics)
    requires Supplied(c) && Allows(cfg, c) && (c.SetFont? || c.SetText?) && !FontAgrees(c, cfg.ids, fonts)
    ensures Replayed(cfg, c, fonts, t, m).font != After(t, c, m).font
  {
    RecordedIs(cfg, c);
    var wire := MapFont(Trimmed(c), Ids(cfg.ids));
    var far := MapFont(wire, Lookup(fonts));
    assert far.font == FontOf(fonts, IdOf(cfg.ids, c.font));
    OneReplayed(cfg, c, fonts, t, m);
    hide Written;
    hide Recorded;
    hide IdOf;
    hide FontOf;
    if c.SetText? {
      var home := if c.rot == 0 then 0 else c.x;
      WrittenKeeps(SetUp(t, c.x, c.y, c.color, c.bg, c.sx, c.sy, c.font, c.rot), c.text, home, m);
      WrittenKeeps(SetUp(t, c.x, c.y, c.color, c.bg, c.sx, c.sy, far.font, c.rot), Trimmed(c).text, home, m);
    }
  }

  /** A setter leaves recorder and target with the same text state, whatever it was, if and only if it is recorded
      as made. */
  lemma SetterInStep(cfg: Config, c: Call<Font>, fonts: seq<Font>, m: Metrics)
    requires Supplied(c) && Steers(c) && !c.WriteText? && TextFits(c)
    ensures (forall t :: Replayed(cfg, c, fonts, t, m) == After(t, c, m)) <==> Faithful(cfg, c, fonts)
  {
    hide After;
    if Faithful(cfg, c, fonts) {
      forall t ensures Replayed(cfg, c, fonts, t, m) == After(t, c, m) {
        OneCallInStep(cfg, c, fonts, t, m);
      }
    } else if !Allows(cfg, c) {
      var t := Moves(c, m);
      NothingReplayed(cfg, c, fonts, t, m);
    } else {
      var t := Moves(c, m);
      FontDrifts(cfg, c, fonts, t, m);
    }
    hide Replayed;
  }

  /** Text left out of the recording does drift: the recorder moves its cursor, the target does not. */
  lemma MaskedTextDrifts(t: Text, x: i16, y: i16, fonts: seq<Font>, m: Metrics)
    requires x != t.x || y != t.y
    ensures var cfg, c := Config(REC_ALL ^ REC_TEXT, 0, false, []), Call<Font>.SetCursor(x, y);
            AfterAll(t, MapAll(Recorded(cfg, c), Lookup(fonts)), m) != After(t, c, m)
  {
    var cfg := Config(REC_ALL ^ REC_TEXT, 0, false, []);
    assert (REC_ALL ^ REC_TEXT) & REC_TEXT == 0;
    var c: Call<Font> := SetCursor(x, y);
    assert Recorded(cfg, c) == [];
    assert MapAll<byte, Font>([], Lookup(fonts)) == [];
  }
}
