/** What the draw-frame codec guarantees: one reading for every body, one body for every frame. */
module FrameCodec {
  import opened Bytes
  import opened Frame

  lemma FieldOf(b: seq<byte>, o: nat, width: nat, v: nat)
    requires o + width <= |b| && b[o..o + width] == Be(v, width) && v < Pow256(width)
    ensures Field(b, o, width) == v
  {
    ValueOfBe(v, width);
  }

  // ----- Every encoding is accepted -----

  lemma CursorFields(c: Cursor, s: seq<byte>, tail: seq<byte>)
    requires s == EncodeCursor(Some(c)) + tail
    ensures |s| >= 7 && s[0] == 1 && s[1..3] == Be(c.x, 2) && s[3..5] == Be(c.y, 2) && s[5..6] == Be(c.shape, 1)
    ensures s[6] == (if c.visible then 1 else 0) && s[7..] == tail
  {
  }

  lemma CursorComplete(b: seq<byte>, h: Header, tail: seq<byte>)
    requires GoodHeader(h) && |b| >= 26 && b[26..] == EncodeCursor(h.cursor) + tail
    ensures CursorAt(b, 26, h.columns, h.rows) && CursorOf(b, 26) == h.cursor
    ensures CursorEnd(b, 26) == 26 + |EncodeCursor(h.cursor)| && b[CursorEnd(b, 26)..] == tail
  {
    Widths();
    assert b[26] == b[26..][0];
    if h.cursor.Some? {
      var c := h.cursor.value;
      var s, n := b[26..], |b| - 26;
      assert s == b[26..26 + n] && s == EncodeCursor(h.cursor) + tail;
      CursorFields(c, s, tail);
      Within(b, 26, n, 1, 3);
      Within(b, 26, n, 3, 5);
      Within(b, 26, n, 5, 6);
      assert b[32] == s[6];
      FieldOf(b, 27, 2, c.x);
      FieldOf(b, 29, 2, c.y);
      FieldOf(b, 31, 1, c.shape);
      Within(b, 26, n, 7, n);
      assert b[33..] == s[7..] == tail;
    } else {
      assert b[27..] == b[26..][1..] == tail;
    }
  }

  lemma Middle(a: seq<byte>, m: seq<byte>, c: seq<byte>)
    ensures (a + m + c)[|a|..|a| + |m|] == m
  {
  }

  /** Where each field of the fixed part lies. */
  lemma FixedFields(h: Header)
    ensures var s := EncodeFixed(h);
      && |s| == 26 && s[0] == 1 && s[1] == 3 && s[22] == (if h.wide then 1 else 0)
      && s[2..10] == Be(h.sequence, 8) && s[10..18] == Be(h.revision, 8)
      && s[18..20] == Be(h.columns, 2) && s[20..22] == Be(h.rows, 2)
      && s[23..24] == Be(h.colorMode, 1) && s[24..26] == Be(h.paletteCount, 2)
  {
    hide Be;
    var p: seq<byte> := [1, 3];
    var q := p + Be(h.sequence, 8);
    var r := q + Be(h.revision, 8);
    var t := r + Be(h.columns, 2);
    var u := t + Be(h.rows, 2);
    var v := u + [if h.wide then 1 else 0];
    var w := v + Be(h.colorMode, 1);
    var s := EncodeFixed(h);
    assert s == w + Be(h.paletteCount, 2);
    assert s == v + Be(h.colorMode, 1) + s[24..];
    assert s == t + Be(h.rows, 2) + s[22..] && s == r + Be(h.columns, 2) + s[20..];
    assert s == q + Be(h.revision, 8) + s[18..] && s == p + Be(h.sequence, 8) + s[10..];
    Middle(p, Be(h.sequence, 8), s[10..]);
    Middle(q, Be(h.revision, 8), s[18..]);
    Middle(r, Be(h.columns, 2), s[20..]);
    Middle(t, Be(h.rows, 2), s[22..]);
    Middle(v, Be(h.colorMode, 1), s[24..]);
  }

  lemma FixedComplete(b: seq<byte>, h: Header)
    requires GoodHeader(h) && |b| >= 26 && b[..26] == EncodeFixed(h)
    ensures FixedAt(b) && FixedIs(h, b)
  {
    Widths();
    FixedFields(h);
    hide EncodeFixed, Be;
    assert b[0..0 + 26] == EncodeFixed(h);
    Within(b, 0, 26, 2, 10);
    Within(b, 0, 26, 10, 18);
    Within(b, 0, 26, 18, 20);
    Within(b, 0, 26, 20, 22);
    Within(b, 0, 26, 23, 24);
    Within(b, 0, 26, 24, 26);
    assert b[0] == b[..26][0] && b[1] == b[..26][1] && b[22] == b[..26][22];
    FieldOf(b, 2, 8, h.sequence);
    FieldOf(b, 10, 8, h.revision);
    FieldOf(b, 18, 2, h.columns);
    FieldOf(b, 20, 2, h.rows);
    FieldOf(b, 23, 1, h.colorMode);
    FieldOf(b, 24, 2, h.paletteCount);
  }

  lemma HeaderParts(b: seq<byte>, h: Header, tail: seq<byte>)
    requires b == EncodeHeader(h) + tail
    ensures |b| >= 26 && b[..26] == EncodeFixed(h) && b[26..] == EncodeCursor(h.cursor) + (Be(h.count, 4) + tail)
    ensures |EncodeHeader(h)| == 26 + |EncodeCursor(h.cursor)| + 4
  {
    hide EncodeCursor;
    FixedLength(h);
    hide EncodeFixed;
    var rest := EncodeCursor(h.cursor) + Be(h.count, 4);
    assert b == EncodeFixed(h) + (rest + tail);
    assert b[26..] == rest + tail;
  }

  lemma FixedLength(h: Header)
    ensures |EncodeFixed(h)| == 26
  {
  }

  /** The parts of the header make it. */
  lemma HeaderWhole(b: seq<byte>, h: Header)
    requires FixedAt(b) && FixedIs(h, b) && CursorAt(b, 26, h.columns, h.rows) && CursorOf(b, 26) == h.cursor
    requires CursorEnd(b, 26) + 4 <= |b| && Field(b, CursorEnd(b, 26), 4) == h.count
    requires 1 <= h.count <= h.columns * h.rows
    ensures HeaderAt(b) && HeaderOf(b) == h
  {
    hide CursorAt, CursorOf, CursorEnd, Field;
  }

  lemma CountComplete(b: seq<byte>, o: nat, h: Header, tail: seq<byte>)
    requires GoodHeader(h) && o <= |b| && b[o..] == Be(h.count, 4) + tail
    ensures o + 4 <= |b| && Field(b, o, 4) == h.count
  {
    Widths();
    assert b[o..o + 4] == b[o..][..4] == Be(h.count, 4);
    CountBound(h);
    FieldOf(b, o, 4, h.count);
  }

  lemma CountBound(h: Header)
    requires GoodHeader(h)
    ensures 1 <= h.count <= h.columns * h.rows && h.count < 0x1_0000_0000
  {
    CellBound(h.columns, h.rows);
  }

  lemma CellBound(columns: nat, rows: nat)
    requires columns <= 500 && rows <= 200
    ensures columns * rows <= 100_000
  {
    assert (500 - columns) * rows >= 0;
  }

  lemma HeaderComplete(b: seq<byte>, h: Header, tail: seq<byte>)
    requires GoodHeader(h) && b == EncodeHeader(h) + tail
    ensures HeaderAt(b) && HeaderOf(b) == h && CursorEnd(b, 26) + 4 == |EncodeHeader(h)|
  {
    hide GoodHeader, EncodeFixed, EncodeCursor, EncodeHeader, FixedAt, FixedIs, CursorAt, CursorOf, Field, Be;
    hide HeaderAt, HeaderOf, CursorEnd;
    HeaderParts(b, h, tail);
    FixedComplete(b, h);
    CursorComplete(b, h, Be(h.count, 4) + tail);
    CountComplete(b, CursorEnd(b, 26), h, tail);
    CountBound(h);
    HeaderWhole(b, h);
  }

  lemma ColorComplete(b: seq<byte>, o: nat, c: Color, mode: nat)
    requires ColorIn(c, mode) && o + |EncodeColor(c)| <= |b| && b[o..o + |EncodeColor(c)|] == EncodeColor(c)
    ensures ColorAt(b, o, mode) && ColorEnd(b, o, mode) == o + |EncodeColor(c)|
  {
    var s := b[o..o + |EncodeColor(c)|];
    assert b[o] == s[0];
    if c.Ansi? {
      assert b[o + 1] == s[1];
    }
  }

  lemma EntryParts(e: PaletteEntry)
    ensures var n, m := |EncodeColor(e.foreground)|, |EncodeColor(e.foreground)| + |EncodeColor(e.background)|;
            && |EncodeEntry(e)| == m + 1 && EncodeEntry(e)[0..n] == EncodeColor(e.foreground)
            && EncodeEntry(e)[n..m] == EncodeColor(e.background) && EncodeEntry(e)[m] == e.modifiers
  {
  }

  /** Its two colors and its attributes, where the bytes have them. */
  lemma EntrySlices(b: seq<byte>, o: nat, e: PaletteEntry)
    requires o + |EncodeEntry(e)| <= |b| && b[o..o + |EncodeEntry(e)|] == EncodeEntry(e)
    ensures var n, m := |EncodeColor(e.foreground)|, |EncodeColor(e.foreground)| + |EncodeColor(e.background)|;
      && |EncodeEntry(e)| == m + 1 && b[o..o + n] == EncodeColor(e.foreground)
      && b[o + n..o + m] == EncodeColor(e.background) && b[o + m] == e.modifiers
  {
    EntryParts(e);
    hide EncodeEntry, EncodeColor;
    var s := b[o..o + |EncodeEntry(e)|];
    var n := |EncodeColor(e.foreground)|;
    var m := n + |EncodeColor(e.background)|;
    Within(b, o, |s|, 0, n);
    Within(b, o, |s|, n, m);
    assert b[o + m] == s[m];
  }

  lemma EntryComplete(b: seq<byte>, o: nat, e: PaletteEntry, mode: nat)
    requires GoodEntry(e, mode) && o + |EncodeEntry(e)| <= |b| && b[o..o + |EncodeEntry(e)|] == EncodeEntry(e)
    ensures EntryAt(b, o, mode) && EntryEnd(b, o, mode) == o + |EncodeEntry(e)|
  {
    hide EncodeEntry, EncodeColor, ColorAt, ColorEnd, ColorIn;
    EntrySlices(b, o, e);
    ColorComplete(b, o, e.foreground, mode);
    ColorComplete(b, o + |EncodeColor(e.foreground)|, e.background, mode);
  }

  lemma GlyphParts(g: Glyph)
    ensures |EncodeGlyph(g)| == 8 + |g.text|
    ensures EncodeGlyph(g)[0..2] == Be(g.width, 2) && EncodeGlyph(g)[2..4] == Be(g.palette, 2)
    ensures EncodeGlyph(g)[4..8] == Be(|g.text|, 4) && EncodeGlyph(g)[8..|EncodeGlyph(g)|] == g.text
  {
  }

  lemma GlyphComplete(b: seq<byte>, o: nat, g: Glyph, position: nat, h: Header)
    requires h.columns > 0 && GoodHeader(h) && GoodGlyph(g, position, h)
    requires o + |EncodeGlyph(g)| <= |b| && b[o..o + |EncodeGlyph(g)|] == EncodeGlyph(g)
    ensures GlyphAt(b, o, position, h) && GlyphEnd(b, o) == o + |EncodeGlyph(g)| && Field(b, o, 2) == g.width
  {
    Widths();
    var s := b[o..o + |EncodeGlyph(g)|];
    var n := |s|;
    Within(b, o, n, 0, 2);
    Within(b, o, n, 2, 4);
    Within(b, o, n, 4, 8);
    Within(b, o, n, 8, n);
    GlyphParts(g);
    FieldOf(b, o, 2, g.width);
    FieldOf(b, o + 2, 2, g.palette);
    FieldOf(b, o + 4, 4, |g.text|);
  }

  lemma NextGlyph(b: seq<byte>, o: nat, gs: seq<Glyph>, i: nat, h: Header)
    requires GoodHeader(h) && GoodGlyphs(gs, h) && i < |gs|
    requires o <= |b| && b[o..] == EncodeGlyphs(gs[i..])
    ensures o + 8 <= |b| && GlyphAt(b, o, Position(gs, i), h) && GlyphEnd(b, o) <= |b|
    ensures Position(gs, i) + Field(b, o, 2) == Position(gs, i + 1)
    ensures b[GlyphEnd(b, o)..] == EncodeGlyphs(gs[i + 1..])
  {
    hide GoodGlyph, Fits, EncodeGlyph, GlyphEnd, Field;
    assert gs[i..][1..] == gs[i + 1..];
    Peel(b, o, EncodeGlyph(gs[i]), EncodeGlyphs(gs[i + 1..]));
    assert GoodGlyph(gs[i], Position(gs, i), h);
    GlyphComplete(b, o, gs[i], Position(gs, i), h);
  }

  lemma {:induction false} GlyphsComplete(b: seq<byte>, o: nat, gs: seq<Glyph>, i: nat, h: Header)
    requires GoodHeader(h) && GoodGlyphs(gs, h) && i <= |gs| && Position(gs, |gs|) == h.columns * h.rows
    requires o <= |b| && b[o..] == EncodeGlyphs(gs[i..])
    ensures GlyphsAt(b, o, |gs| - i, Position(gs, i), h)
    decreases |gs| - i
  {
    hide GoodGlyphs, GlyphAt, EncodeGlyph, GlyphEnd, Field, GoodHeader;
    if i == |gs| {
    } else {
      NextGlyph(b, o, gs, i, h);
      GlyphsComplete(b, GlyphEnd(b, o), gs, i + 1, h);
    }
  }

  lemma {:induction false} EntriesComplete(b: seq<byte>, o: nat, es: seq<PaletteEntry>, mode: nat, tail: seq<byte>)
    requires GoodPalette(es, mode) && o <= |b| && b[o..] == EncodePalette(es) + tail
    ensures EntriesAt(b, o, |es|, mode) && EntriesEnd(b, o, |es|, mode) == o + |EncodePalette(es)|
    decreases |es|
  {
    hide EncodeEntry, EntryAt;
    if es == [] {
    } else {
      var e := EncodeEntry(es[0]);
      assert EncodePalette(es) + tail == e + (EncodePalette(es[1..]) + tail);
      Peel(b, o, e, EncodePalette(es[1..]) + tail);
      EntryComplete(b, o, es[0], mode);
      EntriesComplete(b, o + |e|, es[1..], mode, tail);
    }
  }

  /** The encoding of a well-formed frame is accepted. */
  lemma EncodingAccepted(f: DrawFrame)
    requires WellFormed(f)
    ensures Accepted(Encode(f))
  {
    hide GoodGlyphs, GlyphsAt, EncodeGlyphs, EncodePalette, GoodPalette, HeaderAt, EncodeHeader, HeaderOf;
    hide EntriesAt, EntriesEnd;
    var b, h := Encode(f), f.header;
    var head, palette := EncodeHeader(h), EncodePalette(f.palette);
    var tail := palette + EncodeGlyphs(f.glyphs);
    assert b == head + tail;
    HeaderComplete(b, h, tail);
    Peel(b, |head|, palette, EncodeGlyphs(f.glyphs));
    assert f.glyphs[0..] == f.glyphs;
    GlyphsComplete(b, |head| + |palette|, f.glyphs, 0, h);
    EntriesComplete(b, |head|, f.palette, h.colorMode, EncodeGlyphs(f.glyphs));
  }

  // ----- No body has two readings -----

  lemma ColorUnique(c: Color, d: Color, s: seq<byte>, t: seq<byte>)
    requires EncodeColor(c) + s == EncodeColor(d) + t
    ensures c == d && s == t
  {
    var x, y := EncodeColor(c) + s, EncodeColor(d) + t;
    assert x[0] == y[0];
    var n := |EncodeColor(c)|;
    assert x[..n] == y[..n] && x[n..] == s && y[n..] == t;
    assert EncodeColor(c) == x[..n] == y[..n] == EncodeColor(d);
    assert forall i | 0 <= i < n :: EncodeColor(c)[i] == EncodeColor(d)[i];
  }

  lemma EntryUnique(e: PaletteEntry, f: PaletteEntry, s: seq<byte>, t: seq<byte>)
    requires EncodeEntry(e) + s == EncodeEntry(f) + t
    ensures e == f && s == t
  {
    var s1, t1 := [e.modifiers] + s, [f.modifiers] + t;
    assert EncodeEntry(e) + s == EncodeColor(e.foreground) + (EncodeColor(e.background) + s1);
    assert EncodeEntry(f) + t == EncodeColor(f.foreground) + (EncodeColor(f.background) + t1);
    ColorUnique(e.foreground, f.foreground, EncodeColor(e.background) + s1, EncodeColor(f.background) + t1);
    ColorUnique(e.background, f.background, s1, t1);
    assert s1[0] == t1[0] && s == s1[1..] && t == t1[1..];
  }

  lemma {:induction false} PaletteUnique(es: seq<PaletteEntry>, fs: seq<PaletteEntry>, s: seq<byte>, t: seq<byte>)
    requires |es| == |fs| && EncodePalette(es) + s == EncodePalette(fs) + t
    ensures es == fs && s == t
  {
    hide EncodeEntry;
    if es != [] {
      var s1, t1 := EncodePalette(es[1..]) + s, EncodePalette(fs[1..]) + t;
      assert EncodePalette(es) + s == EncodeEntry(es[0]) + s1;
      assert EncodePalette(fs) + t == EncodeEntry(fs[0]) + t1;
      EntryUnique(es[0], fs[0], s1, t1);
      PaletteUnique(es[1..], fs[1..], s, t);
      assert es == [es[0]] + es[1..] && fs == [fs[0]] + fs[1..];
    } else {
      assert [] + s == s && [] + t == t;
    }
  }

  /** The wire part of a glyph: its place is implied by the glyphs before it. */
  predicate GlyphWire(g: Glyph) {
    g.width < 0x1_0000 && g.palette < 0x1_0000 && |g.text| < 0x1_0000_0000
  }

  lemma GlyphUnique(g: Glyph, k: Glyph, s: seq<byte>, t: seq<byte>)
    requires GlyphWire(g) && GlyphWire(k) && EncodeGlyph(g) + s == EncodeGlyph(k) + t
    ensures g.width == k.width && g.palette == k.palette && g.text == k.text && s == t
  {
    Widths();
    var s1, t1 := Be(|g.text|, 4) + (g.text + s), Be(|k.text|, 4) + (k.text + t);
    assert EncodeGlyph(g) + s == Be(g.width, 2) + (Be(g.palette, 2) + s1);
    assert EncodeGlyph(k) + t == Be(k.width, 2) + (Be(k.palette, 2) + t1);
    FieldUnique(g.width, k.width, 2, Be(g.palette, 2) + s1, Be(k.palette, 2) + t1);
    FieldUnique(g.palette, k.palette, 2, s1, t1);
    FieldUnique(|g.text|, |k.text|, 4, g.text + s, k.text + t);
    assert g.text == (g.text + s)[..|g.text|] == (k.text + t)[..|k.text|] == k.text;
    assert s == (g.text + s)[|g.text|..] == (k.text + t)[|k.text|..] == t;
  }

  lemma {:induction false} GlyphsUnique(gs: seq<Glyph>, ks: seq<Glyph>, s: seq<byte>, t: seq<byte>)
    requires |gs| == |ks| && EncodeGlyphs(gs) + s == EncodeGlyphs(ks) + t
    requires forall i :: 0 <= i < |gs| ==> GlyphWire(gs[i]) && GlyphWire(ks[i])
    ensures forall i :: 0 <= i < |gs| ==>
      gs[i].width == ks[i].width && gs[i].palette == ks[i].palette && gs[i].text == ks[i].text
    ensures s == t
  {
    hide EncodeGlyph;
    if gs != [] {
      var s1, t1 := EncodeGlyphs(gs[1..]) + s, EncodeGlyphs(ks[1..]) + t;
      assert EncodeGlyphs(gs) + s == EncodeGlyph(gs[0]) + s1;
      assert EncodeGlyphs(ks) + t == EncodeGlyph(ks[0]) + t1;
      GlyphUnique(gs[0], ks[0], s1, t1);
      GlyphsUnique(gs[1..], ks[1..], s, t);
      forall i | 0 < i < |gs|
        ensures gs[i].width == ks[i].width && gs[i].palette == ks[i].palette && gs[i].text == ks[i].text
      {
        assert gs[i] == gs[1..][i - 1] && ks[i] == ks[1..][i - 1];
      }
    } else {
      assert [] + s == s && [] + t == t;
    }
  }

  lemma {:induction false} SamePositions(gs: seq<Glyph>, ks: seq<Glyph>, i: nat)
    requires |gs| == |ks| && i <= |gs|
    requires forall j :: 0 <= j < |gs| ==> gs[j].width == ks[j].width
    ensures Position(gs, i) == Position(ks, i)
  {
    if i == 0 {
    } else {
      SamePositions(gs, ks, i - 1);
    }
  }

  lemma SameGlyphs(gs: seq<Glyph>, ks: seq<Glyph>, h: Header, s: seq<byte>, t: seq<byte>)
    requires GoodHeader(h) && |gs| == |ks| && GoodGlyphs(gs, h) && GoodGlyphs(ks, h)
    requires EncodeGlyphs(gs) + s == EncodeGlyphs(ks) + t
    ensures gs == ks && s == t
  {
    hide GoodGlyphs, EncodeGlyphs;
    GoodWires(gs, h);
    GoodWires(ks, h);
    GlyphsUnique(gs, ks, s, t);
    forall i | 0 <= i < |gs| ensures gs[i] == ks[i] {
      SamePositions(gs, ks, i);
      GlyphPlace(gs, i, h);
      GlyphPlace(ks, i, h);
    }
  }

  /** No accepted body is a proper prefix or a proper extension of another, and none encodes two frames. */
  lemma PrefixFree(f: DrawFrame, g: DrawFrame, t: seq<byte>)
    requires WellFormed(f) && WellFormed(g) && Encode(f) + t == Encode(g)
    ensures f == g && t == []
  {
    hide GoodHeader, GoodGlyphs, HeaderAt, HeaderOf, EncodeHeader, EncodePalette, EncodeGlyphs;
    var s1 := EncodePalette(f.palette) + (EncodeGlyphs(f.glyphs) + t);
    var t1 := EncodePalette(g.palette) + EncodeGlyphs(g.glyphs);
    var b := Encode(g);
    assert b == EncodeHeader(f.header) + s1;
    assert b == EncodeHeader(g.header) + t1;
    HeaderComplete(b, f.header, s1);
    HeaderComplete(b, g.header, t1);
    assert s1 == b[|EncodeHeader(f.header)|..] == t1;
    SameTables(f, g, t);
  }

  lemma SameTables(f: DrawFrame, g: DrawFrame, t: seq<byte>)
    requires WellFormed(f) && WellFormed(g) && f.header == g.header
    requires EncodePalette(f.palette) + (EncodeGlyphs(f.glyphs) + t)
          == EncodePalette(g.palette) + EncodeGlyphs(g.glyphs)
    ensures f == g && t == []
  {
    hide GoodHeader, GoodGlyphs, EncodePalette, EncodeGlyphs, Encode;
    PaletteUnique(f.palette, g.palette, EncodeGlyphs(f.glyphs) + t, EncodeGlyphs(g.glyphs));
    assert EncodeGlyphs(g.glyphs) + [] == EncodeGlyphs(g.glyphs);
    SameGlyphs(f.glyphs, g.glyphs, f.header, t, []);
  }

  lemma GoodWires(gs: seq<Glyph>, h: Header)
    requires GoodHeader(h) && GoodGlyphs(gs, h)
    ensures forall i :: 0 <= i < |gs| ==> GlyphWire(gs[i])
  {
    hide Inert;
    forall i | 0 <= i < |gs| ensures GlyphWire(gs[i]) {
      assert GoodGlyph(gs[i], Position(gs, i), h);
    }
  }

  // ----- The glyphs tile the grid -----

  /** Glyph `i` covers cell (x, y). */
  predicate Covers(g: Glyph, x: nat, y: nat) {
    g.y == y && g.x <= x < g.x + g.width
  }

  lemma {:induction false} PositionsGrow(gs: seq<Glyph>, i: nat, j: nat)
    requires i <= j <= |gs|
    ensures Position(gs, i) <= Position(gs, j)
  {
    if i == j {
    } else {
      PositionsGrow(gs, i, j - 1);
    }
  }

  lemma {:induction false} Locate(gs: seq<Glyph>, n: nat, p: nat) returns (i: nat)
    requires n <= |gs| && p < Position(gs, n)
    ensures i < n && Position(gs, i) <= p < Position(gs, i + 1)
  {
    if p >= Position(gs, n - 1) {
      i := n - 1;
    } else {
      i := Locate(gs, n - 1, p);
    }
  }

  lemma CellIndex(p: nat, q: nat, columns: nat, x: nat, y: nat, width: nat)
    requires columns > 0 && x < columns && q == y * columns + x && p % columns + width <= columns
    ensures p <= q < p + width <==> p / columns == y && p % columns <= x < p % columns + width
  {
    var a, b := p / columns, p % columns;
    assert p == a * columns + b;
    if a < y {
      assert (a + 1) * columns <= y * columns;
    } else if a > y {
      assert (y + 1) * columns <= a * columns;
    }
  }

  lemma GlyphPlace(gs: seq<Glyph>, i: nat, h: Header)
    requires GoodHeader(h) && GoodGlyphs(gs, h) && i < |gs|
    ensures gs[i].x == Position(gs, i) % h.columns && gs[i].y == Position(gs, i) / h.columns
    ensures gs[i].x + gs[i].width <= h.columns
  {
    hide Inert;
    assert GoodGlyph(gs[i], Position(gs, i), h);
  }

  lemma GlyphCells(gs: seq<Glyph>, i: nat, h: Header, x: nat, y: nat)
    requires GoodHeader(h) && GoodGlyphs(gs, h) && i < |gs| && x < h.columns
    ensures Covers(gs[i], x, y) <==> Position(gs, i) <= y * h.columns + x < Position(gs, i + 1)
  {
    hide GoodGlyphs;
    GlyphPlace(gs, i, h);
    CellIndex(Position(gs, i), y * h.columns + x, h.columns, x, y, gs[i].width);
  }

  /** Each cell of the grid lies in exactly one glyph, on one row. */
  lemma Tiling(f: DrawFrame, x: nat, y: nat) returns (i: nat)
    requires WellFormed(f) && x < f.header.columns && y < f.header.rows
    ensures i < |f.glyphs| && Covers(f.glyphs[i], x, y)
    ensures forall j :: 0 <= j < |f.glyphs| && Covers(f.glyphs[j], x, y) ==> j == i
  {
    hide GoodGlyphs, GoodPalette, Encode, Covers, Position;
    var gs, h := f.glyphs, f.header;
    InGrid(h.columns, h.rows, x, y);
    var p := y * h.columns + x;
    i := Locate(gs, |gs|, p);
    GlyphCells(gs, i, h, x, y);
    forall j | 0 <= j < |gs| && Covers(gs[j], x, y) ensures j == i {
      GlyphCells(gs, j, h, x, y);
      OnePlace(gs, i, j, p);
    }
  }

  lemma InGrid(columns: nat, rows: nat, x: nat, y: nat)
    requires x < columns && y < rows
    ensures y * columns + x < columns * rows
  {
    assert (y + 1) * columns <= rows * columns;
  }

  /** A cell lies between the positions of one glyph and the next only. */
  lemma OnePlace(gs: seq<Glyph>, i: nat, j: nat, p: nat)
    requires i < |gs| && j < |gs|
    requires Position(gs, i) <= p < Position(gs, i + 1) && Position(gs, j) <= p < Position(gs, j + 1)
    ensures i == j
  {
    hide Position;
    if j < i {
      PositionsGrow(gs, j + 1, i);
    } else if i < j {
      PositionsGrow(gs, i + 1, j);
    }
  }

  // ----- The decoder -----

  /** The whole body, front to back; accepts exactly the encodings of well-formed frames,
      and gives each its frame back. */
  method Decode(bytes: seq<byte>) returns (r: Result<DrawFrame, FrameError>)
    ensures |bytes| > MAX_FRAME_BYTES ==> r == Err(Capacity)
    ensures r.Ok? ==> WellFormed(r.value) && Encode(r.value) == bytes
    ensures forall f :: WellFormed(f) && Encode(f) == bytes ==> r == Ok(f)
    ensures |bytes| <= MAX_FRAME_BYTES && r.Err? ==> r.error == Invalid
  {
    hide GoodHeader, GoodPalette, GoodGlyphs, HeaderAt, HeaderOf, EntriesAt, EntriesEnd, GlyphsAt;
    hide EncodeHeader, EncodePalette, EncodeGlyphs;
    if |bytes| > MAX_FRAME_BYTES {
      return Err(Capacity);
    }
    forall f | WellFormed(f) && Encode(f) == bytes ensures Accepted(bytes) {
      EncodingAccepted(f);
    }
    var reader := new Reader(bytes);
    var header :- reader.ReadHeader();
    ghost var start := reader.offset;
    if reader.Remaining() < header.count * 9 + header.paletteCount * 3 {
      if Accepted(bytes) {
        TablesSize(bytes, start, header.paletteCount, header);
      }
      return Err(Invalid);
    }
    var palette :- reader.ReadPalette(header);
    ghost var middle := reader.offset;
    var glyphs :- reader.ReadGlyphs(header);
    var frame := DrawFrame(header, palette, glyphs);
    Join(bytes, 0, start, middle);
    Join(bytes, 0, middle, |bytes|);
    forall f | WellFormed(f) && Encode(f) == bytes ensures f == frame {
      assert Encode(f) + [] == Encode(frame);
      PrefixFree(f, frame, []);
    }
    return Ok(frame);
  }
}
