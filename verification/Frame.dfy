/** The declared-width draw frame: its wire layout, what a well-formed frame is, and the bounded decoder. */
module Frame {
  import opened Bytes
  import Utf8

  const MAX_FRAME_BYTES: nat := 33_554_432
  const MAX_TEXT_BYTES: nat := 262_144

  datatype FrameError = Invalid | Capacity

  datatype Color = Default | Ansi(index: byte) | Indexed(index: byte) | Rgb(r: byte, g: byte, b: byte)

  datatype PaletteEntry = PaletteEntry(foreground: Color, background: Color, modifiers: byte)

  datatype Cursor = Cursor(x: nat, y: nat, shape: nat, visible: bool)

  datatype Glyph = Glyph(x: nat, y: nat, width: nat, palette: nat, text: seq<byte>)

  /** Everything before the two tables. */
  datatype Header = Header(sequence: nat, revision: nat, columns: nat, rows: nat, wide: bool,
                           colorMode: nat, paletteCount: nat, cursor: Option<Cursor>, count: nat)

  datatype DrawFrame = DrawFrame(header: Header, palette: seq<PaletteEntry>, glyphs: seq<Glyph>)

  // ----- The wire layout -----

  function EncodeColor(c: Color): (s: seq<byte>)
  {
    match c
    case Default => [0]
    case Ansi(i) => [1, i]
    case Indexed(i) => [2, i]
    case Rgb(r, g, b) => [3, r, g, b]
  }

  function EncodeEntry(e: PaletteEntry): seq<byte> {
    EncodeColor(e.foreground) + EncodeColor(e.background) + [e.modifiers]
  }

  function EncodePalette(es: seq<PaletteEntry>): seq<byte> {
    if es == [] then [] else EncodeEntry(es[0]) + EncodePalette(es[1..])
  }

  function EncodeCursor(c: Option<Cursor>): seq<byte> {
    match c
    case None => [0]
    case Some(c) => [1] + Be(c.x, 2) + Be(c.y, 2) + Be(c.shape, 1) + [if c.visible then 1 else 0]
  }

  function EncodeHeader(h: Header): seq<byte> {
    EncodeFixed(h) + (EncodeCursor(h.cursor) + Be(h.count, 4))
  }

  function EncodeGlyph(g: Glyph): seq<byte> {
    Be(g.width, 2) + Be(g.palette, 2) + Be(|g.text|, 4) + g.text
  }

  function EncodeGlyphs(gs: seq<Glyph>): seq<byte> {
    if gs == [] then [] else EncodeGlyph(gs[0]) + EncodeGlyphs(gs[1..])
  }

  function Encode(f: DrawFrame): seq<byte> {
    EncodeHeader(f.header) + EncodePalette(f.palette) + EncodeGlyphs(f.glyphs)
  }

  // ----- Well-formed frames -----

  predicate ColorIn(c: Color, mode: nat) {
    match c
    case Default => true
    case Ansi(i) => mode >= 1 && i < 16
    case Indexed(_) => mode >= 2
    case Rgb(_, _, _) => mode == 3
  }

  predicate GoodEntry(e: PaletteEntry, mode: nat) {
    ColorIn(e.foreground, mode) && ColorIn(e.background, mode) && e.modifiers < 32
  }

  predicate GoodPalette(es: seq<PaletteEntry>, mode: nat) {
    forall i :: 0 <= i < |es| ==> GoodEntry(es[i], mode)
  }

  predicate GoodHeader(h: Header) {
    && h.sequence < Pow256(8) && h.revision < Pow256(8)
    && 1 <= h.columns <= 500 && 1 <= h.rows <= 200
    && h.colorMode <= 3 && 1 <= h.paletteCount <= 4096
    && (h.cursor.Some? ==> h.cursor.value.x < h.columns && h.cursor.value.y < h.rows && h.cursor.value.shape <= 2)
    && 1 <= h.count <= h.columns * h.rows
  }

  /** Valid UTF-8 with no control character and no bidirectional override. */
  predicate Inert(text: seq<byte>) {
    && Utf8.Valid(text)
    && forall v :: v in Utf8.Scalars(text) ==> !Utf8.IsControl(v) && !Utf8.IsBidi(v)
  }

  /** The first cell of glyph `i`: the widths before it. */
  function Position(gs: seq<Glyph>, i: nat): (p: nat)
    requires i <= |gs|
  {
    if i == 0 then 0 else Position(gs, i - 1) + gs[i - 1].width
  }

  predicate Fits(width: nat, palette: nat, length: nat, position: nat, h: Header)
    requires h.columns > 0
  {
    && 1 <= width <= 500 && position % h.columns + width <= h.columns && position / h.columns < h.rows
    && palette < h.paletteCount && 1 <= length <= MAX_TEXT_BYTES
  }

  predicate GoodGlyph(g: Glyph, position: nat, h: Header)
    requires h.columns > 0
  {
    && Fits(g.width, g.palette, |g.text|, position, h) && Inert(g.text)
    && g.x == position % h.columns && g.y == position / h.columns
  }

  predicate GoodGlyphs(gs: seq<Glyph>, h: Header)
    requires h.columns > 0
  {
    forall i :: 0 <= i < |gs| ==> GoodGlyph(gs[i], Position(gs, i), h)
  }

  /** A frame the wire format admits: bounded fields, an admissible palette, glyphs laid end to end over the grid. */
  predicate WellFormed(f: DrawFrame) {
    && GoodHeader(f.header)
    && |f.palette| == f.header.paletteCount && GoodPalette(f.palette, f.header.colorMode)
    && |f.glyphs| == f.header.count && GoodGlyphs(f.glyphs, f.header)
    && Position(f.glyphs, |f.glyphs|) == f.header.columns * f.header.rows
    && |Encode(f)| <= MAX_FRAME_BYTES
  }

  // ----- What the decoder looks for in `b` from offset `o` on -----

  /** The big-endian field of `width` bytes at `o`. */
  function Field(b: seq<byte>, o: nat, width: nat): (v: nat)
    requires o + width <= |b|
    ensures v < Pow256(width)
  {
    Value(b[o..o + width])
  }

  predicate ColorAt(b: seq<byte>, o: nat, mode: nat) {
    && o < |b|
    && (|| b[o] == 0
        || (b[o] == 1 && mode >= 1 && o + 2 <= |b| && b[o + 1] < 16)
        || (b[o] == 2 && mode >= 2 && o + 2 <= |b|)
        || (b[o] == 3 && mode == 3 && o + 4 <= |b|))
  }

  /** Where the color at `o` ends. */
  function ColorEnd(b: seq<byte>, o: nat, mode: nat): (e: nat)
    requires ColorAt(b, o, mode)
    ensures o < e <= |b|
  {
    o + if b[o] == 0 then 1 else if b[o] == 3 then 4 else 2
  }

  predicate EntryAt(b: seq<byte>, o: nat, mode: nat) {
    && ColorAt(b, o, mode)
    && ColorAt(b, ColorEnd(b, o, mode), mode)
    && EntryEnd(b, o, mode) <= |b| && b[EntryEnd(b, o, mode) - 1] < 32
  }

  function EntryEnd(b: seq<byte>, o: nat, mode: nat): (e: nat)
    requires ColorAt(b, o, mode) && ColorAt(b, ColorEnd(b, o, mode), mode)
    ensures o + 3 <= e
  {
    ColorEnd(b, ColorEnd(b, o, mode), mode) + 1
  }

  predicate CursorAt(b: seq<byte>, o: nat, columns: nat, rows: nat) {
    && o < |b|
    && (|| b[o] == 0
        || (&& b[o] == 1 && o + 7 <= |b| && Field(b, o + 1, 2) < columns && Field(b, o + 3, 2) < rows
            && Field(b, o + 5, 1) <= 2 && b[o + 6] <= 1))
  }

  /** Version, tag, sequence, revision, grid, width policy, color mode and palette size: 26 bytes. */
  predicate FixedAt(b: seq<byte>) {
    && |b| >= 26 && b[0] == 1 && b[1] == 3
    && 1 <= Field(b, 18, 2) <= 500 && 1 <= Field(b, 20, 2) <= 200
    && b[22] <= 1 && Field(b, 23, 1) <= 3 && 1 <= Field(b, 24, 2) <= 4096
  }

  function CursorEnd(b: seq<byte>, o: nat): (e: nat)
    requires o < |b|
  {
    o + if b[o] == 0 then 1 else 7
  }

  predicate HeaderAt(b: seq<byte>) {
    && FixedAt(b)
    && CursorAt(b, 26, Field(b, 18, 2), Field(b, 20, 2))
    && CursorEnd(b, 26) + 4 <= |b|
    && 1 <= Field(b, CursorEnd(b, 26), 4) <= Field(b, 18, 2) * Field(b, 20, 2)
  }

  /** The header those fields hold. */
  function HeaderOf(b: seq<byte>): (h: Header)
    requires HeaderAt(b)
  {
    Header(Field(b, 2, 8), Field(b, 10, 8), Field(b, 18, 2), Field(b, 20, 2), b[22] == 1, Field(b, 23, 1),
           Field(b, 24, 2), CursorOf(b, 26), Field(b, CursorEnd(b, 26), 4))
  }

  function CursorOf(b: seq<byte>, o: nat): (c: Option<Cursor>)
    requires o < |b| && (b[o] == 1 ==> o + 7 <= |b|)
  {
    if b[o] == 1 then Some(Cursor(Field(b, o + 1, 2), Field(b, o + 3, 2), Field(b, o + 5, 1), b[o + 6] == 1)) else None
  }

  /** The bodies the decoder accepts. */
  predicate Accepted(b: seq<byte>) {
    && HeaderAt(b)
    && var h := HeaderOf(b);
    && TablesAt(b, CursorEnd(b, 26) + 4, h.paletteCount, h)
  }

  predicate GlyphAt(b: seq<byte>, o: nat, position: nat, h: Header)
    requires h.columns > 0
  {
    && o + 8 <= |b| && Fits(Field(b, o, 2), Field(b, o + 2, 2), Field(b, o + 4, 4), position, h)
    && GlyphEnd(b, o) <= |b| && Inert(b[o + 8..GlyphEnd(b, o)])
  }

  function GlyphEnd(b: seq<byte>, o: nat): nat
    requires o + 8 <= |b|
  {
    o + 8 + Field(b, o + 4, 4)
  }

  /** `n` palette entries end to end. */
  predicate EntriesAt(b: seq<byte>, o: nat, n: nat, mode: nat)
    decreases n
  {
    n > 0 ==> EntryAt(b, o, mode) && EntriesAt(b, EntryEnd(b, o, mode), n - 1, mode)
  }

  function EntriesEnd(b: seq<byte>, o: nat, n: nat, mode: nat): (e: nat)
    requires EntriesAt(b, o, n, mode)
    decreases n
  {
    if n == 0 then o else EntriesEnd(b, EntryEnd(b, o, mode), n - 1, mode)
  }

  /** `n` palette entries and then `h.count` glyphs over the whole grid. */
  predicate TablesAt(b: seq<byte>, o: nat, n: nat, h: Header)
    requires h.columns > 0
  {
    EntriesAt(b, o, n, h.colorMode) && GlyphsAt(b, EntriesEnd(b, o, n, h.colorMode), h.count, 0, h)
  }

  /** `count` glyphs, the first at cell `position`, covering the rest of the grid and ending where the bytes end. */
  predicate GlyphsAt(b: seq<byte>, o: nat, count: nat, position: nat, h: Header)
    requires h.columns > 0
    decreases count
  {
    if count > 0 then
      GlyphAt(b, o, position, h) && GlyphsAt(b, GlyphEnd(b, o), count - 1, position + Field(b, o, 2), h)
    else
      position == h.columns * h.rows && o == |b|
  }

  // ----- The decoder -----

  class Reader {
    const bytes: seq<byte>
    var offset: nat

    ghost predicate Valid()
      reads this
    {
      offset <= |bytes|
    }

    constructor (bytes: seq<byte>)
      ensures Valid() && this.bytes == bytes && offset == 0
    {
      this.bytes := bytes;
      this.offset := 0;
    }

    function Remaining(): (n: nat)
      reads this
      requires Valid()
    {
      |bytes| - offset
    }

    method Take(n: nat) returns (r: Result<seq<byte>, FrameError>)
      requires Valid()
      modifies this
      ensures Valid()
      ensures r.Ok? <==> old(offset) + n <= |bytes|
      ensures r.Ok? ==> offset == old(offset) + n && r.value == bytes[old(offset)..offset]
      ensures r.Err? ==> r.error == Invalid && offset == old(offset)
    {
      if n > Remaining() {
        return Err(Invalid);
      }
      var result := bytes[offset..offset + n];
      offset := offset + n;
      return Ok(result);
    }

    /** A big-endian field of `width` bytes: `u8`, `u16`, `u32` and `u64`. */
    method Uint(width: nat) returns (r: Result<nat, FrameError>)
      requires Valid()
      modifies this
      ensures Valid()
      ensures r.Ok? <==> old(offset) + width <= |bytes|
      ensures r.Ok? ==> offset == old(offset) + width && r.value == Field(bytes, old(offset), width)
      ensures r.Err? ==> r.error == Invalid
    {
      var taken :- Take(width);
      return Ok(Value(taken));
    }

    method Byte() returns (r: Result<byte, FrameError>)
      requires Valid()
      modifies this
      ensures Valid()
      ensures r.Ok? <==> old(offset) < |bytes|
      ensures r.Ok? ==> offset == old(offset) + 1 && r.value == bytes[old(offset)]
      ensures r.Err? ==> r.error == Invalid
    {
      var taken :- Take(1);
      return Ok(taken[0]);
    }

    method ReadColor(mode: nat) returns (r: Result<Color, FrameError>)
      requires Valid()
      modifies this
      ensures Valid()
      ensures r.Ok? <==> ColorAt(bytes, old(offset), mode)
      ensures r.Ok? ==> ColorIn(r.value, mode) && offset == ColorEnd(bytes, old(offset), mode)
      ensures r.Ok? ==> bytes[old(offset)..offset] == EncodeColor(r.value)
      ensures r.Err? ==> r.error == Invalid
    {
      ghost var o := offset;
      var kind :- Byte();
      if kind == 0 {
        assert bytes[o..offset] == [kind];
        return Ok(Default);
      } else if kind == 1 && mode >= 1 {
        var i :- Byte();
        if i < 16 {
          assert bytes[o..offset] == [kind, i];
          return Ok(Ansi(i));
        }
        return Err(Invalid);
      } else if kind == 2 && mode >= 2 {
        var i :- Byte();
        assert bytes[o..offset] == [kind, i];
        return Ok(Indexed(i));
      } else if kind == 3 && mode == 3 {
        var red :- Byte();
        var green :- Byte();
        var blue :- Byte();
        assert bytes[o..offset] == [kind, red, green, blue];
        return Ok(Rgb(red, green, blue));
      }
      return Err(Invalid);
    }

    method ReadEntry(mode: nat) returns (r: Result<PaletteEntry, FrameError>)
      requires Valid()
      modifies this
      ensures Valid()
      ensures r.Ok? <==> EntryAt(bytes, old(offset), mode)
      ensures r.Ok? ==> GoodEntry(r.value, mode) && offset == EntryEnd(bytes, old(offset), mode)
      ensures r.Ok? ==> bytes[old(offset)..offset] == EncodeEntry(r.value)
      ensures r.Err? ==> r.error == Invalid
    {
      ghost var a := offset;
      var foreground :- ReadColor(mode);
      ghost var b := offset;
      var background :- ReadColor(mode);
      ghost var c := offset;
      var modifiers :- Byte();
      if modifiers >= 32 {
        return Err(Invalid);
      }
      var entry := PaletteEntry(foreground, background, modifiers);
      EntryBytes(entry, bytes, a, b, c);
      return Ok(entry);
    }

    method ReadCursor(columns: nat, rows: nat) returns (r: Result<Option<Cursor>, FrameError>)
      requires Valid()
      modifies this
      ensures Valid()
      ensures r.Ok? <==> CursorAt(bytes, old(offset), columns, rows)
      ensures r.Ok? ==> offset == CursorEnd(bytes, old(offset))
      ensures r.Ok? ==> r.value == CursorOf(bytes, old(offset))
      ensures r.Ok? ==> bytes[old(offset)..offset] == EncodeCursor(r.value)
      ensures r.Ok? && r.value.Some? ==> r.value.value.x < columns && r.value.value.y < rows && r.value.value.shape <= 2
      ensures r.Err? ==> r.error == Invalid
    {
      ghost var o := offset;
      var present :- Byte();
      if present == 0 {
        return Ok(None);
      } else if present == 1 {
        var x :- Uint(2);
        var y :- Uint(2);
        var shape :- Uint(1);
        var visible :- Byte();
        if x >= columns || y >= rows || shape > 2 || visible > 1 {
          return Err(Invalid);
        }
        var cursor := Cursor(x, y, shape, visible == 1);
        CursorBytes(cursor, bytes, o);
        return Ok(Some(cursor));
      }
      return Err(Invalid);
    }

    /** The size of the grid. */
    method ReadGrid() returns (r: Result<(nat, nat), FrameError>)
      requires Valid()
      modifies this
      ensures Valid()
      ensures r.Ok? <==>
        && old(offset) + 4 <= |bytes|
        && 1 <= Field(bytes, old(offset), 2) <= 500 && 1 <= Field(bytes, old(offset) + 2, 2) <= 200
      ensures r.Ok? ==> r.value == (Field(bytes, old(offset), 2), Field(bytes, old(offset) + 2, 2))
      ensures r.Ok? ==> offset == old(offset) + 4
      ensures r.Err? ==> r.error == Invalid
    {
      hide Field;
      var columns :- Uint(2);
      var rows :- Uint(2);
      if !(1 <= columns <= 500) || !(1 <= rows <= 200) {
        return Err(Invalid);
      }
      return Ok((columns, rows));
    }

    /** The width policy, the color mode and the size of the palette. */
    method ReadModes() returns (r: Result<(bool, nat, nat), FrameError>)
      requires Valid()
      modifies this
      ensures Valid()
      ensures r.Ok? <==>
        && old(offset) + 4 <= |bytes| && bytes[old(offset)] <= 1
        && Field(bytes, old(offset) + 1, 1) <= 3 && 1 <= Field(bytes, old(offset) + 2, 2) <= 4096
      ensures r.Ok? ==>
        r.value == (bytes[old(offset)] == 1, Field(bytes, old(offset) + 1, 1), Field(bytes, old(offset) + 2, 2))
      ensures r.Ok? ==> offset == old(offset) + 4
      ensures r.Err? ==> r.error == Invalid
    {
      hide Field;
      var wide :- Byte();
      if wide > 1 {
        return Err(Invalid);
      }
      var colorMode :- Uint(1);
      if colorMode > 3 {
        return Err(Invalid);
      }
      var paletteCount :- Uint(2);
      if !(1 <= paletteCount <= 4096) {
        return Err(Invalid);
      }
      return Ok((wide == 1, colorMode, paletteCount));
    }

    /** The fields before the cursor; the header comes back with no cursor and no count yet. */
    method ReadFixed() returns (r: Result<Header, FrameError>)
      requires Valid() && offset == 0
      modifies this
      ensures Valid()
      ensures r.Ok? <==> FixedAt(bytes)
      ensures r.Ok? ==> FixedIs(r.value, bytes) && r.value.cursor == None && r.value.count == 0 && offset == 26
      ensures r.Err? ==> r.error == Invalid
    {
      hide Field;
      var version :- Byte();
      if version != 1 {
        return Err(Invalid);
      }
      var tag :- Byte();
      if tag != 3 {
        return Err(Invalid);
      }
      var sequence :- Uint(8);
      var revision :- Uint(8);
      var grid :- ReadGrid();
      var modes :- ReadModes();
      return Ok(Header(sequence, revision, grid.0, grid.1, modes.0, modes.1, modes.2, None, 0));
    }

    method ReadHeader() returns (r: Result<Header, FrameError>)
      requires Valid() && offset == 0
      modifies this
      ensures Valid()
      ensures r.Ok? <==> HeaderAt(bytes)
      ensures r.Ok? ==> r.value == HeaderOf(bytes) && GoodHeader(r.value) && offset == CursorEnd(bytes, 26) + 4
      ensures r.Ok? ==> bytes[..offset] == EncodeHeader(r.value)
      ensures r.Err? ==> r.error == Invalid
    {
      var fixed :- ReadFixed();
      var cursor :- ReadCursor(fixed.columns, fixed.rows);
      ghost var o := offset;
      var count :- Uint(4);
      var cells := fixed.columns * fixed.rows;
      if count == 0 || count > cells {
        return Err(Invalid);
      }
      var header := fixed.(cursor := cursor, count := count);
      HeaderBytes(header, bytes, o);
      return Ok(header);
    }

    method ReadPalette(h: Header) returns (r: Result<seq<PaletteEntry>, FrameError>)
      requires Valid() && h.columns > 0
      modifies this
      ensures Valid()
      ensures r.Ok? ==> |r.value| == h.paletteCount && GoodPalette(r.value, h.colorMode)
      ensures r.Ok? ==> old(offset) <= offset && bytes[old(offset)..offset] == EncodePalette(r.value)
      ensures r.Ok? <==> EntriesAt(bytes, old(offset), h.paletteCount, h.colorMode)
      ensures r.Ok? ==> offset == EntriesEnd(bytes, old(offset), h.paletteCount, h.colorMode)
      ensures r.Err? ==> r.error == Invalid
    {
      hide EntryAt, EncodeEntry, GoodEntry;
      var palette := [];
      ghost var start := offset;
      while |palette| < h.paletteCount
        invariant Valid() && start <= offset
        invariant |palette| <= h.paletteCount && GoodPalette(palette, h.colorMode)
        invariant bytes[start..offset] == EncodePalette(palette)
        invariant EntriesAt(bytes, start, h.paletteCount, h.colorMode)
          <==> EntriesAt(bytes, offset, h.paletteCount - |palette|, h.colorMode)
        invariant EntriesAt(bytes, start, h.paletteCount, h.colorMode) ==>
          EntriesEnd(bytes, start, h.paletteCount, h.colorMode)
          == EntriesEnd(bytes, offset, h.paletteCount - |palette|, h.colorMode)
      {
        ghost var o := offset;
        var entry :- ReadEntry(h.colorMode);
        PaletteAppend(palette, entry);
        Join(bytes, start, o, offset);
        palette := palette + [entry];
      }
      return Ok(palette);
    }

    method ReadGlyph(h: Header, position: nat) returns (r: Result<Glyph, FrameError>)
      requires Valid() && h.columns > 0
      modifies this
      ensures Valid()
      ensures r.Ok? <==> GlyphAt(bytes, old(offset), position, h)
      ensures r.Ok? ==> GoodGlyph(r.value, position, h) && r.value.width == Field(bytes, old(offset), 2)
      ensures r.Ok? ==> offset == GlyphEnd(bytes, old(offset))
      ensures r.Ok? ==> bytes[old(offset)..offset] == EncodeGlyph(r.value)
      ensures r.Err? ==> r.error == Invalid
    {
      hide Inert, EncodeGlyph, Value;
      ghost var o := offset;
      var width :- Uint(2);
      var palette :- Uint(2);
      var length :- Uint(4);
      var x := position % h.columns;
      var y := position / h.columns;
      if || width == 0 || width > 500
         || x + width > h.columns
         || y >= h.rows
         || palette >= h.paletteCount
         || length == 0 || length > MAX_TEXT_BYTES
      {
        return Err(Invalid);
      }
      var text :- Take(length);
      if !Inert(text) {
        return Err(Invalid);
      }
      var glyph := Glyph(x, y, width, palette, text);
      GlyphBytes(glyph, bytes, o);
      return Ok(glyph);
    }

    method ReadGlyphs(h: Header) returns (r: Result<seq<Glyph>, FrameError>)
      requires Valid() && h.columns > 0
      modifies this
      ensures Valid()
      ensures r.Ok? <==> GlyphsAt(bytes, old(offset), h.count, 0, h)
      ensures r.Ok? ==> |r.value| == h.count && GoodGlyphs(r.value, h)
      ensures r.Ok? ==> Position(r.value, |r.value|) == h.columns * h.rows
      ensures r.Ok? ==> bytes[old(offset)..] == EncodeGlyphs(r.value)
      ensures r.Err? ==> r.error == Invalid
    {
      hide GoodGlyph, GlyphAt, Fits;
      var glyphs: seq<Glyph> := [];
      var position: nat := 0;
      ghost var start := offset;
      while |glyphs| < h.count
        invariant Valid() && GlyphsRead(bytes, start, offset, glyphs, position, h)
      {
        ghost var o := offset;
        var glyph :- ReadGlyph(h, position);
        GlyphsReadStep(bytes, start, o, glyphs, position, h, glyph);
        glyphs := glyphs + [glyph];
        position := position + glyph.width;
      }
      if position != h.columns * h.rows || Remaining() != 0 {
        return Err(Invalid);
      }
      return Ok(glyphs);
    }
  }

  /** The loop of `ReadGlyphs` after `gs`: what was read encodes `gs`, and the rest decides acceptance. */
  ghost predicate GlyphsRead(b: seq<byte>, start: nat, o: nat, gs: seq<Glyph>, position: nat, h: Header)
    requires h.columns > 0
  {
    && start <= o <= |b| && |gs| <= h.count
    && GoodGlyphs(gs, h) && position == Position(gs, |gs|)
    && b[start..o] == EncodeGlyphs(gs)
    && (GlyphsAt(b, start, h.count, 0, h) <==> GlyphsAt(b, o, h.count - |gs|, position, h))
  }

  lemma GlyphsReadStep(b: seq<byte>, start: nat, o: nat, gs: seq<Glyph>, position: nat, h: Header, g: Glyph)
    requires h.columns > 0 && |gs| < h.count && GlyphsRead(b, start, o, gs, position, h)
    requires GlyphAt(b, o, position, h) && GoodGlyph(g, position, h) && g.width == Field(b, o, 2)
    requires b[o..GlyphEnd(b, o)] == EncodeGlyph(g)
    ensures GlyphsRead(b, start, GlyphEnd(b, o), gs + [g], position + g.width, h)
  {
    hide GoodGlyphs, GoodGlyph, EncodeGlyphs, EncodeGlyph, Position;
    GlyphsAppend(gs, g, h);
    Join(b, start, o, GlyphEnd(b, o));
  }

  lemma EntryBytes(e: PaletteEntry, bytes: seq<byte>, a: nat, b: nat, c: nat)
    requires a <= b <= c < |bytes|
    requires bytes[a..b] == EncodeColor(e.foreground) && bytes[b..c] == EncodeColor(e.background)
    requires bytes[c] == e.modifiers
    ensures bytes[a..c + 1] == EncodeEntry(e)
  {
    Join(bytes, a, b, c);
    Join(bytes, a, c, c + 1);
    assert bytes[c..c + 1] == [e.modifiers];
  }

  lemma HeaderBytes(h: Header, b: seq<byte>, o: nat)
    requires FixedAt(b) && FixedIs(h, b) && 26 <= o && o + 4 <= |b|
    requires b[26..o] == EncodeCursor(h.cursor) && h.count == Field(b, o, 4)
    ensures b[..o + 4] == EncodeHeader(h)
  {
    FixedBytes(h, b);
    BeOfValue(b[o..o + 4]);
    Join(b, 26, o, o + 4);
    Join(b, 0, 26, o + 4);
    assert b[0..26] == b[..26] && b[0..o + 4] == b[..o + 4];
  }

  lemma GlyphBytes(g: Glyph, b: seq<byte>, o: nat)
    requires o + 8 <= |b| && GlyphEnd(b, o) <= |b|
    requires g.width == Field(b, o, 2) && g.palette == Field(b, o + 2, 2)
    requires g.text == b[o + 8..GlyphEnd(b, o)]
    ensures b[o..GlyphEnd(b, o)] == EncodeGlyph(g)
  {
    BeOfValue(b[o..o + 2]);
    BeOfValue(b[o + 2..o + 4]);
    BeOfValue(b[o + 4..o + 8]);
    Join(b, o, o + 2, o + 4);
    Join(b, o, o + 4, o + 8);
    Join(b, o, o + 8, GlyphEnd(b, o));
  }

  lemma {:induction false} PaletteAppend(es: seq<PaletteEntry>, e: PaletteEntry)
    ensures EncodePalette(es + [e]) == EncodePalette(es) + EncodeEntry(e)
  {
    hide EncodeEntry;
    if es == [] {
      assert (es + [e])[1..] == [] && (es + [e])[0] == e;
      assert EncodeEntry(e) + [] == [] + EncodeEntry(e);
    } else {
      PaletteAppend(es[1..], e);
      assert (es + [e])[1..] == es[1..] + [e];
      assert EncodeEntry(es[0]) + (EncodePalette(es[1..]) + EncodeEntry(e)) == EncodePalette(es) + EncodeEntry(e);
    }
  }

  lemma {:induction false} EncodeGlyphsAppend(gs: seq<Glyph>, g: Glyph)
    ensures EncodeGlyphs(gs + [g]) == EncodeGlyphs(gs) + EncodeGlyph(g)
  {
    hide EncodeGlyph;
    if gs == [] {
      assert (gs + [g])[1..] == [] && (gs + [g])[0] == g;
      assert EncodeGlyph(g) + [] == [] + EncodeGlyph(g);
    } else {
      EncodeGlyphsAppend(gs[1..], g);
      assert (gs + [g])[1..] == gs[1..] + [g];
      assert EncodeGlyph(gs[0]) + (EncodeGlyphs(gs[1..]) + EncodeGlyph(g)) == EncodeGlyphs(gs) + EncodeGlyph(g);
    }
  }

  lemma {:induction false} PositionOfPrefix(gs: seq<Glyph>, g: Glyph, i: nat)
    requires i <= |gs|
    ensures Position(gs + [g], i) == Position(gs, i)
  {
    if i == 0 {
    } else {
      PositionOfPrefix(gs, g, i - 1);
    }
  }

  lemma GlyphsAppend(gs: seq<Glyph>, g: Glyph, h: Header)
    requires h.columns > 0 && GoodGlyphs(gs, h) && GoodGlyph(g, Position(gs, |gs|), h)
    ensures GoodGlyphs(gs + [g], h) && Position(gs + [g], |gs| + 1) == Position(gs, |gs|) + g.width
    ensures EncodeGlyphs(gs + [g]) == EncodeGlyphs(gs) + EncodeGlyph(g)
  {
    EncodeGlyphsAppend(gs, g);
    PositionOfPrefix(gs, g, |gs|);
    forall i | 0 <= i < |gs| + 1 ensures GoodGlyph((gs + [g])[i], Position(gs + [g], i), h) {
      PositionOfPrefix(gs, g, i);
      if i < |gs| {
        assert GoodGlyph(gs[i], Position(gs, i), h);
      }
    }
  }

  lemma {:induction false} GlyphsSize(b: seq<byte>, o: nat, count: nat, position: nat, h: Header)
    requires h.columns > 0 && GlyphsAt(b, o, count, position, h)
    ensures o + 9 * count <= |b|
    decreases count
  {
    if count == 0 {
    } else {
      GlyphsSize(b, GlyphEnd(b, o), count - 1, position + Field(b, o, 2), h);
    }
  }

  lemma {:induction false} EntriesSize(b: seq<byte>, o: nat, n: nat, mode: nat)
    requires EntriesAt(b, o, n, mode)
    ensures o + 3 * n <= EntriesEnd(b, o, n, mode)
    decreases n
  {
    if n == 0 {
    } else {
      EntriesSize(b, EntryEnd(b, o, mode), n - 1, mode);
    }
  }

  /** The early size test refuses nothing the tables would accept. */
  lemma TablesSize(b: seq<byte>, o: nat, n: nat, h: Header)
    requires h.columns > 0 && TablesAt(b, o, n, h)
    ensures o + 9 * h.count + 3 * n <= |b|
  {
    EntriesSize(b, o, n, h.colorMode);
    GlyphsSize(b, EntriesEnd(b, o, n, h.colorMode), h.count, 0, h);
  }

  lemma CursorBytes(c: Cursor, b: seq<byte>, o: nat)
    requires o + 7 <= |b| && b[o] == 1 && b[o + 6] == if c.visible then 1 else 0
    requires c.x == Field(b, o + 1, 2) && c.y == Field(b, o + 3, 2) && c.shape == Field(b, o + 5, 1)
    ensures b[o..o + 7] == EncodeCursor(Some(c))
  {
    hide Be, Value;
    BeOfValue(b[o + 1..o + 3]);
    BeOfValue(b[o + 3..o + 5]);
    BeOfValue(b[o + 5..o + 6]);
    Join(b, o, o + 1, o + 3);
    Join(b, o, o + 3, o + 5);
    Join(b, o, o + 5, o + 6);
    Join(b, o, o + 6, o + 7);
    assert b[o..o + 1] == [1] && b[o + 6..o + 7] == [if c.visible then 1 else 0];
  }

  /** `h` holds the 26 fixed bytes at the start of `b`. */
  ghost predicate FixedIs(h: Header, b: seq<byte>)
    requires |b| >= 26
  {
    && h.sequence == Field(b, 2, 8) && h.revision == Field(b, 10, 8)
    && h.columns == Field(b, 18, 2) && h.rows == Field(b, 20, 2)
    && h.wide == (b[22] == 1) && h.colorMode == Field(b, 23, 1) && h.paletteCount == Field(b, 24, 2)
  }

  function EncodeFixed(h: Header): seq<byte> {
    [1, 3] + Be(h.sequence, 8) + Be(h.revision, 8) + Be(h.columns, 2) + Be(h.rows, 2)
    + [if h.wide then 1 else 0] + Be(h.colorMode, 1) + Be(h.paletteCount, 2)
  }

  lemma FixedBytes(h: Header, b: seq<byte>)
    requires FixedAt(b) && FixedIs(h, b)
    ensures EncodeFixed(h) == b[..26]
  {
    BeOfValue(b[2..10]);
    BeOfValue(b[10..18]);
    BeOfValue(b[18..20]);
    BeOfValue(b[20..22]);
    BeOfValue(b[23..24]);
    BeOfValue(b[24..26]);
  }
}
