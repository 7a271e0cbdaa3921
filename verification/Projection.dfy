/** Projection: a decoded frame becomes a buffer of lead and continuation cells. */
module Projection {
  import opened Bytes
  import opened Screen
  import F = Frame
  import FrameCodec
  import T = Terminal

  // ----- Projection -----

  function Attributes(bits: byte): set<T.Attribute> {
    (if bits % 2 == 1 then {T.Bold} else {}) + (if bits / 2 % 2 == 1 then {T.Dim} else {})
    + (if bits / 4 % 2 == 1 then {T.Italic} else {}) + (if bits / 8 % 2 == 1 then {T.Underlined} else {})
    + (if bits / 16 % 2 == 1 then {T.Reversed} else {})
  }

  function Continuation(e: F.PaletteEntry): Cell {
    EMPTY_CELL.(fg := e.foreground, bg := e.background, modifiers := Attributes(e.modifiers), diff := Skip)
  }

  function LeadCell(g: F.Glyph, e: F.PaletteEntry): Cell {
    Continuation(e).(symbol := g.text, diff := ForcedWidth(g.width))
  }

  /** Only the lead owns text; the other declared columns keep the style and are skipped. */
  ghost predicate Projected(b: Buffer, g: F.Glyph, e: F.PaletteEntry) {
    && b.Ok() && g.y < b.rows && g.x < g.x + g.width <= b.columns
    && b.content[g.y][g.x] == LeadCell(g, e)
    && forall x :: g.x < x < g.x + g.width ==> b.content[g.y][x] == Continuation(e)
  }

  method ProjectGlyph(row: seq<Cell>, g: F.Glyph, e: F.PaletteEntry) returns (filled: seq<Cell>)
    requires g.x < g.x + g.width <= |row|
    requires forall x :: g.x <= x < g.x + g.width ==> row[x] == EMPTY_CELL
    ensures Filled(row, filled, g, e)
  {
    filled := row;
    for x := g.x to g.x + g.width
      invariant |filled| == |row|
      invariant forall k :: 0 <= k < |row| ==> filled[k] == if g.x <= k < x then Continuation(e) else row[k]
    {
      filled := filled[x := filled[x].(fg := e.foreground, bg := e.background,
                                       modifiers := Attributes(e.modifiers), diff := Skip)];
    }
    var lead := filled[g.x];
    filled := filled[g.x := lead.(symbol := g.text, diff := ForcedWidth(g.width))];
  }

  predicate CoveredBefore(gs: seq<F.Glyph>, i: nat, x: nat, y: nat)
    requires i <= |gs|
  {
    exists k :: 0 <= k < i && FrameCodec.Covers(gs[k], x, y)
  }

  /** After the first `i` glyphs: each of them projected, every other cell still empty. */
  ghost predicate ProjectedSoFar(f: F.DrawFrame, b: Buffer, i: nat)
    requires i <= |f.glyphs| && forall k :: 0 <= k < |f.glyphs| ==> f.glyphs[k].palette < |f.palette|
  {
    && b.Ok() && b.columns == f.header.columns && b.rows == f.header.rows
    && (forall k :: 0 <= k < i ==> Projected(b, f.glyphs[k], f.palette[f.glyphs[k].palette]))
    && (forall x, y :: 0 <= x < b.columns && 0 <= y < b.rows && !CoveredBefore(f.glyphs, i, x, y) ==>
          b.content[y][x] == EMPTY_CELL)
  }

  lemma GoodPalettes(f: F.DrawFrame)
    requires F.WellFormed(f)
    ensures forall k :: 0 <= k < |f.glyphs| ==>
      && f.glyphs[k].palette < |f.palette| && f.glyphs[k].y < f.header.rows
      && f.glyphs[k].x < f.glyphs[k].x + f.glyphs[k].width <= f.header.columns
  {
    hide F.Inert;
    forall k | 0 <= k < |f.glyphs|
      ensures f.glyphs[k].palette < |f.palette| && f.glyphs[k].y < f.header.rows
      ensures f.glyphs[k].x < f.glyphs[k].x + f.glyphs[k].width <= f.header.columns
    {
      assert F.GoodGlyph(f.glyphs[k], F.Position(f.glyphs, k), f.header);
    }
  }

  /** A cell of glyph `i` belongs to no other glyph. */
  lemma OnlyGlyph(f: F.DrawFrame, i: nat, k: nat, x: nat, y: nat)
    requires F.WellFormed(f) && i < |f.glyphs| && k < |f.glyphs| && x < f.header.columns && y < f.header.rows
    requires FrameCodec.Covers(f.glyphs[i], x, y) && FrameCodec.Covers(f.glyphs[k], x, y)
    ensures i == k
  {
    hide F.WellFormed;
    var one := FrameCodec.Tiling(f, x, y);
  }

  /** Row `filled` is `row` with the glyph in its columns. */
  predicate Filled(row: seq<Cell>, filled: seq<Cell>, g: F.Glyph, e: F.PaletteEntry)
  {
    && |filled| == |row|
    && forall x :: 0 <= x < |row| ==>
         filled[x] == if x == g.x then LeadCell(g, e)
                      else if g.x < x < g.x + g.width then Continuation(e) else row[x]
  }

  /** An earlier glyph keeps its cells: no cell of it is covered by glyph `i`. */
  lemma StaysProjected(f: F.DrawFrame, b: Buffer, c: Buffer, i: nat, k: nat, filled: seq<Cell>)
    requires F.WellFormed(f) && k < i < |f.glyphs| && b.Ok() && c.Ok()
    requires f.glyphs[k].palette < |f.palette| && f.glyphs[i].palette < |f.palette|
    requires b.columns == f.header.columns && b.rows == f.header.rows && f.glyphs[i].y < b.rows
    requires f.glyphs[i].width > 0
    requires Projected(b, f.glyphs[k], f.palette[f.glyphs[k].palette])
    requires Filled(b.content[f.glyphs[i].y], filled, f.glyphs[i], f.palette[f.glyphs[i].palette])
    requires c == b.(content := b.content[f.glyphs[i].y := filled])
    ensures Projected(c, f.glyphs[k], f.palette[f.glyphs[k].palette])
  {
    hide F.WellFormed, LeadCell, Continuation;
    var g, h := f.glyphs[i], f.glyphs[k];
    if h.y == g.y {
      forall x | h.x <= x < h.x + h.width ensures filled[x] == b.content[h.y][x] {
        if FrameCodec.Covers(g, x, h.y) {
          OnlyGlyph(f, i, k, x, h.y);
        }
      }
    }
  }

  lemma ProjectStep(f: F.DrawFrame, b: Buffer, i: nat, filled: seq<Cell>)
    requires F.WellFormed(f) && i < |f.glyphs|
    requires forall k :: 0 <= k < |f.glyphs| ==> f.glyphs[k].palette < |f.palette|
    requires ProjectedSoFar(f, b, i)
    requires f.glyphs[i].y < b.rows && f.glyphs[i].x < f.glyphs[i].x + f.glyphs[i].width <= b.columns
    requires Filled(b.content[f.glyphs[i].y], filled, f.glyphs[i], f.palette[f.glyphs[i].palette])
    ensures ProjectedSoFar(f, b.(content := b.content[f.glyphs[i].y := filled]), i + 1)
  {
    hide F.WellFormed, LeadCell, Continuation, Projected;
    var g := f.glyphs[i];
    var c := b.(content := b.content[g.y := filled]);
    assert |filled| == b.columns && c.Ok();
    forall k | 0 <= k < i + 1 ensures Projected(c, f.glyphs[k], f.palette[f.glyphs[k].palette]) {
      if k < i {
        StaysProjected(f, b, c, i, k, filled);
      } else {
        NewProjected(b, c, g, f.palette[g.palette], filled);
      }
    }
    StillUncovered(f, b, c, i, filled);
  }

  lemma NewProjected(b: Buffer, c: Buffer, g: F.Glyph, e: F.PaletteEntry, filled: seq<Cell>)
    requires b.Ok() && c.Ok() && g.y < b.rows && g.x < g.x + g.width <= b.columns
    requires Filled(b.content[g.y], filled, g, e) && c == b.(content := b.content[g.y := filled])
    ensures Projected(c, g, e)
  {
    hide LeadCell, Continuation;
  }

  lemma StillUncovered(f: F.DrawFrame, b: Buffer, c: Buffer, i: nat, filled: seq<Cell>)
    requires i < |f.glyphs| && b.Ok() && c.Ok() && f.glyphs[i].y < b.rows && f.glyphs[i].palette < |f.palette|
    requires f.glyphs[i].width > 0
    requires Filled(b.content[f.glyphs[i].y], filled, f.glyphs[i], f.palette[f.glyphs[i].palette])
    requires c == b.(content := b.content[f.glyphs[i].y := filled])
    requires forall x, y :: 0 <= x < b.columns && 0 <= y < b.rows && !CoveredBefore(f.glyphs, i, x, y) ==>
      b.content[y][x] == EMPTY_CELL
    ensures forall x, y :: 0 <= x < c.columns && 0 <= y < c.rows && !CoveredBefore(f.glyphs, i + 1, x, y) ==>
      c.content[y][x] == EMPTY_CELL
  {
    hide LeadCell, Continuation;
    forall x, y | 0 <= x < c.columns && 0 <= y < c.rows && !CoveredBefore(f.glyphs, i + 1, x, y)
      ensures c.content[y][x] == EMPTY_CELL
    {
      assert !FrameCodec.Covers(f.glyphs[i], x, y);
      assert !CoveredBefore(f.glyphs, i, x, y);
    }
  }

  lemma StillEmpty(f: F.DrawFrame, b: Buffer, i: nat)
    requires F.WellFormed(f) && i < |f.glyphs|
    requires forall k :: 0 <= k < |f.glyphs| ==> f.glyphs[k].palette < |f.palette|
    requires ProjectedSoFar(f, b, i)
    requires f.glyphs[i].y < b.rows && f.glyphs[i].x + f.glyphs[i].width <= b.columns
    ensures forall x :: f.glyphs[i].x <= x < f.glyphs[i].x + f.glyphs[i].width ==>
      b.content[f.glyphs[i].y][x] == EMPTY_CELL
  {
    hide F.WellFormed;
    var g := f.glyphs[i];
    forall x | g.x <= x < g.x + g.width ensures b.content[g.y][x] == EMPTY_CELL {
      assert FrameCodec.Covers(g, x, g.y);
      if CoveredBefore(f.glyphs, i, x, g.y) {
        var k :| 0 <= k < i && FrameCodec.Covers(f.glyphs[k], x, g.y);
        OnlyGlyph(f, i, k, x, g.y);
      }
    }
  }

  method Project(f: F.DrawFrame) returns (b: Buffer)
    requires F.WellFormed(f)
    ensures b.Ok() && b.columns == f.header.columns && b.rows == f.header.rows
    ensures forall k :: 0 <= k < |f.glyphs| ==>
      f.glyphs[k].palette < |f.palette| && Projected(b, f.glyphs[k], f.palette[f.glyphs[k].palette])
    ensures forall y :: 0 <= y < b.rows ==> Tiled(b.content[y])
  {
    hide F.WellFormed;
    GoodPalettes(f);
    HeaderBounds(f);
    b := Buffer(f.header.columns, f.header.rows,
                seq(f.header.rows, _ => seq(f.header.columns, _ => EMPTY_CELL)));
    for i := 0 to |f.glyphs|
      invariant ProjectedSoFar(f, b, i)
    {
      var g := f.glyphs[i];
      StillEmpty(f, b, i);
      var filled := ProjectGlyph(b.content[g.y], g, f.palette[g.palette]);
      ProjectStep(f, b, i, filled);
      b := b.(content := b.content[g.y := filled]);
    }
    forall y | 0 <= y < b.rows ensures Tiled(b.content[y]) {
      ProjectedRow(f, b, y);
    }
  }

  lemma HeaderBounds(f: F.DrawFrame)
    requires F.WellFormed(f)
    ensures f.header.columns > 0 && f.header.rows > 0
  {
  }

  /** A glyph boundary of the frame is a lead cell of the buffer, and only those are. */
  lemma ProjectedCell(f: F.DrawFrame, b: Buffer, x: nat, y: nat) returns (i: nat)
    requires F.WellFormed(f)
    requires forall k :: 0 <= k < |f.glyphs| ==> f.glyphs[k].palette < |f.palette|
    requires ProjectedSoFar(f, b, |f.glyphs|) && x < b.columns && y < b.rows
    ensures i < |f.glyphs| && FrameCodec.Covers(f.glyphs[i], x, y) && f.glyphs[i].x + f.glyphs[i].width <= b.columns
    ensures b.content[y][x].diff == if x == f.glyphs[i].x then ForcedWidth(f.glyphs[i].width) else Skip
    ensures forall k :: f.glyphs[i].x < k < f.glyphs[i].x + f.glyphs[i].width ==> b.content[y][k].diff == Skip
    ensures forall j :: 0 <= j < |f.glyphs| && FrameCodec.Covers(f.glyphs[j], x, y) ==> j == i
  {
    hide F.WellFormed;
    i := FrameCodec.Tiling(f, x, y);
    assert Projected(b, f.glyphs[i], f.palette[f.glyphs[i].palette]);
  }

  lemma ProjectedRow(f: F.DrawFrame, b: Buffer, y: nat)
    requires F.WellFormed(f)
    requires forall k :: 0 <= k < |f.glyphs| ==> f.glyphs[k].palette < |f.palette|
    requires b.Ok() && b.columns == f.header.columns && b.rows == f.header.rows
    requires ProjectedSoFar(f, b, |f.glyphs|) && y < b.rows
    ensures Tiled(b.content[y])
  {
    hide F.WellFormed, ProjectedSoFar;
    var row := b.content[y];
    var first := ProjectedCell(f, b, 0, y);
    forall x | 0 <= x < |row| ensures Lead(row[x]) || row[x].diff == Skip {
      var i := ProjectedCell(f, b, x, y);
    }
    forall x | 0 <= x < |row| && Lead(row[x]) ensures WholeGlyph(row, x) {
      var i := ProjectedCell(f, b, x, y);
      var end := x + row[x].diff.width;
      if end < |row| {
        var j := ProjectedCell(f, b, end, y);
        if f.glyphs[j].x < end {
          assert FrameCodec.Covers(f.glyphs[j], end - 1, y) && FrameCodec.Covers(f.glyphs[i], end - 1, y);
          OnlyGlyph(f, i, j, end - 1, y);
        }
      }
    }
  }
}
