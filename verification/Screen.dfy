/** The painter's cell buffer, and the screen a buffer or a frame stands for. */
module Screen {
  import opened Bytes
  import Frame
  import T = Terminal
  import Utf8

  datatype Diff = Plain | Skip | ForcedWidth(width: nat)

  datatype Cell = Cell(symbol: seq<byte>, fg: Frame.Color, bg: Frame.Color, modifiers: set<T.Attribute>, diff: Diff)

  const EMPTY_CELL: Cell := Cell([0x20], Frame.Default, Frame.Default, {}, Plain)

  /** Row-major cells, one sequence a row. */
  datatype Buffer = Buffer(columns: nat, rows: nat, content: seq<seq<Cell>>) {
    ghost predicate Ok() {
      && columns > 0 && rows > 0 && |content| == rows
      && forall y :: 0 <= y < rows ==> |content[y]| == columns
    }
  }

  datatype Painted = Painted(buffer: Buffer, cursor: Option<Frame.Cursor>)

  // ----- Rows of whole glyphs -----

  predicate Lead(c: Cell) {
    c.diff.ForcedWidth?
  }

  ghost predicate WholeGlyph(row: seq<Cell>, x: nat)
    requires x < |row| && Lead(row[x])
  {
    var end := x + row[x].diff.width;
    && x < end <= |row|
    && (forall k :: x < k < end ==> row[k].diff == Skip)
    && (end < |row| ==> Lead(row[end]))
  }

  /** Glyphs end to end: a lead cell, its continuations, and the next lead. */
  ghost predicate Tiled(row: seq<Cell>) {
    && |row| > 0 && Lead(row[0])
    && (forall x :: 0 <= x < |row| ==> Lead(row[x]) || row[x].diff == Skip)
    && (forall x :: 0 <= x < |row| && Lead(row[x]) ==> WholeGlyph(row, x))
  }

  /** The lead of the glyph column `x` belongs to. */
  function LeadOf(row: seq<Cell>, x: nat): (g: nat)
    requires x < |row|
    ensures g <= x && (forall k :: g < k <= x ==> !Lead(row[k])) && (g > 0 ==> Lead(row[g]))
  {
    if Lead(row[x]) || x == 0 then x else LeadOf(row, x - 1)
  }

  lemma {:induction false} InGlyph(row: seq<Cell>, x: nat)
    requires Tiled(row) && x < |row|
    ensures var g := LeadOf(row, x); Lead(row[g]) && g <= x < g + row[g].diff.width <= |row|
  {
    var g := LeadOf(row, x);
    assert WholeGlyph(row, g);
  }

  lemma LeadOfGlyph(row: seq<Cell>, g: nat, x: nat)
    requires Tiled(row) && g < |row| && Lead(row[g]) && g <= x < g + row[g].diff.width
    ensures x < |row| && LeadOf(row, x) == g
  {
    assert WholeGlyph(row, g);
  }

  // ----- The screen -----

  function PenOf(c: Cell): T.Pen {
    T.Pen(c.fg, c.bg, c.modifiers)
  }

  /** Spaces: the reserved columns a glyph did not reach. */
  function Spaces(n: nat): (s: seq<byte>)
    ensures |s| == n && (forall i :: 0 <= i < n ==> s[i] == 0x20)
  {
    seq(n, _ => 0x20)
  }

  /** The columns of a glyph of `width` columns at `x`: what its text reaches, then spaces in its own style. */
  function Image(q: T.Quirks, text: seq<byte>, width: nat, x: nat, pen: T.Pen): (ink: seq<T.Cell>)
    requires T.Reach(q, text) <= width
    ensures |ink| == width
    ensures forall k :: 0 <= k < width && T.Tagged(ink[k]) ==> x <= ink[k].lo && ink[k].hi <= x + width
  {
    Ink(q, text, x, pen) + T.Chars(Spaces(width - T.Reach(q, text)), pen)
  }

  /** The columns the text itself reaches. */
  function Ink(q: T.Quirks, text: seq<byte>, x: nat, pen: T.Pen): (ink: seq<T.Cell>)
    ensures |ink| == T.Reach(q, text)
  {
    if Utf8.Ascii(text) then T.Chars(text, pen) else T.Pieces(text, x, q.reach(text), pen)
  }

  /** The projector's promise: every glyph reaches at least one column and no more than it declares. */
  ghost predicate Fitting(q: T.Quirks, row: seq<Cell>) {
    forall x :: 0 <= x < |row| && Lead(row[x]) ==> 1 <= T.Reach(q, row[x].symbol) <= row[x].diff.width
  }

  ghost function GlyphImage(q: T.Quirks, row: seq<Cell>, g: nat): (ink: seq<T.Cell>)
    requires Tiled(row) && Fitting(q, row) && g < |row| && Lead(row[g])
  {
    Image(q, row[g].symbol, row[g].diff.width, g, PenOf(row[g]))
  }

  ghost function RowImage(q: T.Quirks, row: seq<Cell>): (image: seq<T.Cell>)
    requires Tiled(row) && Fitting(q, row)
    ensures |image| == |row|
  {
    seq(|row|, j requires 0 <= j < |row| => InGlyph(row, j); GlyphImage(q, row, LeadOf(row, j))[j - LeadOf(row, j)])
  }

  lemma ImageAt(q: T.Quirks, row: seq<Cell>, g: nat, j: nat)
    requires Tiled(row) && Fitting(q, row) && g < |row| && Lead(row[g]) && g <= j < g + row[g].diff.width
    ensures j < |row| && RowImage(q, row)[j] == GlyphImage(q, row, g)[j - g]
  {
    LeadOfGlyph(row, g, j);
  }

  /** The glyph led by column `g` occupies its own columns of the row's image. */
  lemma GlyphInRow(q: T.Quirks, row: seq<Cell>, g: nat)
    requires Tiled(row) && Fitting(q, row) && g < |row| && Lead(row[g])
    ensures g + row[g].diff.width <= |row|
    ensures RowImage(q, row)[g..g + row[g].diff.width] == GlyphImage(q, row, g)
  {
    assert WholeGlyph(row, g);
    hide RowImage, WholeGlyph, Tiled, Fitting;
    forall j | g <= j < g + row[g].diff.width ensures RowImage(q, row)[j] == GlyphImage(q, row, g)[j - g] {
      ImageAt(q, row, g, j);
    }
  }

  /** A column where a glyph of the row begins, or its end. */
  predicate Boundary(row: seq<Cell>, x: nat) {
    x <= |row| && (x < |row| ==> Lead(row[x]))
  }

  lemma GlyphWithin(row: seq<Cell>, lo: nat, hi: nat, j: nat)
    requires Tiled(row) && Boundary(row, lo) && Boundary(row, hi) && lo <= j < hi
    ensures lo <= LeadOf(row, j) && LeadOf(row, j) + row[LeadOf(row, j)].diff.width <= hi
  {
    InGlyph(row, j);
    var g := LeadOf(row, j);
    assert WholeGlyph(row, g);
    assert hi == |row| || Lead(row[hi]);
  }

  /** Between two boundaries a row's image remembers only glyphs that lie between them. */
  lemma ImageClosed(q: T.Quirks, row: seq<Cell>, lo: nat, hi: nat)
    requires Tiled(row) && Fitting(q, row) && lo <= hi && Boundary(row, lo) && Boundary(row, hi)
    ensures T.Closed(RowImage(q, row), lo, hi)
  {
    forall j | lo <= j < hi && T.Tagged(RowImage(q, row)[j])
      ensures lo <= RowImage(q, row)[j].lo && RowImage(q, row)[j].hi <= hi
    {
      GlyphWithin(row, lo, hi, j);
    }
  }

  /** Text of exactly its declared width, one ASCII byte a column. */
  predicate Exact(c: Cell) {
    c.diff.ForcedWidth? ==> Utf8.Ascii(c.symbol) && |c.symbol| == c.diff.width
  }

  /** Between two boundaries, exact glyphs leave nothing to remember. */
  lemma ImageUntagged(q: T.Quirks, row: seq<Cell>, lo: nat, hi: nat)
    requires Tiled(row) && Fitting(q, row) && lo <= hi && Boundary(row, lo) && Boundary(row, hi)
    requires forall x :: lo <= x < hi ==> Exact(row[x])
    ensures T.Untagged(RowImage(q, row), lo, hi)
  {
    forall j | lo <= j < hi ensures !T.Tagged(RowImage(q, row)[j]) {
      GlyphWithin(row, lo, hi, j);
      assert Exact(row[LeadOf(row, j)]);
    }
  }

  lemma FirstLead(row: seq<Cell>)
    requires Tiled(row)
    ensures row != [] && Lead(row[0])
  {
  }

  /** Where two rows agree up to a boundary of both, or from one on, so do their images. */
  lemma ImagesAgree(q: T.Quirks, row: seq<Cell>, prior: seq<Cell>, from: nat, to: nat)
    requires |row| == |prior| && Tiled(row) && Tiled(prior) && Fitting(q, row) && Fitting(q, prior)
    requires from <= to <= |row| && row[..from] == prior[..from] && row[to..] == prior[to..]
    requires Boundary(row, to) && Boundary(prior, to)
    ensures forall j :: 0 <= j < |row| && !(from <= j < to) ==> RowImage(q, row)[j] == RowImage(q, prior)[j]
  {
    FirstLead(row);
    hide RowImage, Fitting, Tiled;
    assert row[0..from] == row[..from] && prior[0..from] == prior[..from];
    assert row[to..|row|] == row[to..] && prior[to..|row|] == prior[to..];
    forall j | 0 <= j < |row| && !(from <= j < to) ensures RowImage(q, row)[j] == RowImage(q, prior)[j] {
      if j < from {
        SameCell(q, row, prior, 0, from, j);
      } else {
        SameCell(q, row, prior, to, |row|, j);
      }
    }
  }

  lemma SameCell(q: T.Quirks, row: seq<Cell>, prior: seq<Cell>, lo: nat, hi: nat, j: nat)
    requires |row| == |prior| && Tiled(row) && Tiled(prior) && Fitting(q, row) && Fitting(q, prior)
    requires lo <= j < hi <= |row| && Lead(row[lo]) && row[lo..hi] == prior[lo..hi]
    ensures RowImage(q, row)[j] == RowImage(q, prior)[j]
  {
    forall k | lo <= k < hi ensures row[k] == prior[k] {
      assert row[k] == row[lo..hi][k - lo] && prior[k] == prior[lo..hi][k - lo];
    }
    LeadsAgree(row, prior, lo, hi, j);
    InGlyph(row, j);
    InGlyph(prior, j);
  }

  lemma {:induction false} LeadsAgree(row: seq<Cell>, prior: seq<Cell>, lo: nat, hi: nat, j: nat)
    requires |row| == |prior| && lo <= j < hi <= |row| && Lead(row[lo])
    requires forall k :: lo <= k < hi ==> row[k] == prior[k]
    ensures LeadOf(row, j) == LeadOf(prior, j) >= lo
  {
    if Lead(row[j]) || j == lo {
    } else {
      LeadsAgree(row, prior, lo, hi, j - 1);
    }
  }

  // ----- Buffers and frames -----

  /** The sixteen named colors are the only ANSI ones. */
  predicate ColorOk(c: Frame.Color) {
    c.Ansi? ==> c.index < 16
  }

  predicate PenOk(pen: T.Pen) {
    ColorOk(pen.fg) && ColorOk(pen.bg)
  }

  ghost predicate PaintableRow(q: T.Quirks, row: seq<Cell>) {
    Tiled(row) && Fitting(q, row) && forall x :: 0 <= x < |row| && Lead(row[x]) ==> PenOk(PenOf(row[x]))
  }

  ghost predicate Paintable(q: T.Quirks, b: Buffer) {
    b.Ok() && forall y :: 0 <= y < b.rows ==> PaintableRow(q, b.content[y])
  }

  ghost function Picture(q: T.Quirks, b: Buffer): (grid: seq<seq<T.Cell>>)
    requires Paintable(q, b)
    ensures |grid| == b.rows
  {
    seq(b.rows, y requires 0 <= y < b.rows => RowImage(q, b.content[y]))
  }

  ghost predicate CursorShown(t: T.Term, c: Option<Frame.Cursor>) {
    match c
    case None => !t.shown
    case Some(c) => (t.x, t.y) == (c.x, c.y) && t.shape == Style(c.shape) && t.shown == c.visible
  }

  /** DECSCUSR codes of the steady block, bar and underscore. */
  function Style(shape: nat): nat {
    if shape == 0 then 2 else if shape == 1 then 6 else 4
  }

  /** The terminal shows exactly `p`: every cell, the requested cursor, the default pen, no update held back. */
  ghost predicate Shows(q: T.Quirks, t: T.Term, p: Painted) {
    && Paintable(q, p.buffer) && t.Ok()
    && t.columns == p.buffer.columns && t.rows == p.buffer.rows
    && t.grid == Picture(q, p.buffer)
    && CursorShown(t, p.cursor)
    && t.pen == T.DEFAULT_PEN && !t.held
  }
}
