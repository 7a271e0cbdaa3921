/**
 A terminal as the painter can know it: a grid, an SGR pen, a cursor and no autowrap.

 Two things are left to the terminal. A glyph that is not plain ASCII covers a number of columns only the terminal
 knows (`reach`) and moves the cursor by an amount only the terminal knows (`drift`). Erased cells have no dependable
 color, so they count as unpainted. A terminal remembers the columns of a non-ASCII glyph until they are erased
 together: writing over some of them spoils all the others, even those written since.
 */
module Terminal {
  import opened Bytes
  import Frame
  import Utf8

  type Color = Frame.Color

  datatype Attribute = Bold | Dim | Italic | Underlined | Reversed

  datatype Pen = Pen(fg: Color, bg: Color, modifiers: set<Attribute>)

  const DEFAULT_PEN: Pen := Pen(Frame.Default, Frame.Default, {})

  datatype Cell =
    | Char(code: byte, pen: Pen)
    | Piece(text: seq<byte>, index: nat, lo: nat, hi: nat, pen: Pen)
    | Erased
    | Wreck(lo: nat, hi: nat)

  /** What a frame sends. `Cup`, `El`, `Ech` and `Sgr` are ECMA-48 8.3.21, 8.3.41, 8.3.38 and 8.3.117. */
  datatype Op =
    | BeginUpdate
    | EndUpdate
    | Hide
    | Show
    | Shape(style: nat)
    | Cup(x: nat, y: nat)
    | El
    | Ech(count: nat)
    | Sgr(parameters: seq<nat>)
    | Text(text: seq<byte>)

  datatype Quirks = Quirks(reach: seq<byte> -> nat, drift: (seq<byte>, nat) -> nat)

  datatype Term = Term(columns: nat, rows: nat, grid: seq<seq<Cell>>, x: nat, y: nat, pen: Pen,
                       shown: bool, shape: nat, held: bool)
  {
    ghost predicate Ok() {
      && columns > 0 && rows > 0 && |grid| == rows
      && (forall r :: 0 <= r < rows ==> |grid[r]| == columns)
      && x < columns && y < rows
    }
  }

  // ----- Select graphic rendition -----

  function SgrColor(base: nat, index: nat, kept: Color): Color {
    if base <= index <= base + 7 then Frame.Ansi(index - base)
    else if base + 60 <= index <= base + 67 then Frame.Ansi(index - base - 60 + 8)
    else if index == base + 9 then Frame.Default
    else kept
  }

  function SgrAttribute(code: nat): set<Attribute> {
    if code == 1 then {Bold} else if code == 2 then {Dim} else if code == 3 then {Italic}
    else if code == 4 then {Underlined} else if code == 7 then {Reversed} else {}
  }

  /** One SGR control sequence applied to the pen. */
  function Rendition(pen: Pen, ps: seq<nat>): Pen
    decreases |ps|
  {
    if ps == [] then pen
    else if ps[0] == 0 then Rendition(DEFAULT_PEN, ps[1..])
    else if ps[0] == 38 && |ps| >= 3 && ps[1] == 5 && ps[2] < 256 then
      Rendition(pen.(fg := Frame.Indexed(ps[2])), ps[3..])
    else if ps[0] == 48 && |ps| >= 3 && ps[1] == 5 && ps[2] < 256 then
      Rendition(pen.(bg := Frame.Indexed(ps[2])), ps[3..])
    else if ps[0] == 38 && |ps| >= 5 && ps[1] == 2 && ps[2] < 256 && ps[3] < 256 && ps[4] < 256 then
      Rendition(pen.(fg := Frame.Rgb(ps[2], ps[3], ps[4])), ps[5..])
    else if ps[0] == 48 && |ps| >= 5 && ps[1] == 2 && ps[2] < 256 && ps[3] < 256 && ps[4] < 256 then
      Rendition(pen.(bg := Frame.Rgb(ps[2], ps[3], ps[4])), ps[5..])
    else
      Rendition(Pen(SgrColor(30, ps[0], pen.fg), SgrColor(40, ps[0], pen.bg), pen.modifiers + SgrAttribute(ps[0])),
                ps[1..])
  }

  // ----- Writing on a row -----

  predicate Tagged(c: Cell) {
    c.Piece? || c.Wreck?
  }

  /** Cell `k` belongs to a remembered glyph that also owns column `j`. */
  predicate Owns(c: Cell, j: nat) {
    Tagged(c) && c.lo <= j < c.hi
  }

  /** `ink` over the columns from `at`; every remembered glyph it touches is spoiled outside them. */
  ghost function Put(row: seq<Cell>, at: nat, ink: seq<Cell>): (r: seq<Cell>)
    requires at + |ink| <= |row|
    ensures |r| == |row|
  {
    seq(|row|, j requires 0 <= j < |row| =>
      if at <= j < at + |ink| then ink[j - at]
      else if k :| at <= k < at + |ink| && Owns(row[k], j) then Wreck(row[k].lo, row[k].hi)
      else row[j])
  }

  /** `ink` over untouched neighbours. */
  function Overlay(row: seq<Cell>, at: nat, ink: seq<Cell>): (r: seq<Cell>)
    requires at + |ink| <= |row|
    ensures |r| == |row|
    ensures forall j :: 0 <= j < |row| ==> r[j] == if at <= j < at + |ink| then ink[j - at] else row[j]
  {
    row[..at] + ink + row[at + |ink|..]
  }

  /** Every remembered glyph met in [lo, hi) lies inside it. */
  ghost predicate Closed(row: seq<Cell>, lo: nat, hi: nat)
    requires lo <= hi <= |row|
  {
    forall k :: lo <= k < hi && Tagged(row[k]) ==> lo <= row[k].lo && row[k].hi <= hi
  }

  ghost predicate Untagged(row: seq<Cell>, lo: nat, hi: nat)
    requires lo <= hi <= |row|
  {
    forall k :: lo <= k < hi ==> !Tagged(row[k])
  }

  /** Outside these columns every cell is as it was, or spoiled. */
  ghost predicate Spares(row: seq<Cell>, after: seq<Cell>, lo: nat, hi: nat) {
    |after| == |row| && forall j :: 0 <= j < |row| && !(lo <= j < hi) ==> after[j] == row[j] || after[j].Wreck?
  }

  lemma SparesAlso(a: seq<Cell>, b: seq<Cell>, c: seq<Cell>, lo: nat, hi: nat, from: nat, to: nat)
    requires Spares(a, b, from, to) && Spares(b, c, lo, hi) && from <= lo && hi <= to
    ensures Spares(a, c, from, to)
  {
  }

  /** Writing over whole glyphs only spoils nothing. */
  lemma PutClosed(row: seq<Cell>, at: nat, ink: seq<Cell>)
    requires at + |ink| <= |row| && Closed(row, at, at + |ink|)
    ensures Put(row, at, ink) == Overlay(row, at, ink)
  {
    forall j | 0 <= j < |row| ensures Put(row, at, ink)[j] == Overlay(row, at, ink)[j] {
    }
  }

  /** Writing over the whole row leaves nothing of it. */
  lemma PutAll(row: seq<Cell>, ink: seq<Cell>)
    requires |ink| == |row|
    ensures Put(row, 0, ink) == ink
  {
  }

  // ----- The terminal's step -----

  ghost function Mark(t: Term, ink: seq<Cell>, x: nat): (u: Term)
    requires t.Ok() && t.x + |ink| <= t.columns && x < t.columns
    ensures u.Ok()
  {
    t.(grid := t.grid[t.y := Put(t.grid[t.y], t.x, ink)], x := x)
  }

  /** ASCII text, one column a byte; without autowrap the cursor stops at the last column. */
  ghost function Type(t: Term, text: seq<byte>): (u: Term)
    requires t.Ok()
    ensures u.Ok()
    decreases |text|
  {
    if text == [] then t
    else Type(Mark(t, [Char(text[0], t.pen)], Least(t.x + 1, t.columns - 1)), text[1..])
  }

  function Pieces(text: seq<byte>, x: nat, n: nat, pen: Pen): (ink: seq<Cell>)
    ensures |ink| == n
  {
    seq(n, k requires 0 <= k < n => Piece(text, k, x, x + n, pen))
  }

  /** The columns `text` covers when there is room for it. */
  function Reach(q: Quirks, text: seq<byte>): nat {
    if Utf8.Ascii(text) then |text| else q.reach(text)
  }

  ghost function Print(q: Quirks, t: Term, text: seq<byte>): (u: Term)
    requires t.Ok()
    ensures u.Ok()
  {
    if Utf8.Ascii(text) then Type(t, text)
    else Mark(t, Pieces(text, t.x, Least(q.reach(text), t.columns - t.x), t.pen),
              Least(q.drift(text, t.x), t.columns - 1))
  }

  ghost function Step(q: Quirks, t: Term, op: Op): (u: Term)
    requires t.Ok()
    ensures u.Ok() && u.columns == t.columns && u.rows == t.rows
  {
    match op
    case BeginUpdate => t.(held := true)
    case EndUpdate => t.(held := false)
    case Hide => t.(shown := false)
    case Show => t.(shown := true)
    case Shape(style) => t.(shape := style)
    case Cup(x, y) => t.(x := Least(x, t.columns - 1), y := Least(y, t.rows - 1))
    case El => Mark(t, seq(t.columns - t.x, _ => Erased), t.x)
    case Ech(count) => Mark(t, seq(Least(count, t.columns - t.x), _ => Erased), t.x)
    case Sgr(parameters) => t.(pen := Rendition(t.pen, parameters))
    case Text(text) => PrintSize(q, t, text); Print(q, t, text)
  }

  lemma {:induction false} TypeSize(t: Term, text: seq<byte>)
    requires t.Ok()
    ensures Type(t, text).columns == t.columns && Type(t, text).rows == t.rows
    decreases |text|
  {
    if text == [] {
    } else {
      TypeSize(Mark(t, [Char(text[0], t.pen)], Least(t.x + 1, t.columns - 1)), text[1..]);
    }
  }

  lemma PrintSize(q: Quirks, t: Term, text: seq<byte>)
    requires t.Ok()
    ensures Print(q, t, text).columns == t.columns && Print(q, t, text).rows == t.rows
  {
    TypeSize(t, text);
  }

  /** Whatever the row holds, ASCII text changes that row only and moves the cursor by its length. */
  lemma {:induction false} TypeMoves(t: Term, text: seq<byte>)
    requires t.Ok()
    ensures Type(t, text).rows == t.rows
    ensures Type(t, text) ==
      t.(grid := t.grid[t.y := Type(t, text).grid[t.y]], x := Least(t.x + |text|, t.columns - 1))
    ensures t.x + |text| <= t.columns ==> Spares(t.grid[t.y], Type(t, text).grid[t.y], t.x, t.x + |text|)
    decreases |text|
  {
    if text == [] {
      assert t.grid[t.y := t.grid[t.y]] == t.grid;
    } else {
      var u := Mark(t, [Char(text[0], t.pen)], Least(t.x + 1, t.columns - 1));
      TypeMoves(u, text[1..]);
      assert t.grid[t.y := u.grid[t.y]] == u.grid;
      if |text| == 1 {
        assert text[1..] == [];
      }
    }
  }

  // ----- What clean writing leaves -----

  function Chars(text: seq<byte>, pen: Pen): (ink: seq<Cell>)
    ensures |ink| == |text|
  {
    seq(|text|, k requires 0 <= k < |text| => Char(text[k], pen))
  }

  lemma {:induction false} TypeClean(t: Term, text: seq<byte>)
    requires t.Ok() && t.x + |text| <= t.columns
    requires Untagged(t.grid[t.y], t.x, t.x + |text|)
    ensures Type(t, text) == t.(grid := t.grid[t.y := Overlay(t.grid[t.y], t.x, Chars(text, t.pen))],
                                x := Least(t.x + |text|, t.columns - 1))
    decreases |text|
  {
    var row := t.grid[t.y];
    if text == [] {
      assert Overlay(row, t.x, Chars(text, t.pen)) == row;
      assert t.grid[t.y := row] == t.grid;
    } else {
      var ink := [Char(text[0], t.pen)];
      PutClosed(row, t.x, ink);
      var u := Mark(t, ink, Least(t.x + 1, t.columns - 1));
      if |text| == 1 {
        assert text[1..] == [];
        assert Chars(text, t.pen) == ink;
      } else {
        TypeClean(u, text[1..]);
        assert Overlay(Overlay(row, t.x, ink), t.x + 1, Chars(text[1..], t.pen)) == Overlay(row, t.x, Chars(text, t.pen));
      }
    }
  }
}
