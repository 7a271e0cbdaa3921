/** The differential painter: one span a row, one pen and position tracked, and the terminal it writes to. */
module Painter {
  import opened Bytes
  import opened Screen
  import F = Frame
  import T = Terminal
  import Utf8

  // ----- The span of a row to repaint -----

  predicate Unchanged(row: seq<Cell>, prior: seq<Cell>, lo: nat, hi: nat)
    requires lo <= hi <= |row| == |prior|
  {
    row[lo..hi] == prior[lo..hi]
  }

  predicate BothBegin(row: seq<Cell>, prior: seq<Cell>, x: nat) {
    Boundary(row, x) && Boundary(prior, x)
  }

  /** The narrowest run between boundaries of both rows that holds every change, and there is one. */
  predicate SpanIs(row: seq<Cell>, prior: seq<Cell>, from: nat, to: nat) {
    && row != prior && from < to <= |row| == |prior|
    && BothBegin(row, prior, from) && BothBegin(row, prior, to)
    && Unchanged(row, prior, 0, from) && Unchanged(row, prior, to, |row|)
    && forall x :: from < x < to && BothBegin(row, prior, x) ==>
         !Unchanged(row, prior, 0, x) && !Unchanged(row, prior, x, |row|)
  }

  /** There is only one. */
  lemma OneSpan(row: seq<Cell>, prior: seq<Cell>, from: nat, to: nat, from': nat, to': nat)
    requires SpanIs(row, prior, from, to) && SpanIs(row, prior, from', to')
    ensures from == from' && to == to'
  {
    Earlier(row, prior, from, to, from', to');
    Earlier(row, prior, from', to', from, to);
  }

  lemma Earlier(row: seq<Cell>, prior: seq<Cell>, from: nat, to: nat, from': nat, to': nat)
    requires SpanIs(row, prior, from, to) && SpanIs(row, prior, from', to')
    ensures from' <= from && to <= to'
  {
    if from < from' && to <= from' {
      Apart(row, prior, to, from');
    }
    if to' < to && to' <= from {
      Apart(row, prior, to', from);
    }
  }

  /** Rows that agree before one column and from an earlier one on agree everywhere. */
  lemma Apart(row: seq<Cell>, prior: seq<Cell>, a: nat, b: nat)
    requires a <= b <= |row| == |prior| && Unchanged(row, prior, 0, b) && Unchanged(row, prior, a, |row|)
    ensures row == prior
  {
    forall k | 0 <= k < |row| ensures row[k] == prior[k] {
      if k < b {
        assert row[0..b][k] == prior[0..b][k];
      } else {
        assert row[a..|row|][k - a] == prior[a..|row|][k - a];
      }
    }
  }

  /** The columns to repaint: none when nothing changed, else the narrowest run between boundaries of both rows
      that holds every change. */
  method Span(row: seq<Cell>, prior: Option<seq<Cell>>) returns (s: Option<(nat, nat)>)
    requires Tiled(row) && (prior.Some? ==> Tiled(prior.value) && |prior.value| == |row|)
    ensures prior.None? ==> s == Some((0, |row|))
    ensures prior.Some? ==> (s.None? <==> row == prior.value)
    ensures prior.Some? && s.Some? ==> SpanIs(row, prior.value, s.value.0, s.value.1)
  {
    hide Tiled;
    if prior.None? {
      NotEmpty(row);
      return Some((0, |row|));
    }
    var was := prior.value;
    var changed := Changes(row, was);
    if changed.None? {
      return None;
    }
    var (first, last) := changed.value;
    var from: nat := first;
    while from > 0 && (row[from].diff == Skip || was[from].diff == Skip)
      invariant from <= first
      invariant forall k :: from < k <= first ==> !BothBegin(row, was, k)
    {
      from := from - 1;
    }
    var to: nat := last + 1;
    while to < |row| && (row[to].diff == Skip || was[to].diff == Skip)
      invariant last < to <= |row|
      invariant forall k :: last < k < to ==> !BothBegin(row, was, k)
    {
      to := to + 1;
    }
    UnchangedWithin(row, was, 0, first, 0, from);
    UnchangedWithin(row, was, last + 1, |row|, to, |row|);
    BothTiled(row, was, from);
    BothTiled(row, was, to);
    forall x | from < x < to && BothBegin(row, was, x)
      ensures !Unchanged(row, was, 0, x) && !Unchanged(row, was, x, |row|)
    {
      assert row[0..x][first] != was[0..x][first];
      assert row[x..|row|][last - x] != was[x..|row|][last - x];
    }
    return Some((from, to));
  }

  lemma UnchangedWithin(row: seq<Cell>, prior: seq<Cell>, lo: nat, hi: nat, a: nat, b: nat)
    requires lo <= a <= b <= hi <= |row| == |prior| && Unchanged(row, prior, lo, hi)
    ensures Unchanged(row, prior, a, b)
  {
    forall k | a <= k < b ensures row[k] == prior[k] {
      assert row[lo..hi][k - lo] == prior[lo..hi][k - lo];
    }
  }

  lemma NotEmpty(row: seq<Cell>)
    requires Tiled(row)
    ensures row != []
  {
  }

  lemma BothTiled(row: seq<Cell>, was: seq<Cell>, x: nat)
    requires Tiled(row) && Tiled(was) && |row| == |was| && x <= |row|
    requires x == 0 || x == |row| || !(row[x].diff == Skip || was[x].diff == Skip)
    ensures BothBegin(row, was, x)
  {
  }

  /** The first and the last changed column. */
  method Changes(row: seq<Cell>, was: seq<Cell>) returns (s: Option<(nat, nat)>)
    requires |row| == |was|
    ensures s.None? <==> row == was
    ensures s.Some? ==>
      && s.value.0 <= s.value.1 < |row|
      && row[s.value.0] != was[s.value.0] && row[s.value.1] != was[s.value.1]
      && Unchanged(row, was, 0, s.value.0) && Unchanged(row, was, s.value.1 + 1, |row|)
  {
    var first := 0;
    while first < |row| && row[first] == was[first]
      invariant first <= |row| && forall k :: 0 <= k < first ==> row[k] == was[k]
    {
      first := first + 1;
    }
    if first == |row| {
      assert row == was;
      return None;
    }
    var last := |row| - 1;
    while row[last] == was[last]
      invariant first <= last < |row| && forall k :: last < k < |row| ==> row[k] == was[k]
      decreases last
    {
      last := last - 1;
    }
    return Some((first, last));
  }

  // ----- The writer -----

  /** The byte stream to one terminal. `room` is how many more writes it takes before failing; a failed write
      leaves the terminal in any state at all. */
  class Wire {
    ghost const quirks: T.Quirks
    ghost var term: T.Term
    var ops: seq<T.Op>
    var columns: nat
    var rows: nat
    var room: nat
    var flushes: bool

    /** `columns` and `rows` are what the terminal reports as its size. */
    ghost predicate Valid()
      reads this
    {
      term.Ok() && columns == term.columns && rows == term.rows
    }

    constructor (ghost quirks: T.Quirks, ghost term: T.Term, columns: nat, rows: nat, room: nat, flushes: bool)
      requires term.Ok() && columns == term.columns && rows == term.rows
      ensures Valid() && this.quirks == quirks && this.term == term && ops == []
      ensures this.room == room && this.flushes == flushes
    {
      this.quirks := quirks;
      this.term := term;
      this.columns := columns;
      this.rows := rows;
      this.ops := [];
      this.room := room;
      this.flushes := flushes;
    }

    method Send(op: T.Op) returns (io: Io)
      requires Valid()
      modifies this
      ensures Valid() && term.columns == old(term.columns) && term.rows == old(term.rows)
      ensures io.Done? <==> old(room) > 0
      ensures io.Done? ==> term == T.Step(quirks, old(term), op) && ops == old(ops) + [op]
      ensures room == (if io.Done? then old(room) - 1 else 0) && flushes == old(flushes)
    {
      if room == 0 {
        ghost var torn: T.Term :| torn.Ok() && torn.columns == term.columns && torn.rows == term.rows;
        term := torn;
        return Failed;
      }
      room := room - 1;
      ops := ops + [op];
      term := T.Step(quirks, term, op);
      return Done;
    }

    /** Something other than the painter decides what the terminal holds, and its size. */
    method Overwritten(ghost term': T.Term, columns': nat, rows': nat)
      requires term'.Ok() && columns' == term'.columns && rows' == term'.rows
      modifies this
      ensures Valid() && term == term' && room == old(room) && flushes == old(flushes) && ops == old(ops)
    {
      term, columns, rows := term', columns', rows';
    }

    /** How the next writes will go. */
    method Fate(room': nat, flushes': bool)
      requires Valid()
      modifies this
      ensures Valid() && term == old(term) && room == room' && flushes == flushes' && ops == old(ops)
    {
      room, flushes := room', flushes';
    }

    method Flush() returns (io: Io)
      requires Valid()
      modifies this
      ensures Valid() && term.columns == old(term.columns) && term.rows == old(term.rows)
      ensures (io.Done? <==> flushes) && flushes == old(flushes) && room == old(room) && ops == old(ops)
      ensures io.Done? ==> term == old(term)
    {
      if !flushes {
        ghost var torn: T.Term :| torn.Ok() && torn.columns == term.columns && torn.rows == term.rows;
        term := torn;
        return Failed;
      }
      return Done;
    }
  }

  // ----- The pen and the position -----

  const MODIFIERS: seq<(T.Attribute, nat)> := [(T.Bold, 1), (T.Dim, 2), (T.Italic, 3), (T.Underlined, 4), (T.Reversed, 7)]

  function ColorParameters(color: F.Color, foreground: bool): seq<nat> {
    var base := if foreground then 38 else 48;
    match color
    case Default => [base + 1]
    case Indexed(i) => [base, 5, i]
    case Rgb(r, g, b) => [base, 2, r, g, b]
    case Ansi(i) =>
      [(if i < 8 then 30 + i else 90 + i - 8) + if foreground then 0 else 10]
  }

  /** Each color sequence sets that color and nothing else. */
  lemma ColorRendition(pen: T.Pen, color: F.Color, foreground: bool)
    requires ColorOk(color)
    ensures T.Rendition(pen, ColorParameters(color, foreground)) ==
            if foreground then pen.(fg := color) else pen.(bg := color)
  {
    var ps := ColorParameters(color, foreground);
    assert ps[|ps|..] == [];
    assert T.Rendition(pen, []) == pen;
    assert pen.modifiers + {} == pen.modifiers;
  }

  /** What the terminal is known to hold while one frame is written. */
  class Pencil {
    var pen: Option<T.Pen>
    var at: Option<(nat, nat)>

    constructor ()
      ensures pen == None && at == None
    {
      pen, at := None, None;
    }

    ghost predicate Agrees(t: T.Term)
      reads this
    {
      && (pen.Some? ==> t.pen == pen.value)
      && (at.Some? ==> (t.x, t.y) == at.value)
    }
  }

  method Color(wire: Wire, color: F.Color, foreground: bool) returns (io: Io)
    requires wire.Valid() && ColorOk(color)
    modifies wire
    ensures wire.Valid() && wire.term.columns == old(wire.term.columns) && wire.term.rows == old(wire.term.rows)
    ensures wire.flushes == old(wire.flushes) && (io.Failed? ==> wire.room == 0)
    ensures io.Done? ==> wire.term == old(wire.term).(pen :=
      if foreground then old(wire.term.pen).(fg := color) else old(wire.term.pen).(bg := color))
  {
    ColorRendition(wire.term.pen, color, foreground);
    io := wire.Send(T.Sgr(ColorParameters(color, foreground)));
  }

  lemma AttributeRendition(pen: T.Pen, i: nat)
    requires i < |MODIFIERS|
    ensures T.Rendition(pen, [MODIFIERS[i].1]) == pen.(modifiers := pen.modifiers + {MODIFIERS[i].0})
  {
    assert [MODIFIERS[i].1][1..] == [];
  }

  method Modifiers(wire: Wire, set_: set<T.Attribute>) returns (io: Io)
    requires wire.Valid()
    modifies wire
    ensures wire.Valid() && wire.term.columns == old(wire.term.columns) && wire.term.rows == old(wire.term.rows)
    ensures wire.flushes == old(wire.flushes) && (io.Failed? ==> wire.room == 0)
    ensures io.Done? ==>
      wire.term == old(wire.term).(pen := old(wire.term.pen).(modifiers := old(wire.term.pen.modifiers) + set_))
  {
    ghost var base := wire.term;
    for i := 0 to |MODIFIERS|
      invariant wire.Valid() && wire.flushes == old(wire.flushes)
      invariant wire.term == base.(pen := base.pen.(modifiers := base.pen.modifiers + (set_ * Named(i))))
    {
      if MODIFIERS[i].0 in set_ {
        AttributeRendition(wire.term.pen, i);
        :- wire.Send(T.Sgr([MODIFIERS[i].1]));
      }
      assert set_ * Named(i + 1) == set_ * Named(i) + (if MODIFIERS[i].0 in set_ then {MODIFIERS[i].0} else {});
    }
    AllNamed();
    assert set_ * Named(5) == set_;
    return Done;
  }

  lemma AllNamed()
    ensures forall a: T.Attribute :: a in Named(5)
  {
    assert Named(2) == {T.Bold, T.Dim};
    assert Named(4) == {T.Bold, T.Dim, T.Italic, T.Underlined};
    assert Named(5) == Named(4) + {T.Reversed};
    forall a: T.Attribute ensures a in Named(5) {
      match a
      case Bold =>
      case Dim =>
      case Italic =>
      case Underlined =>
      case Reversed =>
    }
  }

  function Named(i: nat): set<T.Attribute>
    requires i <= |MODIFIERS|
  {
    if i == 0 then {} else Named(i - 1) + {MODIFIERS[i - 1].0}
  }

  /** Puts the terminal's pen to `pen`, writing only what differs. */
  method SetPen(wire: Wire, pencil: Pencil, pen: T.Pen) returns (io: Io)
    requires wire.Valid() && pencil.Agrees(wire.term) && PenOk(pen)
    modifies wire, pencil
    ensures wire.Valid() && wire.term.columns == old(wire.term.columns) && wire.term.rows == old(wire.term.rows)
    ensures wire.flushes == old(wire.flushes) && (io.Failed? ==> wire.room == 0)
    ensures io.Done? ==> wire.term == old(wire.term).(pen := pen)
    ensures io.Done? ==> pencil.pen == Some(pen) && pencil.at == old(pencil.at) && pencil.Agrees(wire.term)
  {
    match pencil.pen {
      case Some(current) =>
        if current == pen {
          return Done;
        } else if current.modifiers <= pen.modifiers {
          if current.fg != pen.fg {
            :- Color(wire, pen.fg, true);
          }
          if current.bg != pen.bg {
            :- Color(wire, pen.bg, false);
          }
          :- Modifiers(wire, pen.modifiers - current.modifiers);
          assert current.modifiers + (pen.modifiers - current.modifiers) == pen.modifiers;
        } else {
          :- FreshPen(wire, pen);
        }
      case None =>
        :- FreshPen(wire, pen);
    }
    pencil.pen := Some(pen);
    return Done;
  }

  method Reset(wire: Wire) returns (io: Io)
    requires wire.Valid()
    modifies wire
    ensures wire.Valid() && wire.term.columns == old(wire.term.columns) && wire.term.rows == old(wire.term.rows)
    ensures wire.flushes == old(wire.flushes) && (io.Failed? ==> wire.room == 0)
    ensures io.Done? ==> wire.term == old(wire.term).(pen := T.DEFAULT_PEN)
  {
    assert [0][1..] == [];
    io := wire.Send(T.Sgr([0]));
  }

  /** From a reset: SGR has no off for each attribute alone. */
  method FreshPen(wire: Wire, pen: T.Pen) returns (io: Io)
    requires wire.Valid() && PenOk(pen)
    modifies wire
    ensures wire.Valid() && wire.term.columns == old(wire.term.columns) && wire.term.rows == old(wire.term.rows)
    ensures wire.flushes == old(wire.flushes) && (io.Failed? ==> wire.room == 0)
    ensures io.Done? ==> wire.term == old(wire.term).(pen := pen)
  {
    io := Reset(wire);
    if io.Failed? {
      return;
    }
    if pen.fg != F.Default {
      :- Color(wire, pen.fg, true);
    }
    if pen.bg != F.Default {
      :- Color(wire, pen.bg, false);
    }
    :- Modifiers(wire, pen.modifiers);
    assert {} + pen.modifiers == pen.modifiers;
    return Done;
  }

  method MoveTo(wire: Wire, pencil: Pencil, x: nat, y: nat) returns (io: Io)
    requires wire.Valid() && pencil.Agrees(wire.term) && x < wire.term.columns && y < wire.term.rows
    modifies wire, pencil`at
    ensures wire.Valid() && wire.term.columns == old(wire.term.columns) && wire.term.rows == old(wire.term.rows)
    ensures wire.flushes == old(wire.flushes) && (io.Failed? ==> wire.room == 0)
    ensures io.Done? ==> wire.term == old(wire.term).(x := x, y := y)
    ensures io.Done? ==> pencil.at == Some((x, y)) && pencil.Agrees(wire.term)
  {
    if pencil.at != Some((x, y)) {
      :- wire.Send(T.Cup(x, y));
      pencil.at := Some((x, y));
    }
    return Done;
  }

  lemma AsciiSpaces(n: nat)
    ensures Utf8.Ascii(Spaces(n))
  {
  }

  lemma OverBlank(q: T.Quirks, row: seq<T.Cell>, x: nat, width: nat, text: seq<byte>, pen: T.Pen)
    requires x + width <= |row| && T.Reach(q, text) <= width
    ensures T.Overlay(T.Overlay(row, x, T.Chars(Spaces(width), pen)), x, Ink(q, text, x, pen))
         == T.Overlay(row, x, Image(q, text, width, x, pen))
  {
  }

  /** Text on clean columns covers exactly its reach; on any others only that row changes and ASCII moves the cursor
      by its length. */
  method Write(wire: Wire, text: seq<byte>) returns (io: Io)
    requires wire.Valid() && wire.term.x + T.Reach(wire.quirks, text) <= wire.term.columns
    modifies wire
    ensures wire.Valid() && wire.term.columns == old(wire.term.columns) && wire.term.rows == old(wire.term.rows)
    ensures wire.flushes == old(wire.flushes) && (io.Failed? ==> wire.room == 0)
    ensures io.Done? ==> OneRow(old(wire.term), wire.term, old(wire.term.y)) && wire.term.pen == old(wire.term.pen)
    ensures io.Done? ==> wire.term.y == old(wire.term.y)
    ensures io.Done? ==> T.Spares(old(wire.term.grid[wire.term.y]), wire.term.grid[wire.term.y], old(wire.term.x),
                                  old(wire.term.x) + T.Reach(wire.quirks, text))
    ensures io.Done? && Utf8.Ascii(text) ==> wire.term.x == Least(old(wire.term.x) + |text|, wire.term.columns - 1)
    ensures io.Done? && old(Clear(wire.term, wire.term.x, wire.term.y, T.Reach(wire.quirks, text))) ==>
      var t := old(wire.term);
      wire.term.grid[t.y] == T.Overlay(t.grid[t.y], t.x, Ink(wire.quirks, text, t.x, t.pen))
  {
    if Utf8.Ascii(text) {
      T.TypeMoves(wire.term, text);
      if Clear(wire.term, wire.term.x, wire.term.y, |text|) {
        T.TypeClean(wire.term, text);
      }
    } else if Clear(wire.term, wire.term.x, wire.term.y, wire.quirks.reach(text)) {
      T.PutClosed(wire.term.grid[wire.term.y], wire.term.x, Ink(wire.quirks, text, wire.term.x, wire.term.pen));
    }
    io := wire.Send(T.Text(text));
  }

  /** Nothing but row `y`, the pen and the cursor differs. */
  ghost predicate OneRow(t: T.Term, u: T.Term, y: nat) {
    && t.Ok() && u.Ok() && y < t.rows && u.rows == t.rows
    && u == t.(grid := t.grid[y := u.grid[y]], pen := u.pen, x := u.x, y := u.y)
  }

  lemma OneRowAlso(t: T.Term, u: T.Term, v: T.Term, y: nat)
    requires OneRow(t, u, y) && OneRow(u, v, y)
    ensures OneRow(t, v, y)
  {
    assert t.grid[y := u.grid[y]][y := v.grid[y]] == t.grid[y := v.grid[y]];
  }

  /** No remembered glyph in these columns. */
  ghost predicate Clear(t: T.Term, x: nat, y: nat, width: nat)
    requires t.Ok() && x + width <= t.columns && y < t.rows
  {
    T.Untagged(t.grid[y], x, x + width)
  }

  /** One glyph; an uncertain one reserves its columns first and leaves the position unknown. Over clean columns it
      leaves its own image. */
  method Glyph(wire: Wire, pencil: Pencil, x: nat, y: nat, width: nat, columns: nat, cell: Cell) returns (io: Io)
    requires wire.Valid() && pencil.Agrees(wire.term) && Lead(cell) && width == cell.diff.width
    requires columns == wire.term.columns && x + width <= columns && y < wire.term.rows
    requires PenOk(PenOf(cell)) && 1 <= T.Reach(wire.quirks, cell.symbol) <= width
    modifies wire, pencil
    ensures wire.Valid() && wire.term.columns == old(wire.term.columns) && wire.term.rows == old(wire.term.rows)
    ensures wire.flushes == old(wire.flushes) && (io.Failed? ==> wire.room == 0)
    ensures io.Done? ==> pencil.Agrees(wire.term) && pencil.pen == Some(PenOf(cell)) && wire.term.y == y
    ensures io.Done? ==> OneRow(old(wire.term), wire.term, y)
    ensures io.Done? ==> T.Spares(old(wire.term.grid[y]), wire.term.grid[y], x, x + width)
    ensures io.Done? && old(Clear(wire.term, x, y, width)) ==>
      wire.term.grid[y] == T.Overlay(old(wire.term.grid)[y], x, Image(wire.quirks, cell.symbol, width, x, PenOf(cell)))
  {
    hide Image, Ink, T.Overlay, T.Step, OneRow, T.Spares, Clear;
    ghost var t := wire.term;
    :- Aim(wire, pencil, PenOf(cell), x, y);
    ghost var u := wire.term;
    PenMoved(t, u, x, y, width);
    var certain := Exact(cell);
    if !certain && width > 1 {
      :- Reserve(wire, pencil, x, y, width);
      OneRowAlso(t, u, wire.term, y);
      OverBlank(wire.quirks, u.grid[y], x, width, cell.symbol, PenOf(cell));
    } else {
      WholeImage(wire.quirks, cell.symbol, width, x, PenOf(cell));
    }
    ghost var v := wire.term;
    Narrower(v, x, y, T.Reach(wire.quirks, cell.symbol), width);
    :- Write(wire, cell.symbol);
    OneRowAlso(t, v, wire.term, y);
    T.SparesAlso(t.grid[y], v.grid[y], wire.term.grid[y], x, x + T.Reach(wire.quirks, cell.symbol), x, x + width);
    var end := x + width;
    pencil.at := if certain && end < columns then Some((end, y)) else None;
    return Done;
  }

  /** The pen and the place of the next text. */
  method Aim(wire: Wire, pencil: Pencil, pen: T.Pen, x: nat, y: nat) returns (io: Io)
    requires wire.Valid() && pencil.Agrees(wire.term) && PenOk(pen) && x < wire.term.columns && y < wire.term.rows
    modifies wire, pencil
    ensures wire.Valid() && wire.term.columns == old(wire.term.columns) && wire.term.rows == old(wire.term.rows)
    ensures wire.flushes == old(wire.flushes) && (io.Failed? ==> wire.room == 0)
    ensures io.Done? ==> wire.term == old(wire.term).(pen := pen, x := x, y := y)
    ensures io.Done? ==> pencil.pen == Some(pen) && pencil.at == Some((x, y)) && pencil.Agrees(wire.term)
  {
    io := SetPen(wire, pencil, pen);
    if io.Done? {
      io := MoveTo(wire, pencil, x, y);
    }
  }

  lemma PenMoved(t: T.Term, u: T.Term, x: nat, y: nat, width: nat)
    requires t.Ok() && u.Ok() && u == t.(pen := u.pen, x := u.x, y := u.y) && y < t.rows && x + width <= t.columns
    ensures OneRow(t, u, y) && T.Spares(t.grid[y], u.grid[y], x, x + width)
    ensures Clear(t, x, y, width) == Clear(u, x, y, width)
  {
    assert t.grid[y := t.grid[y]] == t.grid;
  }

  lemma Narrower(t: T.Term, x: nat, y: nat, reach: nat, width: nat)
    requires t.Ok() && x + width <= t.columns && reach <= width && y < t.rows
    ensures Clear(t, x, y, width) ==> Clear(t, x, y, reach)
  {
  }

  /** Spaces in the current pen over the declared columns, and back to the first of them. */
  method Reserve(wire: Wire, pencil: Pencil, x: nat, y: nat, width: nat) returns (io: Io)
    requires wire.Valid() && pencil.Agrees(wire.term) && pencil.at == Some((x, y)) && x + width <= wire.term.columns
    modifies wire, pencil`at
    ensures wire.Valid() && wire.term.columns == old(wire.term.columns) && wire.term.rows == old(wire.term.rows)
    ensures wire.flushes == old(wire.flushes) && (io.Failed? ==> wire.room == 0)
    ensures io.Done? ==> pencil.Agrees(wire.term) && (wire.term.x, wire.term.y) == (x, y)
    ensures io.Done? ==> OneRow(old(wire.term), wire.term, y) && wire.term.pen == old(wire.term.pen)
    ensures io.Done? ==> T.Spares(old(wire.term.grid[y]), wire.term.grid[y], x, x + width)
    ensures io.Done? && old(Clear(wire.term, x, y, width)) ==>
      && Clear(wire.term, x, y, width)
      && wire.term.grid[y] == T.Overlay(old(wire.term.grid)[y], x, T.Chars(Spaces(width), old(wire.term.pen)))
  {
    AsciiSpaces(width);
    :- Write(wire, Spaces(width));
    pencil.at := None;
    :- MoveTo(wire, pencil, x, y);
    return Done;
  }

  lemma WholeImage(q: T.Quirks, text: seq<byte>, width: nat, x: nat, pen: T.Pen)
    requires T.Reach(q, text) == width
    ensures Image(q, text, width, x, pen) == Ink(q, text, x, pen)
  {
  }

  // ----- One row -----

  /** A row of the terminal while its span is repainted: finished outside [x, to), clean inside. */
  ghost predicate RowReady(shown: seq<T.Cell>, target: seq<T.Cell>, x: nat, to: nat) {
    && |shown| == |target| && x <= to <= |shown|
    && (forall j :: 0 <= j < |shown| && !(x <= j < to) ==> shown[j] == target[j])
    && T.Untagged(shown, x, to)
  }

  /** The span of a row to repaint: all of it, or what `Span` found. */
  ghost predicate SpanOf(q: T.Quirks, row: seq<Cell>, prior: Option<seq<Cell>>, from: nat, to: nat) {
    && PaintableRow(q, row) && from < to <= |row|
    && Boundary(row, from) && Boundary(row, to)
    && (prior.None? ==> from == 0 && to == |row|)
    && (prior.Some? ==> PaintableRow(q, prior.value) && SpanIs(row, prior.value, from, to))
  }

  /** No remembered glyph of the row lies partly in the span, and where nothing will be erased there is none at all. */
  ghost predicate CleanSpan(prior: Option<seq<Cell>>, shown: seq<T.Cell>, from: nat, to: nat)
    requires from <= to <= |shown| && (prior.Some? ==> |prior.value| == |shown|)
  {
    prior.Some? ==>
      && T.Closed(shown, from, to)
      && ((forall x :: from <= x < to ==> Exact(prior.value[x])) ==> T.Untagged(shown, from, to))
  }

  /** The row with its span repainted. */
  ghost function Target(q: T.Quirks, row: seq<Cell>, shown: seq<T.Cell>, from: nat, to: nat): (r: seq<T.Cell>)
    requires PaintableRow(q, row) && from <= to <= |row| == |shown|
    ensures |r| == |shown|
  {
    T.Overlay(shown, from, RowImage(q, row)[from..to])
  }

  lemma TargetAt(q: T.Quirks, row: seq<Cell>, shown: seq<T.Cell>, from: nat, to: nat)
    requires PaintableRow(q, row) && from <= to <= |row| == |shown|
    ensures forall j :: 0 <= j < |row| ==>
      Target(q, row, shown, from, to)[j] == if from <= j < to then RowImage(q, row)[j] else shown[j]
  {
    hide RowImage, Tiled;
    var image := RowImage(q, row);
    assert forall j :: from <= j < to ==> image[from..to][j - from] == image[j];
  }

  /** A row that shows the prior image is clean, and right outside the span. */
  lemma SpanOutside(q: T.Quirks, row: seq<Cell>, prior: seq<Cell>, from: nat, to: nat)
    requires SpanOf(q, row, Some(prior), from, to)
    ensures CleanSpan(Some(prior), RowImage(q, prior), from, to)
    ensures Target(q, row, RowImage(q, prior), from, to) == RowImage(q, row)
  {
    hide RowImage, Tiled, Fitting;
    assert row[..from] == row[0..from] && prior[..from] == prior[0..from];
    assert row[to..] == row[to..|row|] && prior[to..] == prior[to..|row|];
    ImagesAgree(q, row, prior, from, to);
    ImageClosed(q, prior, from, to);
    if forall x :: from <= x < to ==> Exact(prior[x]) {
      ImageUntagged(q, prior, from, to);
    }
    TargetAt(q, row, RowImage(q, prior), from, to);
  }

  function Blank(n: nat): (ink: seq<T.Cell>)
    ensures |ink| == n
  {
    seq(n, _ => T.Erased)
  }

  lemma EraseLine(q: T.Quirks, t: T.Term)
    requires t.Ok() && t.x == 0
    ensures T.Step(q, t, T.El) == t.(grid := t.grid[t.y := Blank(t.columns)])
  {
    T.PutAll(t.grid[t.y], Blank(t.columns));
    assert seq(t.columns - t.x, _ => T.Erased) == Blank(t.columns);
  }

  lemma EraseSpan(q: T.Quirks, t: T.Term, n: nat)
    requires t.Ok() && t.x + n <= t.columns
    ensures T.Step(q, t, T.Ech(n)) == t.(grid := t.grid[t.y := T.Step(q, t, T.Ech(n)).grid[t.y]])
    ensures T.Closed(t.grid[t.y], t.x, t.x + n) ==>
      T.Step(q, t, T.Ech(n)).grid[t.y] == T.Overlay(t.grid[t.y], t.x, Blank(n))
    ensures T.Spares(t.grid[t.y], T.Step(q, t, T.Ech(n)).grid[t.y], t.x, t.x + n)
  {
    assert seq(n, _ => T.Erased) == Blank(n);
    if T.Closed(t.grid[t.y], t.x, t.x + n) {
      T.PutClosed(t.grid[t.y], t.x, Blank(n));
    }
  }

  /** Makes the span clean: the whole line on a full repaint, else the span when it held an uncertain glyph. */
  method Erase(wire: Wire, pencil: Pencil, ghost row: seq<Cell>, prior: Option<seq<Cell>>, y: nat, from: nat, to: nat)
    returns (io: Io)
    requires wire.Valid() && pencil.Agrees(wire.term) && y < wire.term.rows && |row| == wire.term.columns
    requires SpanOf(wire.quirks, row, prior, from, to)
    modifies wire, pencil
    ensures wire.Valid() && wire.term.columns == old(wire.term.columns) && wire.term.rows == old(wire.term.rows)
    ensures wire.flushes == old(wire.flushes) && (io.Failed? ==> wire.room == 0)
    ensures io.Done? ==> pencil.Agrees(wire.term) && OneRow(old(wire.term), wire.term, y)
    ensures io.Done? ==> T.Spares(old(wire.term.grid[y]), wire.term.grid[y], from, to)
    ensures io.Done? && old(CleanSpan(prior, wire.term.grid[y], from, to)) ==>
      RowReady(wire.term.grid[y], Target(wire.quirks, row, old(wire.term.grid)[y], from, to), from, to)
  {
    TargetAt(wire.quirks, row, wire.term.grid[y], from, to);
    match prior {
      case None =>
        io := EraseRow(wire, pencil, y);
      case Some(was) =>
        io := EraseColumns(wire, pencil, was, y, from, to);
    }
  }

  method EraseRow(wire: Wire, pencil: Pencil, y: nat) returns (io: Io)
    requires wire.Valid() && pencil.Agrees(wire.term) && y < wire.term.rows
    modifies wire, pencil
    ensures wire.Valid() && wire.term.columns == old(wire.term.columns) && wire.term.rows == old(wire.term.rows)
    ensures wire.flushes == old(wire.flushes) && (io.Failed? ==> wire.room == 0)
    ensures io.Done? ==> pencil.Agrees(wire.term) && OneRow(old(wire.term), wire.term, y)
    ensures io.Done? ==> wire.term.grid[y] == Blank(wire.term.columns)
  {
    io := SetPen(wire, pencil, T.DEFAULT_PEN);
    if io.Failed? {
      return;
    }
    :- MoveTo(wire, pencil, 0, y);
    EraseLine(wire.quirks, wire.term);
    :- wire.Send(T.El);
    return Done;
  }

  method EraseColumns(wire: Wire, pencil: Pencil, was: seq<Cell>, y: nat, from: nat, to: nat) returns (io: Io)
    requires wire.Valid() && pencil.Agrees(wire.term) && y < wire.term.rows
    requires from < to <= wire.term.columns == |was|
    modifies wire, pencil
    ensures wire.Valid() && wire.term.columns == old(wire.term.columns) && wire.term.rows == old(wire.term.rows)
    ensures wire.flushes == old(wire.flushes) && (io.Failed? ==> wire.room == 0)
    ensures io.Done? ==> pencil.Agrees(wire.term) && OneRow(old(wire.term), wire.term, y)
    ensures io.Done? ==> T.Spares(old(wire.term.grid[y]), wire.term.grid[y], from, to)
    ensures io.Done? && old(CleanSpan(Some(was), wire.term.grid[y], from, to)) ==>
      && T.Untagged(wire.term.grid[y], from, to)
      && forall j :: 0 <= j < wire.term.columns && !(from <= j < to) ==>
           wire.term.grid[y][j] == old(wire.term.grid)[y][j]
  {
    var uncertain := exists x :: from <= x < to && !Exact(was[x]);
    if uncertain {
      io := EraseAt(wire, pencil, y, from, to);
    } else {
      assert wire.term.grid[y := wire.term.grid[y]] == wire.term.grid;
      io := Done;
    }
  }

  method EraseAt(wire: Wire, pencil: Pencil, y: nat, from: nat, to: nat) returns (io: Io)
    requires wire.Valid() && pencil.Agrees(wire.term) && y < wire.term.rows && from < to <= wire.term.columns
    modifies wire, pencil
    ensures wire.Valid() && wire.term.columns == old(wire.term.columns) && wire.term.rows == old(wire.term.rows)
    ensures wire.flushes == old(wire.flushes) && (io.Failed? ==> wire.room == 0)
    ensures io.Done? ==> pencil.Agrees(wire.term) && OneRow(old(wire.term), wire.term, y)
    ensures io.Done? ==> T.Spares(old(wire.term.grid[y]), wire.term.grid[y], from, to)
    ensures io.Done? && old(T.Closed(wire.term.grid[y], from, to)) ==>
      wire.term.grid[y] == T.Overlay(old(wire.term.grid)[y], from, Blank(to - from))
  {
    io := MoveTo(wire, pencil, from, y);
    if io.Failed? {
      return;
    }
    EraseSpan(wire.quirks, wire.term, to - from);
    :- wire.Send(T.Ech(to - from));
    return Done;
  }

  /** The glyph led by `x` lies inside the span and ends where the next one begins. */
  lemma GlyphBounds(q: T.Quirks, row: seq<Cell>, x: nat, to: nat)
    requires PaintableRow(q, row) && Boundary(row, to) && x < to <= |row| && Lead(row[x])
    ensures 1 <= row[x].diff.width && x + row[x].diff.width <= to && Boundary(row, x + row[x].diff.width)
    ensures 1 <= T.Reach(q, row[x].symbol) <= row[x].diff.width && PenOk(PenOf(row[x]))
  {
    GlyphWithin(row, x, to, x);
    assert WholeGlyph(row, x);
  }

  /** Its image over clean columns takes the row one glyph further. */
  lemma GlyphInSpan(q: T.Quirks, row: seq<Cell>, shown: seq<T.Cell>, target: seq<T.Cell>, from: nat, x: nat, to: nat)
    requires PaintableRow(q, row) && Boundary(row, to) && from <= x < to <= |row| == |target| && Lead(row[x])
    requires forall j :: from <= j < to ==> target[j] == RowImage(q, row)[j]
    requires RowReady(shown, target, x, to) && x + row[x].diff.width <= to
    requires T.Reach(q, row[x].symbol) <= row[x].diff.width
    ensures var w := row[x].diff.width;
      && T.Untagged(shown, x, x + w)
      && RowReady(T.Overlay(shown, x, Image(q, row[x].symbol, w, x, PenOf(row[x]))), target, x + w, to)
  {
    hide RowImage, Image;
    GlyphInRow(q, row, x);
    var w := row[x].diff.width;
    var painted := T.Overlay(shown, x, Image(q, row[x].symbol, w, x, PenOf(row[x])));
    forall j | x <= j < x + w ensures painted[j] == target[j] {
      assert RowImage(q, row)[x..x + w][j - x] == RowImage(q, row)[j];
    }
  }

  /** Repaints one span: only that row, the pen and the cursor change, and over a clean span the row is afterwards the
      image inside it and what it was outside. */
  method PaintSpan(wire: Wire, pencil: Pencil, row: seq<Cell>, prior: Option<seq<Cell>>, y: nat, from: nat, to: nat)
    returns (io: Io)
    requires wire.Valid() && pencil.Agrees(wire.term) && y < wire.term.rows && |row| == wire.term.columns
    requires SpanOf(wire.quirks, row, prior, from, to)
    modifies wire, pencil
    ensures wire.Valid() && wire.term.columns == old(wire.term.columns) && wire.term.rows == old(wire.term.rows)
    ensures wire.flushes == old(wire.flushes) && (io.Failed? ==> wire.room == 0)
    ensures io.Done? ==> pencil.Agrees(wire.term) && pencil.pen.Some?
    ensures io.Done? ==> OneRow(old(wire.term), wire.term, y)
    ensures io.Done? ==> T.Spares(old(wire.term.grid[y]), wire.term.grid[y], from, to)
    ensures io.Done? && old(CleanSpan(prior, wire.term.grid[y], from, to)) ==>
      wire.term.grid[y] == Target(wire.quirks, row, old(wire.term.grid)[y], from, to)
  {
    hide RowImage, Tiled, Image, Exact, Target, CleanSpan, OneRow, T.Spares, RowReady, T.Overlay;
    ghost var t, clean := wire.term, CleanSpan(prior, wire.term.grid[y], from, to);
    ghost var target := Target(wire.quirks, row, wire.term.grid[y], from, to);
    TargetAt(wire.quirks, row, wire.term.grid[y], from, to);
    :- Erase(wire, pencil, row, prior, y, from, to);
    var x := from;
    while x < to
      invariant from <= x <= to && (x < to ==> Lead(row[x])) && (x > from ==> pencil.pen.Some?)
      invariant wire.Valid() && pencil.Agrees(wire.term) && wire.flushes == old(wire.flushes)
      invariant wire.term.columns == t.columns && wire.term.rows == t.rows && OneRow(t, wire.term, y)
      invariant T.Spares(t.grid[y], wire.term.grid[y], from, to)
      invariant clean ==> RowReady(wire.term.grid[y], target, x, to)
    {
      var width := row[x].diff.width;
      GlyphBounds(wire.quirks, row, x, to);
      if clean {
        GlyphInSpan(wire.quirks, row, wire.term.grid[y], target, from, x, to);
      }
      ghost var u := wire.term;
      :- Glyph(wire, pencil, x, y, width, |row|, row[x]);
      OneRowAlso(t, u, wire.term, y);
      T.SparesAlso(t.grid[y], u.grid[y], wire.term.grid[y], x, x + width, from, to);
      x := x + width;
    }
    if clean {
      RowFinished(wire.term.grid[y], target, to);
    }
    return Done;
  }

  lemma RowFinished(shown: seq<T.Cell>, target: seq<T.Cell>, to: nat)
    requires RowReady(shown, target, to, to)
    ensures shown == target
  {
  }

  // ----- One frame -----

  /** What the painter retains is what the terminal shows, if it has the terminal's size. */
  ghost predicate Knows(q: T.Quirks, t: T.Term, previous: Option<Painted>) {
    previous.Some? && SameSize(previous.value.buffer, t.columns, t.rows) ==> Shows(q, t, previous.value)
  }

  predicate SameSize(b: Buffer, columns: nat, rows: nat) {
    b.columns == columns && b.rows == rows
  }

  /** The retained picture is a picture, whether or not it is on the screen. */
  ghost predicate Remembers(q: T.Quirks, previous: Option<Painted>) {
    previous.Some? ==> Paintable(q, previous.value.buffer)
  }

  predicate Compares(previous: Option<Painted>, next: Painted) {
    previous.Some? && SameSize(previous.value.buffer, next.buffer.columns, next.buffer.rows)
  }

  /** The prior row the painter compares with. */
  function PriorRow(previous: Option<Painted>, next: Painted, y: nat): (r: Option<seq<Cell>>)
    requires Compares(previous, next) ==> y < |previous.value.buffer.content|
  {
    if Compares(previous, next) then Some(previous.value.buffer.content[y]) else None
  }

  ghost predicate PriorSame(previous: Option<Painted>, next: Painted) {
    Compares(previous, next) && previous.value.buffer == next.buffer
  }

  // ----- When the retained picture was lost -----

  /** The repainted columns of a row can be written over cleanly. */
  ghost predicate CleanRow(row: seq<Cell>, prior: Option<seq<Cell>>, shown: seq<T.Cell>)
    requires |row| == |shown| && (prior.Some? ==> |prior.value| == |row|)
  {
    prior.Some? ==>
      forall from: nat, to: nat :: SpanIs(row, prior.value, from, to) ==> CleanSpan(prior, shown, from, to)
  }

  /** The columns that are not repainted already show the new row. */
  ghost predicate SurvivesRow(q: T.Quirks, row: seq<Cell>, prior: Option<seq<Cell>>, shown: seq<T.Cell>)
    requires PaintableRow(q, row) && |row| == |shown| && (prior.Some? ==> |prior.value| == |row|)
  {
    prior.Some? ==>
      && (prior.value == row ==> shown == RowImage(q, row))
      && forall from: nat, to: nat :: SpanIs(row, prior.value, from, to) ==>
           forall j :: 0 <= j < |row| && !(from <= j < to) ==> shown[j] == RowImage(q, row)[j]
  }

  ghost predicate Fits(q: T.Quirks, t: T.Term, previous: Option<Painted>, next: Painted) {
    && t.Ok() && Paintable(q, next.buffer) && SameSize(next.buffer, t.columns, t.rows)
    && (Compares(previous, next) ==> Paintable(q, previous.value.buffer))
  }

  ghost predicate Clean(q: T.Quirks, t: T.Term, previous: Option<Painted>, next: Painted)
    requires Fits(q, t, previous, next)
  {
    forall y :: 0 <= y < t.rows ==> CleanRow(next.buffer.content[y], PriorRow(previous, next, y), t.grid[y])
  }

  /** What a repaint leaves alone already shows `next`: the columns outside its spans and, when no row changed, the pen,
      the cursor and that no update is held back. */
  ghost predicate Survives(q: T.Quirks, t: T.Term, previous: Option<Painted>, next: Painted)
    requires Fits(q, t, previous, next)
  {
    && RowsSurvive(q, t, previous, next)
    && (PriorSame(previous, next) ==>
          && t.pen == T.DEFAULT_PEN && !t.held
          && (previous.value.cursor == next.cursor ==> CursorShown(t, next.cursor)))
  }

  /** A row that shows the prior one is clean, and so is what is not repainted right. */
  lemma KnownRow(q: T.Quirks, row: seq<Cell>, prior: seq<Cell>)
    requires PaintableRow(q, row) && PaintableRow(q, prior) && |row| == |prior|
    ensures CleanRow(row, Some(prior), RowImage(q, prior))
    ensures SurvivesRow(q, row, Some(prior), RowImage(q, prior))
  {
    hide RowImage, CleanSpan, Tiled, Fitting;
    forall from: nat, to: nat | SpanIs(row, prior, from, to)
      ensures CleanSpan(Some(prior), RowImage(q, prior), from, to)
      ensures forall j :: 0 <= j < |row| && !(from <= j < to) ==> RowImage(q, prior)[j] == RowImage(q, row)[j]
    {
      assert SpanOf(q, row, Some(prior), from, to);
      SpanOutside(q, row, prior, from, to);
      TargetAt(q, row, RowImage(q, prior), from, to);
    }
  }

  /** What the painter knows is clean and survives. */
  lemma KnownSurvives(q: T.Quirks, t: T.Term, previous: Option<Painted>, next: Painted)
    requires Fits(q, t, previous, next) && Knows(q, t, previous)
    ensures Clean(q, t, previous, next) && Survives(q, t, previous, next)
  {
    hide CleanRow, SurvivesRow, RowImage;
    forall y | 0 <= y < t.rows
      ensures CleanRow(next.buffer.content[y], PriorRow(previous, next, y), t.grid[y])
      ensures SurvivesRow(q, next.buffer.content[y], PriorRow(previous, next, y), t.grid[y])
    {
      assert PaintableRow(q, next.buffer.content[y]);
      if Compares(previous, next) {
        assert PaintableRow(q, previous.value.buffer.content[y]);
        KnownRow(q, next.buffer.content[y], previous.value.buffer.content[y]);
      } else {
        WholeRow(q, next.buffer.content[y], t.grid[y]);
      }
    }
  }

  lemma WholeRow(q: T.Quirks, row: seq<Cell>, shown: seq<T.Cell>)
    requires PaintableRow(q, row) && |row| == |shown|
    ensures CleanRow(row, None, shown) && SurvivesRow(q, row, None, shown)
  {
  }

  /** A picture holds nothing spoiled. */
  lemma NothingSpoiled(q: T.Quirks, row: seq<Cell>)
    requires PaintableRow(q, row)
    ensures forall j :: 0 <= j < |row| ==> !RowImage(q, row)[j].Wreck?
  {
  }

  /** A repainted row is right only when what was not repainted was, and over a clean span exactly then. */
  ghost predicate RowDone(q: T.Quirks, row: seq<Cell>, prior: Option<seq<Cell>>, before: seq<T.Cell>,
                          after: seq<T.Cell>)
    requires PaintableRow(q, row) && |row| == |before| && (prior.Some? ==> |prior.value| == |row|)
  {
    && (after == RowImage(q, row) ==> SurvivesRow(q, row, prior, before))
    && (CleanRow(row, prior, before) && SurvivesRow(q, row, prior, before) ==> after == RowImage(q, row))
  }

  lemma SpanDone(q: T.Quirks, row: seq<Cell>, prior: Option<seq<Cell>>, before: seq<T.Cell>, after: seq<T.Cell>,
                 from: nat, to: nat)
    requires SpanOf(q, row, prior, from, to) && |row| == |before| && T.Spares(before, after, from, to)
    requires CleanSpan(prior, before, from, to) ==> after == Target(q, row, before, from, to)
    ensures RowDone(q, row, prior, before, after)
  {
    hide RowImage, CleanSpan, Tiled, Fitting, Target;
    TargetAt(q, row, before, from, to);
    NothingSpoiled(q, row);
    if prior.Some? {
      assert SpanIs(row, prior.value, from, to);
      forall from': nat, to': nat | SpanIs(row, prior.value, from', to') ensures from == from' && to == to' {
        OneSpan(row, prior.value, from, to, from', to');
      }
    } else {
      AlwaysClean(before, from, to);
      assert after == RowImage(q, row);
    }
  }

  lemma AlwaysClean(shown: seq<T.Cell>, from: nat, to: nat)
    requires from <= to <= |shown|
    ensures CleanSpan(None, shown, from, to)
  {
  }

  lemma SameDone(q: T.Quirks, row: seq<Cell>, shown: seq<T.Cell>)
    requires PaintableRow(q, row) && |row| == |shown|
    ensures RowDone(q, row, Some(row), shown, shown)
  {
  }

  // ----- The loop -----

  /** The loop of `Paint` after `y` rows. */
  ghost predicate RowsPainted(q: T.Quirks, t: T.Term, start: T.Term, previous: Option<Painted>, next: Painted, y: nat)
    requires Fits(q, start, previous, next)
  {
    && t.Ok() && y <= t.rows && t.columns == start.columns && t.rows == start.rows
    && (forall k :: 0 <= k < y ==>
          RowDone(q, next.buffer.content[k], PriorRow(previous, next, k), start.grid[k], t.grid[k]))
    && (forall k :: y <= k < t.rows ==> t.grid[k] == start.grid[k])
  }

  lemma NextRow(q: T.Quirks, t: T.Term, u: T.Term, start: T.Term, previous: Option<Painted>, next: Painted, y: nat)
    requires Fits(q, start, previous, next) && RowsPainted(q, t, start, previous, next, y) && y < t.rows
    requires u.Ok() && u.columns == t.columns && u.rows == t.rows
    requires forall k :: 0 <= k < t.rows && k != y ==> u.grid[k] == t.grid[k]
    requires RowDone(q, next.buffer.content[y], PriorRow(previous, next, y), t.grid[y], u.grid[y])
    ensures RowsPainted(q, u, start, previous, next, y + 1)
  {
    hide RowDone, Paintable;
  }

  ghost predicate RowsSurvive(q: T.Quirks, t: T.Term, previous: Option<Painted>, next: Painted)
    requires Fits(q, t, previous, next)
  {
    forall y :: 0 <= y < t.rows ==> SurvivesRow(q, next.buffer.content[y], PriorRow(previous, next, y), t.grid[y])
  }

  /** All rows painted: the grid is the new picture only when what was not repainted was, and over clean spans exactly
      then. */
  lemma AllRows(q: T.Quirks, t: T.Term, start: T.Term, previous: Option<Painted>, next: Painted)
    requires Fits(q, start, previous, next) && RowsPainted(q, t, start, previous, next, t.rows)
    ensures t.grid == Picture(q, next.buffer) ==> RowsSurvive(q, start, previous, next)
    ensures Clean(q, start, previous, next) && RowsSurvive(q, start, previous, next) ==>
      t.grid == Picture(q, next.buffer)
  {
    hide CleanRow, SurvivesRow, RowImage;
    forall y | 0 <= y < start.rows
      ensures t.grid[y] == RowImage(q, next.buffer.content[y]) ==>
        SurvivesRow(q, next.buffer.content[y], PriorRow(previous, next, y), start.grid[y])
      ensures CleanRow(next.buffer.content[y], PriorRow(previous, next, y), start.grid[y]) ==>
        SurvivesRow(q, next.buffer.content[y], PriorRow(previous, next, y), start.grid[y]) ==>
          t.grid[y] == RowImage(q, next.buffer.content[y])
    {
      assert RowDone(q, next.buffer.content[y], PriorRow(previous, next, y), start.grid[y], t.grid[y]);
    }
    assert |t.grid| == |Picture(q, next.buffer)|;
  }

  /** Rows top to bottom; nothing at all is written before the first changed one. */
  method PaintRows(wire: Wire, pencil: Pencil, previous: Option<Painted>, next: Painted)
    returns (io: Io, painted: bool)
    requires wire.Valid() && pencil.Agrees(wire.term) && Fits(wire.quirks, wire.term, previous, next)
    modifies wire, pencil
    ensures wire.Valid() && wire.term.columns == old(wire.term.columns) && wire.term.rows == old(wire.term.rows)
    ensures wire.flushes == old(wire.flushes) && (io.Failed? ==> wire.room == 0)
    ensures io.Done? ==> pencil.Agrees(wire.term)
    ensures io.Done? ==> RowsPainted(wire.quirks, wire.term, old(wire.term), previous, next, wire.term.rows)
    ensures io.Done? && !painted ==> wire.term == old(wire.term)
    ensures io.Done? && painted ==> wire.term.held && !wire.term.shown
    ensures io.Done? ==> (!painted <==> PriorSame(previous, next))
    ensures PriorSame(previous, next) ==> io.Done? && wire.ops == old(wire.ops) && wire.room == old(wire.room)
  {
    hide RowDone, Paintable;
    var buffer := next.buffer;
    ghost var start := wire.term;
    painted := false;
    Sizes(wire.quirks, start, previous, next);
    for y := 0 to buffer.rows
      invariant wire.Valid() && pencil.Agrees(wire.term) && wire.flushes == old(wire.flushes)
      invariant RowsPainted(wire.quirks, wire.term, start, previous, next, y)
      invariant !painted ==> wire.term == start && wire.ops == old(wire.ops) && wire.room == old(wire.room)
      invariant painted ==> wire.term.held && !wire.term.shown
      invariant !painted <==> forall k :: 0 <= k < y ==> PriorRow(previous, next, k) == Some(buffer.content[k])
    {
      PaintableRows(wire.quirks, start, previous, next, y);
      ghost var t := wire.term;
      io, painted := PaintRow(wire, pencil, buffer.content[y], PriorRow(previous, next, y), y, painted);
      if io.Failed? {
        return;
      }
      NextRow(wire.quirks, t, wire.term, start, previous, next, y);
    }
    Sizes(wire.quirks, start, previous, next);
    if !painted {
      assert PriorRow(previous, next, 0) == Some(buffer.content[0]);
      assert previous.value.buffer.content == buffer.content;
    }
    io := Done;
  }

  lemma Sizes(q: T.Quirks, t: T.Term, previous: Option<Painted>, next: Painted)
    requires Fits(q, t, previous, next)
    ensures |next.buffer.content| == t.rows > 0
    ensures Compares(previous, next) ==> |previous.value.buffer.content| == t.rows
  {
  }

  lemma PaintableRows(q: T.Quirks, t: T.Term, previous: Option<Painted>, next: Painted, y: nat)
    requires Fits(q, t, previous, next) && y < t.rows
    ensures |next.buffer.content| == t.rows && (Compares(previous, next) ==> |previous.value.buffer.content| == t.rows)
    ensures PaintableRow(q, next.buffer.content[y]) && |next.buffer.content[y]| == t.columns
    ensures Compares(previous, next) ==>
      PaintableRow(q, previous.value.buffer.content[y]) && |previous.value.buffer.content[y]| == t.columns
    ensures PriorSame(previous, next) ==> PriorRow(previous, next, y) == Some(next.buffer.content[y])
  {
  }

  method PaintRow(wire: Wire, pencil: Pencil, row: seq<Cell>, prior: Option<seq<Cell>>, y: nat, painted: bool)
    returns (io: Io, after: bool)
    requires wire.Valid() && pencil.Agrees(wire.term) && y < wire.term.rows
    requires PaintableRow(wire.quirks, row) && |row| == wire.term.columns
    requires prior.Some? ==> PaintableRow(wire.quirks, prior.value) && |prior.value| == |row|
    requires painted ==> wire.term.held && !wire.term.shown
    modifies wire, pencil
    ensures wire.Valid() && wire.term.columns == old(wire.term.columns) && wire.term.rows == old(wire.term.rows)
    ensures wire.flushes == old(wire.flushes) && (io.Failed? ==> wire.room == 0)
    ensures io.Done? ==> pencil.Agrees(wire.term)
    ensures io.Done? ==> RowDone(wire.quirks, row, prior, old(wire.term.grid)[y], wire.term.grid[y])
    ensures io.Done? ==>
      forall k :: 0 <= k < wire.term.rows && k != y ==> wire.term.grid[k] == old(wire.term.grid)[k]
    ensures io.Done? ==> (after <==> painted || prior != Some(row))
    ensures prior == Some(row) ==>
      io.Done? && wire.term == old(wire.term) && wire.ops == old(wire.ops) && wire.room == old(wire.room)
    ensures io.Done? && after ==> wire.term.held && !wire.term.shown
  {
    hide RowImage, Fitting, Exact, RowDone, CleanSpan, Target;
    ghost var q, before := wire.quirks, wire.term.grid[y];
    after := painted;
    var span := Span(row, prior);
    if span.None? {
      SameDone(q, row, before);
      return Done, after;
    }
    io := Open(wire, pencil, painted);
    if io.Failed? {
      return;
    }
    after := true;
    var (from, to) := span.value;
    io := PaintSpan(wire, pencil, row, prior, y, from, to);
    if io.Done? {
      SpanDone(q, row, prior, before, wire.term.grid[y], from, to);
    }
  }

  /** The terminal holds the frame back from the first changed row on. */
  method Open(wire: Wire, pencil: Pencil, painted: bool) returns (io: Io)
    requires wire.Valid() && pencil.Agrees(wire.term)
    modifies wire
    ensures wire.Valid() && wire.term.columns == old(wire.term.columns) && wire.term.rows == old(wire.term.rows)
    ensures wire.flushes == old(wire.flushes) && (io.Failed? ==> wire.room == 0)
    ensures io.Done? ==> pencil.Agrees(wire.term)
    ensures io.Done? ==>
      wire.term == if painted then old(wire.term) else old(wire.term).(held := true, shown := false)
  {
    if !painted {
      :- wire.Send(T.BeginUpdate);
      :- wire.Send(T.Hide);
    }
    return Done;
  }

  /** The requested cursor; an absent one is only hidden. */
  method PaintCursor(wire: Wire, cursor: Option<F.Cursor>) returns (io: Io)
    requires wire.Valid()
    requires cursor.Some? ==> cursor.value.x < wire.term.columns && cursor.value.y < wire.term.rows
    modifies wire
    ensures wire.Valid() && wire.term.columns == old(wire.term.columns) && wire.term.rows == old(wire.term.rows)
    ensures wire.flushes == old(wire.flushes) && (io.Failed? ==> wire.room == 0)
    ensures io.Done? ==> CursorShown(wire.term, cursor)
    ensures io.Done? ==> wire.term == old(wire.term).(x := wire.term.x, y := wire.term.y,
                                                      shape := wire.term.shape, shown := wire.term.shown)
  {
    match cursor {
      case None =>
        io := wire.Send(T.Hide);
      case Some(c) =>
        :- wire.Send(T.Shape(Style(c.shape)));
        :- wire.Send(T.Cup(c.x, c.y));
        if c.visible {
          :- wire.Send(T.Show);
        } else {
          :- wire.Send(T.Hide);
        }
        return Done;
    }
  }

  predicate CursorFits(p: Painted) {
    p.cursor.Some? ==> p.cursor.value.x < p.buffer.columns && p.cursor.value.y < p.buffer.rows
  }

  /** Writes `next` over whatever the terminal holds. If it shows `previous`, or has another size, or `previous` is
      none, it shows exactly `next` afterwards; an unchanged frame writes nothing. And if it has lost `previous`, it
      shows `next` afterwards only when what is not repainted already does, and over clean spans exactly then. */
  method Paint(wire: Wire, previous: Option<Painted>, next: Painted) returns (io: Io)
    requires wire.Valid() && CursorFits(next) && Fits(wire.quirks, wire.term, previous, next)
    modifies wire
    ensures wire.Valid() && wire.term.columns == old(wire.term.columns) && wire.term.rows == old(wire.term.rows)
    ensures wire.flushes == old(wire.flushes) && (io.Failed? ==> wire.room == 0)
    ensures io.Done? && Knows(wire.quirks, old(wire.term), previous) ==> Shows(wire.quirks, wire.term, next)
    ensures io.Done? && Shows(wire.quirks, wire.term, next) ==>
      Survives(wire.quirks, old(wire.term), previous, next)
    ensures io.Done? && Clean(wire.quirks, old(wire.term), previous, next) ==>
      (Shows(wire.quirks, wire.term, next) <==> Survives(wire.quirks, old(wire.term), previous, next))
    ensures io.Done? && PriorSame(previous, next) ==> wire.term.grid == old(wire.term.grid)
    ensures previous == Some(next) ==> io.Done? && wire.ops == old(wire.ops) && wire.term == old(wire.term)
  {
    hide Paintable, Picture, Clean, RowsPainted, RowsSurvive;
    var pencil := new Pencil();
    ghost var start := wire.term;
    if Knows(wire.quirks, start, previous) {
      KnownSurvives(wire.quirks, start, previous, next);
    }
    var painted;
    io, painted := PaintRows(wire, pencil, previous, next);
    if io.Failed? {
      return;
    }
    AllRows(wire.quirks, wire.term, start, previous, next);
    if painted && pencil.pen != Some(T.DEFAULT_PEN) {
      :- Reset(wire);
    }
    if painted || previous.None? || previous.value.cursor != next.cursor {
      :- PaintCursor(wire, next.cursor);
    }
    if painted {
      :- wire.Send(T.EndUpdate);
    }
    return Done;
  }
}
