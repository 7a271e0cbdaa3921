/** The retained painter over a whole run: draws, failed writes, invalidation and terminal resizes. */
module Display {
  import opened Bytes
  import opened Screen
  import opened Painter
  import F = Frame
  import FrameCodec
  import Projection
  import T = Terminal

  // ----- A frame on the screen -----

  function EntryPen(e: F.PaletteEntry): T.Pen {
    T.Pen(e.foreground, e.background, Projection.Attributes(e.modifiers))
  }

  /** The owner's promise about widths: each text reaches at least one column and at most those declared. */
  ghost predicate Promised(q: T.Quirks, f: F.DrawFrame) {
    forall k :: 0 <= k < |f.glyphs| ==> 1 <= T.Reach(q, f.glyphs[k].text) <= f.glyphs[k].width
  }

  /** Glyph `g` is on the screen, in its own columns and style. */
  ghost predicate GlyphShown(q: T.Quirks, t: T.Term, g: F.Glyph, e: F.PaletteEntry) {
    && t.Ok() && g.y < t.rows && g.x + g.width <= t.columns && T.Reach(q, g.text) <= g.width
    && t.grid[g.y][g.x..g.x + g.width] == Image(q, g.text, g.width, g.x, EntryPen(e))
  }

  /** The terminal shows the frame: every glyph, the requested cursor, the default pen, no update held back. */
  ghost predicate Displays(q: T.Quirks, t: T.Term, f: F.DrawFrame) {
    && t.Ok() && t.columns == f.header.columns && t.rows == f.header.rows
    && (forall k :: 0 <= k < |f.glyphs| ==>
          f.glyphs[k].palette < |f.palette| && GlyphShown(q, t, f.glyphs[k], f.palette[f.glyphs[k].palette]))
    && CursorShown(t, f.header.cursor)
    && t.pen == T.DEFAULT_PEN && !t.held
  }

  ghost predicate ProjectionOf(f: F.DrawFrame, b: Buffer) {
    && b.Ok() && b.columns == f.header.columns && b.rows == f.header.rows
    && (forall k :: 0 <= k < |f.glyphs| ==>
          f.glyphs[k].palette < |f.palette| && Projection.Projected(b, f.glyphs[k], f.palette[f.glyphs[k].palette]))
    && (forall y :: 0 <= y < b.rows ==> Tiled(b.content[y]))
  }

  lemma LeadIsGlyph(f: F.DrawFrame, b: Buffer, x: nat, y: nat) returns (i: nat)
    requires F.WellFormed(f) && ProjectionOf(f, b) && x < b.columns && y < b.rows && Lead(b.content[y][x])
    ensures i < |f.glyphs| && b.content[y][x] == Projection.LeadCell(f.glyphs[i], f.palette[f.glyphs[i].palette])
  {
    hide F.WellFormed, Tiled;
    i := FrameCodec.Tiling(f, x, y);
    assert Projection.Projected(b, f.glyphs[i], f.palette[f.glyphs[i].palette]);
  }

  lemma GoodColors(f: F.DrawFrame, k: nat)
    requires F.WellFormed(f) && k < |f.palette|
    ensures PenOk(EntryPen(f.palette[k]))
  {
    hide F.GoodHeader, F.GoodGlyphs, F.Encode;
  }

  lemma ProjectionPaintable(q: T.Quirks, f: F.DrawFrame, b: Buffer)
    requires F.WellFormed(f) && Promised(q, f) && ProjectionOf(f, b)
    ensures Paintable(q, b)
  {
    hide F.WellFormed, Tiled;
    forall y | 0 <= y < b.rows ensures PaintableRow(q, b.content[y]) {
      var row := b.content[y];
      forall x | 0 <= x < |row| && Lead(row[x])
        ensures 1 <= T.Reach(q, row[x].symbol) <= row[x].diff.width && PenOk(PenOf(row[x]))
      {
        var i := LeadIsGlyph(f, b, x, y);
        GoodColors(f, f.glyphs[i].palette);
      }
    }
  }

  /** Showing the projected buffer is showing the frame. */
  lemma ShownFrame(q: T.Quirks, t: T.Term, f: F.DrawFrame, b: Buffer)
    requires ProjectionOf(f, b) && Shows(q, t, Painted(b, f.header.cursor))
    ensures Displays(q, t, f)
  {
    hide Tiled, Fitting, Image;
    forall k | 0 <= k < |f.glyphs|
      ensures GlyphShown(q, t, f.glyphs[k], f.palette[f.glyphs[k].palette])
    {
      var g, e := f.glyphs[k], f.palette[f.glyphs[k].palette];
      assert Projection.Projected(b, g, e);
      var row := b.content[g.y];
      assert PaintableRow(q, row) && t.grid[g.y] == RowImage(q, row);
      assert Lead(row[g.x]);
      GlyphInRow(q, row, g.x);
      LeadReach(q, row, g.x);
    }
  }

  lemma LeadReach(q: T.Quirks, row: seq<Cell>, x: nat)
    requires Fitting(q, row) && x < |row| && Lead(row[x])
    ensures T.Reach(q, row[x].symbol) <= row[x].diff.width
  {
  }

  // ----- The painter -----

  datatype DrawError = FrameError(frame: F.FrameError) | IoError

  datatype DrawMeta = DrawMeta(sequence: nat, revision: nat, columns: nat, rows: nat)

  function MetaOf(f: F.DrawFrame): DrawMeta {
    DrawMeta(f.header.sequence, f.header.revision, f.header.columns, f.header.rows)
  }

  /** What a decoded frame is retained as. */
  ghost predicate RetainedAs(f: F.DrawFrame, p: Painted) {
    ProjectionOf(f, p.buffer) && p.cursor == f.header.cursor
  }

  class Retained {
    var previous: Option<Painted>

    constructor ()
      ensures previous == None
    {
      previous := None;
    }

    /** The retained picture is one, whether or not the terminal still shows it. */
    ghost predicate Sound(wire: Wire)
      reads this, wire
    {
      wire.Valid() && Remembers(wire.quirks, previous)
    }

    /** Whatever is retained with the terminal's own size is what the terminal shows. */
    ghost predicate Faithful(wire: Wire)
      reads this, wire
    {
      Sound(wire) && Knows(wire.quirks, wire.term, previous)
    }

    method Invalidate()
      modifies this
      ensures previous == None
    {
      previous := None;
    }

    /** Decodes before any write; a failed write forgets the screen. */
    method Draw(body: seq<byte>, wire: Wire) returns (r: Result<DrawMeta, DrawError>)
      requires Sound(wire)
      requires forall f :: F.WellFormed(f) && F.Encode(f) == body ==>
        f.header.columns == wire.term.columns && f.header.rows == wire.term.rows && Promised(wire.quirks, f)
      modifies this, wire
      ensures Sound(wire) && wire.term.columns == old(wire.term.columns) && wire.term.rows == old(wire.term.rows)
      ensures old(Faithful(wire)) ==> Faithful(wire)
      ensures r.Ok? ==> exists f ::
        && F.WellFormed(f) && F.Encode(f) == body && r.value == MetaOf(f)
        && previous.Some? && RetainedAs(f, previous.value)
        && (old(Faithful(wire)) ==> Displays(wire.quirks, wire.term, f))
      ensures r.Err? && r.error.FrameError? <==> forall f :: F.WellFormed(f) ==> F.Encode(f) != body
      ensures r.Err? && r.error.FrameError? ==> wire.ops == old(wire.ops) && wire.term == old(wire.term)
      ensures r.Err? && r.error.FrameError? ==> previous == old(previous)
      ensures r.Err? && r.error.IoError? ==> previous == None && (wire.room == 0 || !wire.flushes)
      ensures wire.flushes == old(wire.flushes)
    {
      hide F.WellFormed, F.Encode, Displays, Paintable, Promised, ProjectionOf, Shows, Survives, Clean;
      var decoded := FrameCodec.Decode(body);
      if decoded.Err? {
        return Err(FrameError(decoded.error));
      }
      var frame := decoded.value;
      ghost var next;
      r, next := Show(frame, wire);
    }

    /** Projects, paints and flushes one decoded frame. It is displayed if the terminal showed what is retained; if the
        terminal had lost it, only when what is not repainted survived, and over clean spans exactly then. */
    method Show(frame: F.DrawFrame, wire: Wire) returns (r: Result<DrawMeta, DrawError>, ghost next: Painted)
      requires Sound(wire) && F.WellFormed(frame) && Promised(wire.quirks, frame)
      requires frame.header.columns == wire.term.columns && frame.header.rows == wire.term.rows
      modifies this, wire
      ensures Sound(wire) && wire.term.columns == old(wire.term.columns) && wire.term.rows == old(wire.term.rows)
      ensures old(Faithful(wire)) ==> Faithful(wire)
      ensures RetainedAs(frame, next) && Fits(wire.quirks, old(wire.term), old(previous), next)
      ensures r.Ok? ==> previous == Some(next) && r.value == MetaOf(frame) && wire.flushes
      ensures r.Ok? && old(Faithful(wire)) ==> Displays(wire.quirks, wire.term, frame)
      ensures r.Ok? && Displays(wire.quirks, wire.term, frame) ==>
        Survives(wire.quirks, old(wire.term), old(previous), next)
      ensures r.Ok? && Clean(wire.quirks, old(wire.term), old(previous), next) ==>
        (Displays(wire.quirks, wire.term, frame) <==> Survives(wire.quirks, old(wire.term), old(previous), next))
      ensures r.Err? ==> r.error.IoError? && previous == None && (wire.room == 0 || !wire.flushes)
      ensures wire.flushes == old(wire.flushes)
      ensures old(previous) == Some(next) ==>
        (r.Ok? <==> wire.flushes) && wire.ops == old(wire.ops) && (r.Ok? ==> wire.term == old(wire.term))
    {
      var buffer := Projection.Project(frame);
      ProjectionPaintable(wire.quirks, frame, buffer);
      CursorInGrid(frame);
      hide F.WellFormed, Displays, Paintable, ProjectionOf, Survives, Clean, Knows, Shows;
      var picture := Painted(buffer, frame.header.cursor);
      next := picture;
      KnownFits(wire.quirks, wire.term, previous, next);
      var io := Commit(picture, wire);
      if io.Failed? {
        return Err(IoError), next;
      }
      ShownExactly(wire.quirks, wire.term, frame, next);
      return Ok(MetaOf(frame)), next;
    }

    /** Paints and flushes: the picture is retained, or after a failure nothing is. */
    method Commit(next: Painted, wire: Wire) returns (io: Io)
      requires Sound(wire) && CursorFits(next) && Fits(wire.quirks, wire.term, previous, next)
      modifies this, wire
      ensures Sound(wire) && wire.term.columns == old(wire.term.columns) && wire.term.rows == old(wire.term.rows)
      ensures wire.flushes == old(wire.flushes) && previous == if io.Done? then Some(next) else None
      ensures old(Faithful(wire)) ==> Faithful(wire) && (io.Done? ==> Shows(wire.quirks, wire.term, next))
      ensures io.Done? && Shows(wire.quirks, wire.term, next) ==>
        Survives(wire.quirks, old(wire.term), old(previous), next)
      ensures io.Done? && Clean(wire.quirks, old(wire.term), old(previous), next) ==>
        (Shows(wire.quirks, wire.term, next) <==> Survives(wire.quirks, old(wire.term), old(previous), next))
      ensures if io.Done? then wire.flushes else wire.room == 0 || !wire.flushes
      ensures old(previous) == Some(next) ==>
        (io.Done? <==> wire.flushes) && wire.ops == old(wire.ops) && (io.Done? ==> wire.term == old(wire.term))
    {
      hide Paintable, Survives, Clean, Knows, Shows;
      io := Paint(wire, previous, next);
      if io.Done? {
        io := wire.Flush();
      }
      Forgotten(wire.quirks, wire.term);
      Retaining(wire.quirks, wire.term, next);
      NextPaintable(wire.quirks, old(wire.term), previous, next);
      previous := if io.Done? then Some(next) else None;
    }
  }

  lemma NextPaintable(q: T.Quirks, t: T.Term, previous: Option<Painted>, next: Painted)
    requires Fits(q, t, previous, next)
    ensures Remembers(q, Some(next))
  {
  }

  lemma Forgotten(q: T.Quirks, t: T.Term)
    ensures Knows(q, t, None) && Remembers(q, None)
  {
  }

  lemma Retaining(q: T.Quirks, t: T.Term, next: Painted)
    ensures Shows(q, t, next) ==> Knows(q, t, Some(next))
  {
  }

  lemma KnownFits(q: T.Quirks, t: T.Term, previous: Option<Painted>, next: Painted)
    requires t.Ok() && Remembers(q, previous) && Paintable(q, next.buffer) && SameSize(next.buffer, t.columns, t.rows)
    ensures Fits(q, t, previous, next)
  {
  }

  /** A frame has one projection. */
  lemma SameProjection(f: F.DrawFrame, b: Buffer, c: Buffer)
    requires F.WellFormed(f) && ProjectionOf(f, b) && ProjectionOf(f, c)
    ensures b == c
  {
    hide F.WellFormed, Tiled;
    forall y | 0 <= y < b.rows ensures b.content[y] == c.content[y] {
      forall x | 0 <= x < b.columns ensures b.content[y][x] == c.content[y][x] {
        var i := FrameCodec.Tiling(f, x, y);
        assert Projection.Projected(b, f.glyphs[i], f.palette[f.glyphs[i].palette]);
        assert Projection.Projected(c, f.glyphs[i], f.palette[f.glyphs[i].palette]);
      }
    }
  }

  /** Displaying a frame is showing its projection, and the other way round. */
  lemma ShownExactly(q: T.Quirks, t: T.Term, f: F.DrawFrame, p: Painted)
    requires F.WellFormed(f) && Promised(q, f) && RetainedAs(f, p)
    ensures Shows(q, t, p) <==> Displays(q, t, f)
  {
    hide F.WellFormed, Shows, Displays, ProjectionOf, Promised;
    if Shows(q, t, p) {
      ShownFrame(q, t, f, p.buffer);
    }
    if Displays(q, t, f) {
      DisplayedFrame(q, t, f, p.buffer);
    }
  }

  lemma DisplayedFrame(q: T.Quirks, t: T.Term, f: F.DrawFrame, b: Buffer)
    requires F.WellFormed(f) && Promised(q, f) && ProjectionOf(f, b) && Displays(q, t, f)
    ensures Shows(q, t, Painted(b, f.header.cursor))
  {
    hide F.WellFormed, Tiled, Fitting, Image, RowImage, Promised;
    ProjectionPaintable(q, f, b);
    forall y | 0 <= y < b.rows ensures t.grid[y] == RowImage(q, b.content[y]) {
      assert PaintableRow(q, b.content[y]);
      forall x | 0 <= x < b.columns ensures t.grid[y][x] == RowImage(q, b.content[y])[x] {
        DisplayedCell(q, t, f, b, x, y);
      }
    }
  }

  lemma DisplayedCell(q: T.Quirks, t: T.Term, f: F.DrawFrame, b: Buffer, x: nat, y: nat)
    requires F.WellFormed(f) && ProjectionOf(f, b) && Displays(q, t, f) && x < b.columns && y < b.rows
    requires PaintableRow(q, b.content[y])
    ensures t.grid[y][x] == RowImage(q, b.content[y])[x]
  {
    hide F.WellFormed, Tiled, Fitting, Image, RowImage;
    var i := FrameCodec.Tiling(f, x, y);
    var g := f.glyphs[i];
    var e := f.palette[g.palette];
    assert Projection.Projected(b, g, e) && GlyphShown(q, t, g, e);
    var row := b.content[y];
    LeadReach(q, row, g.x);
    ImageAt(q, row, g.x, x);
    assert t.grid[y][x] == t.grid[y][g.x..g.x + g.width][x - g.x];
  }

  lemma CursorInGrid(f: F.DrawFrame)
    requires F.WellFormed(f)
    ensures f.header.cursor.Some? ==>
      f.header.cursor.value.x < f.header.columns && f.header.cursor.value.y < f.header.rows
  {
  }

  /** A frame leaves one screen, whatever was there before: the cells and the cursor asked for. */
  lemma OneScreen(q: T.Quirks, t: T.Term, u: T.Term, f: F.DrawFrame)
    requires F.WellFormed(f) && Displays(q, t, f) && Displays(q, u, f)
    ensures t.grid == u.grid && t.shown == u.shown && t.pen == u.pen && t.held == u.held
    ensures f.header.cursor.Some? ==> (t.x, t.y, t.shape) == (u.x, u.y, u.shape)
  {
    hide F.WellFormed, Image;
    forall y | 0 <= y < t.rows ensures t.grid[y] == u.grid[y] {
      forall x | 0 <= x < t.columns ensures t.grid[y][x] == u.grid[y][x] {
        var i := FrameCodec.Tiling(f, x, y);
        var g := f.glyphs[i];
        assert GlyphShown(q, t, g, f.palette[g.palette]) && GlyphShown(q, u, g, f.palette[g.palette]);
        assert t.grid[y][x] == t.grid[y][g.x..g.x + g.width][x - g.x];
        assert u.grid[y][x] == u.grid[y][g.x..g.x + g.width][x - g.x];
      }
    }
  }

  // ----- The session's draw command, over a whole run -----

  datatype Reply = Drawn(meta: DrawMeta) | Skipped | Refused | Broken | Quiet

  datatype Incident =
    | Present(body: seq<byte>, room: nat, flushes: bool)
    | Redraw
    | Foreign(term: T.Term)
    | Resized(term: T.Term)

  /** The terminal, what is retained, how many more writes it takes, and whether it was resized back to the size of what
      is retained since that was drawn. */
  datatype Moment = Moment(term: T.Term, retained: Option<Painted>, room: nat, lost: bool)

  /** A terminal of that size looks to the painter as if nothing had happened. */
  predicate ComesBack(retained: Option<Painted>, columns: nat, rows: nat) {
    retained.Some? && SameSize(retained.value.buffer, columns, rows)
  }

  /** What became of a frame of the terminal's own size. */
  ghost predicate Painting(q: T.Quirks, m: Moment, f: F.DrawFrame, next: Painted, flushes: bool, reply: Reply,
                           n: Moment)
    requires Fits(q, m.term, m.retained, next)
  {
    && (n.term.columns, n.term.rows) == (m.term.columns, m.term.rows)
    && (m.retained == Some(next) ==> (reply.Drawn? <==> flushes) && (reply.Drawn? ==> n.term == m.term))
    && match reply
       case Drawn(meta) =>
         && meta == MetaOf(f) && flushes && n.retained == Some(next) && n.lost == m.lost
         && (!m.lost ==> Displays(q, n.term, f))
         && (Displays(q, n.term, f) ==> Survives(q, m.term, m.retained, next))
         && (Clean(q, m.term, m.retained, next) ==> (Displays(q, n.term, f) <==> Survives(q, m.term, m.retained, next)))
       case Broken => n.retained == None && !n.lost && (!flushes || n.room == 0)
       case _ => false
  }

  /** What a draw command does with an admissible frame. */
  ghost predicate Presented(q: T.Quirks, m: Moment, f: F.DrawFrame, flushes: bool, reply: Reply, n: Moment) {
    if (f.header.columns, f.header.rows) != (m.term.columns, m.term.rows) then
      reply == Skipped && n == m.(retained := None, lost := false)
    else
      exists next ::
        RetainedAs(f, next) && Fits(q, m.term, m.retained, next) && Painting(q, m, f, next, flushes, reply, n)
  }

  /** What one incident does. */
  ghost predicate Moved(q: T.Quirks, m: Moment, e: Incident, reply: Reply, n: Moment) {
    match e
    case Present(body, room, flushes) =>
      if forall f :: F.WellFormed(f) ==> F.Encode(f) != body then reply == Refused && n == m.(room := room)
      else
        exists f :: F.WellFormed(f) && F.Encode(f) == body && Presented(q, m.(room := room), f, flushes, reply, n)
    case Redraw => reply == Quiet && n == m.(retained := None, lost := false)
    case Foreign(term) => reply == Quiet && n == m.(term := term, retained := None, lost := false)
    case Resized(term) =>
      reply == Quiet && n == m.(term := term, lost := ComesBack(m.retained, term.columns, term.rows))
  }

  class Stage {
    const painter: Retained
    const wire: Wire
    ghost var lost: bool

    constructor (painter: Retained, wire: Wire)
      requires painter.Faithful(wire)
      ensures this.painter == painter && this.wire == wire && !lost && Valid()
    {
      this.painter, this.wire, this.lost := painter, wire, false;
    }

    /** Unless the terminal was resized back to the retained size, what is retained is what it shows. */
    ghost predicate Valid()
      reads this, painter, wire
    {
      painter.Sound(wire) && (!lost ==> painter.Faithful(wire))
    }

    ghost function Now(): Moment
      reads this, painter, wire
    {
      Moment(wire.term, painter.previous, wire.room, lost)
    }

    /** A draw command: a frame of another size is skipped and the screen forgotten. */
    method Present(body: seq<byte>) returns (reply: Reply)
      requires Valid()
      requires forall f :: F.WellFormed(f) && F.Encode(f) == body ==> Promised(wire.quirks, f)
      modifies this, painter, wire
      ensures Valid() && wire.flushes == old(wire.flushes)
      ensures Moved(wire.quirks, old(Now()), Incident.Present(body, old(wire.room), wire.flushes), reply, Now())
      ensures reply.Drawn? && !old(lost) ==> OnScreen(wire.quirks, wire.term, body, reply.meta)
      ensures reply.Refused? <==> forall f :: F.WellFormed(f) ==> F.Encode(f) != body
      ensures reply.Refused? || reply.Skipped? ==> wire.term == old(wire.term) && wire.ops == old(wire.ops)
      ensures reply.Broken? ==> wire.room == 0 || !wire.flushes
    {
      hide F.WellFormed, F.Encode, Displays, Paintable, Promised, Shows, Survives, Clean, ProjectionOf, Painting;
      var decoded := FrameCodec.Decode(body);
      if decoded.Err? {
        return Refused;
      }
      reply := Attempt(decoded.value);
    }

    method Attempt(frame: F.DrawFrame) returns (reply: Reply)
      requires Valid() && F.WellFormed(frame) && Promised(wire.quirks, frame)
      modifies this, painter, wire
      ensures Valid() && wire.flushes == old(wire.flushes)
      ensures Presented(wire.quirks, old(Now()), frame, wire.flushes, reply, Now())
      ensures reply.Drawn? ==> reply.meta == MetaOf(frame)
      ensures reply.Drawn? && !old(lost) ==> Displays(wire.quirks, wire.term, frame)
      ensures !reply.Refused? && (reply.Skipped? ==> wire.term == old(wire.term) && wire.ops == old(wire.ops))
      ensures reply.Broken? ==> wire.room == 0 || !wire.flushes
    {
      hide F.WellFormed, Displays, Paintable, Promised, Shows, Survives, Clean, ProjectionOf, RetainedAs;
      ghost var m := Now();
      if frame.header.columns != wire.columns || frame.header.rows != wire.rows {
        painter.Invalidate();
        lost := false;
        return Skipped;
      }
      var r;
      ghost var next;
      r, next := painter.Show(frame, wire);
      if r.Ok? {
        reply := Drawn(r.value);
      } else {
        lost := false;
        reply := Broken;
      }
      assert Painting(wire.quirks, m, frame, next, wire.flushes, reply, Now());
    }

    /** Any sequence of draws, redraw requests, foreign output and resizes. Every drawn reply finds its frame on the
        screen, unless the terminal was resized back to the retained size since what is retained was drawn; then the
        frame is on the screen exactly as `Painting` says. */
    method Run(script: seq<Incident>) returns (replies: seq<Reply>, ghost moments: seq<Moment>)
      requires Valid()
      requires forall i :: 0 <= i < |script| ==> IncidentOk(script[i], wire.quirks)
      modifies this, painter, wire
      ensures Valid()
      ensures |replies| == |script| && |moments| == |script| + 1
      ensures moments[0] == old(Now()) && moments[|script|] == Now()
      ensures forall i :: 0 <= i < |script| ==> Moved(wire.quirks, moments[i], script[i], replies[i], moments[i + 1])
      ensures forall i :: 0 <= i < |script| && replies[i].Drawn? && !moments[i].lost ==>
        script[i].Present? && OnScreen(wire.quirks, moments[i + 1].term, script[i].body, replies[i].meta)
    {
      hide Valid, Moved, OnScreen, IncidentOk;
      replies, moments := [], [Now()];
      for i := 0 to |script|
        invariant Valid() && |replies| == i && |moments| == i + 1 && moments[0] == old(Now()) && moments[i] == Now()
        invariant forall k :: 0 <= k < i ==> Moved(wire.quirks, moments[k], script[k], replies[k], moments[k + 1])
        invariant forall k :: 0 <= k < i && replies[k].Drawn? && !moments[k].lost ==>
          script[k].Present? && OnScreen(wire.quirks, moments[k + 1].term, script[k].body, replies[k].meta)
      {
        var reply := Meet(script[i]);
        replies := replies + [reply];
        moments := moments + [Now()];
      }
    }

    /** One incident. */
    method Meet(e: Incident) returns (reply: Reply)
      requires Valid() && IncidentOk(e, wire.quirks)
      modifies this, painter, wire
      ensures Valid() && Moved(wire.quirks, old(Now()), e, reply, Now())
      ensures reply.Drawn? && !old(lost) ==>
        e.Present? && OnScreen(wire.quirks, wire.term, e.body, reply.meta)
    {
      hide F.WellFormed, F.Encode, Displays, Paintable, Promised, Shows, Survives, Clean, ProjectionOf, Presented;
      match e {
        case Present(body, room, flushes) =>
          wire.Fate(room, flushes);
          reply := Present(body);
        case Redraw =>
          painter.Invalidate();
          lost := false;
          reply := Quiet;
        case Foreign(term) =>
          painter.Invalidate();
          lost := false;
          wire.Overwritten(term, term.columns, term.rows);
          reply := Quiet;
        case Resized(term) =>
          lost := ComesBack(painter.previous, term.columns, term.rows);
          wire.Overwritten(term, term.columns, term.rows);
          reply := Quiet;
      }
    }
  }

  lemma OneRetained(f: F.DrawFrame, p: Painted, next: Painted)
    requires F.WellFormed(f) && RetainedAs(f, p) && RetainedAs(f, next)
    ensures p == next
  {
    SameProjection(f, p.buffer, next.buffer);
  }

  ghost predicate IncidentOk(e: Incident, q: T.Quirks) {
    match e
    case Present(body, _, _) => forall f :: F.WellFormed(f) && F.Encode(f) == body ==> Promised(q, f)
    case Redraw => true
    case Foreign(term) => term.Ok()
    case Resized(term) => term.Ok()
  }

  ghost predicate OnScreen(q: T.Quirks, t: T.Term, body: seq<byte>, meta: DrawMeta) {
    exists f :: F.WellFormed(f) && F.Encode(f) == body && Displays(q, t, f) && meta == MetaOf(f)
  }

  /** Resized away and back: the same picture painted again writes nothing at all, so it is shown exactly when what the
      resize left shows it. */
  method ResizedBack(wire: Wire, shown: Painted, ghost lost: T.Term) returns (io: Io)
    requires wire.Valid() && Shows(wire.quirks, wire.term, shown) && CursorFits(shown)
    requires lost.Ok() && SameSize(shown.buffer, lost.columns, lost.rows)
    modifies wire
    ensures io.Done? && wire.term == lost && wire.ops == old(wire.ops)
    ensures Shows(wire.quirks, wire.term, shown) <==> Shows(wire.quirks, lost, shown)
  {
    wire.Overwritten(lost, wire.columns, wire.rows);
    io := Paint(wire, Some(shown), shown);
  }

  /** The same as a script: a frame that is on the screen, a resize back to its size that leaves something else, and the
      frame again. It is answered as drawn and is not on the screen. */
  method LostScreen(stage: Stage, f: F.DrawFrame, ghost shown: Painted, lost: T.Term, room: nat)
    returns (replies: seq<Reply>, ghost moments: seq<Moment>)
    requires stage.Valid() && F.WellFormed(f) && Promised(stage.wire.quirks, f) && RetainedAs(f, shown)
    requires stage.painter.previous == Some(shown) && Displays(stage.wire.quirks, stage.wire.term, f)
    requires lost.Ok() && SameSize(shown.buffer, lost.columns, lost.rows) && !Displays(stage.wire.quirks, lost, f)
    modifies stage, stage.painter, stage.wire
    ensures |replies| == 2 && |moments| == 3 && moments[2].term == stage.wire.term
    ensures replies == [Quiet, Drawn(MetaOf(f))] && !Displays(stage.wire.quirks, stage.wire.term, f)
  {
    hide F.WellFormed, F.Encode, Displays, Promised, Stage.Valid, ProjectionOf, Presented;
    var again := Present(F.Encode(f), room, true);
    Encoded(stage.wire.quirks, f, room);
    replies, moments := stage.Run([Resized(lost), again]);
    assert Moved(stage.wire.quirks, moments[0], Resized(lost), replies[0], moments[1]);
    assert Moved(stage.wire.quirks, moments[1], again, replies[1], moments[2]);
    OnlyFrame(f);
    DrawnAgain(stage.wire.quirks, moments[1].(room := room), f, shown, replies[1], moments[2]);
  }

  lemma Encoded(q: T.Quirks, f: F.DrawFrame, room: nat)
    requires F.WellFormed(f) && Promised(q, f)
    ensures IncidentOk(Present(F.Encode(f), room, true), q)
  {
    hide F.WellFormed, F.Encode, Promised;
    OnlyFrame(f);
  }

  lemma OnlyFrame(f: F.DrawFrame)
    requires F.WellFormed(f)
    ensures forall g :: F.WellFormed(g) && F.Encode(g) == F.Encode(f) ==> g == f
  {
    hide F.WellFormed, F.Encode;
    forall g | F.WellFormed(g) && F.Encode(g) == F.Encode(f) ensures g == f {
      assert F.Encode(f) + [] == F.Encode(g);
      FrameCodec.PrefixFree(f, g, []);
    }
  }

  lemma DrawnAgain(q: T.Quirks, m: Moment, f: F.DrawFrame, shown: Painted, reply: Reply, n: Moment)
    requires F.WellFormed(f) && RetainedAs(f, shown) && m.retained == Some(shown)
    requires SameSize(shown.buffer, m.term.columns, m.term.rows) && Presented(q, m, f, true, reply, n)
    ensures reply == Drawn(MetaOf(f)) && n.term == m.term
  {
    hide F.WellFormed, RetainedAs, Painting;
    RetainedSize(f, shown);
    var next :| RetainedAs(f, next) && Fits(q, m.term, m.retained, next) && Painting(q, m, f, next, true, reply, n);
    OneRetained(f, shown, next);
    Redrawn(q, m, f, next, reply, n);
  }

  lemma RetainedSize(f: F.DrawFrame, p: Painted)
    requires RetainedAs(f, p)
    ensures SameSize(p.buffer, f.header.columns, f.header.rows)
  {
  }

  lemma Redrawn(q: T.Quirks, m: Moment, f: F.DrawFrame, next: Painted, reply: Reply, n: Moment)
    requires Fits(q, m.term, m.retained, next) && Painting(q, m, f, next, true, reply, n) && m.retained == Some(next)
    ensures reply == Drawn(MetaOf(f)) && n.term == m.term
  {
  }

  /** A terminal without remembered glyphs can be written over cleanly, whatever was retained; so a frame drawn after
      such a loss is shown exactly when what is not repainted survived. */
  lemma PlainClean(q: T.Quirks, t: T.Term, previous: Option<Painted>, next: Painted)
    requires Fits(q, t, previous, next)
    requires forall y :: 0 <= y < t.rows ==> T.Untagged(t.grid[y], 0, t.columns)
    ensures Clean(q, t, previous, next)
  {
    hide PaintableRow;
    forall y | 0 <= y < t.rows ensures CleanRow(next.buffer.content[y], PriorRow(previous, next, y), t.grid[y]) {
      PaintableRows(q, t, previous, next, y);
      assert T.Untagged(t.grid[y], 0, t.columns);
    }
  }

  /** Such a loss is visible: erasing any cell of a shown picture leaves something else. */
  lemma LostPicture(q: T.Quirks, t: T.Term, p: Screen.Painted)
    requires Shows(q, t, p)
    ensures var lost := t.(grid := t.grid[0 := t.grid[0][0 := T.Erased]]); lost.Ok() && !Shows(q, lost, p)
  {
    var lost := t.(grid := t.grid[0 := t.grid[0][0 := T.Erased]]);
    var row := p.buffer.content[0];
    assert PaintableRow(q, row);
    InGlyph(row, 0);
    assert lost.grid[0][0] == T.Erased;
    assert Picture(q, p.buffer)[0] == RowImage(q, row);
  }
}
