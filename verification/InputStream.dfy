/** The parser over a whole stream: how it is cut into reads never matters. */
module InputStream {
  import opened Bytes
  import opened Input

  function Opt(e: Option<Event>): seq<Event> {
    match e
    case None => []
    case Some(event) => [event]
  }

  // ----- The driving loop -----

  /** Calling `advance` on what is left until nothing is left. A call may consume nothing: it has then left the
      partial scalar, so the next one moves on. */
  function Drive(p: Parser, bytes: seq<byte>): (r: (Parser, seq<Event>))
    requires p.Valid()
    ensures r.0.Valid()
    decreases |bytes|, if p.state.Scalar? then 1 else 0
  {
    if bytes == [] then (p, [])
    else
      var s := Advanced(p, bytes);
      var rest := Drive(s.parser, bytes[s.consumed..]);
      (rest.0, Opt(s.event) + rest.1)
  }

  /** The driving loop over successive reads. */
  function DriveReads(p: Parser, reads_: seq<seq<byte>>): (r: (Parser, seq<Event>))
    requires p.Valid()
    ensures r.0.Valid()
    decreases |reads_|
  {
    if reads_ == [] then (p, [])
    else
      var first := Drive(p, reads_[0]);
      var rest := DriveReads(first.0, reads_[1..]);
      (rest.0, first.1 + rest.1)
  }

  function Flatten(reads_: seq<seq<byte>>): seq<byte> {
    if reads_ == [] then [] else reads_[0] + Flatten(reads_[1..])
  }

  // ----- A byte at a time -----

  /** One byte, taken for certain. */
  function Feed(p: Parser, b: byte): (r: (Parser, seq<Event>))
    requires p.Valid()
    ensures r.0.Valid() && |r.1| <= 2
  {
    var (t, paste) := Turn(p, b);
    var next := Parser(t.state, paste);
    if t.took then (next, Opt(t.event))
    else
      var (u, kept) := Turn(next, b);
      (Parser(u.state, kept), Opt(t.event) + Opt(u.event))
  }

  function FeedAll(p: Parser, bytes: seq<byte>): (r: (Parser, seq<Event>))
    requires p.Valid()
    ensures r.0.Valid()
    decreases |bytes|
  {
    if bytes == [] then (p, [])
    else
      var first := Feed(p, bytes[0]);
      var rest := FeedAll(first.0, bytes[1..]);
      (rest.0, first.1 + rest.1)
  }

  lemma {:induction false} FeedAllConcat(p: Parser, a: seq<byte>, b: seq<byte>)
    requires p.Valid()
    ensures FeedAll(p, a + b).0 == FeedAll(FeedAll(p, a).0, b).0
    ensures FeedAll(p, a + b).1 == FeedAll(p, a).1 + FeedAll(FeedAll(p, a).0, b).1
    decreases |a|
  {
    hide Turn, Feed;
    if a == [] {
      assert a + b == b;
    } else {
      assert (a + b)[1..] == a[1..] + b;
      FeedAllConcat(Feed(p, a[0]).0, a[1..], b);
    }
  }

  /** One call is the bytes it consumed, fed one at a time, except that a zero-byte rejection leaves its byte. */
  lemma {:induction false} AdvanceFeeds(p: Parser, bytes: seq<byte>)
    requires p.Valid() && bytes != []
    ensures var s := Advanced(p, bytes);
      var rest := FeedAll(s.parser, bytes[s.consumed..]);
      && FeedAll(p, bytes) == (rest.0, Opt(s.event) + rest.1)
    decreases |bytes|
  {
    hide Turn;
    var (t, paste) := Turn(p, bytes[0]);
    var next := Parser(t.state, paste);
    var s := Advanced(p, bytes);
    if !t.took {
      StaysTaken(next, bytes[0]);
      assert bytes[0..] == bytes;
      var again := Feed(next, bytes[0]);
      var rest := FeedAll(again.0, bytes[1..]);
      assert FeedAll(p, bytes).1 == Opt(t.event) + again.1 + rest.1 == Opt(t.event) + (again.1 + rest.1);
    } else if t.event.None? && bytes[1..] != [] {
      AdvanceFeeds(next, bytes[1..]);
      var inner := Advanced(next, bytes[1..]);
      assert bytes[1..][inner.consumed..] == bytes[s.consumed..];
      assert s == inner.(consumed := inner.consumed + 1);
      assert Feed(p, bytes[0]) == (next, []);
      assert [] + FeedAll(next, bytes[1..]).1 == FeedAll(next, bytes[1..]).1;
      assert FeedAll(p, bytes) == FeedAll(next, bytes[1..]);
    } else if t.event.None? {
      assert bytes[1..] == [];
    }
  }

  lemma StaysTaken(p: Parser, b: byte)
    requires p.Valid() && p.state == Ground
    ensures Turn(p, b).0.took
  {
  }

  /** The driving loop is the byte-at-a-time parser. */
  lemma {:induction false} DriveFeeds(p: Parser, bytes: seq<byte>)
    requires p.Valid()
    ensures Drive(p, bytes) == FeedAll(p, bytes)
    decreases |bytes|, if p.state.Scalar? then 1 else 0
  {
    if bytes == [] {
    } else {
      var s := Advanced(p, bytes);
      AdvanceFeeds(p, bytes);
      DriveFeeds(s.parser, bytes[s.consumed..]);
    }
  }

  /** Packetization invariance: for every stream, start and cut, the same events and the same final state. */
  lemma {:induction false} AnyReads(p: Parser, reads_: seq<seq<byte>>)
    requires p.Valid()
    ensures DriveReads(p, reads_) == Drive(p, Flatten(reads_))
    decreases |reads_|
  {
    DriveFeeds(p, Flatten(reads_));
    if reads_ == [] {
    } else {
      var first, rest := reads_[0], Flatten(reads_[1..]);
      DriveFeeds(p, first);
      AnyReads(FeedAll(p, first).0, reads_[1..]);
      DriveFeeds(FeedAll(p, first).0, rest);
      FeedAllConcat(p, first, rest);
    }
  }

  /** The loop itself: it ends, whatever the bytes. */
  method Drain(parser: InputParser, bytes: seq<byte>) returns (events: seq<Event>)
    requires parser.Valid()
    modifies parser
    ensures parser.Valid() && (parser.Value(), events) == Drive(old(parser.Value()), bytes)
  {
    hide Advanced;
    events := [];
    var start := 0;
    assert bytes[0..] == bytes;
    assert [] + Drive(parser.Value(), bytes).1 == Drive(parser.Value(), bytes).1;
    while start < |bytes|
      invariant parser.Valid() && start <= |bytes|
      invariant var rest := Drive(parser.Value(), bytes[start..]);
        Drive(old(parser.Value()), bytes) == (rest.0, events + rest.1)
      decreases |bytes| - start, if parser.state.Scalar? then 1 else 0
    {
      var consumed, event := parser.Advance(bytes[start..]);
      assert bytes[start..][consumed..] == bytes[start + consumed..];
      start := start + consumed;
      ghost var later := Drive(parser.Value(), bytes[start..]).1;
      assert events + (Opt(event) + later) == events + Opt(event) + later;
      events := events + Opt(event);
    }
    assert bytes[start..] == [] && events + [] == events;
  }

  // ----- Silence and the end of input -----

  lemma TurnEscapes(p: Parser, b: byte)
    requires p.Valid() && Feed(p, b).0.state == Escaped
    ensures b == ESC && Feed(p, b).0.paste == []
  {
  }

  /** Only a stream that ends in an ESC byte leaves something to expire: then it is the Escape key alone, everything
      sent before stays, and the parser goes on as if it had just been started. */
  lemma {:induction false} ExpiresAfterEscape(p: Parser, s: seq<byte>)
    requires p.Valid() && s != [] && Expired(FeedAll(p, s).0).1.Some?
    ensures s[|s| - 1] == ESC
    ensures Expired(FeedAll(p, s).0) == (START, Some(KeyEvent(Press, Escape, NO_MODIFIERS)))
    decreases |s|
  {
    hide Feed;
    if s[1..] == [] {
      assert FeedAll(p, s).0 == Feed(p, s[0]).0;
      TurnEscapes(p, s[0]);
    } else {
      ExpiresAfterEscape(Feed(p, s[0]).0, s[1..]);
    }
  }

  // ----- Retention -----

  /** One byte fed, at most one byte more retained. */
  lemma FeedRetains(p: Parser, b: byte)
    requires p.Valid()
    ensures Feed(p, b).0.Retained() <= p.Retained() + 1
  {
  }

  /** Whatever is fed, no more is retained than was fed, nor than a full paste and the five bytes of a terminator
      begun. */
  lemma {:induction false} Bounded(p: Parser, bytes: seq<byte>)
    requires p.Valid()
    ensures FeedAll(p, bytes).0.Retained() <= MAX_PASTE_BYTES + 5
    ensures FeedAll(p, bytes).0.Retained() <= p.Retained() + |bytes|
    decreases |bytes|
  {
    hide Feed;
    if bytes == [] {
    } else {
      FeedRetains(p, bytes[0]);
      Bounded(Feed(p, bytes[0]).0, bytes[1..]);
    }
  }
}
