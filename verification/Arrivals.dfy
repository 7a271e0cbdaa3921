/** Where every byte read from the terminal goes: to the parser, once and in order, or into one wheel event. */
module Arrivals {
  import opened Bytes
  import opened Input
  import opened InputBuffer
  import opened InputStream

  /** A read with the typeahead count it was taken under, the passing of time, the end of input, or the terminal taken
      anew with that many bytes typed before. A `Dropped` read was a burst whose event a suspension took away, at entry
      `at` of the session's trace. */
  datatype Item =
    | Read(raw: seq<byte>, cooked: nat)
    | Burst(raw: seq<byte>, cooked: nat)
    | Dropped(raw: seq<byte>, cooked: nat, at: nat)
    | Timeout
    | Closed
    | Taken(cooked: nat)
  {
    /** Bytes arrived. */
    predicate Carries() {
      Read? || Burst? || Dropped?
    }
  }

  /** A step of the start-up probe, or the terminal taken before anything but the probe's typeahead arrived. */
  datatype Probed =
    | Probed(raw: seq<byte>, cooked: nat)
    | Began(cooked: nat)

  /** The typeahead left in the buffer by the steps of the start-up probe. */
  function Typeahead(probe: seq<Probed>): seq<byte> {
    if probe == [] then []
    else
      var front, last := Typeahead(probe[..|probe| - 1]), probe[|probe| - 1];
      if last.Began? then front
      else WithoutReplies(front + Entered(last.raw, last.cooked), NOTHING_FOUND).0
  }

  /** The count after `n` more bytes. */
  function Left(cooked: nat, n: nat): nat {
    cooked - Least(n, cooked)
  }

  /** How many of the next bytes were typed before the terminal was taken. */
  function Cooked(probe: seq<Probed>, items: seq<Item>): nat {
    if items != [] then
      var last := items[|items| - 1];
      if last.Taken? then last.cooked
      else if last.Carries() then Left(last.cooked, |last.raw|)
      else Cooked(probe, items[..|items| - 1])
    else if probe != [] then
      var last := probe[|probe| - 1];
      if last.Began? then last.cooked else Left(last.cooked, |last.raw|)
    else 0
  }

  /** The wheel event of a read that is nothing but a burst. */
  function ScrollIn(read: seq<byte>): Option<Event> {
    var b := ArrowBurst(read);
    if b.None? then None else Some(Scroll(b.value.0, b.value.1))
  }

  function ScrollOf(raw: seq<byte>, cooked: nat): Option<Event> {
    ScrollIn(Entered(raw, cooked))
  }

  function After(r: (Parser, seq<Event>), item: Item): (s: (Parser, seq<Event>))
    requires r.0.Valid()
    ensures s.0.Valid()
  {
    match item
    case Read(raw, cooked) =>
      var fed := FeedAll(r.0, Entered(raw, cooked));
      (fed.0, r.1 + fed.1)
    case Burst(raw, cooked) => (r.0, r.1 + Opt(ScrollOf(raw, cooked)))
    case Dropped(_, _, _) => r
    case Taken(_) => r
    case Timeout => (Expired(r.0).0, r.1 + Opt(Expired(r.0).1))
    case Closed => (START, r.1 + Opt(Finished(r.0)))
  }

  /** The parser and the events when everything that arrived is fed at once. */
  function Replay(probe: seq<Probed>, items: seq<Item>): (r: (Parser, seq<Event>))
    ensures r.0.Valid()
  {
    if items == [] then FeedAll(START, Typeahead(probe))
    else After(Replay(probe, items[..|items| - 1]), items[|items| - 1])
  }

  /** Every step of the probe was taken under the count the one before left. */
  predicate Chained(probe: seq<Probed>) {
    probe == [] ||
    (var front, last := probe[..|probe| - 1], probe[|probe| - 1];
     Chained(front) && (last.Probed? ==> last.cooked == Cooked(front, [])))
  }

  /** Every read was taken under the count the one before left; a burst is taken only at ground, and only when the whole
      read is one. */
  predicate Honest(probe: seq<Probed>, items: seq<Item>) {
    if items == [] then Chained(probe)
    else
      var front, last := items[..|items| - 1], items[|items| - 1];
      Honest(probe, front) && MayFollow(probe, front, last)
  }

  predicate MayFollow(probe: seq<Probed>, items: seq<Item>, item: Item) {
    && (item.Carries() ==> item.cooked == Cooked(probe, items))
    && (item.Burst? || item.Dropped? ==>
          Replay(probe, items).0.state == Ground && ScrollOf(item.raw, item.cooked).Some?)
  }

  function RawOf(item: Item): seq<byte> {
    if item.Carries() then item.raw else []
  }

  /** Every byte read, in order. */
  function Raw(probe: seq<Probed>, items: seq<Item>): seq<byte> {
    if items != [] then Raw(probe, items[..|items| - 1]) + RawOf(items[|items| - 1])
    else if probe != [] then
      var last := probe[|probe| - 1];
      Raw(probe[..|probe| - 1], []) + if last.Began? then [] else last.raw
    else []
  }

  /** Conservation: the events sent, the wheel event waiting and what the buffered bytes still say are exactly what
      everything that arrived says. */
  predicate Conserved(probe: seq<Probed>, items: seq<Item>, sent: seq<Event>, waiting: Option<Event>,
                      parser: Parser, buffer: seq<byte>)
    requires parser.Valid()
  {
    && Honest(probe, items)
    && Replay(probe, items)
       == (FeedAll(parser, buffer).0, sent + Opt(waiting) + FeedAll(parser, buffer).1)
    && (waiting.Some? ==>
          && buffer == [] && items != [] && items[|items| - 1].Burst?
          && waiting == ScrollOf(items[|items| - 1].raw, items[|items| - 1].cooked))
  }

  lemma Snoc(probe: seq<Probed>, items: seq<Item>, item: Item)
    ensures Replay(probe, items + [item]) == After(Replay(probe, items), item)
    ensures Raw(probe, items + [item]) == Raw(probe, items) + RawOf(item)
    ensures Honest(probe, items + [item]) <==> Honest(probe, items) && MayFollow(probe, items, item)
    ensures Cooked(probe, items + [item]) ==
      if item.Taken? then item.cooked
      else if item.Carries() then Left(item.cooked, |item.raw|) else Cooked(probe, items)
  {
    var t := items + [item];
    assert t[..|t| - 1] == items && t[|t| - 1] == item;
  }

  lemma Nothing(parser: Parser, sent: seq<Event>)
    requires parser.Valid()
    ensures FeedAll(parser, []) == (parser, [])
    ensures sent + Opt(None) + [] == sent
  {
  }

  /** A read into an empty buffer. */
  lemma ReadArrives(probe: seq<Probed>, items: seq<Item>, sent: seq<Event>, parser: Parser, raw: seq<byte>, cooked: nat)
    requires parser.Valid() && Conserved(probe, items, sent, None, parser, []) && cooked == Cooked(probe, items)
    ensures Conserved(probe, items + [Read(raw, cooked)], sent, None, parser, Entered(raw, cooked))
  {
    hide FeedAll, Entered, Replay, Raw, Honest, Typeahead, Cooked;
    Nothing(parser, sent);
    Snoc(probe, items, Read(raw, cooked));
    assert sent + Opt(None) == sent;
  }

  /** A burst at ground waits as one event. */
  lemma BurstArrives(probe: seq<Probed>, items: seq<Item>, sent: seq<Event>, parser: Parser, raw: seq<byte>,
                     cooked: nat)
    requires parser.Valid() && Conserved(probe, items, sent, None, parser, []) && cooked == Cooked(probe, items)
    requires parser.state == Ground && ScrollOf(raw, cooked).Some?
    ensures Conserved(probe, items + [Burst(raw, cooked)], sent, ScrollOf(raw, cooked), parser, [])
  {
    hide FeedAll, ScrollOf, Replay, Raw, Honest, Entered, Typeahead, Cooked;
    Nothing(parser, sent);
    Snoc(probe, items, Burst(raw, cooked));
    var all := sent + Opt(ScrollOf(raw, cooked));
    assert all + [] == all;
    assert (items + [Burst(raw, cooked)])[|items|] == Burst(raw, cooked);
  }

  /** One call of the parser on the buffer. */
  lemma CallMade(probe: seq<Probed>, items: seq<Item>, sent: seq<Event>, parser: Parser, buffer: seq<byte>)
    requires parser.Valid() && Conserved(probe, items, sent, None, parser, buffer) && buffer != []
    ensures var s := Advanced(parser, buffer);
      Conserved(probe, items, sent + Opt(s.event), None, s.parser, buffer[s.consumed..])
  {
    hide FeedAll, Advanced;
    AdvanceFeeds(parser, buffer);
    var s := Advanced(parser, buffer);
    var rest := FeedAll(s.parser, buffer[s.consumed..]).1;
    assert sent + Opt(None) + (Opt(s.event) + rest) == sent + Opt(s.event) + Opt(None) + rest;
  }

  lemma ScrollSent(probe: seq<Probed>, items: seq<Item>, sent: seq<Event>, waiting: Event, parser: Parser,
                   buffer: seq<byte>)
    requires parser.Valid() && Conserved(probe, items, sent, Some(waiting), parser, buffer)
    ensures Conserved(probe, items, sent + [waiting], None, parser, buffer)
  {
    assert sent + Opt(Some(waiting)) == sent + [waiting] + Opt(None);
  }

  /** The terminal taken anew. */
  lemma TakenAnew(probe: seq<Probed>, items: seq<Item>, sent: seq<Event>, parser: Parser, buffer: seq<byte>,
                  cooked: nat)
    requires parser.Valid() && Conserved(probe, items, sent, None, parser, buffer)
    ensures Conserved(probe, items + [Taken(cooked)], sent, None, parser, buffer)
    ensures Raw(probe, items + [Taken(cooked)]) == Raw(probe, items)
  {
    hide FeedAll, ScrollOf, Replay, Raw, Honest, Entered, Typeahead, Cooked;
    Snoc(probe, items, Taken(cooked));
    assert Raw(probe, items) + [] == Raw(probe, items);
  }

  /** A suspension takes a waiting wheel event away, and nothing else. */
  function Dropping(items: seq<Item>, waiting: Option<Event>, at: nat): (r: seq<Item>)
    ensures waiting.None? ==> r == items
  {
    if waiting.None? || items == [] || !items[|items| - 1].Burst? then items
    else
      var last := items[|items| - 1];
      items[..|items| - 1] + [Dropped(last.raw, last.cooked, at)]
  }

  lemma Suspended(probe: seq<Probed>, items: seq<Item>, sent: seq<Event>, waiting: Option<Event>, parser: Parser,
                  buffer: seq<byte>, at: nat)
    requires parser.Valid() && Conserved(probe, items, sent, waiting, parser, buffer)
    ensures Conserved(probe, Dropping(items, waiting, at), sent, None, parser, buffer)
    ensures Raw(probe, Dropping(items, waiting, at)) == Raw(probe, items)
    ensures Cooked(probe, Dropping(items, waiting, at)) == Cooked(probe, items)
    ensures waiting.Some? ==> sent == Replay(probe, items[..|items| - 1]).1
  {
    hide FeedAll, ScrollOf, Replay, Raw, Honest, Entered, Typeahead, Cooked;
    if waiting.Some? {
      var front, last := items[..|items| - 1], items[|items| - 1];
      assert items == front + [last];
      Snoc(probe, front, last);
      Snoc(probe, front, Dropped(last.raw, last.cooked, at));
      Nothing(parser, sent);
      var es := Replay(probe, front).1;
      assert es + [waiting.value] == sent + [waiting.value] + [];
      assert es == (es + [waiting.value])[..|es|] == (sent + [waiting.value])[..|sent|] == sent;
    }
  }

  lemma TimePassed(probe: seq<Probed>, items: seq<Item>, sent: seq<Event>, parser: Parser)
    requires parser.Valid() && Conserved(probe, items, sent, None, parser, [])
    ensures Conserved(probe, items + [Timeout], sent + Opt(Expired(parser).1), None, Expired(parser).0, [])
  {
    hide FeedAll, Replay, Raw, Honest, Entered, Typeahead, Cooked;
    Nothing(parser, sent);
    Snoc(probe, items, Timeout);
    Nothing(Expired(parser).0, sent + Opt(Expired(parser).1));
  }

  lemma InputEnded(probe: seq<Probed>, items: seq<Item>, sent: seq<Event>, parser: Parser)
    requires parser.Valid() && Conserved(probe, items, sent, None, parser, [])
    ensures Conserved(probe, items + [Closed], sent + Opt(Finished(parser)), None, START, [])
  {
    hide FeedAll, Replay, Raw, Honest, Entered, Typeahead, Cooked;
    Nothing(parser, sent);
    Snoc(probe, items, Closed);
    Nothing(START, sent + Opt(Finished(parser)));
  }

  /** A step of the probe, before anything else arrived. */
  lemma ProbeStepped(probe: seq<Probed>, raw: seq<byte>, cooked: nat)
    requires Chained(probe) && cooked == Cooked(probe, [])
    ensures var next := probe + [Probed.Probed(raw, cooked)];
      && Typeahead(next) == WithoutReplies(Typeahead(probe) + Entered(raw, cooked), NOTHING_FOUND).0
      && Raw(next, []) == Raw(probe, []) + raw && Cooked(next, []) == Left(cooked, |raw|)
      && Conserved(next, [], [], None, START, Typeahead(next))
  {
    var next := probe + [Probed.Probed(raw, cooked)];
    assert next[..|next| - 1] == probe;
    var fed := FeedAll(START, Typeahead(next));
    assert [] + Opt(None) + fed.1 == fed.1;
  }

  /** The terminal taken before anything but the probe's typeahead arrived. */
  lemma ProbeBegan(probe: seq<Probed>, sent: seq<Event>, parser: Parser, buffer: seq<byte>, cooked: nat)
    requires parser.Valid() && Conserved(probe, [], sent, None, parser, buffer)
    ensures var next := probe + [Began(cooked)];
      && Typeahead(next) == Typeahead(probe) && Raw(next, []) == Raw(probe, []) && Cooked(next, []) == cooked
      && Conserved(next, [], sent, None, parser, buffer)
  {
    var next := probe + [Began(cooked)];
    assert next[..|next| - 1] == probe;
    assert Raw(probe, []) + [] == Raw(probe, []);
  }

  // ----- What the parser was given -----

  /** The bytes of an item as the parser sees them. */
  function Given(item: Item): seq<byte> {
    if item.Carries() then Entered(item.raw, item.cooked) else []
  }

  function Stream(items: seq<Item>): seq<byte> {
    if items == [] then [] else Stream(items[..|items| - 1]) + Given(items[|items| - 1])
  }

  function RawsOf(items: seq<Item>): seq<byte> {
    if items == [] then [] else RawsOf(items[..|items| - 1]) + RawOf(items[|items| - 1])
  }

  lemma SnocStream(items: seq<Item>, item: Item)
    ensures Stream(items + [item]) == Stream(items) + Given(item)
    ensures RawsOf(items + [item]) == RawsOf(items) + RawOf(item)
  {
    var t := items + [item];
    assert t[..|t| - 1] == items && t[|t| - 1] == item;
  }

  /** However it is cut into reads: of what arrives between two takings of the terminal, line feeds are Enter within
      exactly the bytes that were typed before, and every other byte is the one that was read. */
  lemma {:induction false} TypeaheadExact(probe: seq<Probed>, before: seq<Item>, items: seq<Item>)
    requires Honest(probe, before + items) && forall i :: 0 <= i < |items| ==> !items[i].Taken?
    ensures Stream(items) == Entered(RawsOf(items), Cooked(probe, before))
    ensures Cooked(probe, before + items) == Left(Cooked(probe, before), |RawsOf(items)|)
    decreases |items|
  {
    hide Entered, Cooked, Honest, Stream, RawsOf, Replay, Given, RawOf, MayFollow, Left;
    if items == [] {
      NoStream();
      assert before + items == before;
      NothingEntered(Cooked(probe, before));
      LeftNothing(Cooked(probe, before));
    } else {
      var front, last := items[..|items| - 1], items[|items| - 1];
      assert items == front + [last] && before + items == (before + front) + [last];
      Snoc(probe, before + front, last);
      SnocStream(front, last);
      TypeaheadExact(probe, before, front);
      OneMore(RawsOf(front), probe, before + front, last, Cooked(probe, before));
    }
  }

  lemma OneMore(raws: seq<byte>, probe: seq<Probed>, items: seq<Item>, item: Item, cooked: nat)
    requires MayFollow(probe, items, item) && Cooked(probe, items) == Left(cooked, |raws|) && !item.Taken?
    ensures Entered(raws, cooked) + Given(item) == Entered(raws + RawOf(item), cooked)
    ensures (if item.Carries() then Left(item.cooked, |item.raw|) else Cooked(probe, items))
      == Left(cooked, |raws + RawOf(item)|)
  {
    hide Entered, Cooked, ScrollOf, Replay;
    if item.Carries() {
      EnteredConcat(raws, item.raw, cooked);
    } else {
      assert raws + [] == raws && Entered(raws, cooked) + [] == Entered(raws, cooked);
    }
  }

  lemma NoStream()
    ensures Stream([]) == [] && RawsOf([]) == []
  {
  }

  lemma LeftNothing(cooked: nat)
    ensures Left(cooked, 0) == cooked
  {
  }

  lemma NothingEntered(cooked: nat)
    ensures Entered([], cooked) == []
  {
  }
}
