/** A bracketed paste among everything that arrives: reads cut anywhere, arrows in it, suspensions and expired waits. */
module Pastes {
  import opened Arrivals
  import opened Bytes
  import opened Input
  import opened InputBuffer
  import opened InputPaste
  import opened InputStream

  const ESCAPE_KEY: Event := KeyEvent(Press, Escape, NO_MODIFIERS)

  function Bracketed(payload: seq<byte>): (s: seq<byte>)
    ensures |s| == |payload| + 12
  {
    PASTE_START + (payload + PASTE_END)
  }

  /** Since the events `es`, the parser has been fed `s` from its start. */
  predicate At(r: (Parser, seq<Event>), es: seq<Event>, s: seq<byte>) {
    r == (FeedAll(START, s).0, es + FeedAll(START, s).1)
  }

  // ----- Inside the brackets -----

  lemma {:induction false} OpenedPrefix(i: nat)
    requires i <= 6
    ensures OPENED[i].Valid() && FeedAll(START, PASTE_START[..i]) == (OPENED[i], [])
  {
    if i == 0 {
      assert PASTE_START[..0] == [];
    } else {
      OpenedPrefix(i - 1);
      var front, b := PASTE_START[..i - 1], PASTE_START[i - 1];
      assert PASTE_START[..i] == front + [b];
      Opening(i - 1);
      FeedAllConcat(START, front, [b]);
      OneByte(OPENED[i - 1], b);
    }
  }

  lemma BodyPasting(payload: seq<byte>, n: nat)
    requires FirstEnd(payload) && n <= |payload| + 5
    ensures FeedAll(INSIDE, (payload + PASTE_END)[..n]).0.state.Pasting?
  {
    hide FeedAll, Open, Held, Refusal;
    var held := payload + PASTE_END[..5];
    OpenPrefix(held, n);
    assert (payload + PASTE_END)[..n] == held[..n];
    var m := OpenPaste(held[..n]);
  }

  /** Inside a bracketed paste, its opening and closing sequences included, the parser is never at ground, and it holds
      an ambiguous Escape after exactly the first byte. */
  lemma Inside(payload: seq<byte>, n: nat)
    requires FirstEnd(payload) && 0 < n < |Bracketed(payload)|
    ensures FeedAll(START, Bracketed(payload)[..n]).0.state != Ground
    ensures FeedAll(START, Bracketed(payload)[..n]).0.state == Escaped <==> n == 1
  {
    hide FeedAll, FirstEnd;
    var body := payload + PASTE_END;
    var s := Bracketed(payload)[..n];
    if n <= 6 {
      assert s == PASTE_START[..n];
      OpenedPrefix(n);
    } else {
      var t := body[..n - 6];
      assert s == PASTE_START + t;
      FeedAllConcat(START, PASTE_START, t);
      PasteOpens();
      BodyPasting(payload, n - 6);
    }
  }

  /** A whole bracketed paste from the start. */
  lemma Whole(payload: seq<byte>)
    requires FirstEnd(payload)
    ensures FeedAll(START, Bracketed(payload)) == (START, [Outcome(payload)])
  {
    hide FeedAll, FirstEnd, Outcome;
    FeedAllConcat(START, PASTE_START, payload + PASTE_END);
    PasteOpens();
    PasteExact(payload);
    assert [] + [Outcome(payload)] == [Outcome(payload)];
  }

  // ----- No read of it is the wheel -----

  /** In a burst of arrows ESC begins each of them and a letter ends it. */
  lemma ArrowByte(s: seq<byte>, j: nat)
    requires ArrowBurst(s).Some?
    ensures |s| % 3 == 0 && |s| > 0
    ensures j < |s| && s[j] == ESC ==> j % 3 == 0
    ensures j < |s| && j % 3 == 2 ==> s[j] != 0x32
  {
    if j < |s| {
      assert s[3 * (j / 3)..3 * (j / 3) + 3] == s[..3];
      assert s[j] == s[3 * (j / 3)..3 * (j / 3) + 3][j % 3] == s[..3][j % 3];
    }
  }

  /** Some bytes followed by the beginning of a paste are no arrow burst. */
  lemma NotArrows(head: seq<byte>, s: seq<byte>)
    requires s == [] ==> head == []
    requires s != [] ==> s[0] == ESC
    requires |s| >= 3 ==> s[2] == 0x32
    ensures ArrowBurst(head + s).None?
  {
    hide ArrowBurst;
    if ArrowBurst(head + s).Some? {
      ArrowByte(head + s, |head|);
      if s != [] {
        ArrowByte(head + s, |head| + 2);
      }
      assert false;
    }
  }

  /** A stretch of the paste from index `n` on, or the rest of it and more. */
  predicate Part(s: seq<byte>, payload: seq<byte>, n: nat)
    requires n <= |Bracketed(payload)|
  {
    s <= Bracketed(payload)[n..] || Bracketed(payload)[n..] <= s
  }

  /** A read of a part of the paste is fed to the parser: its beginning does not look like arrows, and later the parser
      is not at ground. */
  lemma PartIsRead(probe: seq<Probed>, items: seq<Item>, item: Item, es: seq<Event>, payload: seq<byte>, n: nat)
    requires FirstEnd(payload) && n < |Bracketed(payload)|
    requires At(Replay(probe, items), es, Bracketed(payload)[..n])
    requires item.Carries() && MayFollow(probe, items, item) && Part(Given(item), payload, n)
    ensures item.Read?
  {
    hide FeedAll, FirstEnd, Entered, Replay, Cooked, ArrowBurst;
    var bytes := Given(item);
    if n == 0 {
      var whole := Bracketed(payload);
      assert whole[0..] == whole;
      assert |bytes| >= 1 ==> bytes[0] == whole[0];
      assert |bytes| >= 3 ==> bytes[2] == whole[2];
      NotArrows([], bytes);
      assert [] + bytes == bytes;
    } else {
      Inside(payload, n);
    }
  }

  // ----- The paste is fed as it came -----

  lemma Step(r: (Parser, seq<Event>), es: seq<Event>, s: seq<byte>, item: Item)
    requires r.0.Valid() && At(r, es, s) && (item.Read? || item.Taken? || item.Timeout?)
    requires item.Timeout? ==> FeedAll(START, s).0.state != Escaped
    ensures At(After(r, item), es, s + Given(item))
  {
    hide FeedAll, Entered;
    FeedAllConcat(START, s, Given(item));
    assert s + [] == s && r.1 + [] == r.1;
    if item.Read? {
      var fed := FeedAll(START, s);
      assert es + fed.1 + FeedAll(fed.0, Given(item)).1 == es + (fed.1 + FeedAll(fed.0, Given(item)).1);
    }
  }

  /** No Escape expires right after the first byte of a paste of which `k` bytes came before these items. */
  predicate Uninterrupted(items: seq<Item>, k: nat) {
    forall i :: 0 <= i < |items| && items[i].Timeout? ==> k + |Stream(items[..i])| != 1
  }

  predicate NoEnd(items: seq<Item>) {
    forall i :: 0 <= i < |items| ==> !items[i].Closed?
  }

  lemma UninterruptedFront(items: seq<Item>, k: nat)
    requires items != []
    ensures var front, last := items[..|items| - 1], items[|items| - 1];
      Uninterrupted(items, k) <==>
        Uninterrupted(front, k) && (last.Timeout? ==> k + |Stream(front)| != 1)
  {
    hide Stream;
    var front := items[..|items| - 1];
    forall i | 0 <= i < |front| ensures front[..i] == items[..i] && front[i] == items[i] {
    }
  }

  lemma {:induction false} Fed(probe: seq<Probed>, before: seq<Item>, items: seq<Item>, es: seq<Event>,
                               payload: seq<byte>, k: nat)
    requires FirstEnd(payload) && k + |Stream(items)| < |Bracketed(payload)|
    requires At(Replay(probe, before), es, Bracketed(payload)[..k])
    requires Honest(probe, before + items) && NoEnd(items) && Uninterrupted(items, k)
    requires Stream(items) <= Bracketed(payload)[k..]
    ensures At(Replay(probe, before + items), es, Bracketed(payload)[..k + |Stream(items)|])
    decreases |items|
  {
    hide FeedAll, FirstEnd, Stream, Honest, Replay, At, Uninterrupted, Bracketed, MayFollow, Given;
    var whole := Bracketed(payload);
    if items == [] {
      NoStream();
      assert before + items == before;
    } else {
      var front, last := items[..|items| - 1], items[|items| - 1];
      assert items == front + [last] && before + items == (before + front) + [last];
      SnocStream(front, last);
      UninterruptedFront(items, k);
      Snoc(probe, before + front, last);
      var n := k + |Stream(front)|;
      Parts(whole, k, Stream(front), Given(last));
      Fed(probe, before, front, es, payload, k);
      if last.Carries() {
        PartIsRead(probe, before + front, last, es, payload, n);
      }
      Pending(payload, n, last);
      Step(Replay(probe, before + front), es, whole[..n], last);
      assert whole[..n] + Given(last) == whole[..k + |Stream(items)|];
    }
  }

  lemma Parts(whole: seq<byte>, k: nat, a: seq<byte>, b: seq<byte>)
    requires k <= |whole| && a + b <= whole[k..]
    ensures a <= whole[k..] && b <= whole[k + |a|..] && whole[..k + |a|] + b == whole[..k + |a + b|]
  {
    assert a == (a + b)[..|a|] && b == (a + b)[|a|..];
  }

  lemma Pending(payload: seq<byte>, n: nat, item: Item)
    requires FirstEnd(payload) && n < |Bracketed(payload)| && (item.Timeout? ==> n != 1)
    ensures item.Timeout? ==> FeedAll(START, Bracketed(payload)[..n]).0.state != Escaped
  {
    hide FeedAll, FirstEnd, Bracketed;
    if n > 0 {
      Inside(payload, n);
    } else {
      assert Bracketed(payload)[..0] == [];
      Arrivals.Nothing(START, []);
    }
  }

  /** Where a paste begins: at the end of a read, possibly with all of the paste and more in that read. */
  lemma Begins(probe: seq<Probed>, before: seq<Item>, item: Item, head: seq<byte>, s: seq<byte>, payload: seq<byte>)
    requires item.Carries() && MayFollow(probe, before, item) && Given(item) == head + s && s != []
    requires Part(s, payload, 0) && FeedAll(Replay(probe, before).0, head).0 == START
    ensures item.Read?
    ensures At(Replay(probe, before + [item]), Replay(probe, before).1 + FeedAll(Replay(probe, before).0, head).1, s)
  {
    hide FeedAll, Entered, Replay, Cooked, ArrowBurst;
    var r := Replay(probe, before);
    var whole := Bracketed(payload);
    assert whole[0..] == whole;
    assert s[0] == whole[0] && (|s| >= 3 ==> s[2] == whole[2]);
    NotArrows(head, s);
    Snoc(probe, before, item);
    FeedAllConcat(r.0, head, s);
    assert r.1 + (FeedAll(r.0, head).1 + FeedAll(START, s).1) == r.1 + FeedAll(r.0, head).1 + FeedAll(START, s).1;
  }

  /** Or among what was typed before the terminal was Ready. */
  lemma BeginsTyped(probe: seq<Probed>, head: seq<byte>, s: seq<byte>)
    requires Typeahead(probe) == head + s && FeedAll(START, head).0 == START
    ensures At(Replay(probe, []), FeedAll(START, head).1, s)
  {
    hide FeedAll, Typeahead;
    FeedAllConcat(START, head, s);
  }

  lemma {:induction false} Grows(probe: seq<Probed>, before: seq<Item>, items: seq<Item>)
    ensures Replay(probe, before).1 <= Replay(probe, before + items).1
    decreases |items|
  {
    if items == [] {
      assert before + items == before;
    } else {
      hide FeedAll, Entered, ScrollOf, Replay;
      var front, last := items[..|items| - 1], items[|items| - 1];
      assert before + items == (before + front) + [last];
      Snoc(probe, before + front, last);
      Grows(probe, before, front);
    }
  }

  /** A paste of which `k` bytes have been fed since `es`, and items that carry the rest of it and, in the last read,
      a tail. It is exactly one event, whatever the cuts and the arrows in it, and what follows is parsed afresh. The one
      exception is an expired wait right after the first ESC byte, which is then the Escape key. */
  lemma PasteIntact(probe: seq<Probed>, before: seq<Item>, items: seq<Item>, es: seq<Event>, payload: seq<byte>,
                    k: nat, tail: seq<byte>)
    requires FirstEnd(payload) && k < |Bracketed(payload)| && At(Replay(probe, before), es, Bracketed(payload)[..k])
    requires items != [] && Honest(probe, before + items) && NoEnd(items)
    requires Stream(items) == Bracketed(payload)[k..] + tail
    requires k + |Stream(items[..|items| - 1])| < |Bracketed(payload)|
    ensures Uninterrupted(items, k) ==>
      Replay(probe, before + items)
      == (FeedAll(START, tail).0, es + [Outcome(payload)] + FeedAll(START, tail).1)
    ensures !Uninterrupted(items, k) ==> es + [ESCAPE_KEY] <= Replay(probe, before + items).1
    ensures Uninterrupted(items, k) <==> es + [Outcome(payload)] <= Replay(probe, before + items).1
  {
    hide FeedAll, FirstEnd, Outcome, Replay, Honest, Stream, Bracketed, Uninterrupted, At;
    NoKey(payload, es, Replay(probe, before + items).1);
    if Uninterrupted(items, k) {
      Closes(probe, before, items, es, payload, k, tail);
      Ended(Replay(probe, before + items), es, payload, tail);
    } else {
      var i := FirstBreak(items, k);
      Broken(probe, before, items, es, payload, k, tail, i);
    }
  }

  /** What comes of a paste and its tail: one event and then the tail afresh, or first of all the Escape key. */
  ghost function Following(items: seq<Item>, k: nat, payload: seq<byte>, tail: seq<byte>): (r: seq<Event>)
    ensures r != []
  {
    if Uninterrupted(items, k) then [Outcome(payload)] + FeedAll(START, tail).1 else [ESCAPE_KEY]
  }

  lemma Follows(es: seq<Event>, e: Event, all: seq<Event>)
    ensures es + [e] <= all ==> |es| < |all| && all[|es|] == e
  {
    if es + [e] <= all {
      assert (es + [e])[|es|] == e;
    }
  }

  lemma NoKey(payload: seq<byte>, es: seq<Event>, all: seq<Event>)
    ensures es + [Outcome(payload)] <= all ==> !(es + [ESCAPE_KEY] <= all)
  {
    Follows(es, Outcome(payload), all);
    Follows(es, ESCAPE_KEY, all);
  }

  lemma Ended(r: (Parser, seq<Event>), es: seq<Event>, payload: seq<byte>, tail: seq<byte>)
    requires FirstEnd(payload) && At(r, es, Bracketed(payload) + tail)
    ensures r == (FeedAll(START, tail).0, es + [Outcome(payload)] + FeedAll(START, tail).1)
  {
    hide FeedAll, FirstEnd, Outcome;
    Whole(payload);
    FeedAllConcat(START, Bracketed(payload), tail);
    assert es + ([Outcome(payload)] + FeedAll(START, tail).1) == es + [Outcome(payload)] + FeedAll(START, tail).1;
  }

  /** The last read ends it. */
  lemma Closes(probe: seq<Probed>, before: seq<Item>, items: seq<Item>, es: seq<Event>, payload: seq<byte>, k: nat,
               tail: seq<byte>)
    requires FirstEnd(payload) && k < |Bracketed(payload)| && At(Replay(probe, before), es, Bracketed(payload)[..k])
    requires items != [] && Honest(probe, before + items) && NoEnd(items) && Uninterrupted(items, k)
    requires Stream(items) == Bracketed(payload)[k..] + tail
    requires k + |Stream(items[..|items| - 1])| < |Bracketed(payload)|
    ensures At(Replay(probe, before + items), es, Bracketed(payload) + tail)
  {
    hide FeedAll, FirstEnd, Stream, Honest, Replay, At, Uninterrupted, Bracketed, MayFollow, Given;
    var whole := Bracketed(payload);
    var front, last := items[..|items| - 1], items[|items| - 1];
    assert items == front + [last] && before + items == (before + front) + [last];
    SnocStream(front, last);
    UninterruptedFront(items, k);
    Snoc(probe, before + front, last);
    var n := k + |Stream(front)|;
    LastPart(whole, k, Stream(front), Given(last), tail);
    Fed(probe, before, front, es, payload, k);
    if !last.Carries() {
      NoBytes(last);
    }
    PartIsRead(probe, before + front, last, es, payload, n);
    Step(Replay(probe, before + front), es, whole[..n], last);
    assert whole[..n] + Given(last) == whole + tail;
  }

  lemma NoBytes(item: Item)
    requires !item.Carries()
    ensures Given(item) == []
  {
  }

  lemma LastPart(whole: seq<byte>, k: nat, a: seq<byte>, b: seq<byte>, tail: seq<byte>)
    requires k + |a| < |whole| && a + b == whole[k..] + tail
    ensures a <= whole[k..] && whole[k + |a|..] <= b && whole[..k + |a|] + b == whole + tail && b != []
  {
    assert a == (a + b)[..|a|] && b == (a + b)[|a|..];
    assert b == whole[k + |a|..] + tail;
  }

  lemma {:induction false} FirstBreak(items: seq<Item>, k: nat) returns (i: nat)
    requires !Uninterrupted(items, k)
    ensures i < |items| && items[i].Timeout? && k + |Stream(items[..i])| == 1 && Uninterrupted(items[..i], k)
  {
    hide Stream;
    var front := items[..|items| - 1];
    UninterruptedFront(items, k);
    if Uninterrupted(front, k) {
      i := |items| - 1;
    } else {
      i := FirstBreak(front, k);
      assert front[..i] == items[..i];
    }
  }

  /** The first byte of the paste went out as the Escape key. */
  lemma Broken(probe: seq<Probed>, before: seq<Item>, items: seq<Item>, es: seq<Event>, payload: seq<byte>, k: nat,
               tail: seq<byte>, i: nat)
    requires FirstEnd(payload) && k < |Bracketed(payload)| && At(Replay(probe, before), es, Bracketed(payload)[..k])
    requires items != [] && Honest(probe, before + items) && NoEnd(items)
    requires Stream(items) == Bracketed(payload)[k..] + tail
    requires i < |items| && items[i].Timeout? && k + |Stream(items[..i])| == 1 && Uninterrupted(items[..i], k)
    ensures es + [ESCAPE_KEY] <= Replay(probe, before + items).1
  {
    hide FeedAll, FirstEnd, Stream, Honest, Replay, Uninterrupted, Bracketed, Expired;
    var front, rest := items[..i], items[i + 1..];
    assert before + items == (before + front + [items[i]]) + rest;
    StreamPrefix(items, i);
    HonestPrefix(probe, before + items, |before + front|);
    assert (before + items)[..|before + front|] == before + front;
    Prefixes(Stream(front), Stream(items), Bracketed(payload), k, tail);
    Fed(probe, before, front, es, payload, k);
    Snoc(probe, before + front, items[i]);
    assert Bracketed(payload)[..1] == PASTE_START[..1] by { FirstByte(payload); }
    OpenedPrefix(1);
    assert es + [] == es;
    Expires();
    Grows(probe, before + front + [items[i]], rest);
  }

  lemma FirstByte(payload: seq<byte>)
    ensures Bracketed(payload)[..1] == PASTE_START[..1]
  {
  }

  lemma Expires()
    ensures Expired(OPENED[1]).1 == Some(ESCAPE_KEY)
  {
  }

  lemma Prefixes(a: seq<byte>, b: seq<byte>, whole: seq<byte>, k: nat, tail: seq<byte>)
    requires k < |whole| && a <= b && b == whole[k..] + tail && k + |a| == 1 && |whole| >= 12
    ensures a <= whole[k..]
  {
  }

  lemma {:induction false} StreamPrefix(items: seq<Item>, n: nat)
    requires n <= |items|
    ensures Stream(items[..n]) <= Stream(items)
    decreases |items|
  {
    if n == |items| {
      assert items[..n] == items;
    } else {
      var front := items[..|items| - 1];
      StreamPrefix(front, n);
      assert front[..n] == items[..n];
    }
  }

  lemma {:induction false} HonestPrefix(probe: seq<Probed>, items: seq<Item>, n: nat)
    requires n <= |items| && Honest(probe, items)
    ensures Honest(probe, items[..n])
    decreases |items|
  {
    hide MayFollow;
    if n == |items| {
      assert items[..n] == items;
    } else {
      var front := items[..|items| - 1];
      HonestPrefix(probe, front, n);
      assert front[..n] == items[..n];
    }
  }

  lemma EmptyPaste()
    ensures FirstEnd([]) && Bracketed([]) == [ESC] + (PASTE_START[1..] + PASTE_END)
  {
    var none: seq<byte> := [];
    assert none + PASTE_END[..5] == PASTE_END[..5] && none + PASTE_END == PASTE_END;
  }

  lemma Uncooked(s: seq<byte>)
    ensures Entered(s, 0) == s
  {
  }

  function Split(): (items: seq<Item>) {
    [Read([ESC], 0), Timeout, Read(PASTE_START[1..] + PASTE_END, 0)]
  }

  lemma SplitHonest()
    ensures Honest([], Split()) && NoEnd(Split())
  {
    hide FeedAll, Entered;
    var first, last := Read([ESC], 0), Read(PASTE_START[1..] + PASTE_END, 0);
    assert Split() == [first, Timeout] + [last] && [first, Timeout] == [first] + [Timeout] && [first] == [] + [first];
    Snoc([], [], first);
    Snoc([], [first], Timeout);
    Snoc([], [first, Timeout], last);
  }

  lemma SplitStream()
    ensures Stream(Split()) == Bracketed([]) && Stream(Split()[..1]) == [ESC]
    ensures |Stream(Split()[..2])| == 1
  {
    hide Entered, Bracketed;
    var first, last := Read([ESC], 0), Read(PASTE_START[1..] + PASTE_END, 0);
    assert Split() == [first, Timeout] + [last] && [first, Timeout] == [first] + [Timeout] && [first] == [] + [first];
    assert Split()[..1] == [first] && Split()[..2] == [first, Timeout];
    NoStream();
    SnocStream([], first);
    SnocStream([first], Timeout);
    SnocStream([first, Timeout], last);
    Uncooked(first.raw);
    Uncooked(last.raw);
    EmptyPaste();
  }

  /** An empty paste of which the first byte was read alone before a wait of 40 milliseconds ran out. */
  lemma FirstByteExpires()
    ensures Honest([], Split()) && Stream(Split()) == Bracketed([]) && [ESCAPE_KEY] <= Replay([], Split()).1
  {
    hide FeedAll, Replay, Bracketed, FirstEnd, Honest, Stream, Typeahead, At, NoEnd, Outcome;
    var none: seq<byte>, nobody: seq<Item>, unasked: seq<Probed>, silent: seq<Event> := [], [], [], [];
    SplitHonest();
    SplitStream();
    EmptyPaste();
    AtFirst(none);
    assert nobody + Split() == Split() && Stream(Split()) == Bracketed(none)[0..] + none;
    assert Split()[..|Split()| - 1] == Split()[..2];
    assert Split()[1].Timeout? && 0 + |Stream(Split()[..1])| == 1;
    PasteIntact(unasked, nobody, Split(), silent, none, 0, none);
    assert silent + [ESCAPE_KEY] == [ESCAPE_KEY];
  }

  lemma AtFirst(payload: seq<byte>)
    ensures At(Replay([], []), [], Bracketed(payload)[..0])
  {
    assert Bracketed(payload)[..0] == [];
    Arrivals.Nothing(START, []);
  }
}
