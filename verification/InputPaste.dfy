/** Bracketed paste: the one-pass matcher finds the first terminator, and the payload comes back exactly or not at all. */
module InputPaste {
  import opened Bytes
  import opened Input
  import opened InputStream
  import Utf8

  /** ESC [ 2 0 0 ~ */
  const PASTE_START: seq<byte> := [0x1b, 0x5b, 0x32, 0x30, 0x30, 0x7e]

  const INSIDE: Parser := Parser(Pasting(0, false), [])

  predicate EndsWith(s: seq<byte>, t: seq<byte>) {
    |t| <= |s| && s[|s| - |t|..] == t
  }

  /** No terminator anywhere in `s`. */
  predicate Open(s: seq<byte>) {
    forall n :: 0 <= n <= |s| ==> !EndsWith(s[..n], PASTE_END)
  }

  /** `m` is the length of the longest proper prefix of the terminator that `s` ends with. */
  predicate Held(s: seq<byte>, m: nat) {
    m < 6 && EndsWith(s, PASTE_END[..m]) && forall k :: m < k < 6 ==> !EndsWith(s, PASTE_END[..k])
  }

  lemma EndsSnoc(s: seq<byte>, b: byte, k: nat)
    requires 1 <= k <= 6
    ensures EndsWith(s + [b], PASTE_END[..k]) <==> EndsWith(s, PASTE_END[..k - 1]) && b == PASTE_END[k - 1]
  {
    var t := PASTE_END[..k];
    assert t == PASTE_END[..k - 1] + [PASTE_END[k - 1]];
    if k <= |s| + 1 {
      var tail := (s + [b])[|s| + 1 - k..];
      assert tail == s[|s| - (k - 1)..] + [b];
      assert tail[..k - 1] == s[|s| - (k - 1)..] && tail[k - 1] == b;
      assert t[..k - 1] == PASTE_END[..k - 1];
    }
  }

  /** The terminator has no border: ESC occurs only at its start. */
  lemma NoBorder(s: seq<byte>, m: nat, k: nat)
    requires 1 <= k < m <= 6 && EndsWith(s, PASTE_END[..m])
    ensures !EndsWith(s, PASTE_END[..k])
  {
    assert s[|s| - k] == s[|s| - m..][m - k] == PASTE_END[m - k];
    assert s[|s| - k] == s[|s| - k..][0];
    assert PASTE_END[..k][0] == PASTE_END[0];
  }

  function Next(m: nat, b: byte): (n: nat)
    requires m < 6
  {
    if b == PASTE_END[m] then m + 1 else if b == PASTE_END[0] then 1 else 0
  }

  lemma HeldStep(s: seq<byte>, m: nat, b: byte)
    requires Held(s, m) && Next(m, b) < 6
    ensures Held(s + [b], Next(m, b))
  {
    hide EndsWith;
    var n := Next(m, b);
    if n > 0 {
      EndsSnoc(s, b, n);
      assert n == 1 ==> EndsWith(s, PASTE_END[..0]) by { Empty(s); }
    } else {
      Empty(s + [b]);
    }
    forall k | n < k < 6 ensures !EndsWith(s + [b], PASTE_END[..k]) {
      EndsSnoc(s, b, k);
      if 1 <= k - 1 < m {
        NoBorder(s, m, k - 1);
      }
    }
  }

  lemma Empty(s: seq<byte>)
    ensures EndsWith(s, PASTE_END[..0])
  {
  }

  lemma OpenPrefix(s: seq<byte>, n: nat)
    requires Open(s) && n <= |s|
    ensures Open(s[..n])
  {
    forall k | 0 <= k <= n ensures !EndsWith(s[..n][..k], PASTE_END) {
      assert s[..n][..k] == s[..k];
    }
  }

  /** The parser after an open stretch of paste whose last `m` bytes may begin the terminator. */
  function Holding(s: seq<byte>, m: nat): (p: Parser)
    requires m <= |s|
  {
    if |s| - m > MAX_PASTE_BYTES then Parser(Pasting(m, true), []) else Parser(Pasting(m, false), s[..|s| - m])
  }

  function Refusal(s: seq<byte>, m: nat): seq<Event>
    requires m <= |s|
  {
    if |s| - m > MAX_PASTE_BYTES then [Rejected(PasteTooLarge)] else []
  }

  /** Without a terminator the parser stays in the paste, retaining all of it but the matched bytes, or refuses it
      exactly once. */
  lemma {:induction false} OpenPaste(s: seq<byte>) returns (m: nat)
    requires Open(s)
    ensures Held(s, m) && m <= |s|
    ensures FeedAll(INSIDE, s) == (Holding(s, m), Refusal(s, m))
    decreases |s|
  {
    if s == [] {
      m := 0;
      HeldEmpty();
    } else {
      var n := |s| - 1;
      var front, b := s[..n], s[n];
      assert s == front + [b];
      OpenPrefix(s, n);
      var before := OpenPaste(front);
      NotClosed(s, before);
      m := Next(before, b);
      HeldStep(front, before, b);
      FeedAllConcat(INSIDE, front, [b]);
      PasteByte(front, before, b);
    }
  }

  lemma HeldEmpty()
    ensures Held([], 0)
  {
  }

  lemma NotClosed(s: seq<byte>, before: nat)
    requires Open(s) && s != [] && Held(s[..|s| - 1], before)
    ensures Next(before, s[|s| - 1]) < 6
  {
    var n := |s| - 1;
    assert s == s[..n] + [s[n]] && s[..|s|] == s;
    assert PASTE_END[..6] == PASTE_END;
    EndsSnoc(s[..n], s[n], 6);
    assert !EndsWith(s[..|s|], PASTE_END);
  }

  lemma OneByte(p: Parser, b: byte)
    requires p.Valid()
    ensures FeedAll(p, [b]) == Feed(p, b)
  {
    assert [b][1..] == [];
    assert Feed(p, b).1 + [] == Feed(p, b).1;
  }

  /** One more byte of paste that does not complete the terminator. */
  lemma PasteByte(s: seq<byte>, m: nat, b: byte)
    requires Held(s, m) && m <= |s| && Next(m, b) < 6 && Next(m, b) <= |s| + 1
    requires Holding(s, m).Valid()
    ensures Refusal(s, m) + FeedAll(Holding(s, m), [b]).1 == Refusal(s + [b], Next(m, b))
    ensures FeedAll(Holding(s, m), [b]).0 == Holding(s + [b], Next(m, b))
  {
    OneByte(Holding(s, m), b);
    var n, t := Next(m, b), s + [b];
    assert s == s[..|s| - m] + PASTE_END[..m];
    if b == PASTE_END[m] {
      assert t[..|t| - n] == s[..|s| - m];
    } else {
      var extra := PASTE_END[..m] + if n == 0 then [b] else [];
      assert t[..|t| - n] == s[..|s| - m] + extra;
    }
  }

  /** What a closed paste of `payload` is worth. */
  function Outcome(payload: seq<byte>): Event {
    if |payload| > MAX_PASTE_BYTES then Rejected(PasteTooLarge)
    else if Utf8.Valid(payload) then Pasted(payload)
    else Rejected(InvalidUtf8)
  }

  /** The first terminator of the stream is the one after `payload`. */
  predicate FirstEnd(payload: seq<byte>) {
    Open(payload + PASTE_END[..5])
  }

  /** Exactly one event, at the first terminator: the payload itself, or one refusal. */
  lemma PasteExact(payload: seq<byte>)
    requires FirstEnd(payload)
    ensures FeedAll(INSIDE, payload + PASTE_END) == (START, [Outcome(payload)])
  {
    var s := payload + PASTE_END[..5];
    var m := OpenPaste(s);
    assert s[|s| - 5..] == PASTE_END[..5];
    assert m == 5;
    assert s[..|s| - 5] == payload;
    assert payload + PASTE_END == s + [PASTE_END[5]];
    FeedAllConcat(INSIDE, s, [PASTE_END[5]]);
    OneByte(Holding(s, 5), PASTE_END[5]);
    LastByte(s, payload);
    assert [] + [Outcome(payload)] == [Outcome(payload)] && [Outcome(payload)] + [] == [Outcome(payload)];
  }

  lemma LastByte(s: seq<byte>, payload: seq<byte>)
    requires |s| == |payload| + 5 && s[..|s| - 5] == payload
    ensures Feed(Holding(s, 5), PASTE_END[5]).0 == START
    ensures Refusal(s, 5) + Feed(Holding(s, 5), PASTE_END[5]).1 == [Outcome(payload)]
  {
  }

  const OPENED: seq<Parser> :=
    [START, Parser(Escaped, []), Parser(Sequence([], false), []), Parser(Sequence([0x32], false), []),
     Parser(Sequence([0x32, 0x30], false), []), Parser(Sequence([0x32, 0x30, 0x30], false), []), INSIDE]

  lemma Opening(i: nat)
    requires i < 6
    ensures OPENED[i].Valid() && Feed(OPENED[i], PASTE_START[i]) == (OPENED[i + 1], [])
  {
    assert [] + [0x32] == [0x32] && [0x32] + [0x30] == [0x32, 0x30] && [0x32, 0x30] + [0x30] == [0x32, 0x30, 0x30];
  }

  lemma {:induction false} OpensFrom(i: nat)
    requires i <= 6
    ensures OPENED[i].Valid() && FeedAll(OPENED[i], PASTE_START[i..]) == (INSIDE, [])
    decreases 6 - i
  {
    hide Feed;
    if i == 6 {
    } else {
      Opening(i);
      OpensFrom(i + 1);
      var s := PASTE_START[i..];
      assert s[0] == PASTE_START[i] && s[1..] == PASTE_START[i + 1..];
      assert FeedAll(OPENED[i], s).1 == [];
    }
  }

  /** From ground: the opening sequence starts a paste and nothing else. */
  lemma PasteOpens()
    ensures FeedAll(START, PASTE_START) == (INSIDE, [])
  {
    OpensFrom(0);
    assert PASTE_START[0..] == PASTE_START;
  }

  /** A bracketed paste from ground, cut into reads anywhere: one event, and what follows is parsed afresh. */
  lemma PasteDelivered(payload: seq<byte>, rest: seq<byte>, reads_: seq<seq<byte>>)
    requires FirstEnd(payload) && Flatten(reads_) == PASTE_START + (payload + PASTE_END) + rest
    ensures DriveReads(START, reads_) == (Drive(START, rest).0, [Outcome(payload)] + Drive(START, rest).1)
  {
    hide FirstEnd, Outcome, FeedAll, Drive, DriveReads, Flatten;
    AnyReads(START, reads_);
    DriveFeeds(START, Flatten(reads_));
    DriveFeeds(START, rest);
    FeedAllConcat(START, PASTE_START + (payload + PASTE_END), rest);
    FeedAllConcat(START, PASTE_START, payload + PASTE_END);
    PasteOpens();
    PasteExact(payload);
    assert [] + [Outcome(payload)] == [Outcome(payload)];
  }

  /** A paste that the end of input cuts off, cut into reads anywhere, becomes nothing: no text, no paste, at most the
      one refusal it had already earned. */
  lemma UnfinishedPaste(s: seq<byte>, reads_: seq<seq<byte>>)
    requires Open(s) && Flatten(reads_) == PASTE_START + s
    ensures var r := DriveReads(START, reads_);
      && Finished(r.0) == None
      && r.0.state.Pasting? && r.1 == if r.0.state.discard then [Rejected(PasteTooLarge)] else []
  {
    hide FeedAll, Drive, DriveReads, Flatten, Open, Held;
    AnyReads(START, reads_);
    DriveFeeds(START, Flatten(reads_));
    FeedAllConcat(START, PASTE_START, s);
    PasteOpens();
    var m := OpenPaste(s);
    assert [] + Refusal(s, m) == Refusal(s, m);
  }
}
