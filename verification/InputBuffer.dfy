/** The read buffer before the parser: typeahead, the wheel burst and the start-up probe's answers. */
module InputBuffer {
  import opened Bytes
  import opened Input

  const LF: byte := 0x0a
  const CR: byte := 0x0d
  const MAX_SCROLL_COUNT: nat := 32

  // ----- Typeahead -----

  /** Within the first `cooked` bytes LF is Enter again. */
  function Entered(s: seq<byte>, cooked: nat): (r: seq<byte>)
    ensures |r| == |s|
  {
    seq(|s|, i requires 0 <= i < |s| => if i < cooked && s[i] == LF then CR else s[i])
  }

  /** Cutting the typeahead into reads changes nothing: the count left is carried over. */
  lemma EnteredConcat(s: seq<byte>, t: seq<byte>, cooked: nat)
    ensures Entered(s + t, cooked) == Entered(s, cooked) + Entered(t, cooked - Least(|s|, cooked))
  {
  }

  method TypeaheadEnter(buffer: array<byte>, lo: nat, hi: nat, cooked: nat) returns (left: nat)
    requires lo <= hi <= buffer.Length
    modifies buffer
    ensures left == cooked - Least(hi - lo, cooked)
    ensures buffer[..] == old(buffer[..lo]) + Entered(old(buffer[lo..hi]), cooked) + old(buffer[hi..])
  {
    var take := Least(hi - lo, cooked);
    for i := 0 to take
      invariant forall k :: 0 <= k < buffer.Length ==>
        buffer[k] == if lo <= k < lo + i && old(buffer[k]) == LF then CR else old(buffer[k])
    {
      if buffer[lo + i] == LF {
        buffer[lo + i] := CR;
      }
    }
    left := cooked - take;
  }

  // ----- The wheel under alternate scroll -----

  function Times(s: seq<byte>, n: nat): (r: seq<byte>)
    ensures |r| == n * |s|
  {
    if n == 0 then [] else s + Times(s, n - 1)
  }

  const UPS: seq<seq<byte>> := [[0x1b, 0x5b, 0x41], [0x1b, 0x4f, 0x41]]
  const DOWNS: seq<seq<byte>> := [[0x1b, 0x5b, 0x42], [0x1b, 0x4f, 0x42]]

  /** One read made only of two or more identical Up (or Down) arrows. */
  function ArrowBurst(s: seq<byte>): (r: Option<(bool, nat)>)
    ensures r.Some? ==> 2 <= r.value.1 <= MAX_SCROLL_COUNT
  {
    if |s| < 6 || |s| % 3 != 0 then None
    else
      var first := s[..3];
      if first !in UPS && first !in DOWNS then None
      else if exists k :: 0 <= k < |s| / 3 && s[3 * k..3 * k + 3] != first then None
      else Some((first in UPS, Least(|s| / 3, MAX_SCROLL_COUNT)))
  }

  lemma {:induction false} TimesAt(s: seq<byte>, n: nat, k: nat)
    requires |s| == 3 && k < n
    ensures Times(s, n)[3 * k..3 * k + 3] == s
  {
    if k == 0 {
    } else {
      TimesAt(s, n - 1, k - 1);
      assert Times(s, n)[3 * k..3 * k + 3] == Times(s, n - 1)[3 * (k - 1)..3 * (k - 1) + 3];
    }
  }

  lemma {:induction false} TimesOf(s: seq<byte>, first: seq<byte>, n: nat)
    requires |first| == 3 && |s| == 3 * n
    requires forall k :: 0 <= k < n ==> s[3 * k..3 * k + 3] == first
    ensures s == Times(first, n)
  {
    if n == 0 {
    } else {
      var rest := s[3..];
      forall k | 0 <= k < n - 1 ensures rest[3 * k..3 * k + 3] == first {
        assert rest[3 * k..3 * k + 3] == s[3 * (k + 1)..3 * (k + 1) + 3];
      }
      TimesOf(rest, first, n - 1);
      assert s[..3] == s[3 * 0..3 * 0 + 3];
      assert s == s[..3] + rest;
    }
  }

  /** A burst is exactly a repeated arrow, with its direction and its count capped. */
  lemma BurstExact(s: seq<byte>, arrow: seq<byte>, n: nat)
    requires arrow in UPS || arrow in DOWNS
    ensures n >= 2 && s == Times(arrow, n) ==> ArrowBurst(s) == Some((arrow in UPS, Least(n, MAX_SCROLL_COUNT)))
    ensures ArrowBurst(s).Some? && s[..3] == arrow ==> |s| / 3 >= 2 && s == Times(arrow, |s| / 3)
  {
    if n >= 2 && s == Times(arrow, n) {
      TimesAt(arrow, n, 0);
      assert s[..3] == s[3 * 0..3 * 0 + 3];
      forall k | 0 <= k < |s| / 3 ensures s[3 * k..3 * k + 3] == arrow {
        TimesAt(arrow, n, k);
      }
    }
    if ArrowBurst(s).Some? && s[..3] == arrow {
      TimesOf(s, arrow, |s| / 3);
    }
  }

  // ----- The start-up probe -----

  datatype Answer = Answer(length: nat, final: byte, value: nat)

  datatype Found = Found(kittyFlags: Option<nat>, attributes: bool)

  const PROBE_START: seq<byte> := [0x1b, 0x5b, 0x3f]

  /** The digits, separators and final byte from index `i` on. */
  function AnswerFrom(s: seq<byte>, i: nat, value: nat, first: bool): (r: Option<Answer>)
    requires 3 <= i <= |s|
    ensures r.Some? ==> i < r.value.length <= |s| && (r.value.final == 'u' as int || r.value.final == 'c' as int)
    ensures r.Some? ==> r.value.final == s[r.value.length - 1]
    decreases |s| - i
  {
    if i == |s| || i >= 3 + MAX_SEQUENCE_BYTES then None
    else if Digit(s[i]) then
      AnswerFrom(s, i + 1, if first then Least(value * 10 + (s[i] - 0x30), 255) else value, first)
    else if s[i] == ';' as int || s[i] == ':' as int then AnswerFrom(s, i + 1, value, false)
    else if s[i] == 'u' as int || s[i] == 'c' as int then Some(Answer(i + 1, s[i], value))
    else None
  }

  /** `ESC [ ? … u|c`, complete, at the start of `s`. */
  function ProbeReply(s: seq<byte>): (r: Option<Answer>)
    ensures r.Some? ==> 3 < r.value.length <= |s|
  {
    if PROBE_START <= s then AnswerFrom(s, 3, 0, true) else None
  }

  function Seen(found: Found, a: Answer): Found {
    if a.final == 'u' as int then found.(kittyFlags := Some(a.value)) else found.(attributes := true)
  }

  /** The bytes with every answer cut out, and what the answers said. */
  function WithoutReplies(s: seq<byte>, found: Found): (r: (seq<byte>, Found))
    ensures |r.0| <= |s|
    decreases |s|
  {
    if s == [] then ([], found)
    else
      var a := ProbeReply(s);
      if a.Some? then WithoutReplies(s[a.value.length..], Seen(found, a.value))
      else
        var rest := WithoutReplies(s[1..], found);
        ([s[0]] + rest.0, rest.1)
  }

  const NOTHING_FOUND: Found := Found(None, false)

  /** One step of the scan from index `i` on. */
  lemma ScanStep(s: seq<byte>, i: nat, found: Found)
    requires i < |s|
    ensures var a := ProbeReply(s[i..]);
      && (a.Some? ==>
            i + a.value.length <= |s|
            && WithoutReplies(s[i..], found) == WithoutReplies(s[i + a.value.length..], Seen(found, a.value)))
      && (a.None? ==>
            WithoutReplies(s[i..], found)
            == ([s[i]] + WithoutReplies(s[i + 1..], found).0, WithoutReplies(s[i + 1..], found).1))
  {
    hide ProbeReply;
    var rest := s[i..];
    var a := ProbeReply(rest);
    if a.Some? {
      assert rest[a.value.length..] == s[i + a.value.length..];
    } else {
      assert rest[1..] == s[i + 1..] && rest[0] == s[i];
    }
  }

  lemma NothingLeft(found: Found)
    ensures WithoutReplies([], found) == ([], found)
  {
  }

  /** Compacts the buffer in place. */
  method TakeProbeReplies(buffer: array<byte>, end: nat) returns (kept: nat, found: Found)
    requires end <= buffer.Length
    modifies buffer
    ensures kept <= end
    ensures (buffer[..kept], found) == WithoutReplies(old(buffer[..end]), NOTHING_FOUND)
  {
    hide ProbeReply, WithoutReplies;
    found := NOTHING_FOUND;
    var read, write := 0, 0;
    ghost var s := buffer[..end];
    ghost var all := WithoutReplies(s, found);
    assert s[0..] == s && [] + all.0 == all.0;
    while read < end
      invariant write <= read <= end && buffer[read..end] == s[read..]
      invariant all.0 == buffer[..write] + WithoutReplies(s[read..], found).0
      invariant all.1 == WithoutReplies(s[read..], found).1
    {
      var a := ProbeReply(buffer[read..end]);
      ScanStep(s, read, found);
      if a.Some? {
        found := Seen(found, a.value);
        read := read + a.value.length;
      } else {
        ghost var before, later := buffer[..write], WithoutReplies(s[read + 1..], found).0;
        assert buffer[read..end][0] == buffer[read] && s[read..][0] == s[read];
        assert before + ([s[read]] + later) == (before + [s[read]]) + later;
        buffer[write] := buffer[read];
        assert buffer[..write + 1] == before + [s[read]];
        assert buffer[read + 1..end] == s[read + 1..];
        write := write + 1;
        read := read + 1;
      }
    }
    kept := write;
    NothingLeft(found);
    assert s[read..] == [] && buffer[..write] + [] == buffer[..write];
  }

  // ----- What is cut out -----

  datatype Piece = Kept(b: byte) | Cut(answer: seq<byte>)

  function Pieces(s: seq<byte>): (ps: seq<Piece>)
    decreases |s|
  {
    if s == [] then []
    else
      var a := ProbeReply(s);
      if a.Some? then [Cut(s[..a.value.length])] + Pieces(s[a.value.length..]) else [Kept(s[0])] + Pieces(s[1..])
  }

  function Whole(ps: seq<Piece>): seq<byte> {
    if ps == [] then [] else BytesOf(ps[0]) + Whole(ps[1..])
  }

  function KeptOf(ps: seq<Piece>): seq<byte> {
    if ps == [] then [] else KeptIn(ps[0]) + KeptOf(ps[1..])
  }

  function BytesOf(p: Piece): seq<byte> {
    match p
    case Kept(b) => [b]
    case Cut(answer) => answer
  }

  function KeptIn(p: Piece): seq<byte> {
    if p.Kept? then [p.b] else []
  }

  lemma ConsPieces(p: Piece, ps: seq<Piece>)
    ensures Whole([p] + ps) == BytesOf(p) + Whole(ps) && KeptOf([p] + ps) == KeptIn(p) + KeptOf(ps)
  {
    assert ([p] + ps)[1..] == ps;
  }

  /** The first piece and the rest. */
  lemma FirstPiece(s: seq<byte>, found: Found) returns (p: Piece, n: nat, next: Found)
    requires s != []
    ensures 1 <= n <= |s| && BytesOf(p) == s[..n] && Pieces(s) == [p] + Pieces(s[n..])
    ensures WithoutReplies(s, found).0 == KeptIn(p) + WithoutReplies(s[n..], next).0
    ensures p.Cut? ==> IsAnswer(p.answer)
  {
    hide IsAnswer;
    var a := ProbeReply(s);
    if a.Some? {
      p, n, next := Cut(s[..a.value.length]), a.value.length, Seen(found, a.value);
      CutIsAnswer(s);
      assert [] + WithoutReplies(s[n..], next).0 == WithoutReplies(s[n..], next).0;
    } else {
      p, n, next := Kept(s[0]), 1, found;
    }
  }

  predicate CutsAnswers(ps: seq<Piece>) {
    forall i :: 0 <= i < |ps| && ps[i].Cut? ==> IsAnswer(ps[i].answer)
  }

  lemma ConsAnswers(p: Piece, ps: seq<Piece>)
    requires CutsAnswers(ps) && (p.Cut? ==> IsAnswer(p.answer))
    ensures CutsAnswers([p] + ps)
  {
    hide IsAnswer;
  }

  /** Only complete answers go; every other byte stays, in order. */
  lemma {:induction false} OnlyAnswersGo(s: seq<byte>, found: Found)
    ensures Whole(Pieces(s)) == s && KeptOf(Pieces(s)) == WithoutReplies(s, found).0
    ensures CutsAnswers(Pieces(s))
    decreases |s|
  {
    if s == [] {
    } else {
      hide Pieces, Whole, KeptOf, WithoutReplies, IsAnswer, CutsAnswers;
      var p, n, next := FirstPiece(s, found);
      OnlyAnswersGo(s[n..], next);
      ConsPieces(p, Pieces(s[n..]));
      ConsAnswers(p, Pieces(s[n..]));
      assert s[..n] + s[n..] == s;
    }
  }

  lemma CutIsAnswer(s: seq<byte>)
    requires ProbeReply(s).Some?
    ensures IsAnswer(s[..ProbeReply(s).value.length])
  {
    AnswerAlone(s, 3, 0, true);
  }

  /** A whole probe answer and nothing more. */
  predicate IsAnswer(s: seq<byte>) {
    ProbeReply(s).Some? && ProbeReply(s).value.length == |s|
  }

  lemma {:induction false} AnswerAlone(s: seq<byte>, i: nat, value: nat, first: bool)
    requires 3 <= i <= |s| && AnswerFrom(s, i, value, first).Some?
    ensures var n := AnswerFrom(s, i, value, first).value.length;
      AnswerFrom(s[..n], i, value, first) == AnswerFrom(s, i, value, first)
    decreases |s| - i
  {
    var n := AnswerFrom(s, i, value, first).value.length;
    if Digit(s[i]) {
      AnswerAlone(s, i + 1, if first then Least(value * 10 + (s[i] - 0x30), 255) else value, first);
    } else if s[i] == ';' as int || s[i] == ':' as int {
      AnswerAlone(s, i + 1, value, false);
    }
  }

  // ----- Cutting twice -----

  /** An answer lies across a cut: a stretch of kept bytes before it is a beginning that what was kept behind it
      completes. */
  predicate Joins(ps: seq<Piece>, i: nat, m: nat)
    requires i <= m <= |ps|
  {
    && i < m < |ps| && ps[m].Cut? && (forall k :: i <= k < m ==> ps[k].Kept?)
    && ProbeReply(KeptOf(ps[i..])).Some? && ProbeReply(KeptOf(ps[i..])).value.length > m - i
  }

  ghost predicate Joined(ps: seq<Piece>) {
    exists i: nat, m: nat :: i <= m <= |ps| && Joins(ps, i, m)
  }

  lemma {:induction false} NoAnswerStays(t: seq<byte>, found: Found)
    requires forall j :: 0 <= j < |t| ==> ProbeReply(t[j..]).None?
    ensures WithoutReplies(t, found).0 == t
    decreases |t|
  {
    hide ProbeReply;
    if t == [] {
    } else {
      assert t[0..] == t;
      forall j | 0 <= j < |t[1..]| ensures ProbeReply(t[1..][j..]).None? {
        assert t[1..][j..] == t[j + 1..];
      }
      NoAnswerStays(t[1..], found);
    }
  }

  lemma {:induction false} Shorter(t: seq<byte>, found: Found)
    ensures |WithoutReplies(t, found).0| <= |t|
  {
  }

  lemma {:induction false} AnswerShrinks(t: seq<byte>, j: nat, found: Found)
    requires j < |t| && ProbeReply(t[j..]).Some?
    ensures |WithoutReplies(t, found).0| < |t|
    decreases |t|
  {
    hide ProbeReply;
    assert t[0..] == t;
    var a := ProbeReply(t);
    if a.Some? {
      Shorter(t[a.value.length..], Seen(found, a.value));
    } else {
      assert t[1..][j - 1..] == t[j..];
      AnswerShrinks(t[1..], j - 1, found);
    }
  }

  /** What an answer says does not depend on what follows it. */
  lemma {:induction false} AnswerExtends(s: seq<byte>, t: seq<byte>, i: nat, value: nat, first: bool)
    requires 3 <= i <= |s| <= |t| && s == t[..|s|] && AnswerFrom(s, i, value, first).Some?
    ensures AnswerFrom(t, i, value, first) == AnswerFrom(s, i, value, first)
    decreases |s| - i
  {
    assert s[i] == t[i];
    if Digit(s[i]) {
      AnswerExtends(s, t, i + 1, if first then Least(value * 10 + (s[i] - 0x30), 255) else value, first);
    } else if s[i] == ';' as int || s[i] == ':' as int {
      AnswerExtends(s, t, i + 1, value, false);
    }
  }

  lemma SameAnswer(s: seq<byte>, t: seq<byte>)
    requires ProbeReply(s).Some? && ProbeReply(s).value.length <= |t|
    requires s[..ProbeReply(s).value.length] == t[..ProbeReply(s).value.length]
    ensures ProbeReply(t) == ProbeReply(s)
  {
    var n := ProbeReply(s).value.length;
    AnswerAlone(s, 3, 0, true);
    assert s[..3] == s[..n][..3] == t[..n][..3] == t[..3];
    AnswerExtends(s[..n], t, 3, 0, true);
  }

  /** The pieces from one of them on are the pieces of what is left of the bytes. */
  lemma {:induction false} PiecesFrom(s: seq<byte>, i: nat) returns (p: nat)
    requires i < |Pieces(s)|
    ensures p < |s| && Pieces(s[p..]) == Pieces(s)[i..]
    ensures Pieces(s)[i].Kept? ==> ProbeReply(s[p..]).None?
    decreases |s|
  {
    hide ProbeReply;
    if i == 0 {
      p := 0;
      assert s[0..] == s;
    } else {
      var a := ProbeReply(s);
      var n := if a.Some? then a.value.length else 1;
      assert Pieces(s)[1..] == Pieces(s[n..]);
      var q := PiecesFrom(s[n..], i - 1);
      p := n + q;
      assert s[n..][q..] == s[p..];
    }
  }

  /** The piece that holds the `j`th kept byte. */
  lemma {:induction false} KeptAt(ps: seq<Piece>, j: nat) returns (i: nat)
    requires j < |KeptOf(ps)|
    ensures i < |ps| && ps[i].Kept? && KeptOf(ps[i..]) == KeptOf(ps)[j..]
    decreases |ps|
  {
    if ps[0].Kept? && j == 0 {
      i := 0;
      assert ps[0..] == ps;
    } else {
      var n := if ps[0].Kept? then 1 else 0;
      assert KeptOf(ps) == KeptIn(ps[0]) + KeptOf(ps[1..]);
      var k := KeptAt(ps[1..], j - n);
      i := k + 1;
      assert ps[1..][k..] == ps[i..];
    }
  }

  /** While nothing is cut, what is kept is what was there. */
  lemma {:induction false} KeptRun(ps: seq<Piece>, n: nat)
    requires n <= |ps| && forall k :: 0 <= k < n ==> ps[k].Kept?
    ensures n <= |KeptOf(ps)| && n <= |Whole(ps)| && KeptOf(ps)[..n] == Whole(ps)[..n]
    decreases n
  {
    if n == 0 {
    } else {
      KeptRun(ps[1..], n - 1);
      assert KeptOf(ps)[..n] == [ps[0].b] + KeptOf(ps[1..])[..n - 1];
      assert Whole(ps)[..n] == [ps[0].b] + Whole(ps[1..])[..n - 1];
    }
  }

  lemma {:induction false} FirstCut(ps: seq<Piece>, i: nat) returns (m: nat)
    requires i <= |ps|
    ensures i <= m <= |ps| && (forall k :: i <= k < m ==> ps[k].Kept?) && (m < |ps| ==> ps[m].Cut?)
    decreases |ps| - i
  {
    if i == |ps| || ps[i].Cut? {
      m := i;
    } else {
      m := FirstCut(ps, i + 1);
    }
  }

  /** An answer among the kept bytes lies across a cut: without one it would have been cut the first time. */
  lemma Crosses(s: seq<byte>, i: nat) returns (m: nat)
    requires i < |Pieces(s)| && Pieces(s)[i].Kept? && ProbeReply(KeptOf(Pieces(s)[i..])).Some?
    ensures i <= m <= |Pieces(s)| && Joins(Pieces(s), i, m)
  {
    hide ProbeReply, Pieces, KeptOf, Whole;
    var ps := Pieces(s);
    m := FirstCut(ps, i);
    var p := PiecesFrom(s, i);
    OnlyAnswersGo(s[p..], NOTHING_FOUND);
    var kept, length := KeptOf(ps[i..]), ProbeReply(KeptOf(ps[i..])).value.length;
    KeptRun(ps[i..], m - i);
    if m == |ps| {
      KeptAll(ps[i..]);
    }
    if length <= m - i || m == |ps| {
      assert kept[..length] == s[p..][..length] by {
        assert kept[..m - i][..length] == kept[..length];
        assert s[p..][..m - i][..length] == s[p..][..length];
      }
      SameAnswer(kept, s[p..]);
      assert false;
    }
  }

  lemma {:induction false} KeptAll(ps: seq<Piece>)
    requires forall k :: 0 <= k < |ps| ==> ps[k].Kept?
    ensures |KeptOf(ps)| == |ps|
  {
    if ps == [] {
    } else {
      KeptAll(ps[1..]);
    }
  }

  /** Cutting answers a second time changes something exactly when taking one out joined a kept beginning of another to
      the bytes that complete it. */
  lemma SecondCut(s: seq<byte>, found: Found)
    ensures var once := WithoutReplies(s, found).0;
      WithoutReplies(once, NOTHING_FOUND).0 != once <==> Joined(Pieces(s))
  {
    hide ProbeReply, Pieces, WithoutReplies, Whole;
    var once, ps := WithoutReplies(s, found).0, Pieces(s);
    OnlyAnswersGo(s, found);
    if j: nat :| j < |once| && ProbeReply(once[j..]).Some? {
      AnswerShrinks(once, j, NOTHING_FOUND);
      var i := KeptAt(ps, j);
      var m := Crosses(s, i);
    } else {
      NoAnswerStays(once, NOTHING_FOUND);
      forall i: nat, m: nat | i <= m <= |ps| ensures !Joins(ps, i, m) {
        if i < |ps| && ps[i].Kept? {
          var j := Position(ps, i);
          assert ProbeReply(once[j..]).None?;
        }
      }
    }
  }

  lemma {:induction false} Position(ps: seq<Piece>, i: nat) returns (j: nat)
    requires i < |ps| && ps[i].Kept?
    ensures j < |KeptOf(ps)| && KeptOf(ps)[j..] == KeptOf(ps[i..])
    decreases |ps|
  {
    if i == 0 {
      j := 0;
      assert ps[0..] == ps && KeptOf(ps)[0..] == KeptOf(ps);
    } else {
      var k := Position(ps[1..], i - 1);
      j := k + |KeptIn(ps[0])|;
      assert ps[1..][i - 1..] == ps[i..];
      assert KeptOf(ps) == KeptIn(ps[0]) + KeptOf(ps[1..]);
    }
  }

  /** So with no ESC outside the answers that were cut there is nothing left to cut. */
  lemma NoEscapeLeft(s: seq<byte>, found: Found)
    requires ESC !in WithoutReplies(s, found).0
    ensures WithoutReplies(WithoutReplies(s, found).0, NOTHING_FOUND).0 == WithoutReplies(s, found).0
  {
    var once := WithoutReplies(s, found).0;
    forall j | 0 <= j < |once| ensures ProbeReply(once[j..]).None? {
      assert once[j..][0] == once[j];
    }
    NoAnswerStays(once, NOTHING_FOUND);
  }

  /** It happens: `ESC [`, an answer, `? c`. */
  lemma NotIdempotent()
    ensures var s: seq<byte> := [0x1b, 0x5b, 0x1b, 0x5b, 0x3f, 0x75, 0x3f, 0x63];
      var once := WithoutReplies(s, NOTHING_FOUND).0;
      once == [0x1b, 0x5b, 0x3f, 0x63] && WithoutReplies(once, NOTHING_FOUND).0 == []
  {
    var s: seq<byte> := [0x1b, 0x5b, 0x1b, 0x5b, 0x3f, 0x75, 0x3f, 0x63];
    var once: seq<byte> := [0x1b, 0x5b, 0x3f, 0x63];
    assert s[1..] == [0x5b, 0x1b, 0x5b, 0x3f, 0x75, 0x3f, 0x63];
    assert s[1..][1..] == [0x1b, 0x5b, 0x3f, 0x75, 0x3f, 0x63];
    assert ProbeReply(s[1..][1..]) == Some(Answer(4, 0x75, 0));
    assert s[1..][1..][4..] == [0x3f, 0x63];
    assert [0x3f, 0x63][1..] == [0x63] && [0x63][1..] == [];
    assert ProbeReply(once) == Some(Answer(4, 0x63, 0));
    assert once[4..] == [];
  }
}
