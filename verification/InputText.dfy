/** UTF-8 text through the parser: after at most one rejection every scalar comes back as one event. */
module InputText {
  import opened Bytes
  import opened Input
  import opened InputStream
  import opened InputPaste
  import Utf8

  /** A scalar a terminal sends as text. */
  predicate Typed(v: nat) {
    Utf8.IsScalar(v) && (0x20 <= v <= 0x7e || v >= 0x80)
  }

  function TextOf(v: nat): Event
    requires Typed(v)
  {
    Text(Press, Utf8.EncodeScalar(v), NO_MODIFIERS)
  }

  function TextsOf(vs: seq<nat>): seq<Event>
    requires forall i :: 0 <= i < |vs| ==> Typed(vs[i])
  {
    if vs == [] then [] else [TextOf(vs[0])] + TextsOf(vs[1..])
  }

  /** The states a broken scalar can leave. */
  predicate MayRecover(p: Parser) {
    p.Valid() && (p.state.Ground? || p.state.Scalar? || p.state.InvalidContinuations?)
  }

  function Broken(p: Parser): seq<Event> {
    if p.state.Scalar? then [Rejected(InvalidUtf8)] else []
  }

  /** The scalar's first byte ends whatever was broken. */
  lemma FirstByte(p: Parser, b: byte)
    requires MayRecover(p) && !Continuation(b)
    ensures Feed(p, b) == (Feed(START, b).0, Broken(p) + Feed(START, b).1)
  {
    assert [] + Feed(START, b).1 == Feed(START, b).1;
  }

  /** The continuation bytes still to come complete the scalar. */
  lemma {:induction false} ScalarRest(s: seq<byte>, n: nat)
    requires 1 <= n < |s| <= 4 && Utf8.Valid(s)
    requires forall i :: n <= i < |s| ==> Continuation(s[i])
    ensures FeedAll(Parser(Scalar(s[..n], |s|, NO_MODIFIERS), []), s[n..]) == (START, [Text(Press, s, NO_MODIFIERS)])
    decreases |s| - n
  {
    var p := Parser(Scalar(s[..n], |s|, NO_MODIFIERS), []);
    assert s[n..][0] == s[n] && s[n..][1..] == s[n + 1..];
    assert s[..n] + [s[n]] == s[..n + 1];
    if n + 1 == |s| {
      assert s[..n + 1] == s && s[n..] == [s[n]];
      OneByte(p, s[n]);
    } else {
      ScalarRest(s, n + 1);
      assert FeedAll(p, s[n..]).1 == FeedAll(Feed(p, s[n]).0, s[n + 1..]).1;
    }
  }

  lemma ValidScalar(v: nat)
    requires Utf8.IsScalar(v)
    ensures Utf8.Valid(Utf8.EncodeScalar(v))
  {
    var s := Utf8.EncodeScalar(v);
    Utf8.ScalarOfEncoding(v, []);
    assert s + [] == s && s[|s|..] == [];
  }

  lemma OneScalar(v: nat)
    requires Typed(v)
    ensures FeedAll(START, Utf8.EncodeScalar(v)) == (START, [TextOf(v)])
  {
    hide Utf8.EncodeScalar, Utf8.FirstScalar, Utf8.ScalarLen;
    var s := Utf8.EncodeScalar(v);
    if v < 0x80 {
      OneByte(START, s[0]);
    } else {
      ValidScalar(v);
      LeadLength(v);
      assert s[..1] == [s[0]];
      ScalarRest(s, 1);
      assert FeedAll(START, s).1 == FeedAll(Feed(START, s[0]).0, s[1..]).1;
    }
  }

  /** The lead byte announces the length of the encoding. */
  lemma LeadLength(v: nat)
    requires Utf8.IsScalar(v) && v >= 0x80
    ensures var s := Utf8.EncodeScalar(v);
      |s| == if s[0] < 0xe0 then 2 else if s[0] < 0xf0 then 3 else 4
  {
  }

  lemma ScalarBytes(p: Parser, v: nat)
    requires MayRecover(p) && Typed(v)
    ensures FeedAll(p, Utf8.EncodeScalar(v)) == (START, Broken(p) + [TextOf(v)])
  {
    var s := Utf8.EncodeScalar(v);
    OneScalar(v);
    FirstByte(p, s[0]);
    var first := Feed(START, s[0]);
    var rest := FeedAll(first.0, s[1..]);
    assert Broken(p) + first.1 + rest.1 == Broken(p) + (first.1 + rest.1);
  }

  predicate AllTyped(vs: seq<nat>) {
    forall i :: 0 <= i < |vs| ==> Typed(vs[i])
  }

  function Encoded(vs: seq<nat>): seq<byte>
    requires AllTyped(vs)
  {
    Utf8.EncodeAll(vs)
  }

  lemma Cons(p: Parser, vs: seq<nat>)
    requires AllTyped(vs) && vs != []
    ensures Encoded(vs) == Utf8.EncodeScalar(vs[0]) + Encoded(vs[1..])
    ensures Broken(p) + [TextOf(vs[0])] + TextsOf(vs[1..]) == Broken(p) + TextsOf(vs)
  {
  }

  lemma NothingTyped()
    ensures Encoded([]) == [] && TextsOf([]) == [] && FeedAll(START, []) == (START, [])
  {
  }

  /** From ground, a partial scalar or the invalid continuations: at most one rejection, then one event a scalar. */
  lemma {:induction false} Recovery(p: Parser, vs: seq<nat>)
    requires MayRecover(p) && AllTyped(vs) && vs != []
    ensures FeedAll(p, Encoded(vs)) == (START, Broken(p) + TextsOf(vs))
    decreases |vs|
  {
    hide FeedAll, Utf8.EncodeScalar, Encoded, TextsOf, TextOf;
    Cons(p, vs);
    ScalarBytes(p, vs[0]);
    FeedAllConcat(p, Utf8.EncodeScalar(vs[0]), Encoded(vs[1..]));
    if |vs| == 1 {
      NothingTyped();
      assert vs[1..] == [];
    } else {
      Recovery(START, vs[1..]);
      assert [] + TextsOf(vs[1..]) == TextsOf(vs[1..]);
    }
  }
}
