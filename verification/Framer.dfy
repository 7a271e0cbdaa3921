/** The session's command framer: bodies out of a pipe that delivers any number of bytes at a time. */
module Framer {
  import opened Bytes

  const MAX_COMMAND_BYTES: nat := 33_554_432

  // ----- The pipe -----

  datatype Gate = Idle | Upto(count: nat) | Fails

  datatype Taken = Nothing | Got(bytes: seq<byte>) | Error

  function Given(r: Taken): seq<byte> {
    if r.Got? then r.bytes else []
  }

  /** Neither an error nor an early end of file. */
  predicate Smooth(gates: seq<Gate>) {
    forall i :: 0 <= i < |gates| ==> gates[i].Idle? || (gates[i].Upto? && gates[i].count > 0)
  }

  /** How many of the reads deliver something while there is something. */
  function Deliveries(gates: seq<Gate>): nat {
    if gates == [] then 0 else (if gates[0].Upto? then 1 else 0) + Deliveries(gates[1..])
  }

  /** Enough of them for that many bytes. */
  predicate Keeps(gates: seq<Gate>, bytes: nat) {
    Smooth(gates) && Deliveries(gates) >= bytes
  }

  predicate Breaks(gates: seq<Gate>) {
    gates == [] || gates[0].Fails?
  }

  /** The descriptor: each read delivers what its gate allows of what is coming. No bytes at all is end of file. */
  class Pipe {
    var coming: seq<byte>
    var gates: seq<Gate>
    ghost var taken: seq<byte>

    constructor (coming: seq<byte>, gates: seq<Gate>)
      ensures this.coming == coming && this.gates == gates && taken == []
    {
      this.coming, this.gates, this.taken := coming, gates, [];
    }

    method Read(limit: nat) returns (r: Taken)
      modifies this
      ensures taken == old(taken) + Given(r) && Given(r) + coming == old(coming)
      ensures r == if Breaks(old(gates)) then Error
                   else if old(gates[0]).Idle? then Nothing
                   else Got(old(coming)[..Least(Least(old(gates[0]).count, limit), |old(coming)|)])
      ensures gates == if Breaks(old(gates)) then old(gates) else old(gates[1..])
    {
      if Breaks(gates) {
        return Error;
      }
      var gate := gates[0];
      gates := gates[1..];
      if gate.Idle? {
        return Nothing;
      }
      var n := Least(Least(gate.count, limit), |coming|);
      r := Got(coming[..n]);
      coming := coming[n..];
      taken := taken + r.bytes;
    }
  }

  // ----- Frames -----

  predicate Admissible(length: nat) {
    2 <= length <= MAX_COMMAND_BYTES
  }

  function Frame(body: seq<byte>): seq<byte> {
    Be(|body|, 4) + body
  }

  function Frames(bodies: seq<seq<byte>>): seq<byte> {
    if bodies == [] then [] else Frame(bodies[0]) + Frames(bodies[1..])
  }

  /** The start of a frame that is not complete yet. */
  predicate Partial(s: seq<byte>) {
    |s| < 4 || (Admissible(Value(s[..4])) && |s| < 4 + Value(s[..4]))
  }

  predicate AllAdmissible(bodies: seq<seq<byte>>) {
    forall i :: 0 <= i < |bodies| ==> Admissible(|bodies[i]|)
  }

  lemma {:induction false} FramesAppend(bodies: seq<seq<byte>>, body: seq<byte>)
    ensures Frames(bodies + [body]) == Frames(bodies) + Frame(body)
  {
    if bodies == [] {
      assert [body][1..] == [] && [] + [body] == [body];
    } else {
      FramesAppend(bodies[1..], body);
      assert (bodies + [body])[1..] == bodies[1..] + [body];
      assert Frames(bodies + [body]) == Frame(bodies[0]) + (Frames(bodies[1..]) + Frame(body));
    }
  }

  lemma HeaderOfFrame(body: seq<byte>, rest: seq<byte>)
    requires Admissible(|body|)
    ensures Value((Frame(body) + rest)[..4]) == |body|
  {
    Widths();
    ValueOfBe(|body|, 4);
    assert (Frame(body) + rest)[..4] == Be(|body|, 4);
  }

  lemma SameFront(a: seq<byte>, s: seq<byte>, b: seq<byte>, t: seq<byte>)
    requires |a| == |b| && Frame(a) + s == Frame(b) + t
    ensures a == b && s == t
  {
    var n := 4 + |a|;
    assert a == (Frame(a) + s)[4..n] == (Frame(b) + t)[4..n] == b;
    assert s == (Frame(a) + s)[n..] == (Frame(b) + t)[n..] == t;
  }

  /** An incomplete frame before whole frames is followed by something. */
  lemma PartialFront(held: seq<byte>, sent: seq<seq<byte>>, later: seq<byte>)
    requires AllAdmissible(sent) && Partial(held) && held + later == Frames(sent)
    ensures later == [] ==> sent == [] && held == []
  {
    if sent != [] {
      HeaderOfFrame(sent[0], Frames(sent[1..]));
      assert |held| >= 4 ==> held[..4] == Frames(sent)[..4];
    }
  }

  lemma ConsFrames(bodies: seq<seq<byte>>)
    ensures bodies != [] ==> Frames(bodies) == Frame(bodies[0]) + Frames(bodies[1..]) && |Frames(bodies)| >= 4
    ensures Frames(bodies) != [] ==> bodies != []
  {
  }

  /** A frame says how long it is. */
  lemma SameFirst(a: seq<byte>, s: seq<byte>, b: seq<byte>, t: seq<byte>)
    requires Admissible(|a|) && Admissible(|b|) && Frame(a) + s == Frame(b) + t
    ensures a == b && s == t
  {
    hide Frame, Value;
    HeaderOfFrame(a, s);
    HeaderOfFrame(b, t);
    SameFront(a, s, b, t);
  }

  lemma Assoc(a: seq<byte>, b: seq<byte>, c: seq<byte>)
    ensures a + b + c == a + (b + c)
  {
  }

  /** The first bodies of the same stream are the same. */
  lemma Peeled(got: seq<seq<byte>>, rest: seq<byte>, sent: seq<seq<byte>>)
    requires AllAdmissible(got) && AllAdmissible(sent) && got != [] && Frames(got) + rest == Frames(sent)
    ensures sent != [] && got[0] == sent[0] && Frames(got[1..]) + rest == Frames(sent[1..])
  {
    hide Frames, Frame;
    ConsFrames(got);
    ConsFrames(sent);
    Assoc(Frame(got[0]), Frames(got[1..]), rest);
    SameFirst(got[0], Frames(got[1..]) + rest, sent[0], Frames(sent[1..]));
  }

  lemma SamePrefix(got: seq<seq<byte>>, sent: seq<seq<byte>>)
    requires got != [] && sent != [] && got[0] == sent[0] && got[1..] <= sent[1..]
    ensures got <= sent && (got[1..] == sent[1..] ==> got == sent)
  {
    assert got == [got[0]] + got[1..] && sent == [sent[0]] + sent[1..];
  }

  /** A stretch of frames is read in one way only, and an incomplete frame is never a whole one. */
  lemma {:induction false} FramesUnique(got: seq<seq<byte>>, held: seq<byte>, sent: seq<seq<byte>>, later: seq<byte>)
    requires AllAdmissible(got) && AllAdmissible(sent) && Partial(held)
    requires Frames(got) + held + later == Frames(sent)
    ensures got <= sent && (later == [] ==> got == sent && held == [])
    decreases |got|
  {
    if got == [] {
      assert held + later == Frames(sent);
      PartialFront(held, sent, later);
    } else {
      assert Frames(got) + (held + later) == Frames(got) + held + later;
      Peeled(got, held + later, sent);
      assert Frames(got[1..]) + (held + later) == Frames(got[1..]) + held + later;
      FramesUnique(got[1..], held, sent[1..], later);
      SamePrefix(got, sent);
    }
  }

  // ----- The framer -----

  datatype ReadFrame = Pending | Eof | Body(body: seq<byte>)

  datatype Reason = Protocol | ReadFailed

  /** A read of a smooth pipe stops only when nothing is left to read or to deliver. */
  predicate Stops(r: Result<ReadFrame, Reason>, gates: seq<Gate>, coming: seq<byte>) {
    (r == Ok(Eof) ==> coming == []) && (r == Err(ReadFailed) ==> gates == [])
  }

  /** One read of the descriptor: an error, nothing yet, the end of file, or bytes. */
  predicate OneRead(before: seq<Gate>, coming: seq<byte>, gates: seq<Gate>, left: seq<byte>, took: seq<byte>,
                    r: Result<ReadFrame, Reason>) {
    if Breaks(before) then gates == before && took == [] && left == coming && r == Err(ReadFailed)
    else
      && gates == before[1..] && took + left == coming && r.Ok?
      && (before[0].Idle? ==> took == [] && r == Ok(Pending))
      && (before[0].Upto? ==>
            (took == [] <==> before[0].count == 0 || coming == []) && (r == Ok(Eof) <==> took == []))
  }

  class Framer {
    const header: array<byte>
    var headerUsed: nat
    var body: array<byte>
    var bodyUsed: nat

    ghost predicate Valid()
      reads this, header, body
    {
      && header.Length == 4 && headerUsed <= 4 && header != body
      && (headerUsed < 4 ==> bodyUsed == 0)
      && (headerUsed == 4 ==>
            body.Length == Value(header[..]) && Admissible(body.Length) && bodyUsed < body.Length)
    }

    /** The bytes of the frame begun. */
    ghost function Held(): seq<byte>
      reads this, header, body
      requires Valid()
    {
      if headerUsed < 4 then header[..headerUsed] else header[..] + body[..bodyUsed]
    }

    constructor ()
      ensures Valid() && Held() == [] && fresh(header) && fresh(body)
    {
      header := new byte[4](_ => 0);
      body := new byte[0];
      headerUsed, bodyUsed := 0, 0;
    }

    lemma HeldPartial()
      requires Valid()
      ensures Partial(Held())
    {
      if headerUsed == 4 {
        assert Held()[..4] == header[..];
      }
    }

    /** One readable descriptor, at most one body; `took` is what the pipe gave. A bad length is refused with the body
        untouched: nothing is allocated for it. */
    method Read(pipe: Pipe) returns (r: Result<ReadFrame, Reason>, ghost took: seq<byte>)
      requires Valid()
      modifies this, header, body, pipe
      ensures pipe.taken == old(pipe.taken) + took && took + pipe.coming == old(pipe.coming)
      ensures body == old(body) || fresh(body)
      ensures r != Err(Protocol) ==> Valid()
      ensures r != Err(Protocol) && !(r.Ok? && r.value.Body?) ==> Held() == old(Held()) + took
      ensures r.Ok? && r.value.Body? ==>
        Held() == [] && Admissible(|r.value.body|) && Frame(r.value.body) == old(Held()) + took
      ensures r == Err(Protocol) ==>
        body == old(body) && header.Length == 4 && !Admissible(Value(header[..])) && header[..] == old(Held()) + took
      ensures Breaks(old(pipe.gates)) ==> r == Err(ReadFailed) && took == []
      ensures old(pipe.gates != [] && pipe.gates[0].Idle?) ==> r == Ok(Pending) && took == []
      ensures old(pipe.gates != [] && pipe.gates[0].Upto?) ==>
        (took == [] <==> old(pipe.gates[0].count == 0 || pipe.coming == [])) && (took == [] ==> r == Ok(Eof))
      ensures r.Ok? ==> |pipe.gates| < |old(pipe.gates)|
      ensures Smooth(old(pipe.gates)) ==> Smooth(pipe.gates) && Stops(r, pipe.gates, pipe.coming)
      ensures Smooth(old(pipe.gates)) && r != Ok(Eof) ==> Deliveries(old(pipe.gates)) <= Deliveries(pipe.gates) + |took|
    {
      hide Frame, Value, Admissible;
      took := [];
      if headerUsed < 4 {
        var stopped;
        stopped, took := ReadHeader(pipe);
        if stopped.Some? {
          return stopped.value, took;
        }
        var length := Value(header[..]);
        if !Admissible(length) {
          return Err(Protocol), took;
        }
        body := new byte[length](_ => 0);
        bodyUsed := 0;
        Positive(length);
        assert Held() == header[..];
      }
      ghost var more;
      r, more := ReadBody(pipe);
      assert old(Held()) + (took + more) == old(Held()) + took + more;
      took := took + more;
    }

    lemma Positive(length: nat)
      requires Admissible(length)
      ensures length > 0
    {
    }

    /** Up to four header bytes; `None` once all four are there. */
    method ReadHeader(pipe: Pipe) returns (stopped: Option<Result<ReadFrame, Reason>>, ghost took: seq<byte>)
      requires Valid() && headerUsed < 4
      modifies this`headerUsed, header, pipe
      ensures pipe.taken == old(pipe.taken) + took && took + pipe.coming == old(pipe.coming)
      ensures header.Length == 4 && bodyUsed == 0 && headerUsed <= 4
      ensures header[..headerUsed] == old(Held()) + took
      ensures stopped.Some? ==> Valid() && headerUsed < 4
      ensures stopped.Some? ==> stopped.value == Err(ReadFailed) || (stopped.value.Ok? && !stopped.value.value.Body?)
      ensures stopped.None? ==> headerUsed == 4 && header[..] == header[..4] && took != []
      ensures OneRead(old(pipe.gates), old(pipe.coming), pipe.gates, pipe.coming, took,
                      if stopped.Some? then stopped.value else Ok(Pending))
    {
      ghost var held := header[..headerUsed];
      var t := pipe.Read(4 - headerUsed);
      if !t.Got? || t.bytes == [] {
        return Some(match t case Error => Err(ReadFailed) case Nothing => Ok(Pending) case Got(_) => Ok(Eof)), [];
      }
      forall k | 0 <= k < |t.bytes| {
        header[headerUsed + k] := t.bytes[k];
      }
      headerUsed := headerUsed + |t.bytes|;
      assert header[..headerUsed] == held + t.bytes;
      return if headerUsed < 4 then Some(Ok(Pending)) else None, t.bytes;
    }

    method ReadBody(pipe: Pipe) returns (r: Result<ReadFrame, Reason>, ghost took: seq<byte>)
      requires Valid() && headerUsed == 4
      modifies this, body, pipe
      ensures pipe.taken == old(pipe.taken) + took && took + pipe.coming == old(pipe.coming)
      ensures Valid() && (body == old(body) || fresh(body))
      ensures !(r.Ok? && r.value.Body?) ==> Held() == old(Held()) + took
      ensures r.Ok? && r.value.Body? ==>
        Held() == [] && Admissible(|r.value.body|) && Frame(r.value.body) == old(Held()) + took
      ensures r.Err? ==> r.error == ReadFailed
      ensures OneRead(old(pipe.gates), old(pipe.coming), pipe.gates, pipe.coming, took, r)
    {
      hide Value, Admissible;
      ghost var held, front := body[..bodyUsed], header[..];
      var t := pipe.Read(body.Length - bodyUsed);
      if !t.Got? || t.bytes == [] {
        return match t case Error => Err(ReadFailed) case Nothing => Ok(Pending) case Got(_) => Ok(Eof), [];
      }
      forall k | 0 <= k < |t.bytes| {
        body[bodyUsed + k] := t.bytes[k];
      }
      bodyUsed := bodyUsed + |t.bytes|;
      assert body[..bodyUsed] == held + t.bytes && header[..] == front;
      assert front + body[..bodyUsed] == (front + held) + t.bytes;
      if bodyUsed < body.Length {
        return Ok(Pending), t.bytes;
      }
      var whole := body[..];
      assert body[..bodyUsed] == whole;
      BeOfValue(front);
      headerUsed, bodyUsed := 0, 0;
      body := new byte[0];
      return Ok(Body(whole)), t.bytes;
    }
  }

  lemma NoFrames()
    ensures Frames([]) == [] && Partial([]) && AllAdmissible([])
  {
  }

  lemma Delivered(got: seq<seq<byte>>, held: seq<byte>, taken: seq<byte>)
    requires AllAdmissible(got) && Partial(held) && taken == Frames(got) + held
    ensures forall sent :: AllAdmissible(sent) && taken <= Frames(sent) ==> got <= sent
    ensures forall sent :: AllAdmissible(sent) && taken == Frames(sent) ==> got == sent
  {
    hide Frames, Frame, Partial;
    forall sent | AllAdmissible(sent) && taken <= Frames(sent)
      ensures got <= sent && (taken == Frames(sent) ==> got == sent)
    {
      var later := Frames(sent)[|taken|..];
      assert Frames(got) + held + later == Frames(sent);
      FramesUnique(got, held, sent, later);
    }
  }

  /** A bad length is never the start of an admissible frame. */
  lemma Refused(got: seq<seq<byte>>, header: seq<byte>, taken: seq<byte>)
    requires AllAdmissible(got) && |header| == 4 && !Admissible(Value(header)) && taken == Frames(got) + header
    ensures forall sent :: AllAdmissible(sent) ==> !(taken <= Frames(sent))
  {
    forall sent | AllAdmissible(sent) ensures !(taken <= Frames(sent)) {
      if taken <= Frames(sent) {
        RefusedIn(got, header, sent);
      }
    }
  }

  lemma {:induction false} RefusedIn(got: seq<seq<byte>>, header: seq<byte>, sent: seq<seq<byte>>)
    requires AllAdmissible(got) && AllAdmissible(sent) && |header| == 4
    requires Frames(got) + header <= Frames(sent)
    ensures Admissible(Value(header))
    decreases |got|
  {
    var later := Frames(sent)[|Frames(got) + header|..];
    assert Frames(got) + header + later == Frames(got) + (header + later) == Frames(sent);
    if got == [] {
      assert sent != [];
      HeaderOfFrame(sent[0], Frames(sent[1..]));
      assert header == Frames(sent)[..4];
    } else {
      Peeled(got, header + later, sent);
      assert Frames(got[1..]) + header <= Frames(got[1..]) + (header + later);
      RefusedIn(got[1..], header, sent[1..]);
    }
  }

  /** Fragmentation invariance. However the pipe cuts the stream and however often it has nothing, the bodies handed on
      are those that were framed: always a first part of them, and all of them once all of the stream was read, which
      it is when the pipe keeps delivering and is polled for as long. A stream of admissible bodies is never refused. */
  method Collect(pipe: Pipe, polls: nat) returns (bodies: seq<seq<byte>>, refused: bool)
    requires pipe.taken == []
    modifies pipe
    ensures pipe.taken <= old(pipe.coming)
    ensures AllAdmissible(bodies)
    ensures forall sent :: AllAdmissible(sent) && pipe.taken <= Frames(sent) ==> bodies <= sent && !refused
    ensures forall sent :: AllAdmissible(sent) && pipe.taken == Frames(sent) ==> bodies == sent
    ensures old(Keeps(pipe.gates, |pipe.coming|)) && polls >= |old(pipe.gates)| ==>
      forall sent :: AllAdmissible(sent) && old(pipe.coming) == Frames(sent) ==> bodies == sent
  {
    hide Smooth, Deliveries;
    hide Frames, Frame, Partial, Value, Admissible, AllAdmissible;
    var framer := new Framer();
    ghost var held: seq<byte> := [];
    bodies, refused := [], false;
    NoFrames();
    var i, stop := 0, false;
    while i < polls && !stop
      invariant framer.Valid() && framer.Held() == held && fresh(framer) && fresh(framer.header) && fresh(framer.body)
      invariant AllAdmissible(bodies) && pipe.taken == Frames(bodies) + held && Partial(held) && !refused
      invariant pipe.taken + pipe.coming == old(pipe.coming)
      invariant !stop ==> |pipe.gates| + i <= |old(pipe.gates)|
      invariant old(Keeps(pipe.gates, |pipe.coming|)) ==>
        if stop then pipe.coming == [] else Keeps(pipe.gates, |pipe.coming|)
    {
      ghost var before := pipe.taken;
      var r;
      ghost var took;
      r, took := framer.Read(pipe);
      TookMore(Frames(bodies), held, took, before, pipe.coming);
      if r == Err(Protocol) {
        Refused(bodies, framer.header[..], pipe.taken);
        return bodies, true;
      }
      framer.HeldPartial();
      if r.Ok? && r.value.Body? {
        FramesAppend(bodies, r.value.body);
        OneMore(bodies, r.value.body);
        bodies := bodies + [r.value.body];
        held := [];
      } else {
        held := held + took;
      }
      stop := r.Err? || r.value.Eof?;
      i := i + 1;
      NoneLeft();
      assert |before| + |took| + |pipe.coming| == |old(pipe.coming)|;
      assert r.Err? ==> r.error == ReadFailed;
    }
    NoneLeft();
    Delivered(bodies, held, pipe.taken);
  }

  lemma NoneLeft()
    ensures Deliveries([]) == 0
  {
  }

  lemma TookMore(frames: seq<byte>, held: seq<byte>, took: seq<byte>, before: seq<byte>, coming: seq<byte>)
    ensures frames + held + took == frames + (held + took) && frames + (held + took) + [] == frames + (held + took)
    ensures before + took + coming == before + (took + coming)
  {
  }

  lemma OneMore(bodies: seq<seq<byte>>, body: seq<byte>)
    requires AllAdmissible(bodies) && Admissible(|body|)
    ensures AllAdmissible(bodies + [body])
  {
  }
}
