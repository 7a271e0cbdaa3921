/** Fixed-capacity batching with an explicit commit, over a writer that may write short or fail. */
module Buffered {
  import opened Bytes

  datatype Written = Wrote(count: nat) | WriteError

  /** The descriptor below: each call takes a prefix of the given length, or fails once the script runs out. */
  class Sink {
    var received: seq<byte>
    var script: seq<nat>
    var flushes: seq<bool>

    constructor (script: seq<nat>, flushes: seq<bool>)
      ensures received == [] && this.script == script && this.flushes == flushes
    {
      this.received, this.script, this.flushes := [], script, flushes;
    }

    /** No call in sight writes nothing or fails. */
    ghost predicate Sound()
      reads this
    {
      (forall i :: 0 <= i < |script| ==> script[i] > 0) && forall i :: 0 <= i < |flushes| ==> flushes[i]
    }

    method Write(bytes: seq<byte>) returns (r: Written)
      modifies this`received, this`script
      ensures r.WriteError? <==> old(script) == []
      ensures |script| + 1 >= |old(script)| && (old(Sound()) ==> Sound() && (r.Wrote? && bytes != [] ==> r.count > 0))
      ensures r.Wrote? ==> r.count <= |bytes| && received == old(received) + bytes[..r.count]
      ensures r.WriteError? ==> received == old(received)
    {
      if script == [] {
        return WriteError;
      }
      var n := if script[0] < |bytes| then script[0] else |bytes|;
      script := script[1..];
      received := received + bytes[..n];
      return Wrote(n);
    }

    /** Repeats short writes; a write of nothing is an error. */
    method WriteAll(bytes: seq<byte>) returns (ok: bool, ghost sent: nat)
      modifies this`received, this`script
      ensures old(Sound()) ==> Sound() && |script| + |bytes| >= |old(script)| && (|old(script)| >= |bytes| ==> ok)
      ensures sent <= |bytes| && received == old(received) + bytes[..sent]
      ensures ok ==> sent == |bytes|
    {
      var done := 0;
      ok := true;
      sent := 0;
      while done < |bytes|
        invariant sent == done <= |bytes| && received == old(received) + bytes[..done]
        invariant old(Sound()) ==> Sound() && |script| + done >= |old(script)|
      {
        var r := Write(bytes[done..]);
        if r.WriteError? || r.count == 0 {
          return false, done;
        }
        assert bytes[..done] + bytes[done..][..r.count] == bytes[..done + r.count];
        done := done + r.count;
        sent := done;
      }
    }

    method Flush() returns (ok: bool)
      modifies this`flushes
      ensures ok <==> old(flushes != [] && flushes[0])
      ensures |flushes| + 1 >= |old(flushes)| && (old(Sound()) ==> Sound())
    {
      if flushes == [] {
        return false;
      }
      ok := flushes[0];
      flushes := flushes[1..];
    }
  }

  ghost predicate Increasing(marks: seq<nat>) {
    forall i, j :: 0 <= i < j < |marks| ==> marks[i] < marks[j]
  }

  ghost predicate Below(marks: seq<nat>, bound: nat) {
    forall i :: 0 <= i < |marks| ==> marks[i] < bound
  }

  /** The accepted bytes at the marked places. */
  ghost function Picked(accepted: seq<byte>, marks: seq<nat>): seq<byte>
    requires Below(marks, |accepted|)
  {
    seq(|marks|, i requires 0 <= i < |marks| => accepted[marks[i]])
  }

  ghost function Range(lo: nat, n: nat): (r: seq<nat>)
    ensures |r| == n && forall i :: 0 <= i < n ==> r[i] == lo + i
  {
    seq(n, i => lo + i)
  }

  class BufferedWriter {
    const CAPACITY: nat := 8192
    const inner: Sink
    const bytes: array<byte>
    var used: nat

    /** Every byte a write call accepted; the places of those that reached the sink; and how many were accepted at the
        last discard or failure. */
    ghost var accepted: seq<byte>
    ghost var marks: seq<nat>
    ghost var since: nat

    ghost predicate Valid()
      reads this, inner, bytes
    {
      && bytes.Length == CAPACITY && used <= CAPACITY && used <= |accepted| && since <= |accepted|
      && Increasing(marks) && Below(marks, |accepted| - used)
      && inner.received == Picked(accepted, marks)
      && bytes[..used] == accepted[|accepted| - used..]
      && (forall p :: since <= p < |accepted| - used ==> p in marks)
    }

    constructor (inner: Sink)
      requires inner.received == []
      ensures Valid() && this.inner == inner && accepted == [] && marks == [] && used == 0
    {
      this.inner := inner;
      this.bytes := new byte[8192](_ => 0);
      this.used := 0;
      this.accepted, this.marks, this.since := [], [], 0;
    }

    method Discard()
      requires Valid()
      modifies this
      ensures Valid() && used == 0 && accepted == old(accepted) && marks == old(marks)
      ensures since == |accepted|
    {
      used := 0;
      since := |accepted|;
    }

    /** `count` more of the accepted bytes from place `lo` on reached the sink. */
    ghost method Deliver(lo: nat, count: nat, before: seq<byte>)
      requires |accepted| >= lo + count && Increasing(marks) && Below(marks, lo)
      requires before == Picked(accepted, marks) && inner.received == before + accepted[lo..lo + count]
      modifies this`marks
      ensures marks == old(marks) + Range(lo, count)
      ensures Increasing(marks) && Below(marks, lo + count)
      ensures inner.received == Picked(accepted, marks)
    {
      marks := marks + Range(lo, count);
    }

    /** The batch is forgotten before it is written, so nothing of a failed flush is ever replayed. */
    method Flush() returns (ok: bool)
      requires Valid()
      modifies this, inner
      ensures Valid() && used == 0 && accepted == old(accepted)
      ensures old(marks) <= marks
      ensures ok ==> since == old(since) && forall p :: since <= p < |accepted| ==> p in marks
      ensures !ok ==> since == |accepted|
      ensures old(inner.Sound()) ==>
        inner.Sound() && |inner.script| + old(used) >= |old(inner.script)|
        && |inner.flushes| + 1 >= |old(inner.flushes)|
      ensures old(inner.Sound() && |inner.script| >= used && |inner.flushes| >= 1) ==> ok
    {
      var count := used;
      used := 0;
      var batch := bytes[..count];
      ghost var before, lo := inner.received, |accepted| - count;
      ghost var sent;
      ok, sent := inner.WriteAll(batch);
      assert batch[..sent] == accepted[lo..lo + sent];
      Deliver(lo, sent, before);
      if ok {
        ok := inner.Flush();
      }
      if ok {
        forall p | since <= p < |accepted| ensures p in marks {
          if p >= lo {
            assert marks[|old(marks)| + (p - lo)] == p;
          }
        }
      } else {
        since := |accepted|;
      }
    }

    /** Takes all of a small write, or what the sink takes of one as large as the buffer. */
    method Write(data: seq<byte>) returns (r: Written)
      requires Valid()
      modifies this, inner, bytes
      ensures Valid() && old(marks) <= marks
      ensures r.Wrote? ==> r.count <= |data| && accepted == old(accepted) + data[..r.count]
      ensures r.Wrote? && |data| < CAPACITY ==> r.count == |data|
      ensures r.Wrote? ==> since == old(since)
      ensures r.WriteError? ==> accepted == old(accepted) && since == |accepted|
      ensures old(inner.Sound()) ==>
        inner.Sound() && |inner.script| + old(used) + |data| >= |old(inner.script)| + used
        && |inner.flushes| + 1 >= |old(inner.flushes)|
      ensures old(inner.Sound() && |inner.script| >= used + |data| && |inner.flushes| >= 1) ==> r.Wrote?
    {
      if |data| > CAPACITY - used {
        var ok := Flush();
        if !ok {
          return WriteError;
        }
      }
      if |data| >= CAPACITY {
        r := Bypass(data);
        return;
      }
      Store(data);
      return Wrote(|data|);
    }

    method Bypass(data: seq<byte>) returns (r: Written)
      requires Valid() && used == 0 && data != []
      modifies this, inner
      ensures Valid() && used == 0 && old(marks) <= marks
      ensures r.Wrote? ==> r.count <= |data| && accepted == old(accepted) + data[..r.count] && since == old(since)
      ensures r.WriteError? ==> accepted == old(accepted) && since == |accepted|
      ensures |inner.script| + 1 >= |old(inner.script)| && inner.flushes == old(inner.flushes)
      ensures (old(inner.Sound()) ==> inner.Sound()) && (old(inner.script) != [] ==> r.Wrote?)
    {
      ghost var before, lo := inner.received, |accepted|;
      r := inner.Write(data);
      if r.Wrote? {
        accepted := accepted + data[..r.count];
        assert before == Picked(accepted, marks);
        assert accepted[lo..lo + r.count] == data[..r.count];
        Deliver(lo, r.count, before);
        forall p | since <= p < |accepted| ensures p in marks {
          if p >= lo {
            assert marks[|old(marks)| + (p - lo)] == p;
          }
        }
      } else {
        since := |accepted|;
      }
    }

    method Store(data: seq<byte>)
      requires Valid() && |data| <= CAPACITY - used
      modifies this, bytes
      ensures Valid() && marks == old(marks) && since == old(since)
      ensures accepted == old(accepted) + data && used == old(used) + |data|
    {
      forall i | 0 <= i < |data| {
        bytes[used + i] := data[i];
      }
      used := used + |data|;
      accepted := accepted + data;
      assert bytes[..used] == old(bytes[..used]) + data;
    }

    /** Any sequence of writes, flushes and discards, whatever the sink does. Accepted is what the writes said was
        taken; what reached the sink is an in-order, never-repeated selection of it, and after a final successful flush
        nothing is missing since the last discard or failure. Only the sink makes a call fail. */
    method Run(script: seq<Call>) returns (flushed: bool, answers: seq<Answer>)
      requires Valid()
      modifies this, inner, bytes
      ensures Answers(script, answers)
      ensures accepted == old(accepted) + Accepted(script, answers)
      ensures since == if flushed then Since(script, answers, old(since), |old(accepted)|) else |accepted|
      ensures Increasing(marks) && Below(marks, |accepted|) && inner.received == Picked(accepted, marks)
      ensures old(marks) <= marks && since <= |accepted|
      ensures flushed ==> forall p :: since <= p < |accepted| ==> p in marks
      ensures old(inner.Sound() && |inner.script| >= used + Volume(script) && |inner.flushes| > |script|) ==>
        flushed && Refused !in answers
    {
      hide Valid, Picked, Increasing, Below, Accepted, Since, Volume, Answered, Taken, Sink.Sound;
      NothingYet(old(since), |old(accepted)|);
      answers := [];
      assert script[..0] == [] && accepted + [] == accepted;
      for i := 0 to |script|
        invariant Valid() && old(marks) <= marks && Answers(script[..i], answers)
        invariant accepted == old(accepted) + Accepted(script[..i], answers)
        invariant since == Since(script[..i], answers, old(since), |old(accepted)|)
        invariant old(inner.Sound()) ==>
          inner.Sound() && |inner.script| + old(used) + Volume(script[..i]) >= |old(inner.script)| + used
          && |inner.flushes| + i >= |old(inner.flushes)|
        invariant old(inner.Sound() && |inner.script| >= used + Volume(script) && |inner.flushes| > |script|) ==>
          Refused !in answers
      {
        VolumeUpTo(script, i);
        assert script[..i + 1] == script[..i] + [script[i]];
        ghost var so := accepted;
        var answer := Serve(script[i]);
        Snoc(script[..i], answers, script[i], answer, old(since), |old(accepted)|);
        assert so + Taken(script[i], answer)
            == old(accepted) + (Accepted(script[..i], answers) + Taken(script[i], answer));
        answers := answers + [answer];
      }
      assert script[..|script|] == script;
      VolumeUpTo(script, |script|);
      flushed := Flush();
      Finished();
    }

    lemma Finished()
      requires Valid() && used == 0
      ensures Increasing(marks) && Below(marks, |accepted|) && inner.received == Picked(accepted, marks)
      ensures since <= |accepted|
    {
    }

    /** One call and its answer. */
    method Serve(call: Call) returns (answer: Answer)
      requires Valid()
      modifies this, inner, bytes
      ensures Valid() && old(marks) <= marks && Answered(call, answer)
      ensures accepted == old(accepted) + Taken(call, answer)
      ensures since == if call.DiscardCall? || answer.Refused? then |accepted| else old(since)
      ensures old(inner.Sound()) ==>
        inner.Sound() && |inner.script| + old(used) + call.Size() >= |old(inner.script)| + used
        && |inner.flushes| + 1 >= |old(inner.flushes)|
      ensures old(inner.Sound() && |inner.script| >= used + call.Size() && |inner.flushes| >= 1) ==> !answer.Refused?
    {
      hide Valid;
      assert accepted + [] == accepted;
      match call {
        case WriteCall(data) =>
          var r := Write(data);
          answer := if r.Wrote? then Took(r.count) else Refused;
        case FlushCall =>
          var ok := Flush();
          answer := if ok then Took(0) else Refused;
        case DiscardCall =>
          Discard();
          answer := Took(0);
      }
    }
  }

  datatype Call = WriteCall(data: seq<byte>) | FlushCall | DiscardCall
  {
    function Size(): nat {
      if WriteCall? then |data| else 0
    }
  }

  datatype Answer = Took(count: nat) | Refused

  /** A small write is taken whole, a discard never refused. */
  predicate Answered(call: Call, answer: Answer) {
    && (answer.Took? ==> answer.count <= call.Size())
    && (call.DiscardCall? ==> answer.Took?)
    && (call.WriteCall? && answer.Took? && |call.data| < 8192 ==> answer.count == |call.data|)
  }

  predicate Answers(calls: seq<Call>, answers: seq<Answer>) {
    |answers| == |calls| && forall i :: 0 <= i < |calls| ==> Answered(calls[i], answers[i])
  }

  function Taken(call: Call, answer: Answer): seq<byte>
    requires Answered(call, answer)
  {
    if call.WriteCall? && answer.Took? then call.data[..answer.count] else []
  }

  /** What the writes said was taken, in order. */
  function Accepted(calls: seq<Call>, answers: seq<Answer>): seq<byte>
    requires Answers(calls, answers)
  {
    if calls == [] then []
    else
      var n := |calls| - 1;
      Accepted(calls[..n], answers[..n]) + Taken(calls[n], answers[n])
  }

  /** How much had been accepted at the last discard or failure, `from` if there was none. */
  function Since(calls: seq<Call>, answers: seq<Answer>, from: nat, before: nat): nat
    requires Answers(calls, answers)
  {
    if calls == [] then from
    else
      var n := |calls| - 1;
      if calls[n].DiscardCall? || answers[n].Refused? then before + |Accepted(calls, answers)|
      else Since(calls[..n], answers[..n], from, before)
  }

  /** The bytes of all writes. */
  function Volume(calls: seq<Call>): nat {
    if calls == [] then 0 else Volume(calls[..|calls| - 1]) + calls[|calls| - 1].Size()
  }

  lemma NothingYet(from: nat, before: nat)
    ensures Accepted([], []) == [] && Since([], [], from, before) == from && Volume([]) == 0
  {
  }

  lemma {:induction false} VolumeUpTo(calls: seq<Call>, n: nat)
    requires n <= |calls|
    ensures Volume(calls[..n]) <= Volume(calls)
    ensures n < |calls| ==> Volume(calls[..n + 1]) == Volume(calls[..n]) + calls[n].Size() <= Volume(calls)
    decreases |calls|
  {
    if n == |calls| {
      assert calls[..n] == calls;
    } else {
      var front := calls[..|calls| - 1];
      VolumeUpTo(front, n);
      assert front[..n] == calls[..n];
      if n + 1 < |calls| {
        assert front[..n + 1] == calls[..n + 1] && front[n] == calls[n];
      } else {
        assert calls[..n + 1] == calls && calls[..n] == front;
      }
    }
  }

  lemma Snoc(calls: seq<Call>, answers: seq<Answer>, call: Call, answer: Answer, from: nat, before: nat)
    requires Answers(calls, answers) && Answered(call, answer)
    ensures Answers(calls + [call], answers + [answer])
    ensures Accepted(calls + [call], answers + [answer]) == Accepted(calls, answers) + Taken(call, answer)
    ensures Since(calls + [call], answers + [answer], from, before) ==
      if call.DiscardCall? || answer.Refused? then before + |Accepted(calls, answers) + Taken(call, answer)|
      else Since(calls, answers, from, before)
  {
    assert (calls + [call])[..|calls|] == calls && (answers + [answer])[..|calls|] == answers;
  }
}
