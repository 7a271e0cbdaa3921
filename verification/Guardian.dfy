/** The command guardian: one event loop that launches, bounds, kills and reaps one shell job for any parent. */
module Guardian {
  import opened Bytes
  import opened World

  const CAP: nat := 131_072
  const CHUNK: nat := 8192
  const CREDITS: nat := 4

  // ----- The packets to the parent -----

  datatype Packet = Data(bytes: seq<byte>) | Cancelled | TimedOut | Exited(code: nat)

  function Kind(p: Packet): byte {
    match p
    case Data(_) => 'D' as int
    case Cancelled => 'C' as int
    case TimedOut => 'T' as int
    case Exited(_) => 'X' as int
  }

  function Payload(p: Packet): seq<byte> {
    match p
    case Data(bytes) => bytes
    case Exited(code) => Be(code, 4)
    case _ => []
  }

  /** Length, kind, payload. */
  function Encoded(p: Packet): seq<byte> {
    Be(|Payload(p)| + 1, 4) + [Kind(p)] + Payload(p)
  }

  function Stream(ps: seq<Packet>): seq<byte> {
    if ps == [] then [] else Stream(ps[..|ps| - 1]) + Encoded(ps[|ps| - 1])
  }

  /** What the job wrote, as the parent sees it. */
  function Output(ps: seq<Packet>): seq<byte> {
    if ps == [] then []
    else
      var last := ps[|ps| - 1];
      Output(ps[..|ps| - 1]) + if last.Data? then last.bytes else []
  }

  function DataCount(ps: seq<Packet>): nat {
    if ps == [] then 0
    else DataCount(ps[..|ps| - 1]) + if ps[|ps| - 1].Data? then 1 else 0
  }

  lemma Append(ps: seq<Packet>, p: Packet)
    ensures Stream(ps + [p]) == Stream(ps) + Encoded(p)
    ensures Output(ps + [p]) == Output(ps) + if p.Data? then p.bytes else []
    ensures DataCount(ps + [p]) == DataCount(ps) + if p.Data? then 1 else 0
  {
    assert (ps + [p])[..|ps|] == ps;
  }

  /** A result is the last packet. */
  predicate ResultLast(ps: seq<Packet>) {
    forall i :: 0 <= i < |ps| - 1 ==> ps[i].Data?
  }

  predicate HasResult(ps: seq<Packet>) {
    ps != [] && !ps[|ps| - 1].Data?
  }

  lemma EncodedSize(p: Packet)
    ensures |Encoded(p)| == |Payload(p)| + 5
  {
  }

  // ----- The packets from the parent -----

  const ACK: seq<byte> := [0, 0, 0, 1, 'A' as int]
  const FINAL: seq<byte> := [0, 0, 0, 1, 'F' as int]
  const CANCEL: seq<byte> := [0, 0, 0, 1, 'C' as int]

  /** An acknowledgement of something, the last one of the result, or a cancellation; anything else is an error. */
  predicate Proper(frame: seq<byte>, credits: nat, resultQueued: bool) {
    (frame == ACK && credits < CREDITS) || (frame == FINAL && resultQueued) || frame == CANCEL
  }

  /** How many bytes of the frame begun there are after `n` bytes. */
  function Begun(n: nat): (r: nat)
    ensures r < 5 && r <= n
  {
    n % 5
  }

  lemma NextInFrame(n: nat)
    ensures Begun(n + 1) == if Begun(n) == 4 then 0 else Begun(n) + 1
  {
  }

  /** What the parent's frames and the packets to it decide. */
  datatype Control = Control(credits: nat, resultQueued: bool, finalAck: bool, cancelled: bool, abandoned: bool)

  const UNDECIDED: Control := Control(CREDITS, false, false, false, false)

  function Heed(c: Control, frame: seq<byte>): Control {
    if frame == ACK && c.credits < CREDITS then c.(credits := c.credits + 1)
    else if frame == FINAL && c.resultQueued then c.(finalAck := true)
    else if frame == CANCEL then c.(cancelled := true)
    else c.(cancelled := true, abandoned := true)
  }

  lemma SameFrame(frame: seq<byte>)
    requires |frame| == 5
    ensures frame[..4] == [0, 0, 0, 1] ==> frame == [0, 0, 0, 1, frame[4]]
    ensures frame in {ACK, FINAL, CANCEL} ==> frame[..4] == [0, 0, 0, 1]
  {
    assert frame == frame[..4] + [frame[4]];
    assert ACK[..4] == FINAL[..4] == CANCEL[..4] == [0, 0, 0, 1];
  }

  function HeedAll(c: Control, frames: seq<seq<byte>>): Control {
    if frames == [] then c else Heed(HeedAll(c, frames[..|frames| - 1]), frames[|frames| - 1])
  }

  function Before(n: nat): nat {
    if n < 5 then 0 else n - 5
  }

  /** The whole five-byte frames of what was heard. */
  function Chunks(s: seq<byte>): seq<seq<byte>> {
    if s == [] then []
    else Chunks(s[..|s| - 1]) + if Begun(|s|) == 0 then [s[Before(|s|)..]] else []
  }

  lemma NextChunk(s: seq<byte>, b: byte)
    ensures Chunks(s + [b]) ==
      if Begun(|s| + 1) == 0 then Chunks(s) + [(s + [b])[Before(|s| + 1)..]] else Chunks(s)
  {
    hide Begun;
    assert (s + [b])[..|s|] == s;
  }

  lemma {:induction false} ChunkCount(s: seq<byte>)
    ensures 5 * |Chunks(s)| + Begun(|s|) == |s|
    decreases |s|
  {
    hide Begun;
    if s == [] {
    } else {
      ChunkCount(s[..|s| - 1]);
      NextInFrame(|s| - 1);
    }
  }

  /** One more byte of a frame begun. */
  function HearOne(c: Control, part: seq<byte>, b: byte): (Control, seq<byte>) {
    if |part| == 4 then (Heed(c, part + [b]), []) else (c, part + [b])
  }

  /** The parent's bytes one at a time. */
  function HearAll(c: Control, part: seq<byte>, bytes: seq<byte>): (Control, seq<byte>)
    decreases |bytes|
  {
    if bytes == [] then (c, part)
    else
      var next := HearOne(c, part, bytes[0]);
      HearAll(next.0, next.1, bytes[1..])
  }

  /** How the bytes are cut into reads makes no difference. */
  lemma {:induction false} HearConcat(c: Control, part: seq<byte>, a: seq<byte>, b: seq<byte>)
    ensures HearAll(c, part, a + b) == HearAll(HearAll(c, part, a).0, HearAll(c, part, a).1, b)
    decreases |a|
  {
    if a == [] {
      assert a + b == b;
    } else {
      assert (a + b)[1..] == a[1..] + b;
      var next := HearOne(c, part, a[0]);
      HearConcat(next.0, next.1, a[1..], b);
    }
  }

  /** From the start of a frame: exactly its whole frames are obeyed, in order. */
  lemma {:induction false} HearFrames(c: Control, s: seq<byte>)
    ensures HearAll(c, [], s) == (HeedAll(c, Chunks(s)), s[|s| - Begun(|s|)..])
    decreases |s|
  {
    hide Heed, Begun;
    if s == [] {
    } else {
      var n := |s| - 1;
      var front, b := s[..n], s[n];
      assert s == front + [b] && [b][1..] == [];
      HearFrames(c, front);
      HearConcat(c, [], front, [b]);
      NextInFrame(n);
      NextChunk(front, b);
      var part := front[n - Begun(n)..];
      if Begun(n) == 4 {
        assert part + [b] == s[Before(|s|)..] && s[|s|..] == [];
        var all := Chunks(front) + [s[Before(|s|)..]];
        assert all[..|all| - 1] == Chunks(front);
      } else {
        assert part + [b] == s[|s| - Begun(|s|)..];
      }
    }
  }

  // ----- Both directions -----

  /** A whole frame from the parent, or a packet to it. */
  datatype Exchange = Heard(frame: seq<byte>) | Told(packet: Packet)

  lemma Heeded(c: Control, frame: seq<byte>)
    ensures Exchanged(c, Heard(frame)) == Heed(c, frame)
  {
  }

  function Exchanged(c: Control, e: Exchange): Control {
    match e
    case Heard(frame) => Heed(c, frame)
    case Told(Data(_)) => c.(credits := if c.credits > 0 then c.credits - 1 else 0)
    case Told(_) => c.(resultQueued := true)
  }

  /** What everything exchanged so far decides. */
  function Decided(log: seq<Exchange>): Control {
    if log == [] then UNDECIDED else Exchanged(Decided(log[..|log| - 1]), log[|log| - 1])
  }

  function FramesOf(log: seq<Exchange>): seq<seq<byte>> {
    if log == [] then []
    else FramesOf(log[..|log| - 1]) + if log[|log| - 1].Heard? then [log[|log| - 1].frame] else []
  }

  function PacketsOf(log: seq<Exchange>): seq<Packet> {
    if log == [] then []
    else PacketsOf(log[..|log| - 1]) + if log[|log| - 1].Told? then [log[|log| - 1].packet] else []
  }

  /** How many acknowledgements came while one was due. */
  function Accepted(log: seq<Exchange>): nat {
    if log == [] then 0
    else
      var front := log[..|log| - 1];
      Accepted(front) + if log[|log| - 1] == Heard(ACK) && Decided(front).credits < CREDITS then 1 else 0
  }

  lemma Log(log: seq<Exchange>, e: Exchange)
    ensures Decided(log + [e]) == Exchanged(Decided(log), e)
    ensures FramesOf(log + [e]) == FramesOf(log) + if e.Heard? then [e.frame] else []
    ensures PacketsOf(log + [e]) == PacketsOf(log) + if e.Told? then [e.packet] else []
    ensures Accepted(log + [e]) == Accepted(log) + if e == Heard(ACK) && Decided(log).credits < CREDITS then 1 else 0
  {
    assert (log + [e])[..|log|] == log;
  }

  lemma {:induction false} AcceptedFrames(log: seq<Exchange>)
    ensures Accepted(log) <= |FramesOf(log)|
    decreases |log|
  {
    if log == [] {
    } else {
      AcceptedFrames(log[..|log| - 1]);
    }
  }

  // ----- What happens to the job -----

  datatype Ending = Exit(code: nat) | Signaled(number: nat)

  function Code(e: Ending): nat {
    match e
    case Exit(code) => code
    case Signaled(number) => 128 + number
  }

  /** The launch byte, the two signals (to the whole group or to the leader alone) and the reaping, with their times. */
  datatype Act = Go(at: nat) | Term(group: bool, at: nat) | Kill(group: bool, at: nat) | Reap

  function Opt(a: Option<Act>): seq<Act> {
    if a.Some? then [a.value] else []
  }

  method AnyEnding() returns (e: Ending) {
    var signaled := Happens();
    var n := AnyCount();
    return if signaled then Signaled(n) else Exit(n);
  }

  predicate Bound(c: Control, decided: Control) {
    && c.credits == decided.credits && c.resultQueued == decided.resultQueued && c.finalAck == decided.finalAck
    && (decided.cancelled ==> c.cancelled) && (decided.abandoned ==> c.abandoned)
  }

  class Guardian {
    const queue: array<byte>
    const inputFrame: array<byte>
    var queued: nat
    var groupReady: bool
    var outputEof: bool
    var terminal: bool
    var reaped: bool
    var cancelled: bool
    var abandoned: bool
    var timedOut: bool
    var killed: bool
    var resultQueued: bool
    var credits: nat
    var finalAck: bool
    var inputUsed: nat
    var status: Ending
    var deadline: nat
    /** 0 until the kill is scheduled. */
    var killAt: nat
    var outputIdleAt: nat
    var launchOpen: bool

    /** The monotonic clock's last answer. */
    var clock: nat

    ghost var trace: seq<Act>
    ghost var went: Option<Act>
    ghost var term: Option<Act>
    ghost var kill: Option<Act>
    ghost var packets: seq<Packet>
    ghost var written: seq<byte>
    ghost var read: seq<byte>
    ghost var heard: seq<byte>
    ghost var log: seq<Exchange>

    /** The job: at most one launch, then at most one termination, one kill and one reaping. */
    ghost predicate Story()
      reads this`trace, this`went, this`term, this`kill, this`killAt, this`killed, this`reaped, this`groupReady
      reads this`launchOpen
    {
      && trace == Opt(went) + Opt(term) + Opt(kill) + (if reaped then [Reap] else [])
      && (went.Some? ==> went.value.Go? && groupReady)
      && (term.Some? ==> term.value.Term? && killAt == term.value.at + 100 && (went.Some? ==> term.value.group))
      && (kill.Some? ==> kill.value.Kill? && kill.value.at >= killAt && (went.Some? ==> kill.value.group))
      && (term.Some? <==> killAt > 0) && (kill.Some? <==> killed)
      && (killed ==> killAt > 0) && (reaped ==> killed)
      && (launchOpen <==> !groupReady)
    }

    /** The queue is what has not been written yet of the packets. */
    ghost predicate Queue()
      reads this`queued, this`packets, this`written, queue
    {
      && queue.Length == CAP && queued <= CAP
      && written + queue[..queued] == Stream(packets)
    }

    function Standing(): Control
      reads this`credits, this`resultQueued, this`finalAck, this`cancelled, this`abandoned
    {
      Control(credits, resultQueued, finalAck, cancelled, abandoned)
    }

    /** At most four data packets are unacknowledged, whatever the parent sends; and everything decided is what the
        frames heard and the packets sent decide, but that the job may also be cancelled or abandoned for other
        reasons. */
    ghost predicate Flow()
      reads this`credits, this`resultQueued, this`finalAck, this`cancelled, this`abandoned, this`packets, this`log
    {
      && credits <= CREDITS && credits + DataCount(packets) == CREDITS + Accepted(log)
      && PacketsOf(log) == packets && Bound(Standing(), Decided(log))
    }

    /** Nothing read is left out of a run that was not cancelled; the result comes last and only once everything else
        is over. */
    ghost predicate Results()
      reads this`packets, this`resultQueued, this`cancelled, this`read, this`outputEof, this`reaped, this`finalAck
      reads this`abandoned, this`status
    {
      && ResultLast(packets) && (resultQueued <==> HasResult(packets))
      && (!cancelled ==> Output(packets) == read)
      && (resultQueued ==> outputEof && reaped)
      && (resultQueued && packets[|packets| - 1] != Cancelled ==> Output(packets) == read)
      && (resultQueued && packets[|packets| - 1].Exited? ==> packets[|packets| - 1] == Exited(Code(status)))
      && (finalAck ==> resultQueued) && (abandoned ==> cancelled)
    }

    /** The frames in the log are those in the bytes heard. */
    ghost predicate Framed()
      reads this`log, this`heard
    {
      FramesOf(log) == Chunks(heard)
    }

    ghost predicate Input()
      reads this`inputUsed, this`heard, inputFrame
    {
      && inputFrame.Length == 5 && inputUsed == Begun(|heard|)
      && inputFrame[..inputUsed] == heard[|heard| - inputUsed..]
    }

    ghost predicate Valid()
      reads this, queue, inputFrame
    {
      && queue != inputFrame
      && Story() && Queue() && Flow() && Results() && Framed() && Input()
    }

    constructor (timeout: nat)
      requires 0 < timeout <= 600_000
      ensures Valid() && fresh(queue) && fresh(inputFrame)
      ensures trace == [] && packets == [] && written == [] && read == [] && heard == []
    {
      queue := new byte[CAP](_ => 0);
      inputFrame := new byte[5](_ => 0);
      var start := AnyCount();
      queued, inputUsed, credits, status := 0, 0, CREDITS, Exit(0);
      killAt, outputIdleAt, deadline := 0, start, start + timeout;
      groupReady, outputEof, terminal, reaped := false, false, false, false;
      cancelled, abandoned, timedOut := false, false, false;
      killed, resultQueued, finalAck, launchOpen := false, false, false, true;
      clock, trace, went, term, kill := start, [], None, None, None;
      packets, written, read, heard, log := [], [], [], [], [];
      new;
      assert queue[..0] == [];
    }

    method Now() returns (now: nat)
      modifies this`clock
      ensures old(clock) <= now == clock
    {
      var passed := AnyCount();
      clock := clock + passed;
      now := clock;
    }

    // ----- The queue -----

    /** Refused when it does not fit; the caller would then exit at once. */
    method Enqueue(p: Packet) returns (fits: bool)
      requires Queue()
      modifies this`queued, this`packets, queue
      ensures fits <==> old(queued) + |Payload(p)| + 5 <= CAP
      ensures Queue() && packets == if fits then old(packets) + [p] else old(packets)
      ensures queued == if fits then old(queued) + |Payload(p)| + 5 else old(queued)
    {
      hide Stream, Output, DataCount, Encoded, Payload;
      EncodedSize(p);
      var bytes := Encoded(p);
      if queued + |bytes| > CAP {
        return false;
      }
      ghost var before := queue[..queued];
      forall i | 0 <= i < |bytes| {
        queue[queued + i] := bytes[i];
      }
      Append(packets, p);
      packets := packets + [p];
      queued := queued + |bytes|;
      assert queue[..queued] == before + bytes;
      assert written + (before + bytes) == written + before + bytes;
      return true;
    }

    /** A packet for which there is room, noted in the log. */
    method Tell(p: Packet)
      requires Queue() && queued + |Payload(p)| + 5 <= CAP && PacketsOf(log) == packets
      modifies this`queued, this`packets, this`log, queue
      ensures Queue() && packets == old(packets) + [p] && log == old(log) + [Told(p)]
      ensures PacketsOf(log) == packets && FramesOf(log) == FramesOf(old(log)) && Accepted(log) == Accepted(old(log))
      ensures Decided(log) == Exchanged(Decided(old(log)), Told(p))
      ensures Output(packets) == Output(old(packets)) + if p.Data? then p.bytes else []
      ensures DataCount(packets) == DataCount(old(packets)) + if p.Data? then 1 else 0
    {
      hide Queue, Output, DataCount, Decided, PacketsOf, FramesOf, Accepted, Exchanged, Payload;
      Append(packets, p);
      Log(log, Told(p));
      assert FramesOf(log) + [] == FramesOf(log);
      log := log + [Told(p)];
      var fits := Enqueue(p);
      assert fits;
    }

    /** The rest moves to the front. */
    method Shift(n: nat)
      requires n <= queued <= queue.Length
      modifies queue
      ensures queue[..queued - n] == old(queue[n..queued])
    {
      for i := 0 to queued - n
        invariant forall k :: 0 <= k < i ==> queue[k] == old(queue[n + k])
        invariant forall k :: i + n <= k < queued ==> queue[k] == old(queue[k])
      {
        queue[i] := queue[i + n];
      }
    }

    /** The first `n` queued bytes went out. */
    method Drop(n: nat)
      requires Queue() && n <= queued
      modifies this`queued, this`written, queue
      ensures Queue() && queued == old(queued) - n && written == old(written) + old(queue[..n])
    {
      hide Stream;
      ghost var sent, rest := queue[..n], queue[n..queued];
      assert queue[..queued] == sent + rest;
      assert written + (sent + rest) == written + sent + rest;
      Shift(n);
      written := written + sent;
      queued := queued - n;
    }

    // ----- The steps of one turn -----

    method Interrupted()
      requires Flow() && Results()
      modifies this`cancelled, this`abandoned
      ensures Flow() && Results()
      ensures (cancelled == old(cancelled) && abandoned == old(abandoned)) || (cancelled && abandoned)
    {
      hide Flow, Results;
      var interrupted := Happens();
      if interrupted {
        Abandon();
      }
    }

    /** Cancellation by signal, the deadline, and the leader's exit (noticed, not reaped). */
    method Notice(now: nat)
      requires Flow() && Results()
      modifies this`outputIdleAt, this`cancelled, this`abandoned, this`timedOut, this`terminal
      ensures Flow() && Results()
      ensures (cancelled == old(cancelled) && abandoned == old(abandoned)) || (cancelled && abandoned)
      ensures timedOut == (old(timedOut) || (now >= deadline && !old(terminal))) && (old(terminal) ==> terminal)
      ensures outputIdleAt == if credits == 0 || queued > 0 then now else old(outputIdleAt)
    {
      hide Flow, Results, Standing;
      if credits == 0 || queued > 0 {
        outputIdleAt := now;
      }
      Interrupted();
      if now >= deadline && !terminal {
        timedOut := true;
      }
      if !terminal {
        terminal := Happens();
      }
    }

    /** One termination, and the kill a tenth of a second later: to the whole group once the job is its own. */
    method Signal(now: nat)
      requires Story()
      modifies this`trace, this`term, this`kill, this`killAt, this`killed
      ensures Story() && old(trace) <= trace
      ensures killAt == if old(killAt) == 0 && (terminal || cancelled || timedOut) then now + 100 else old(killAt)
      ensures term == if killAt == old(killAt) then old(term) else Some(Term(groupReady, now))
      ensures killed == (old(killed) || (killAt > 0 && now >= killAt))
      ensures kill == if killed == old(killed) then old(kill) else Some(Kill(groupReady, now))
    {
      if (terminal || cancelled || timedOut) && killAt == 0 {
        term := Some(Term(groupReady, now));
        trace := trace + [Term(groupReady, now)];
        killAt := now + 100;
      }
      if killAt > 0 && now >= killAt && !killed {
        kill := Some(Kill(groupReady, now));
        trace := trace + [Kill(groupReady, now)];
        killed := true;
      }
    }

    /** Only after the kill; the zombie leader has kept the group's number until then. */
    method Reaping()
      requires Story() && Results()
      modifies this`trace, this`reaped, this`status
      ensures Story() && Results() && (old(reaped) ==> reaped) && old(trace) <= trace
    {
      if killed && !reaped {
        var exited := Happens();
        if exited {
          status := AnyEnding();
          reaped := true;
          trace := trace + [Reap];
        }
      }
    }

    /** The result, once the output is over. */
    method Report()
      requires Queue() && Flow() && Results() && reaped && outputEof && !resultQueued && queued <= CAP - 16
      modifies this`queued, this`packets, this`resultQueued, this`log, queue
      ensures Queue() && Flow() && Results() && resultQueued && FramesOf(log) == FramesOf(old(log))
      ensures packets == old(packets) + [
        if cancelled then Cancelled else if timedOut then TimedOut else Exited(Code(status))]
    {
      hide Queue, Output, DataCount, Decided, PacketsOf, FramesOf, Accepted;
      var p := if cancelled then Cancelled else if timedOut then TimedOut else Exited(Code(status));
      assert Output(packets) + [] == Output(packets);
      Tell(p);
      resultQueued := true;
    }

    /** After the reaping: the end of the output (a descendant may hold it open for ever), the result, and whether
        the loop is over. */
    method Finish(now: nat) returns (ended: bool)
      requires Queue() && Flow() && Results() && reaped
      modifies this`queued, this`packets, this`resultQueued, this`outputEof, this`log, queue
      ensures Queue() && Flow() && Results() && FramesOf(log) == FramesOf(old(log))
      ensures ended <==> abandoned || (resultQueued && finalAck && queued == 0)
      ensures outputEof == (old(outputEof) || (!abandoned && now >= outputIdleAt + 500))
      ensures resultQueued == (old(resultQueued) || (!abandoned && outputEof && old(queued) <= CAP - 16))
    {
      if abandoned {
        return true;
      }
      if !outputEof && now >= outputIdleAt + 500 {
        outputEof := true;
      }
      if outputEof && !resultQueued && queued <= CAP - 16 {
        Report();
      }
      ended := resultQueued && queued == 0 && finalAck;
    }

    // ----- What the descriptors bring -----

    /** One complete five-byte frame: an acknowledgement, the final one, a cancellation, or an error. */
    method Obey(frame: seq<byte>)
      requires |frame| == 5 && Flow() && Results()
      modifies this`credits, this`log, this`finalAck, this`cancelled, this`abandoned
      ensures Flow() && Results() && log == old(log) + [Heard(frame)] && Standing() == Heed(old(Standing()), frame)
      ensures credits == old(credits) + if frame == ACK && old(credits) < CREDITS then 1 else 0
      ensures finalAck == (old(finalAck) || (frame == FINAL && resultQueued))
      ensures abandoned == (old(abandoned) || !Proper(frame, old(credits), resultQueued))
      ensures cancelled == (old(cancelled) || frame == CANCEL || !Proper(frame, old(credits), resultQueued))
    {
      hide DataCount, Decided, PacketsOf, FramesOf, Accepted, Output, ResultLast, HasResult, Exchanged;
      SameFrame(frame);
      Log(log, Heard(frame));
      Heeded(Decided(log), frame);
      log := log + [Heard(frame)];
      if frame[..4] != [0, 0, 0, 1] {
        cancelled, abandoned := true, true;
      } else if frame[4] == 'A' as int && credits < CREDITS {
        credits := credits + 1;
      } else if frame[4] == 'F' as int && resultQueued {
        finalAck := true;
      } else if frame[4] == 'C' as int {
        cancelled := true;
      } else {
        cancelled, abandoned := true, true;
      }
    }

    /** The parent's bytes, in reads of any size. */
    method Hear(bytes: seq<byte>)
      requires Flow() && Results() && Framed() && Input()
      modifies this`credits, this`log, this`finalAck, this`cancelled, this`abandoned
      modifies this`inputUsed, this`heard, inputFrame
      ensures Flow() && Results() && Framed() && Input() && heard == old(heard) + bytes
      ensures old(cancelled) ==> cancelled
      ensures (Standing(), Part()) == HearAll(old(Standing()), old(Part()), bytes)
    {
      hide Flow, Results, Framed, Input, Part, HearOne;
      assert bytes[..0] == [] && heard + [] == heard && bytes[0..] == bytes;
      for i := 0 to |bytes|
        invariant Flow() && Results() && Framed() && Input() && heard == old(heard) + bytes[..i]
        invariant old(cancelled) ==> cancelled
        invariant HearAll(Standing(), Part(), bytes[i..]) == HearAll(old(Standing()), old(Part()), bytes)
      {
        assert old(heard) + bytes[..i] + [bytes[i]] == old(heard) + bytes[..i + 1];
        assert bytes[i..][0] == bytes[i] && bytes[i..][1..] == bytes[i + 1..];
        HearByte(bytes[i]);
      }
      assert bytes[..|bytes|] == bytes && bytes[|bytes|..] == [];
    }

    /** The bytes of the frame begun. */
    function Part(): seq<byte>
      reads this`inputUsed, inputFrame
    {
      if inputUsed <= inputFrame.Length then inputFrame[..inputUsed] else []
    }

    method HearByte(b: byte)
      requires Flow() && Results() && Framed() && Input()
      modifies this`credits, this`log, this`finalAck, this`cancelled, this`abandoned
      modifies this`inputUsed, this`heard, inputFrame
      ensures Flow() && Results() && Framed() && Input() && heard == old(heard) + [b] && (old(cancelled) ==> cancelled)
      ensures (Standing(), Part()) == HearOne(old(Standing()), old(Part()), b)
    {
      hide Flow, Results, Chunks, FramesOf, Heed, Begun;
      Store(b);
      if inputUsed == 5 {
        Log(log, Heard(inputFrame[..]));
        Obey(inputFrame[..]);
        inputUsed := 0;
        assert inputFrame[..0] == [] == heard[|heard|..];
      }
    }

    /** One more byte of the frame begun, which may now be whole. */
    method Store(b: byte)
      requires Input()
      modifies this`inputUsed, this`heard, inputFrame
      ensures heard == old(heard) + [b] && inputUsed == old(inputUsed) + 1 <= inputFrame.Length == 5
      ensures inputFrame[..inputUsed] == old(Part()) + [b]
      ensures Chunks(heard) == Chunks(old(heard)) + if inputUsed == 5 then [inputFrame[..]] else []
      ensures inputUsed == 5 ==> inputFrame[..] == old(Part()) + [b]
      ensures Begun(|heard|) == (if inputUsed == 5 then 0 else inputUsed) && (inputUsed < 5 ==> Input())
    {
      hide Chunks, Begun;
      ghost var part := inputFrame[..inputUsed];
      NextInFrame(|heard|);
      NextChunk(heard, b);
      inputFrame[inputUsed] := b;
      inputUsed := inputUsed + 1;
      heard := heard + [b];
      assert inputFrame[..inputUsed] == part + [b] == heard[|heard| - inputUsed..];
      assert inputFrame[..] == inputFrame[..5];
    }

    method ReadInput()
      requires Flow() && Results() && Framed() && Input()
      modifies this`credits, this`log, this`finalAck, this`cancelled, this`abandoned
      modifies this`inputUsed, this`heard, inputFrame
      ensures Flow() && Results() && Framed() && Input() && old(heard) <= heard && (old(cancelled) ==> cancelled)
    {
      hide Flow, Results, Framed, Input;
      var idle := Happens();
      if idle {
        return;
      }
      var bytes := AnyBytes(64);
      if bytes == [] {
        Abandon();
      }
      Hear(bytes);
    }

    method Cancel()
      requires Flow() && Results()
      modifies this`cancelled
      ensures Flow() && Results() && cancelled
    {
      cancelled := true;
    }

    /** The job is its own session: it is launched unless an end is already decided. */
    method Launch(now: nat)
      requires Story() && Flow() && Results() && !groupReady
      modifies this`trace, this`went, this`groupReady, this`launchOpen, this`cancelled
      ensures Story() && Flow() && Results() && groupReady && (old(cancelled) ==> cancelled)
      ensures trace == old(trace) || (trace == old(trace) + [Go(now)] && old(killAt == 0 && !cancelled && !timedOut))
    {
      hide Flow, Results;
      groupReady := true;
      if !cancelled && !timedOut && killAt == 0 {
        var sent := Happens();
        if sent {
          went := Some(Go(now));
          trace := trace + [Go(now)];
        } else {
          Cancel();
        }
      }
      launchOpen := false;
    }

    /** Output of the job, while a credit and room for a whole chunk are left; after a cancellation it is only thrown
        away. */
    method ReadOutput() returns (ghost data: seq<byte>)
      requires Queue() && Flow() && Results()
      modifies this`queued, this`packets, this`credits, this`read, this`outputEof, this`outputIdleAt, this`clock
      modifies this`log, queue
      ensures Queue() && Flow() && Results() && read == old(read) + data && old(clock) <= clock
      ensures FramesOf(log) == FramesOf(old(log))
      ensures data != [] ==> !outputEof && (cancelled || old(credits) > 0) && old(queued) + |data| + 5 < CAP
      ensures packets == if data == [] || cancelled then old(packets) else old(packets) + [Data(data)]
    {
      hide Queue, Output, DataCount, Decided, PacketsOf, FramesOf, Accepted;
      data := [];
      assert read + [] == read;
      if outputEof || !(cancelled || credits > 0) || queued >= CAP - (CHUNK + 5) {
        return;
      }
      var idle := Happens();
      if idle {
        return;
      }
      var chunk := AnyBytes(CHUNK);
      if chunk == [] {
        outputEof := true;
        return;
      }
      outputIdleAt := Now();
      data := chunk;
      read := read + data;
      if !cancelled {
        Pass(chunk);
      }
    }

    method Pass(data: seq<byte>)
      requires Queue() && queued < CAP - (CHUNK + 5) && 0 < |data| <= CHUNK && credits > 0
      requires PacketsOf(log) == packets && Bound(Standing(), Decided(log))
      modifies this`queued, this`packets, this`credits, this`log, queue
      ensures PacketsOf(log) == packets && Bound(Standing(), Decided(log)) && Accepted(log) == Accepted(old(log))
      ensures FramesOf(log) == FramesOf(old(log))
      ensures Queue() && packets == old(packets) + [Data(data)] && credits == old(credits) - 1
      ensures Output(packets) == Output(old(packets)) + data && DataCount(packets) == DataCount(old(packets)) + 1
    {
      hide Queue, Output, DataCount, Decided, PacketsOf, FramesOf, Accepted;
      Tell(Data(data));
      credits := credits - 1;
    }

    lemma QueueFits()
      requires Queue()
      ensures queued <= queue.Length
    {
    }

    method WriteOut()
      requires Queue() && Flow() && Results()
      modifies this`queued, this`written, this`cancelled, this`abandoned, queue
      ensures Queue() && Flow() && Results() && old(written) <= written && (old(cancelled) ==> cancelled)
    {
      hide Queue, Flow, Results;
      QueueFits();
      var busy := Happens();
      if queued == 0 || busy {
        return;
      }
      var broken := Happens();
      if broken {
        Abandon();
        return;
      }
      var n := AnyCount();
      Drop(if n <= queued then n else queued);
    }

    // ----- The loop -----

    /** The signals first, then the reaping and the result, and only then the descriptors. */
    method Iterate() returns (ended: bool)
      requires Valid()
      modifies this, queue, inputFrame
      ensures Valid() && old(read) <= read && old(written) <= written && old(trace) <= trace
      ensures ended ==> reaped && (abandoned || (resultQueued && finalAck && queued == 0))
    {
      hide Story, Queue, Flow, Results, Input, FramesOf, Chunks;
      var now := Now();
      Manage(now);
      if reaped {
        ended := Finish(now);
        if ended {
          return;
        }
      }
      ended := false;
      Transfer(now);
    }

    /** What the poll brings, in and out. */
    method Transfer(now: nat)
      requires Valid()
      modifies this, queue, inputFrame
      ensures Valid() && old(read) <= read && old(written) <= written && old(trace) <= trace
    {
      hide Story, Queue, Flow, Results, Input, FramesOf, Chunks;
      Listen(now);
      Pump();
    }

    /** The job's output in, the parent's packets out. */
    method Pump()
      requires Queue() && Flow() && Results()
      modifies this`queued, this`packets, this`credits, this`read, this`outputEof, this`outputIdleAt, this`clock
      modifies this`written, this`cancelled, this`abandoned, this`log, queue
      ensures FramesOf(log) == FramesOf(old(log))
      ensures Queue() && Flow() && Results() && old(read) <= read && old(written) <= written
    {
      hide Queue, Flow, Results, FramesOf;
      ghost var data := ReadOutput();
      WriteOut();
    }

    method Manage(now: nat)
      requires Story() && Flow() && Results()
      modifies this`outputIdleAt, this`cancelled, this`abandoned, this`timedOut, this`terminal
      modifies this`trace, this`term, this`kill, this`killAt, this`killed, this`reaped, this`status
      ensures Story() && Flow() && Results() && old(trace) <= trace
    {
      hide Story, Flow, Results;
      Notice(now);
      Signal(now);
      Reaping();
    }

    /** What the poll said: the parent's bytes, then the job's readiness. */
    method Listen(now: nat)
      requires Story() && Flow() && Results() && Framed() && Input()
      modifies this`credits, this`log, this`finalAck, this`cancelled, this`abandoned
      modifies this`inputUsed, this`heard, inputFrame
      modifies this`trace, this`went, this`groupReady, this`launchOpen
      ensures Story() && Flow() && Results() && Framed() && Input() && old(trace) <= trace
    {
      hide Story, Flow, Results, Framed, Input;
      var failed := Happens();
      if failed {
        Abandon();
      }
      var heardSome := Happens();
      if heardSome {
        ReadInput();
      }
      var ready := Happens();
      if !groupReady && ready {
        Launch(now);
      }
    }

    method Abandon()
      requires Flow() && Results()
      modifies this`cancelled, this`abandoned
      ensures Flow() && Results() && cancelled && abandoned
    {
      cancelled, abandoned := true, true;
    }

    /** Any number of turns, whatever the parent, the job, the clock and the signals do. */
    method Run(turns: nat) returns (ended: bool)
      requires Valid()
      modifies this, queue, inputFrame
      ensures Valid() && old(read) <= read && old(written) <= written && old(trace) <= trace
      ensures ended ==> reaped && (!abandoned ==> written == Stream(packets) && HasResult(packets))
    {
      hide Story, Input, Flow, Stream;
      ended := false;
      for i := 0 to turns
        invariant Valid() && old(read) <= read && old(written) <= written && old(trace) <= trace
        invariant ended ==> reaped && (abandoned || (resultQueued && finalAck && queued == 0))
      {
        if !ended {
          ended := Iterate();
        }
      }
      if ended && !abandoned {
        assert queue[..queued] == [] && written + [] == written;
      }
    }

    // ----- What every run keeps -----

    /** The launch byte is only ever the first thing that happens to the job: no end was decided before it. */
    lemma LaunchFirst(i: nat)
      requires Valid() && i < |trace| && trace[i].Go?
      ensures i == 0
    {
      hide Queue, Flow, Results, Framed, Input;
    }

    /** A launched job's whole group is killed before its leader is reaped, a tenth of a second after it was asked
        to end. */
    lemma GroupKilledFirst(i: nat, j: nat) returns (t: nat, k: nat)
      requires Valid() && i < |trace| && j < |trace| && trace[i].Go? && trace[j] == Reap
      ensures i < t < k < j && trace[t].Term? && trace[t].group && trace[k].Kill? && trace[k].group
      ensures trace[k].at >= trace[t].at + 100
    {
      hide Queue, Flow, Results, Framed, Input;
      t, k := 1, 2;
    }

    /** Nothing is sent to a reaped job, and nothing happens twice. */
    lemma NothingAfterReaping(i: nat, j: nat)
      requires Valid() && i < j < |trace|
      ensures trace[i] != Reap
      ensures trace[i].Term? ==> !trace[j].Term?
      ensures trace[i].Kill? ==> !trace[j].Kill? && !trace[j].Term?
    {
      hide Queue, Flow, Results, Framed, Input;
    }

    /** The queue has always room for one more chunk and the result, and the pipe to the parent carries a first part
        of whole packets with at most one result, the last. The log of both directions holds exactly the whole frames of
        the bytes heard and the packets; at most four data packets are ahead of the acknowledgements accepted in it. */
    lemma WellFormedOutput()
      requires Valid()
      ensures queued <= CAP && written <= Stream(packets)
      ensures forall i :: 0 <= i < |packets| && !packets[i].Data? ==> i == |packets| - 1
      ensures FramesOf(log) == Chunks(heard) && PacketsOf(log) == packets
      ensures credits <= CREDITS && credits + DataCount(packets) == CREDITS + Accepted(log)
      ensures Accepted(log) <= |heard| / 5
      ensures Bound(Standing(), Decided(log))
    {
      hide Stream, DataCount, Story, Chunks, FramesOf, PacketsOf, Accepted, Decided;
      AcceptedFrames(log);
      ChunkCount(heard);
      var rest := queue[..queued];
      assert written + rest == Stream(packets);
    }

    /** A run that ends in its own exit or at its deadline has passed on everything it read. */
    lemma NothingWithheld()
      requires Valid() && HasResult(packets) && packets[|packets| - 1] != Cancelled
      ensures Output(packets) == read && outputEof
    {
      hide Story;
    }
  }
}
