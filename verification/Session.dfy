/** The session: one writer, one input credit, one terminal behind the guard's handshake. */
module Session {
  import opened Bytes
  import opened Protocol
  import opened Ledger
  import opened Arrivals
  import Clipboard
  import opened World
  import Frame
  import Framer
  import FrameCodec
  import Input
  import InputBuffer
  import InputPaste
  import InputStream
  import Pastes
  import Tty

  const BUFFER: nat := 4096

  /** Two arrows up, and two down. */
  const TWO_UPS: seq<byte> := [0x1b, 0x5b, 0x41, 0x1b, 0x5b, 0x41]
  const TWO_DOWNS: seq<byte> := [0x1b, 0x5b, 0x42, 0x1b, 0x5b, 0x42]

  /** `CSI ? u`, then `CSI c`. */
  const KEYBOARD_QUERY: seq<byte> := [0x1b, 0x5b, 0x3f, 0x75, 0x1b, 0x5b, 0x63]

  datatype Reason = Protocol | Initialization | Drawing | Reading | Writing | Restoration

  function Code(reason: Reason): (n: nat)
    ensures 1 <= n <= 6
  {
    match reason
    case Protocol => 1
    case Initialization => 2
    case Drawing => 3
    case Reading => 4
    case Writing => 5
    case Restoration => 6
  }

  datatype Outcome = Fine | Fault(reason: Reason) {
    predicate IsFailure() {
      Fault?
    }

    function PropagateFailure(): Outcome
      requires Fault?
    {
      this
    }
  }

  datatype Fetched = Nothing | Got(count: nat) | Broken

  /** The terminal's size: never zero, or an error. */
  method WindowSize() returns (r: Option<(nat, nat)>)
    ensures r.Some? ==> Size(r.value.0, r.value.1)
  {
    var columns := AnyCount();
    var rows := AnyCount();
    return if Size(columns, rows) then Some((columns, rows)) else None;
  }

  predicate SizeOk(d: (nat, nat)) {
    Size(d.0, d.1)
  }

  class Session {
    const guard: Tty.Guard
    const parser: Input.InputParser
    const input: array<byte>
    /** The session runs inside tmux. */
    const tmux: bool
    var generation: Option<nat>
    var flags: nat
    var active: bool
    var externallySuspended: bool
    var awaitingResume: bool
    var token: nat
    var sequence: nat
    var credit: Option<nat>
    /** The painter retains a screen. */
    var painted: bool
    var start: nat
    var end: nat
    /** A standalone Escape is waiting since some time. */
    var escape: bool
    var dimensions: (nat, nat)
    var pendingResize: Option<(nat, nat)>
    var cooked: nat
    var probe: bool
    var probed: bool
    var kittySeen: bool
    var enhanced: bool
    var title: Option<seq<byte>>
    var titleSaved: bool
    var pendingScroll: Option<Input.Event>

    /** Credits and packets in order; what arrived from the terminal and its raw bytes; whether every credit waited for
        Ready. */
    ghost var trace: seq<Entry>
    ghost var probes: seq<Probed>
    ghost var items: seq<Item>
    ghost var fetched: seq<byte>
    ghost var polite: bool

    // ----- What always holds -----

    ghost predicate Buffered()
      reads this`start, this`end, this`escape, parser
    {
      && input.Length == BUFFER && start <= end <= BUFFER && parser.Valid()
      && (escape ==> parser.state == Input.Escaped)
    }

    ghost predicate Flagged()
      reads this`flags, guard, guard.tty
    {
      Tty.InitFlags(flags) && Tty.InitFlags(guard.tty.flags)
    }

    /** Whatever waits can be sent. */
    ghost predicate Sendable()
      reads this`pendingScroll, this`generation, this`pendingResize
    {
      && (pendingScroll.Some? ==> GoodEvent(pendingScroll.value) && Admitted(pendingScroll.value))
      && (generation.Some? ==> Word(generation.value))
      && (pendingResize.Some? ==> SizeOk(pendingResize.value))
    }

    ghost predicate Shape()
      reads this`start, this`end, this`flags, this`escape, this`pendingScroll
      reads this`generation, this`pendingResize, parser, guard, guard.tty
    {
      Buffered() && Flagged() && Sendable()
    }

    ghost predicate Account()
      reads this`trace, this`credit, this`token, this`sequence
    {
      && Lawful(trace) && Outstanding(trace) == credit
      && GrantsBelow(trace, token + 1) && SettledBelow(trace, sequence + 1)
      && (credit.Some? ==> Word(credit.value))
    }

    /** For an owner whose credits wait for Ready: nothing that arrived is lost, doubled or out of order. */
    ghost predicate Fed()
      reads this`polite, this`probes, this`items, this`fetched, this`trace, this`pendingScroll, this`start, this`end
      reads this`cooked, input, parser
    {
      && input.Length == BUFFER && start <= end <= BUFFER && parser.Valid()
      && (polite ==>
            && Raw(probes, items) == fetched && Tallied(probes, items, trace, cooked)
            && Conserved(probes, items, Events(trace), pendingScroll, parser.Value(), input[start..end]))
    }

    ghost predicate Balance()
      reads this`titleSaved, guard, guard.tty, guard.tty.console
    {
      && guard.tty.Balanced()
      && (guard.tty.console.steady ==> guard.tty.console.modes.titles == if titleSaved then 1 else 0)
    }

    ghost predicate Core()
      reads this, input, parser, guard, guard.tty, guard.tty.console
    {
      Shape() && Account() && Fed() && Balance()
    }

    // ----- What holds between steps -----

    /** The session and the owner of the modes agree. */
    ghost predicate Agree()
      reads this`active, this`enhanced, this`flags, this`probe, this`titleSaved, guard, guard.tty, guard.tty.console
    {
      && active == guard.tty.active && (titleSaved ==> active)
      && (active ==> guard.tty.flags == flags)
      && (active && enhanced ==> guard.tty.kitty)
      && (guard.tty.kitty ==> active && !probe)
      && (guard.linked && guard.tty.console.steady ==> guard.tty.kitty == (active && enhanced))
    }

    /** Nothing has arrived yet but what the probe kept. */
    ghost predicate Untouched()
      reads this`credit, this`pendingScroll, this`items, this`trace, this`probes, this`start, this`end, parser, input
    {
      && input.Length == BUFFER && start <= end <= BUFFER
      && credit == None && pendingScroll == None && parser.Value() == Input.START
      && items == [] && Events(trace) == [] && input[start..end] == Typeahead(probes)
    }

    /** A credit and a waiting wheel event are for an active session, and behind a barrier there is none. */
    ghost predicate Credited()
      reads this`credit, this`trace, this`active, this`pendingScroll
    {
      (credit.Some? || pendingScroll.Some? ==> active) && (Barred(trace) ==> !active)
    }

    ghost predicate Phase()
      reads this`active, this`awaitingResume, this`externallySuspended, this`generation, this`dimensions, this`probed
      reads this`flags, this`probe, this`enhanced
    {
      && (active || awaitingResume || externallySuspended ==> generation.Some?)
      && (awaitingResume || externallySuspended ==> !active)
      && (active ==> SizeOk(dimensions))
      && (generation.Some? ==> probed || !Tty.Bit(flags, 1))
      && (probe ==> active && probed && !enhanced) && (enhanced ==> probed)
      && (generation.None? ==> !active && !enhanced)
    }

    /** Before the first Ready of a probed session, and before Init, nothing was fed or sent. */
    ghost predicate Waiting()
      reads this`credit, this`trace, this`generation, this`probe, this`polite, this`pendingScroll, this`items
      reads this`probes, this`start, this`end, input, parser
    {
      && (probe && polite ==> Untouched())
      && (generation.None? ==> Untouched() && trace == [])
    }

    ghost predicate Order()
      reads this`credit, this`trace, this`active, this`awaitingResume, this`externallySuspended, this`generation
      reads this`dimensions, this`probed, this`flags, this`probe, this`enhanced, this`polite, this`pendingScroll
      reads this`items, this`probes, this`start, this`end, input, parser
    {
      Credited() && Phase() && Waiting()
    }

    ghost predicate Valid()
      reads this, input, parser, guard, guard.tty, guard.tty.console
    {
      Core() && Agree() && Order()
    }

    constructor (guard: Tty.Guard, tmux: bool)
      requires guard.tty.Balanced() && !guard.tty.active && !guard.tty.kitty && guard.linked
      requires guard.tty.console.steady && guard.tty.console.modes.titles == 0
      ensures Valid() && this.guard == guard && fresh(parser) && fresh(input)
      ensures trace == [] && fetched == [] && polite
    {
      this.guard, this.tmux := guard, tmux;
      parser := new Input.InputParser();
      input := new byte[BUFFER](_ => 0);
      generation, flags, active, externallySuspended, awaitingResume := None, 0, false, false, false;
      token, sequence, credit, painted, start, end, escape := 0, 0, None, false, 0, 0, false;
      dimensions, pendingResize, cooked := (0, 0), None, 0;
      probe, probed, kittySeen, enhanced, title, titleSaved, pendingScroll := false, false, false, false, None, false, None;
      trace, probes, items, fetched, polite := [], [], [], [], true;
      new;
      hide Shape, Account, Fed, Balance, Agree, Order, Input.Parser.Valid;
      StartsShaped();
      StartsAccounted();
      StartsFed();
      StartsAgreed();
    }

    lemma StartsShaped()
      requires input.Length == BUFFER && start == end == 0 && !escape && !painted && flags == 0
      requires pendingScroll.None? && generation.None? && pendingResize.None? && parser.Value() == Input.START
      requires Tty.InitFlags(guard.tty.flags)
      ensures Shape()
    {
      StartValid();
    }

    lemma StartsAccounted()
      requires trace == [] && credit.None?
      ensures Account()
    {
      NothingSent();
    }

    lemma StartsFed()
      requires input.Length == BUFFER && start == end == 0 && parser.Value() == Input.START && cooked == 0
      requires trace == [] && probes == [] && items == [] && fetched == [] && pendingScroll.None? && credit.None?
      requires !active && !probe && !enhanced && generation.None? && !awaitingResume && !externallySuspended
      ensures Fed() && Order()
    {
      hide Conserved, Tallied, Raw, Typeahead, Input.Parser.Valid, Barred, Events;
      StartValid();
      NothingSent();
      assert input[start..end] == [];
      NothingArrived(input[start..end]);
    }

    lemma StartsAgreed()
      requires guard.tty.Balanced() && !guard.tty.active && !guard.tty.kitty && guard.tty.console.modes.titles == 0
      requires !active && !titleSaved && !enhanced
      ensures Balance() && Agree()
    {
      hide Tty.Bit, Tty.Chosen;
    }

    // ----- Sending -----

    /** Every packet goes through here. */
    method Send(packet: Packet) returns (r: Outcome)
      requires Account() && May(trace, Sent(packet)) && !Spends(Sent(packet))
      requires Settles(Sent(packet)) ==> packet.sequence <= sequence
      modifies this`trace
      ensures Account() && trace == old(trace) + [Sent(packet)]
      ensures Events(trace) == Events(old(trace)) && (old(Fed()) ==> Fed()) && (old(Untouched()) ==> Untouched())
      ensures Barred(trace) <==> Closes(Sent(packet)) || (!Opens(Sent(packet)) && Barred(old(trace)))
    {
      hide Lawful, May, Outstanding, Barred, Events, Conserved, Raw, Tallied;
      Append(trace, Sent(packet));
      AppendEffects(trace, Sent(packet));
      TalliedOn(probes, items, trace, trace + [Sent(packet)], cooked);
      trace := trace + [Sent(packet)];
      assert Events(old(trace)) + [] == Events(old(trace));
      var written := Happens();
      return if written then Fine else Fault(Writing);
    }

    /** The credit goes out with the packet that spends it. */
    method Spend(packet: Packet) returns (r: Outcome)
      requires Account() && credit.Some? && !Barred(trace) && GoodPacket(packet)
      requires Spends(Sent(packet)) && packet.token == credit.value
      modifies this`trace, this`credit
      ensures Account() && trace == old(trace) + [Sent(packet)] && credit == None
      ensures Events(trace) == Events(old(trace)) + if packet.InputEvent? then [packet.event] else []
      ensures !Barred(trace)
    {
      hide Lawful, Outstanding, Barred, Events, GoodPacket;
      Append(trace, Sent(packet));
      AppendEffects(trace, Sent(packet));
      trace := trace + [Sent(packet)];
      credit := None;
      var written := Happens();
      return if written then Fine else Fault(Writing);
    }

    /** Encodes and sends one input event under the outstanding credit. */
    method SpendOn(event: Input.Event) returns (r: Outcome)
      requires Account() && credit.Some? && !Barred(trace)
      requires generation.Some? && Word(generation.value) && GoodEvent(event) && Admitted(event)
      modifies this`trace, this`credit
      ensures Account() && trace == old(trace) + [Sent(InputEvent(generation.value, old(credit).value, event))]
      ensures credit == None && !Barred(trace) && Events(trace) == Events(old(trace)) + [event]
    {
      hide Lawful, Outstanding, Barred, Events, GoodEvent;
      var token := credit.value;
      var packet := EncodeEvent(generation.value, token, event);
      if packet.None? {
        return Fault(Protocol);
      }
      r := Spend(InputEvent(generation.value, token, event));
    }

    /** Ready: the terminal is the session's again. */
    method Ready() returns (r: Outcome)
      requires Account() && Tty.InitFlags(flags) && generation.Some? && Word(generation.value) && SizeOk(dimensions)
      modifies this`trace
      ensures Account() && !Barred(trace) && Events(trace) == Events(old(trace)) && (old(Fed()) ==> Fed())
      ensures trace == old(trace) + [Sent(Protocol.Ready(generation.value, dimensions.0, dimensions.1, ReadyFlags()))]
    {
      hide Fed, Tty.Bit;
      WithEnhanced(flags);
      r := Send(Protocol.Ready(generation.value, dimensions.0, dimensions.1, ReadyFlags()));
    }

    /** The flags, and whether enhanced keys are on. */
    function ReadyFlags(): nat
      reads this
    {
      flags + if enhanced then ENHANCED_KEYS else 0
    }

    ghost function Announcement(): Entry
      reads this
    {
      Sent(Protocol.Ready(if generation.Some? then generation.value else 0, dimensions.0, dimensions.1, ReadyFlags()))
    }

    // ----- Titles -----

    /** The writes of a title: the terminal's own is saved first, and only once. */
    ghost function TitleOps(text: seq<byte>): seq<Tty.Op>
      reads this`titleSaved
    {
      (if titleSaved then [] else [Tty.SaveTitle]) + [Tty.Put(NotifyBytes(Title, text))]
    }

    /** The console took these writes, or a first part of them and the painter forgets the screen. */
    ghost predicate Wrote(before: seq<Tty.Op>, ops: seq<Tty.Op>)
      reads this`painted, guard.tty.console
    {
      guard.tty.console.log == before + ops || (before <= guard.tty.console.log <= before + ops && !painted)
    }

    /** A window title, the terminal's own saved first. */
    method WriteTitle(text: seq<byte>)
      requires Balance() && active
      modifies this`titleSaved, this`painted, guard.tty.console
      ensures Balance() && (guard.tty.console.steady ==> old(guard.tty.console.steady)) && (old(Agree()) ==> Agree())
      ensures painted ==> old(painted)
      ensures Wrote(old(guard.tty.console.log), old(TitleOps(text)))
      ensures titleSaved <==> old(titleSaved) || guard.tty.console.log == old(guard.tty.console.log + TitleOps(text))
    {
      ghost var before, ops := guard.tty.console.log, TitleOps(text);
      var io := Done;
      if !titleSaved {
        io := guard.tty.console.Write(Tty.SaveTitle);
      }
      if io.Done? {
        io := guard.tty.console.Write(Tty.Put(NotifyBytes(Title, text)));
      }
      if io.Done? {
        titleSaved := true;
        assert guard.tty.console.log == before + ops;
      } else {
        painted := false;
        assert before + [Tty.SaveTitle] <= before + ops || before == guard.tty.console.log;
      }
    }

    /** The terminal's own title back; a failed write is not retried. */
    method RestoreTitle()
      requires Balance()
      modifies this`titleSaved, guard.tty.console
      ensures Balance() && !titleSaved && (guard.tty.console.steady ==> old(guard.tty.console.steady))
    {
      if titleSaved {
        titleSaved := false;
        var io := guard.tty.console.Write(Tty.RestoreTitle);
      }
    }

    /** Output between frames that moves no mode. */
    method Interject(bytes: seq<byte>)
      requires Balance()
      modifies this`painted, guard.tty.console
      ensures Balance() && (guard.tty.console.steady ==> old(guard.tty.console.steady)) && (old(Agree()) ==> Agree())
      ensures painted ==> old(painted)
      ensures Wrote(old(guard.tty.console.log), [Tty.Put(bytes)])
    {
      var io := guard.tty.console.Write(Tty.Put(bytes));
      if io.Failed? {
        painted := false;
      }
    }

    // ----- Activation and suspension -----

    /** A request to the owner of the modes, one that keeps its account. */
    method Ask(request: byte) returns (io: Io)
      requires Balance() && Tty.InitFlags(guard.tty.flags) && Tty.Orderly(guard.Owned(), request)
      modifies guard, guard.tty, guard.tty.console
      ensures Balance() && Tty.InitFlags(guard.tty.flags)
      ensures io.Done? ==> guard.linked == old(guard.linked) && guard.tty.console.steady == old(guard.tty.console.steady)
      ensures io.Done? ==>
        Tty.Serviceable(old(guard.Owned()), request) && guard.Owned() == Tty.Served(old(guard.Owned()), request)
      ensures guard.tty.console.steady ==> old(guard.tty.console.steady)
      ensures guard.linked ==> old(guard.linked)
      ensures request == Tty.KITTY_PUSH ==>
        guard.tty.active == old(guard.tty.active) && guard.tty.flags == old(guard.tty.flags)
      ensures io.Failed? && guard.linked && guard.tty.console.steady ==>
        old(guard.linked && guard.tty.console.steady)
        && !Tty.Serviceable(old(guard.Owned()), request) && guard.Owned() == old(guard.Owned())
    {
      hide Tty.Bit, Tty.Chosen, Tty.WithMouse, Tty.Tty.Balanced, Tty.Serviceable, Tty.Served, Tty.Orderly;
      io := guard.Ask(request);
    }

    /** The bytes that are queued at this moment were typed before the terminal was raw. */
    method CountTypeahead()
      requires Fed() && pendingScroll.None?
      modifies this`cooked, this`probes, this`items
      ensures Fed() && (old(Untouched()) ==> Untouched()) && Retaken(old(items), items)
    {
      hide Conserved, Raw, Events, Typeahead, Tallied, Input.Parser.Valid;
      var count := AnyCount();
      if polite && items == [] {
        TalliedBegan(probes, trace, cooked, count);
        ProbeBegan(probes, Events(trace), parser.Value(), input[start..end], count);
        probes := probes + [Began(count)];
      } else if polite {
        TalliedItem(probes, items, trace, cooked, Taken(count));
        TakenAnew(probes, items, Events(trace), parser.Value(), input[start..end], count);
        items := items + [Taken(count)];
      }
      cooked := count;
    }

    lemma NotRetaken()
      ensures Retaken(items, items)
    {
    }

    /** The guard's modes: the terminal is the session's, and nothing painted is left on it. */
    method Own() returns (io: Io)
      requires Balance() && Agree() && !active && Tty.InitFlags(flags) && Tty.InitFlags(guard.tty.flags)
      modifies this`active, this`painted, guard, guard.tty, guard.tty.console
      ensures Balance() && Tty.InitFlags(guard.tty.flags) && (painted ==> old(painted))
      ensures active == io.Done? && (active ==> !painted)
      ensures io.Done? ==> guard.Owned() == Tty.Ownership(true, flags, false)
    {
      hide Balance, Tty.Bit, Tty.WithMouse, Tty.InitFlags;
      Requests(flags);
      io := Ask(flags);
      active := io.Done?;
      if io.Done? {
        painted := false;
      }
    }

    /** Takes the terminal: the guard's modes and the size. */
    method Claim() returns (r: Outcome)
      requires Balance() && Agree() && !active && Tty.InitFlags(flags) && Tty.InitFlags(guard.tty.flags)
      requires Fed() && pendingScroll.None?
      modifies this`active, this`cooked, this`painted, this`dimensions, this`pendingResize, this`escape
      modifies this`probes, this`items, guard, guard.tty, guard.tty.console
      ensures Fed() && (old(Untouched()) ==> Untouched()) && Retaken(old(items), items)
      ensures Balance() && Tty.InitFlags(guard.tty.flags) && (painted ==> old(painted))
      ensures escape ==> old(escape) || parser.state == Input.Escaped
      ensures pendingResize.None? || pendingResize == old(pendingResize)
      ensures r.Fine? ==> active && SizeOk(dimensions) && guard.Owned() == Tty.Ownership(true, flags, false)
      ensures r.Fine? ==> pendingResize.None? && (escape <==> parser.state == Input.Escaped)
      ensures active ==> !painted
      ensures r.Fault? ==> r.reason == Initialization
    {
      hide Balance, Agree, Tty.InitFlags, Fed, Untouched, Retaken;
      NotRetaken();
      var io := Own();
      if io.Failed? {
        return Fault(Initialization);
      }
      CountTypeahead();
      var size := WindowSize();
      if size.None? {
        return Fault(Initialization);
      }
      dimensions, pendingResize := size.value, None;
      escape := parser.state == Input.Escaped;
      return Fine;
    }

    /** A resume pushes the keyboard mode the probe found again and puts the session's title back. */
    method Dress() returns (r: Outcome)
      requires Balance() && active && guard.Owned() == Tty.Ownership(true, flags, false) && !probe && Tty.InitFlags(flags)
      modifies this`titleSaved, this`painted, guard, guard.tty, guard.tty.console
      ensures Balance() && Tty.InitFlags(guard.tty.flags) && (painted ==> old(painted))
      ensures r.Fine? ==> Agree() && (!enhanced ==> !guard.tty.kitty)
    {
      hide Balance, Tty.Bit, Tty.WithMouse, Tty.InitFlags;
      Requests(flags);
      if enhanced {
        var io := Ask(Tty.KITTY_PUSH);
        if io.Failed? {
          return Fault(Initialization);
        }
      }
      if title.Some? {
        WriteTitle(title.value);
      }
      return Fine;
    }

    /** Once, on the alternate screen: asks whether the keyboard protocol is there. */
    method AskKeyboard() returns (asked: bool)
      requires Balance() && Agree() && !probe && active && (probed || !enhanced) && (!enhanced ==> !guard.tty.kitty)
      modifies this`probed, this`probe, guard.tty.console
      ensures Balance() && Agree() && asked == probe && probed == (old(probed) || Tty.Bit(flags, 1))
      ensures asked ==> !old(probed) && Tty.Bit(flags, 1)
    {
      hide Tty.Bit, Tty.InitFlags;
      if probed || !Tty.Bit(flags, 1) {
        return false;
      }
      probed := true;
      var io := guard.tty.console.Write(Tty.Put(KEYBOARD_QUERY));
      asked := io.Done?;
      probe := asked;
    }

    /** The terminal is the session's, and the keyboard asked about the first time. */
    method Occupy() returns (r: Outcome)
      requires Balance() && Agree() && !active && !probe && Tty.InitFlags(flags) && Tty.InitFlags(guard.tty.flags)
      requires (probed || !enhanced) && Fed() && pendingScroll.None?
      modifies this`active, this`cooked, this`painted, this`dimensions, this`pendingResize, this`escape
      modifies this`probes, this`items
      modifies this`titleSaved, this`probed, this`probe, guard, guard.tty, guard.tty.console
      ensures Fed() && (old(Untouched()) ==> Untouched()) && Retaken(old(items), items)
      ensures Balance() && Tty.InitFlags(guard.tty.flags) && (painted ==> old(painted))
      ensures escape ==> old(escape) || parser.state == Input.Escaped
      ensures pendingResize.None? || pendingResize == old(pendingResize)
      ensures r.Fine? ==> Agree() && active && SizeOk(dimensions) && probed == (old(probed) || Tty.Bit(flags, 1))
      ensures r.Fine? && probe ==> !old(probed) && Tty.Bit(flags, 1)
    {
      hide Balance, Tty.Bit, Tty.InitFlags, Agree, Input.Parser.Valid, Fed, Untouched, Retaken;
      r := Claim();
      if r.Fine? {
        r := Dress();
      }
      if r.Fine? {
        var asked := AskKeyboard();
      }
    }

    /** The terminal taken, with everything else as it was. */
    method Seize() returns (r: Outcome)
      requires Core() && Agree() && !active && generation.Some? && !probe
      requires !awaitingResume && !externallySuspended && (enhanced ==> probed) && pendingScroll.None?
      modifies this`active, this`cooked, this`painted, this`dimensions, this`pendingResize, this`escape
      modifies this`probes, this`items
      modifies this`titleSaved, this`probed, this`probe, guard, guard.tty, guard.tty.console
      ensures Core() && (r.Fine? ==> Agree() && Phase() && active)
      ensures (old(Untouched()) ==> Untouched()) && Retaken(old(items), items)
      ensures r.Fine? && probe ==> !old(probed) && Tty.Bit(flags, 1)
    {
      hide Account, Fed, Balance, Agree, Tty.InitFlags, GoodEvent, Admitted, Input.Parser.Valid, Untouched;
      hide Retaken, Word;
      r := Occupy();
    }

    /** Taking the terminal starts the probe the first time; otherwise it is Ready at once. */
    method Activate() returns (r: Outcome)
      requires Core() && Agree() && !active && credit.None? && pendingScroll.None? && generation.Some? && !probe
      requires !awaitingResume && !externallySuspended
      requires (probed || !Tty.Bit(flags, 1) || Untouched()) && (enhanced ==> probed)
      requires Barred(trace) ==> probed || !Tty.Bit(flags, 1)
      modifies this`active, this`cooked, this`painted, this`dimensions, this`pendingResize, this`escape
      modifies this`probes, this`items
      modifies this`titleSaved, this`probed, this`probe, this`trace, guard, guard.tty, guard.tty.console
      ensures Core() && (r.Fine? ==> Valid() && active) && Retaken(old(items), items)
      ensures old(trace) <= trace && (r.Fine? ==> !Barred(trace))
      ensures r.Fine? ==> trace == old(trace) + if probe then [] else [Announcement()]
      ensures r.Fine? && probe ==> !old(probed) && Tty.Bit(flags, 1)
    {
      hide Account, Fed, Balance, Untouched, Barred, Agree, Buffered, Tty.Bit, Tty.InitFlags, GoodEvent, Admitted;
      hide Retaken;
      r := Seize();
      assert trace + [] == trace;
      if r.Fine? && !probe {
        r := Ready();
      }
    }

    /** Gives the terminal up: the credit is withdrawn first, and only a waiting wheel event is lost. */
    method Suspend() returns (r: Outcome)
      requires Core() && Agree()
      modifies this`credit, this`trace, this`escape, this`probe, this`pendingScroll, this`items, this`titleSaved
      modifies this`active, this`painted, guard, guard.tty, guard.tty.console
      ensures Core() && credit.None? && pendingScroll.None? && !probe && !titleSaved
      ensures trace == old(trace) + [Revoked] && Events(trace) == Events(old(trace)) && Barred(trace) == Barred(old(trace))
      ensures polite ==> items == Dropping(old(items), old(pendingScroll), |old(trace)|)
      ensures r.Fine? ==> Agree() && !active
    {
      hide Sendable;
      hide Account, Fed, Balance, Agree, Barred, Tty.InitFlags, Events, Dropping, GoodEvent, Admitted;
      hide Input.InputParser.Valid, Input.Parser.Valid;
      Withdraw();
      r := Release();
    }

    /** The title and the modes back to the shell. */
    method Release() returns (r: Outcome)
      requires Balance() && Agree() && Tty.InitFlags(guard.tty.flags) && Tty.InitFlags(flags)
      modifies this`escape, this`probe, this`titleSaved, this`active, this`painted, guard, guard.tty, guard.tty.console
      ensures Balance() && Tty.InitFlags(guard.tty.flags) && !escape && !probe && !titleSaved && (painted ==> old(painted))
      ensures r.Fine? ==> Agree() && !active && !painted
      ensures r.Fault? ==> r.reason == Restoration
    {
      hide Balance, Tty.Bit, Tty.WithMouse, Tty.InitFlags;
      escape, probe := false, false;
      RestoreTitle();
      Requests(flags);
      var io := Ask(Tty.RESTORE);
      if io.Failed? {
        return Fault(Restoration);
      }
      active, painted := false, false;
      return Fine;
    }

    /** No credit, and no wheel event waiting for one. */
    method Withdraw()
      requires Shape() && Account() && Fed()
      modifies this`credit, this`trace, this`pendingScroll, this`items
      ensures Shape() && Account() && Fed() && credit.None? && pendingScroll.None?
      ensures trace == old(trace) + [Revoked] && Events(trace) == Events(old(trace)) && Barred(trace) == Barred(old(trace))
      ensures polite ==> items == Dropping(old(items), old(pendingScroll), |old(trace)|)
    {
      hide Account, Raw, Barred, Events, Typeahead, Conserved, Dropping, GoodEvent, Admitted, Tallied;
      hide Input.Parser.Valid, Tty.InitFlags;
      DropWaiting();
      Revoke();
    }

    /** A waiting wheel event is taken away by the withdrawal that comes next. */
    method DropWaiting()
      requires Fed()
      modifies this`pendingScroll, this`items
      ensures pendingScroll.None? && (polite ==> items == Dropping(old(items), old(pendingScroll), |trace|))
      ensures polite ==>
        Raw(probes, items) == fetched && Tallied(probes, items, trace + [Revoked], cooked)
        && Conserved(probes, items, Events(trace), None, parser.Value(), input[start..end])
    {
      hide Raw, Events, Typeahead, Conserved, Dropping, Tallied, Input.Parser.Valid;
      if polite {
        Suspended(probes, items, Events(trace), pendingScroll, parser.Value(), input[start..end], |trace|);
        TalliedDrop(probes, items, trace, cooked, pendingScroll, parser.Value(), input[start..end]);
        items := Dropping(items, pendingScroll, |trace|);
      }
      pendingScroll := None;
    }

    method Revoke()
      requires Account()
      modifies this`credit, this`trace
      ensures Account() && credit.None? && trace == old(trace) + [Revoked]
      ensures Events(trace) == Events(old(trace)) && Barred(trace) == Barred(old(trace))
    {
      hide Lawful, Outstanding, Barred, Events;
      Append(trace, Revoked);
      AppendEffects(trace, Revoked);
      assert Events(trace) + [] == Events(trace);
      trace := trace + [Revoked];
      credit := None;
    }

    // ----- Reading the terminal -----

    /** Up to a whole buffer from index `lo` on; `raw` is what came. */
    method Fetch(lo: nat) returns (t: Fetched, ghost raw: seq<byte>)
      requires lo <= input.Length == BUFFER
      modifies input, this`fetched
      ensures t.Got? ==> lo + t.count <= BUFFER && input[lo..lo + t.count] == raw && |raw| == t.count
      ensures !t.Got? ==> raw == []
      ensures input[..lo] == old(input[..lo]) && fetched == old(fetched) + raw
    {
      var broken := Happens();
      var idle := Happens();
      var data := AnyBytes(BUFFER - lo);
      if broken || idle {
        return if broken then Broken else Nothing, [];
      }
      Fill(lo, data);
      return Got(|data|), data;
    }

    /** Bytes arrive in the buffer. */
    method Fill(lo: nat, data: seq<byte>)
      requires lo + |data| <= input.Length
      modifies input, this`fetched
      ensures input[..lo] == old(input[..lo]) && input[lo..lo + |data|] == data && fetched == old(fetched) + data
    {
      var n := |data|;
      for i := 0 to n
        invariant input[..lo] == old(input[..lo]) && input[lo..lo + i] == data[..i]
        modifies input
      {
        input[lo + i] := data[i];
      }
      assert data[..n] == data;
      fetched := fetched + data;
    }

    /** What is buffered moves to the front. */
    method Compact()
      requires input.Length == BUFFER && start <= end <= BUFFER
      modifies this`start, this`end, input
      ensures start == 0 && end == old(end) - old(start) && input[..end] == old(input[start..end])
    {
      ghost var kept := input[start..end];
      var n := end - start;
      for i := 0 to n
        invariant input[..i] == kept[..i]
        invariant forall k :: start + i <= k < end ==> input[k] == kept[k - start]
        modifies input
      {
        input[i] := input[start + i];
      }
      start, end := 0, n;
    }

    /** More typeahead behind what is buffered, line feeds typed under cooked input as Enter. */
    method Absorb() returns (t: Fetched, ghost raw: seq<byte>)
      requires input.Length == BUFFER && start == 0 && end < BUFFER
      modifies this`end, this`cooked, this`fetched, input
      ensures end <= BUFFER && fetched == old(fetched) + raw && (t.Broken? ==> raw == [])
      ensures cooked == Left(old(cooked), |raw|)
      ensures input[..end] == old(input[..end]) + InputBuffer.Entered(raw, old(cooked))
    {
      Arrivals.NothingEntered(cooked);
      t, raw := Fetch(end);
      if t.Got? {
        ghost var front := input[..end];
        cooked := InputBuffer.TypeaheadEnter(input, end, end + t.count, cooked);
        end := end + t.count;
        assert input[..end] == front + InputBuffer.Entered(raw, old(cooked));
      }
    }

    /** Compacts, reads and cuts the complete answers out. */
    method Winnow() returns (ok: bool, found: InputBuffer.Found, finished: bool, ghost raw: seq<byte>)
      requires input.Length == BUFFER && start <= end <= BUFFER
      modifies this`start, this`end, this`cooked, this`fetched, input
      ensures start <= end <= BUFFER && fetched == old(fetched) + raw
      ensures !ok ==> input[start..end] == old(input[start..end]) && fetched == old(fetched) && cooked == old(cooked)
      ensures ok ==> cooked == Left(old(cooked), |raw|)
      ensures ok ==> (input[start..end], found) == Sifted(old(input[start..end]), raw, old(cooked))
    {
      hide InputBuffer.WithoutReplies, InputBuffer.Entered;
      found := InputBuffer.NOTHING_FOUND;
      finished := Happens();
      Compact();
      raw := [];
      Arrivals.NothingEntered(cooked);
      ghost var before := input[..end];
      assert before + [] == before;
      if end < BUFFER {
        var t;
        t, raw := Absorb();
        if t.Broken? {
          assert input[start..end] == before;
          assert old(fetched) + [] == old(fetched);
          return false, found, finished, [];
        }
        finished := finished || t == Got(0);
      } else {
        finished := true;
      }
      var kept;
      kept, found := InputBuffer.TakeProbeReplies(input, end);
      end := kept;
      assert input[start..end] == input[..kept];
      ok := true;
    }

    /** One step of the probe over the buffer: the typeahead stays in order, complete answers go. */
    method Sift() returns (r: Outcome, found: InputBuffer.Found, finished: bool, ghost raw: seq<byte>)
      requires Shape() && Fed() && (polite ==> Untouched())
      modifies this`start, this`end, this`cooked, this`probes, this`fetched, input
      ensures Shape() && Fed() && (polite ==> Untouched())
      ensures fetched == old(fetched) + raw
      ensures r.Fine? ==> (input[start..end], found) == Sifted(old(input[start..end]), raw, old(cooked))
      ensures r.Fault? ==> r.reason == Reading && raw == [] && input[start..end] == old(input[start..end])
    {
      hide Conserved, Raw, Events, Typeahead, Input.Parser.Valid, GoodEvent, Admitted, Sifted, Tty.InitFlags;
      hide Tallied, Left, Cooked, Chained;
      ghost var before, under := input[start..end], cooked;
      var ok;
      ok, found, finished, raw := Winnow();
      if !ok {
        assert fetched + [] == fetched;
        return Fault(Reading), found, finished, [];
      }
      r := Fine;
      if polite {
        TalliedCount(probes, items, trace, under);
        Note(raw, under, before);
      }
    }

    /** Keeps the account of a step of the probe. */
    ghost method Note(raw: seq<byte>, under: nat, before: seq<byte>)
      requires input.Length == BUFFER && start <= end <= BUFFER && parser.Valid()
      requires credit == None && pendingScroll == None && parser.Value() == Input.START && items == []
      requires Events(trace) == [] && before == Typeahead(probes) && fetched == Raw(probes, []) + raw
      requires input[start..end] == Sifted(before, raw, under).0 && Conserved(probes, [], [], None, Input.START, before)
      requires under == Cooked(probes, []) && cooked == Left(under, |raw|)
      modifies this`probes
      ensures Fed() && Untouched()
    {
      hide Conserved, Raw, Events, Typeahead, Input.Parser.Valid, InputBuffer.WithoutReplies, InputBuffer.Entered;
      hide Tallied, Left, Cooked, Chained;
      ConservedChain(probes, before);
      ProbeStepped(probes, raw, under);
      probes := probes + [Probed.Probed(raw, under)];
      TalliedNothing(probes, trace, cooked);
    }

    /** The probe ends with the attributes answer, the time or a full buffer; only then the owner hears Ready. */
    method ProbeStep() returns (r: Outcome)
      requires Valid() && probe
      modifies this`start, this`end, this`cooked, this`probes, this`fetched, this`kittySeen, this`probe, this`enhanced
      modifies this`trace, input, guard, guard.tty, guard.tty.console
      ensures Core() && (r.Fine? ==> Valid()) && old(trace) <= trace
      ensures r.Fine? ==> trace == old(trace) + if probe then [] else [Announcement()]
    {
      hide Valid, Core;
      Probing();
      assert trace + [] == trace;
      var over;
      r, over := ReadAnswers();
      if over {
        r := Conclude();
      }
    }

    /** Reads and sifts; `over` once the attributes were answered, the time is up or the buffer full. */
    method ReadAnswers() returns (r: Outcome, over: bool)
      requires Valid() && probe
      modifies this`start, this`end, this`cooked, this`probes, this`fetched, this`kittySeen, input
      ensures Core() && (r.Fine? ==> Valid()) && (over ==> r.Fine?)
    {
      hide Shape, Account, Fed, Balance, Untouched, Barred, Agree, Credited, Phase, Waiting;
      Probing();
      var found, finished;
      ghost var raw;
      r, found, finished, raw := Sift();
      kittySeen := kittySeen || found.kittyFlags.Some?;
      over := r.Fine? && (found.attributes || finished);
      if r.Fine? {
        StillWaiting();
      }
    }

    lemma Probing()
      requires Valid() && probe
      ensures active && generation.Some? && (polite ==> Untouched())
    {
    }

    lemma StillWaiting()
      requires generation.Some? && (polite ==> Untouched())
      ensures Waiting()
    {
    }

    method Conclude() returns (r: Outcome)
      requires Valid() && probe
      modifies this`probe, this`enhanced, this`trace, guard, guard.tty, guard.tty.console
      ensures Core() && (r.Fine? ==> Valid()) && !probe && old(trace) <= trace
      ensures r.Fine? ==> trace == old(trace) + [Announcement()]
    {
      hide Account, Fed, Balance, Untouched, Barred, Agree, Buffered, Tty.Bit, Tty.InitFlags, GoodEvent, Admitted;
      EndProbe();
      r := Ready();
    }

    method EndProbe()
      requires Valid() && probe
      modifies this`probe, this`enhanced, guard, guard.tty, guard.tty.console
      ensures Core() && Agree() && Phase() && !probe && active
    {
      hide Account, Fed, Balance, Agree, Buffered, Sendable, Tty.Bit, Tty.InitFlags, Waiting, Barred;
      Settle();
    }

    /** The probe is over: the keyboard mode goes on when it was answered and the guard could push it. */
    method Settle()
      requires Balance() && Agree() && probe && active && !enhanced
      requires Tty.InitFlags(flags) && Tty.InitFlags(guard.tty.flags)
      modifies this`probe, this`enhanced, guard, guard.tty, guard.tty.console
      ensures Balance() && Agree() && !probe && Tty.InitFlags(guard.tty.flags)
      ensures !kittySeen ==> !enhanced && unchanged(guard.tty.console)
      ensures enhanced ==> kittySeen && guard.tty.kitty
      ensures kittySeen && guard.linked && guard.tty.console.steady ==> enhanced
    {
      hide Balance, Tty.Bit, Tty.WithMouse, Tty.InitFlags;
      Requests(flags);
      probe := false;
      if kittySeen {
        var io := Ask(Tty.KITTY_PUSH);
        enhanced := io.Done?;
      }
    }

    // ----- Spending the credit -----

    /** One step with the credit: a size first, then a waiting wheel event, then one call of the parser. With the
        credit kept nothing is left waiting. */
    method Deliver() returns (r: Outcome)
      requires Valid() && !probe && active
      modifies this`credit, this`trace, this`pendingResize, this`pendingScroll, this`start, this`escape, parser
      ensures Core() && (r.Fine? ==> Valid()) && old(trace) <= trace
      ensures r.Fine? && credit.Some? ==> pendingScroll.None? && start == end
      ensures old(credit).None? ==>
        r.Fine? && trace == old(trace) && start == old(start) && parser.Value() == old(parser.Value())
      ensures old(credit.Some? && pendingResize.Some?) ==>
        trace == old(trace) + [Sent(Resize(generation.value, old(credit).value, old(pendingResize).value.0,
                                           old(pendingResize).value.1))]
        && start == old(start) && pendingScroll == old(pendingScroll)
      ensures old(credit.Some? && pendingResize.None? && pendingScroll.Some?) ==>
        trace == old(trace) + [Sent(InputEvent(generation.value, old(credit).value, old(pendingScroll).value))]
        && start == old(start) && pendingScroll.None?
    {
      hide Valid, Core;
      ValidCore();
      if credit.None? {
        return Fine;
      }
      OfCredit();
      if pendingResize.Some? {
        r := DeliverSize();
      } else if pendingScroll.Some? {
        r := DeliverScroll();
      } else if start < end {
        r := DeliverParsed();
      } else {
        StartEnd();
        r := Fine;
      }
    }

    lemma StartEnd()
      requires Valid()
      ensures start <= end
    {
    }

    method SpendSize() returns (r: Outcome)
      requires Account() && Fed() && credit.Some? && !Barred(trace) && pendingResize.Some? && SizeOk(pendingResize.value)
      requires generation.Some? && Word(generation.value)
      modifies this`trace, this`credit, this`pendingResize
      ensures Account() && Fed() && credit.None? && pendingResize.None? && !Barred(trace)
      ensures trace == old(trace) + [Sent(Resize(generation.value, old(credit).value, old(pendingResize).value.0,
                                                 old(pendingResize).value.1))]
    {
      hide Lawful, Outstanding, Barred, Events, Conserved, Raw, Input.Parser.Valid, Tallied;
      var size := pendingResize.value;
      pendingResize := None;
      r := Spend(Resize(generation.value, credit.value, size.0, size.1));
      TalliedOn(probes, items, old(trace), trace, cooked);
      assert Events(old(trace)) + [] == Events(old(trace));
    }

    method SpendScroll() returns (r: Outcome)
      requires Account() && Fed() && credit.Some? && !Barred(trace)
      requires generation.Some? && Word(generation.value)
      requires pendingScroll.Some? && GoodEvent(pendingScroll.value) && Admitted(pendingScroll.value)
      modifies this`trace, this`credit, this`pendingScroll
      ensures Account() && Fed() && credit.None? && pendingScroll.None? && !Barred(trace)
      ensures trace == old(trace) + [Sent(InputEvent(generation.value, old(credit).value, old(pendingScroll).value))]
    {
      hide Lawful, Outstanding, Barred, Events, Conserved, Raw, Input.Parser.Valid, GoodEvent, Admitted, Tallied;
      var event := pendingScroll.value;
      if polite {
        ScrollSent(probes, items, Events(trace), event, parser.Value(), input[start..end]);
      }
      pendingScroll := None;
      r := SpendOn(event);
      TalliedOn(probes, items, old(trace), trace, cooked);
    }

    method SpendParsed() returns (r: Outcome)
      requires Account() && Fed() && credit.Some? && !Barred(trace) && pendingScroll.None? && start < end
      requires generation.Some? && Word(generation.value)
      modifies this`trace, this`credit, this`start, this`escape, parser
      ensures Account() && Fed() && !Barred(trace) && old(trace) <= trace && start <= end && parser.Valid()
      ensures credit.Some? ==> start == end && credit == old(credit)
      ensures var step := old(Input.Advanced(parser.Value(), input[start..end]));
        && parser.Value() == step.parser && start == old(start) + step.consumed
        && Events(trace) == Events(old(trace)) + InputStream.Opt(step.event)
      ensures escape <==> parser.state == Input.Escaped
    {
      hide Account, Barred, Events, Conserved, Raw, Input.Parser.Valid, GoodEvent, Admitted, Input.Advanced, Tallied;
      var event := Parse();
      r := SpendMaybe(event);
    }

    /** One call of the parser, its event not sent yet. */
    method Parse() returns (event: Option<Input.Event>)
      requires Fed() && pendingScroll.None? && start < end
      modifies this`start, this`escape, parser
      ensures parser.Valid() && old(start) <= start <= end && (event.None? ==> start == end)
      ensures Input.Step(parser.Value(), start - old(start), event)
        == old(Input.Advanced(parser.Value(), input[start..end]))
      ensures event.Some? ==> GoodEvent(event.value) && Admitted(event.value)
      ensures escape <==> parser.state == Input.Escaped
      ensures polite ==> Conserved(probes, items, Events(trace) + InputStream.Opt(event), None, parser.Value(),
                                   input[start..end])
    {
      hide Events, Conserved, Raw, Input.Parser.Valid, GoodEvent, Admitted, Input.Advanced, Tallied;
      ghost var before, buffer := parser.Value(), input[start..end];
      var consumed;
      consumed, event := parser.Advance(input[start..end]);
      ParserEvents(before, buffer);
      if polite {
        CallMade(probes, items, Events(trace), before, buffer);
        assert buffer[consumed..] == input[start + consumed..end];
      }
      start := start + consumed;
      escape := parser.state == Input.Escaped;
    }

    method DeliverSize() returns (r: Outcome)
      requires Valid() && !probe && credit.Some? && pendingResize.Some?
      modifies this`credit, this`trace, this`pendingResize
      ensures Core() && (r.Fine? ==> Valid()) && credit.None?
      ensures trace == old(trace) + [Sent(Resize(generation.value, old(credit).value, old(pendingResize).value.0,
                                                 old(pendingResize).value.1))]
    {
      hide Account, Balance, Fed, Untouched, Agree, Phase, Flagged, Barred, GoodEvent, Admitted, Input.Parser.Valid;
      OfCredit();
      r := SpendSize();
    }

    method DeliverScroll() returns (r: Outcome)
      requires Valid() && !probe && credit.Some? && pendingScroll.Some?
      modifies this`credit, this`trace, this`pendingScroll
      ensures Core() && (r.Fine? ==> Valid()) && credit.None? && pendingScroll.None?
      ensures trace == old(trace) + [Sent(InputEvent(generation.value, old(credit).value, old(pendingScroll).value))]
    {
      hide Account, Balance, Fed, Untouched, Agree, Phase, Flagged, Barred, GoodEvent, Admitted, Input.Parser.Valid;
      OfCredit();
      r := SpendScroll();
    }

    method DeliverParsed() returns (r: Outcome)
      requires Valid() && !probe && credit.Some? && pendingScroll.None? && start < end
      modifies this`credit, this`trace, this`start, this`escape, parser
      ensures Core() && (r.Fine? ==> Valid()) && old(trace) <= trace
      ensures credit.Some? ==> start == end && credit == old(credit)
    {
      hide Account, Balance, Fed, Untouched, Agree, Phase, Flagged, Barred, GoodEvent, Admitted, Input.Parser.Valid;
      OfCredit();
      r := SpendParsed();
    }

    // ----- What arrives -----

    lemma OfCredit()
      requires Valid() && credit.Some?
      ensures active && generation.Some? && Word(generation.value) && !Barred(trace)
      ensures (polite ==> !probe) && Waiting() && SizeOk(dimensions)
    {
    }

    /** A whole-buffer read when nothing is buffered: ordinary input, or a wheel burst at ground. */
    method Receive() returns (t: Fetched, ghost raw: seq<byte>)
      requires Valid() && start == end && credit.Some? && (polite ==> pendingScroll.None?)
      modifies this`start, this`end, this`cooked, this`pendingScroll, this`items, this`fetched, input
      ensures Valid() && fetched == old(fetched) + raw && old(items) <= items
      ensures !t.Got? || t.count == 0 ==> start == end && raw == []
      ensures pendingScroll ==
        if Wheeled(raw, old(cooked)) then ScrollOf(raw, old(cooked)) else old(pendingScroll)
    {
      hide Shape, Phase, Account, Balance, Fed, Untouched, Barred, Agree, Wheeled, ScrollOf;
      OfCredit();
      t, raw := ReadAll();
    }

    /** A read that is taken for the wheel: identical arrows at ground, on the alternate screen without mouse reports. */
    ghost predicate Wheeled(raw: seq<byte>, cooked: nat)
      reads this`flags, parser
    {
      parser.state == Input.Ground && Tty.Bit(flags, 1) && !Tty.Bit(flags, 16) && ScrollOf(raw, cooked).Some?
    }

    lemma NotWheeled(cooked: nat)
      ensures !Wheeled([], cooked)
    {
      Arrivals.NothingEntered(cooked);
    }

    method ReadAll() returns (t: Fetched, ghost raw: seq<byte>)
      requires Shape() && Fed() && start == end && (polite ==> pendingScroll.None?)
      modifies this`start, this`end, this`cooked, this`pendingScroll, this`items, this`fetched, input
      ensures Shape() && Fed() && fetched == old(fetched) + raw && old(items) <= items
      ensures !t.Got? || t.count == 0 ==> start == end && raw == []
      ensures pendingScroll ==
        if Wheeled(raw, old(cooked)) then ScrollOf(raw, old(cooked)) else old(pendingScroll)
    {
      hide Flagged, Conserved, Events, Raw, Tallied, Input.Parser.Valid, GoodEvent, Admitted, Wheeled, ScrollOf;
      NotWheeled(cooked);
      assert input[start..end] == [];
      t, raw := Fetch(0);
      assert input[start..end] == [];
      if t.Got? && t.count > 0 {
        Admit(t.count, raw);
      } else {
        assert fetched == old(fetched) + [];
        assert old(fetched) + [] == old(fetched);
      }
    }

    /** The first `n` bytes of the buffer have just been read. */
    method Admit(n: nat, ghost raw: seq<byte>)
      requires Shape() && 0 < n <= BUFFER && input[..n] == raw && start == end
      requires polite ==>
        && Raw(probes, items) + raw == fetched && pendingScroll.None? && Tallied(probes, items, trace, cooked)
        && Conserved(probes, items, Events(trace), None, parser.Value(), [])
      modifies this`start, this`end, this`cooked, this`pendingScroll, this`items, input
      ensures Shape() && Fed() && cooked == Left(old(cooked), n)
      ensures items == old(items) + [if start == end then Burst(raw, old(cooked)) else Read(raw, old(cooked))]
      ensures pendingScroll ==
        if Wheeled(raw, old(cooked)) then ScrollOf(raw, old(cooked)) else old(pendingScroll)
      ensures start == 0 && end == if Wheeled(raw, old(cooked)) then 0 else n
    {
      hide Conserved, Raw, Events, Input.Parser.Valid, InputBuffer.Entered, GoodEvent, Admitted, Tty.InitFlags;
      hide Tallied, Left, Cooked, ScrollOf, Tty.Bit;
      ghost var under := cooked;
      var burst := Classify(n, raw);
      ghost var item := if burst.Some? then Burst(raw, under) else Read(raw, under);
      if polite {
        Recorded(item, under);
      }
      start, end := 0, if burst.Some? then 0 else n;
      pendingScroll := if burst.Some? then burst else pendingScroll;
      items := items + [item];
      assert input[start..end] == if burst.Some? then [] else InputBuffer.Entered(raw, under);
    }

    lemma Asking()
      requires Valid() && probe
      ensures active && !awaitingResume && generation.Some?
    {
    }

    lemma InShape()
      requires Valid()
      ensures Shape() && input.Length == BUFFER
    {
    }

    /** The loss behind an early credit: one granted during the probe lets the terminal be read while a wheel event
        waits, and a second burst takes the place of the first, which nothing was sent for. */
    method EarlyCredit(token: nat)
      requires Valid() && probe && credit.None? && pendingScroll.None? && start == end && cooked == 0
      requires Word(token) && token == this.token && GrantsBelow(trace, token)
      requires parser.state == Input.Ground && Tty.Bit(flags, 1) && !Tty.Bit(flags, 16)
      modifies this`credit, this`trace, this`polite, this`start, this`end, this`cooked, this`pendingScroll, this`items
      modifies this`fetched, input
      ensures !polite && credit == Some(token) && start == end && fetched == old(fetched) + TWO_UPS + TWO_DOWNS
      ensures items == old(items) + [Burst(TWO_UPS, 0), Burst(TWO_DOWNS, 0)]
      ensures trace == old(trace) + [Granted(token)] && pendingScroll == Some(Input.Scroll(false, 2))
    {
      hide Valid, Shape, GrantsBelow, Tty.Bit;
      Asking();
      var r := Grant(token);
      InShape();
      TwoBursts();
    }

    /** Two bursts while nothing is sent. */
    method TwoBursts()
      requires Shape() && !polite && start == end && cooked == 0 && input.Length == BUFFER
      requires parser.state == Input.Ground && Tty.Bit(flags, 1) && !Tty.Bit(flags, 16)
      modifies this`start, this`end, this`cooked, this`pendingScroll, this`items, this`fetched, input
      ensures start == end && fetched == old(fetched) + TWO_UPS + TWO_DOWNS
      ensures items == old(items) + [Burst(TWO_UPS, 0), Burst(TWO_DOWNS, 0)]
      ensures pendingScroll == Some(Input.Scroll(false, 2))
    {
      hide Shape, Fed, Tty.Bit, ScrollOf;
      Arrows();
      Fill(0, TWO_UPS);
      assert input[..6] == input[0..6];
      Admit(6, TWO_UPS);
      Fill(0, TWO_DOWNS);
      assert input[..6] == input[0..6];
      Admit(6, TWO_DOWNS);
      assert items == old(items) + [Burst(TWO_UPS, 0), Burst(TWO_DOWNS, 0)];
    }

    /** Translates the read in place and decides whether it is the wheel. */
    method Classify(n: nat, ghost raw: seq<byte>) returns (burst: Option<Input.Event>)
      requires n <= input.Length && input[..n] == raw
      modifies this`cooked, input
      ensures input[..n] == InputBuffer.Entered(raw, old(cooked)) && cooked == Left(old(cooked), n)
      ensures burst.Some? ==> parser.state == Input.Ground && GoodEvent(burst.value) && Admitted(burst.value)
      ensures burst == if Wheeled(raw, old(cooked)) then ScrollOf(raw, old(cooked)) else None
    {
      hide InputBuffer.Entered, ScrollIn, GoodEvent, Admitted;
      assert input[0..n] == raw && input[..0] == [];
      cooked := InputBuffer.TypeaheadEnter(input, 0, n, cooked);
      assert input[..n] == InputBuffer.Entered(raw, old(cooked));
      burst := Wheel(n);
    }

    /** With no mouse reports, alternate scroll sends identical arrows: such a read at ground is the wheel. */
    method Wheel(n: nat) returns (burst: Option<Input.Event>)
      requires n <= input.Length
      ensures burst.Some? ==> parser.state == Input.Ground && GoodEvent(burst.value) && Admitted(burst.value)
      ensures burst.Some? ==> burst == ScrollIn(input[..n]) && Tty.Bit(flags, 1) && !Tty.Bit(flags, 16)
      ensures burst.None? ==>
        parser.state != Input.Ground || !Tty.Bit(flags, 1) || Tty.Bit(flags, 16) || ScrollIn(input[..n]).None?
    {
      hide InputBuffer.ArrowBurst;
      if parser.state != Input.Ground || !Tty.Bit(flags, 1) || Tty.Bit(flags, 16) {
        return None;
      }
      BurstEvents(input[..n]);
      return ScrollIn(input[..n]);
    }

    /** Conservation with one more read. */
    lemma Recorded(item: Item, under: nat)
      requires parser.Valid() && Conserved(probes, items, Events(trace), None, parser.Value(), [])
      requires Tallied(probes, items, trace, under) && (item.Read? || item.Burst?) && item.cooked == under
      requires item.Burst? ==> parser.state == Input.Ground && ScrollOf(item.raw, under).Some?
      ensures Raw(probes, items + [item]) == Raw(probes, items) + item.raw
      ensures Tallied(probes, items + [item], trace, Left(under, |item.raw|))
      ensures Conserved(probes, items + [item], Events(trace),
                        if item.Burst? then ScrollOf(item.raw, under) else None, parser.Value(),
                        if item.Burst? then [] else InputBuffer.Entered(item.raw, under))
    {
      hide Conserved, Raw, Events, Input.Parser.Valid, InputBuffer.Entered, ScrollOf, Cooked, Tallied, Left;
      TalliedCount(probes, items, trace, under);
      TalliedItem(probes, items, trace, under, item);
      Snoc(probes, items, item);
      if item.Read? {
        ReadArrives(probes, items, Events(trace), parser.Value(), item.raw, under);
      } else {
        BurstArrives(probes, items, Events(trace), parser.Value(), item.raw, under);
      }
    }

    /** The parser's last word, not sent yet. */
    method Finish() returns (event: Option<Input.Event>)
      requires Fed() && start == end && (polite ==> pendingScroll.None?)
      modifies this`items, this`escape, parser
      ensures parser.Valid() && !escape && old(items) <= items && event == old(Input.Finished(parser.Value()))
      ensures event.Some? ==> GoodEvent(event.value) && Admitted(event.value)
      ensures polite ==>
        Raw(probes, items) == fetched && Tallied(probes, items, trace, cooked)
        && Conserved(probes, items, Events(trace) + InputStream.Opt(event), None, parser.Value(), [])
    {
      hide Conserved, Events, Raw, Input.Parser.Valid, GoodEvent, Admitted, Input.Finished, Tallied;
      ghost var before := parser.Value();
      assert input[start..end] == [];
      event := parser.Finish();
      escape := false;
      ParserEvents(before, []);
      if polite {
        InputEnded(probes, items, Events(trace), before);
        TalliedItem(probes, items, trace, cooked, Closed);
        Snoc(probes, items, Closed);
        assert fetched + [] == fetched;
        items := items + [Closed];
      }
    }

    /** End of input: what the parser can still say goes out, and the session is over. */
    method EndInput() returns (r: Outcome)
      requires Valid() && start == end && credit.Some? && (polite ==> pendingScroll.None?)
      modifies this`credit, this`trace, this`items, this`escape, parser
      ensures Core() && old(trace) <= trace && old(items) <= items
      ensures Events(trace) == Events(old(trace)) + InputStream.Opt(old(Input.Finished(parser.Value())))
    {
      hide Phase;
      hide Flagged, Fed;
      hide Account, Balance, Untouched, Barred, Agree, Conserved, Events, Raw, Tty.Bit, Tty.InitFlags;
      hide Input.Parser.Valid, GoodEvent, Admitted;
      OfCredit();
      var event := Finish();
      assert input[start..end] == [];
      r := SpendMaybe(event);
    }

    /** The Escape key of an expired wait, not sent yet. */
    method ExpireEscape() returns (event: Option<Input.Event>)
      requires Fed() && start == end && (polite ==> pendingScroll.None?) && (escape ==> parser.state == Input.Escaped)
      modifies this`items, this`escape, parser
      ensures parser.Valid() && (escape ==> parser.state == Input.Escaped) && old(items) <= items
      ensures (parser.Value(), event) == old(Input.Expired(parser.Value()))
      ensures event.Some? ==> GoodEvent(event.value) && Admitted(event.value)
      ensures polite ==>
        Raw(probes, items) == fetched && Tallied(probes, items, trace, cooked)
        && Conserved(probes, items, Events(trace) + InputStream.Opt(event), None, parser.Value(), [])
    {
      hide Conserved, Events, Raw, Input.Parser.Valid, GoodEvent, Admitted, Tallied;
      ghost var before := parser.Value();
      assert input[start..end] == [];
      event := parser.ExpireEscape();
      if event.Some? {
        escape := false;
      }
      ParserEvents(before, []);
      if polite {
        TimePassed(probes, items, Events(trace), before);
        TalliedItem(probes, items, trace, cooked, Timeout);
        Snoc(probes, items, Timeout);
        assert fetched + [] == fetched;
        items := items + [Timeout];
      }
    }

    /** A standalone Escape old enough is the Escape key. */
    method Expire() returns (r: Outcome)
      requires Valid() && start == end && credit.Some? && (polite ==> pendingScroll.None?)
      modifies this`credit, this`trace, this`items, this`escape, parser
      ensures Core() && (r.Fine? ==> Valid()) && old(trace) <= trace && old(items) <= items
      ensures Events(trace) == Events(old(trace)) + InputStream.Opt(old(Input.Expired(parser.Value())).1)
    {
      hide Flagged, Sendable, Phase, Account, Balance, Fed, Untouched, Barred, Agree, Events;
      hide Input.Parser.Valid, GoodEvent, Admitted;
      OfCredit();
      r := SpendEscape();
    }

    method SpendEscape() returns (r: Outcome)
      requires Buffered() && Account() && Fed() && start == end && (polite ==> pendingScroll.None?)
      requires credit.Some? && !Barred(trace) && generation.Some? && Word(generation.value)
      modifies this`credit, this`trace, this`items, this`escape, parser
      ensures Buffered() && Account() && Fed() && !Barred(trace) && old(trace) <= trace && old(items) <= items
      ensures credit.Some? ==> credit == old(credit)
      ensures Events(trace) == Events(old(trace)) + InputStream.Opt(old(Input.Expired(parser.Value())).1)
    {
      hide Account, Barred, Conserved, Events, Raw, Tallied, Input.Parser.Valid, GoodEvent, Admitted;
      var event := ExpireEscape();
      assert input[start..end] == [];
      r := SpendMaybe(event);
    }

    /** Sends the event, if there is one. */
    method SpendMaybe(event: Option<Input.Event>) returns (r: Outcome)
      requires Account() && credit.Some? && !Barred(trace)
      requires generation.Some? && Word(generation.value)
      requires event.Some? ==> GoodEvent(event.value) && Admitted(event.value)
      requires input.Length == BUFFER && start <= end <= BUFFER && parser.Valid()
      requires polite ==>
        Raw(probes, items) == fetched && pendingScroll.None? && Tallied(probes, items, trace, cooked)
        && Conserved(probes, items, Events(trace) + InputStream.Opt(event), None, parser.Value(), input[start..end])
      modifies this`trace, this`credit
      ensures Account() && Fed() && old(trace) <= trace && Events(trace) == Events(old(trace)) + InputStream.Opt(event)
      ensures !Barred(trace) && (credit.Some? ==> event.None? && credit == old(credit))
    {
      hide Account, Barred, Events, GoodEvent, Admitted, Raw, Conserved, Input.Parser.Valid, Tallied;
      if event.Some? {
        r := SpendOn(event.value);
      } else {
        assert Events(trace) + [] == Events(trace);
        r := Fine;
      }
      TalliedOn(probes, items, old(trace), trace, cooked);
    }

    // ----- Commands -----

    /** A credit is granted to an active session without one; behind a barrier it is dropped. */
    method Grant(token: nat) returns (r: Outcome)
      requires Valid() && Word(token) && token == this.token && GrantsBelow(trace, token) && generation.Some?
      modifies this`credit, this`trace, this`polite
      ensures Valid() && (polite ==> old(polite))
      ensures r.Fine? <==> awaitingResume || (active && old(credit).None?)
      ensures r.Fine? && !awaitingResume ==> credit == Some(token) && trace == old(trace) + [Granted(token)]
      ensures r.Fine? && !awaitingResume ==> polite == (old(polite) && !probe)
      ensures r.Fault? || awaitingResume ==> credit == old(credit) && trace == old(trace) && polite == old(polite)
      ensures r.Fault? ==> r.reason == Protocol
    {
      hide Buffered, Flagged;
      hide Account, Balance, Fed, Untouched, Agree, Tty.Bit, Tty.InitFlags, Barred, GoodEvent, Admitted, Input.Parser.Valid;
      if awaitingResume {
        return Fine;
      }
      if !active || credit.Some? {
        return Fault(Protocol);
      }
      Lend(token);
      return Fine;
    }

    /** The credit is outstanding from here on. */
    method Lend(token: nat)
      requires Account() && credit.None? && !Barred(trace) && Word(token) && token == this.token
      requires GrantsBelow(trace, token)
      modifies this`credit, this`trace, this`polite
      ensures Account() && (old(Fed()) ==> Fed()) && credit == Some(token) && trace == old(trace) + [Granted(token)]
      ensures polite == (old(polite) && !probe)
      ensures !Barred(trace) && Events(trace) == Events(old(trace))
    {
      hide Lawful, Outstanding, Barred, Events, Conserved, Raw, Input.Parser.Valid, Tallied;
      Append(trace, Granted(token));
      AppendEffects(trace, Granted(token));
      TalliedOn(probes, items, trace, trace + [Granted(token)], cooked);
      assert Events(trace) + [] == Events(trace);
      trace := trace + [Granted(token)];
      credit, polite := Some(token), polite && !probe;
    }

    /** A draw behind a barrier is dropped; an inactive session has none. */
    method Draw(sequence: nat, body: seq<byte>) returns (r: Outcome)
      requires Valid() && generation.Some? && GoodCommand(Protocol.Draw(sequence, body))
      modifies this`sequence, this`dimensions, this`pendingResize, this`painted, this`trace, guard.tty.console
      ensures Core() && (r.Fine? ==> Valid() && this.sequence == sequence) && old(trace) <= trace
      ensures sequence <= old(this.sequence) || (!awaitingResume && !active) ==> r == Fault(Protocol) && trace == old(trace)
      ensures r.Fine? && awaitingResume ==> trace == old(trace)
      ensures r.Fine? && !awaitingResume ==> exists f ::
        Frame.WellFormed(f) && Frame.Encode(f) == body && trace == old(trace) + [Sent(Verdict(sequence, f.header))]
    {
      hide Shape, Account, Balance, Fed, Agree, Credited, Waiting, Barred, Frame.WellFormed, Frame.Encode, Verdict;
      if sequence <= this.sequence {
        return Fault(Protocol);
      }
      if awaitingResume {
        Advance(sequence);
        return Fine;
      }
      if !active {
        return Fault(Protocol);
      }
      var decoded := FrameCodec.Decode(body);
      if decoded.Err? {
        return Fault(Protocol);
      }
      HeaderWords(decoded.value);
      GoodSequence(sequence, body);
      r := DrawFrame(sequence, decoded.value.header);
    }

    /** An admissible frame of a fresh sequence. */
    method DrawFrame(sequence: nat, header: Frame.Header) returns (r: Outcome)
      requires Valid() && active && sequence > this.sequence && Word(sequence) && Word(header.revision)
      modifies this`sequence, this`dimensions, this`pendingResize, this`painted, this`trace, guard.tty.console
      ensures Core() && (r.Fine? ==> Valid() && this.sequence == sequence) && old(trace) <= trace
      ensures r.Fine? ==> trace == old(trace) + [Sent(Verdict(sequence, header))]
    {
      hide Buffered, Flagged, Account, Balance, Fed, Untouched, Agree, Barred, Verdict, GoodEvent, Admitted;
      r := Present(sequence, header);
    }

    /** The answer to a frame: painted when it has the terminal's size. */
    ghost function Verdict(sequence: nat, header: Frame.Header): Packet
      reads this
    {
      var g := if generation.Some? then generation.value else 0;
      if (header.columns, header.rows) == dimensions then Protocol.Painted(g, sequence, header.revision)
      else Protocol.Skipped(g, sequence, header.revision)
    }

    /** A frame of another size than the terminal's is skipped and the size reported; any other is painted. */
    method Present(sequence: nat, header: Frame.Header) returns (r: Outcome)
      requires Account() && Balance() && !Barred(trace)
      requires sequence > this.sequence && Word(sequence) && Word(header.revision)
      requires generation.Some? && Word(generation.value) && SizeOk(dimensions)
      modifies this`sequence, this`dimensions, this`pendingResize, this`painted, this`trace, guard.tty.console
      ensures Account() && Balance() && (old(Agree()) ==> Agree()) && (old(Fed()) ==> Fed())
      ensures (old(Untouched()) ==> Untouched())  && !Barred(trace) && old(trace) <= trace
      ensures SizeOk(dimensions) && (pendingResize == old(pendingResize) || pendingResize == Some(dimensions))
      ensures r.Fine? ==> trace == old(trace) + [Sent(Verdict(sequence, header))] && this.sequence == sequence
      ensures r.Fine? ==> painted == ((header.columns, header.rows) == dimensions)
      ensures r.Fine? && !painted ==> pendingResize == Some(dimensions)
    {
      hide Account, Balance, Fed, Untouched, Agree, Barred, Settles;
      r := Measure();
      if r.Fault? {
        return;
      }
      if (header.columns, header.rows) != dimensions {
        r := Skip(Protocol.Skipped(generation.value, sequence, header.revision));
      } else {
        r := Show(Protocol.Painted(generation.value, sequence, header.revision));
      }
    }

    /** A changed size is remembered until it can be reported. */
    method Measure() returns (r: Outcome)
      modifies this`dimensions, this`pendingResize
      ensures r.Fine? ==> SizeOk(dimensions)
      ensures r.Fault? ==> dimensions == old(dimensions) && r.reason == Reading
      ensures pendingResize == if dimensions == old(dimensions) then old(pendingResize) else Some(dimensions)
    {
      var size := WindowSize();
      if size.None? {
        return Fault(Reading);
      }
      if size.value != dimensions {
        dimensions, pendingResize := size.value, size;
      }
      return Fine;
    }

    /** Answers a frame of another size. */
    method Skip(packet: Packet) returns (r: Outcome)
      requires Account() && !Barred(trace) && packet.Skipped? && GoodPacket(packet) && packet.sequence > sequence
      modifies this`sequence, this`pendingResize, this`painted, this`trace
      ensures Account() && (old(Fed()) ==> Fed()) && (old(Untouched()) ==> Untouched()) && !Barred(trace)
      ensures pendingResize == Some(dimensions) && !painted
      ensures trace == old(trace) + [Sent(packet)] && sequence == packet.sequence
    {
      hide Account, Fed, Untouched, Barred, GoodPacket;
      pendingResize, painted := Some(dimensions), false;
      r := Answer(packet);
    }

    /** Paints and answers. */
    method Show(packet: Packet) returns (r: Outcome)
      requires Account() && Balance() && packet.Painted? && GoodPacket(packet) && packet.sequence > sequence
      requires !Barred(trace)
      modifies this`sequence, this`painted, this`trace, guard.tty.console
      ensures Account() && Balance() && (old(Agree()) ==> Agree()) && (old(Fed()) ==> Fed())
      ensures old(Untouched()) ==> Untouched()
      ensures !Barred(trace) && Events(trace) == Events(old(trace))
      ensures r.Fine? ==> painted && trace == old(trace) + [Sent(packet)] && sequence == packet.sequence
      ensures old(trace) <= trace
    {
      hide Account, Balance, Fed, Untouched, Agree, Barred, Events, GoodPacket;
      var io := Paint();
      if io.Failed? {
        return Fault(Drawing);
      }
      r := Answer(packet);
    }

    /** The painter's writes: the screen is the frame's afterwards, or unknown. */
    method Paint() returns (io: Io)
      requires Balance()
      modifies this`painted, guard.tty.console
      ensures Balance() && (old(Agree()) ==> Agree()) && painted == io.Done?
    {
      io := guard.tty.console.Write(Tty.Frame);
      painted := io.Done?;
    }

    /** The last draw sequence moves on. */
    method Advance(sequence: nat)
      requires Account() && sequence > this.sequence
      modifies this`sequence
      ensures Account() && this.sequence == sequence && SettledBelow(trace, sequence)
    {
      hide Lawful, Outstanding;
      this.sequence := sequence;
    }

    /** Settles a draw. */
    method Answer(packet: Packet) returns (r: Outcome)
      requires Account() && !Barred(trace) && GoodPacket(packet) && Settles(Sent(packet)) && packet.sequence > sequence
      modifies this`sequence, this`trace
      ensures Account() && (old(Fed()) ==> Fed()) && trace == old(trace) + [Sent(packet)] && !Barred(trace)
      ensures Events(trace) == Events(old(trace)) && (old(Untouched()) ==> Untouched()) && sequence == packet.sequence
    {
      hide Account, Fed, Untouched, Barred, Events, GoodPacket;
      Advance(packet.sequence);
      r := Send(packet);
    }

    /** Gives the terminal up and says so. Restored goes out only after the guard acknowledged. */
    method GiveUp(token: nat, suspended: bool) returns (r: Outcome)
      requires Valid() && generation.Some? && Word(token)
      modifies this`credit, this`trace, this`escape, this`probe, this`pendingScroll, this`items, this`titleSaved
      modifies this`active, this`painted, guard, guard.tty, guard.tty.console
      ensures Core() && (r.Fine? ==> Valid() && !active) && old(trace) <= trace
      ensures pendingScroll.None? && (polite ==> items == Dropping(old(items), old(pendingScroll), |old(trace)|))
      ensures r.Fine? ==>
        !guard.tty.active && trace == old(trace) + [Revoked, Sent(Protocol.Restored(generation.value, token, suspended))]
    {
      hide Shape, Account, Balance, Fed, Untouched, Tty.Bit, Tty.InitFlags, Barred, Events, Dropping;
      Numbered();
      r := Suspend();
      if r.Fine? {
        r := Send(Protocol.Restored(generation.value, token, suspended));
      }
    }

    /** A resume ends the barrier by taking the terminal again. */
    method TakeBack() returns (r: Outcome)
      requires Valid() && generation.Some?
      modifies this`awaitingResume, this`active, this`cooked, this`painted, this`dimensions
      modifies this`pendingResize, this`escape, this`titleSaved, this`probed, this`probe, this`trace, this`probes
      modifies this`items, guard, guard.tty, guard.tty.console
      ensures Core() && (r.Fine? ==> Valid() && active && !awaitingResume) && old(trace) <= trace
      ensures Retaken(old(items), items)
      ensures old(active || externallySuspended) ==> r == Fault(Protocol) && trace == old(trace)
      ensures r.Fine? ==> !probe && trace == old(trace) + [Announcement()]
    {
      hide Account, Balance, Fed, Untouched, Agree, Tty.Bit, Tty.InitFlags, Barred, GoodEvent, Admitted, Input.Parser.Valid;
      hide Retaken;
      NotRetaken();
      if active || externallySuspended {
        return Fault(Protocol);
      }
      awaitingResume := false;
      r := Activate();
    }

    /** Mouse reports on or off; the flags keep the choice for the next activation. */
    method Reports(on: bool) returns (r: Outcome)
      requires Valid() && Tty.InitFlags(flags)
      modifies this`flags, guard, guard.tty, guard.tty.console
      ensures Core() && (r.Fine? ==> Valid()) && flags == Tty.WithMouse(old(flags), on)
    {
      hide Account, Balance, Fed, Untouched, Agree, Tty.Bit, Tty.InitFlags, Tty.WithMouse, Barred, GoodEvent, Admitted;
      hide Input.Parser.Valid, Buffered, Sendable, Credited, Waiting;
      Choice(flags, on);
      r := Switch(on);
    }

    method Switch(on: bool) returns (r: Outcome)
      requires Balance() && Agree() && Tty.InitFlags(flags) && Tty.InitFlags(guard.tty.flags)
      requires awaitingResume ==> !active
      modifies this`flags, guard, guard.tty, guard.tty.console
      ensures Balance() && Tty.InitFlags(guard.tty.flags) && flags == Tty.WithMouse(old(flags), on)
      ensures r.Fine? ==> Agree()
    {
      hide Balance, Tty.Bit, Tty.InitFlags, Tty.WithMouse;
      Requests(flags);
      var chosen := Tty.WithMouse(flags, on);
      if chosen != flags {
        flags := chosen;
        if active && !awaitingResume {
          var io := Ask(if on then Tty.MOUSE_ON else Tty.MOUSE_OFF);
          if io.Failed? {
            return Fault(Restoration);
          }
        }
      }
      return Fine;
    }

    /** What a live terminal is sent for a notification; any other is the shell's. */
    ghost function AnnounceOps(kind: NotifyKind, text: seq<byte>): seq<Tty.Op>
      reads this`active, this`awaitingResume, this`probe, this`titleSaved
    {
      if !active || awaitingResume || probe then [] else SpokenOps(kind, text)
    }

    ghost function SpokenOps(kind: NotifyKind, text: seq<byte>): seq<Tty.Op>
      reads this`titleSaved
    {
      if kind == Title then TitleOps(text) else [Tty.Put(NotifyBytes(kind, text))]
    }

    /** A bell, a notification or a title between frames; while suspended only a title is kept. */
    method Announce(kind: NotifyKind, text: seq<byte>)
      requires Valid()
      modifies this`title, this`titleSaved, this`painted, guard.tty.console
      ensures Valid()
      ensures title == if kind == Title then Some(text) else old(title)
      ensures Wrote(old(guard.tty.console.log), old(AnnounceOps(kind, text)))
      ensures !old(active && !awaitingResume && !probe) ==>
        unchanged(guard.tty.console) && unchanged(this`titleSaved) && unchanged(this`painted)
    {
      hide Order, Buffered, Flagged, Sendable, NotifyBytes;
      hide Account, Balance, Fed, Untouched, Agree, Tty.Bit, Tty.InitFlags, Barred, GoodEvent, Admitted, Input.Parser.Valid;
      if active && !awaitingResume && !probe {
        Speak(kind, text);
      }
      title := if kind == Title then Some(text) else title;
    }

    method Speak(kind: NotifyKind, text: seq<byte>)
      requires Balance() && active
      modifies this`titleSaved, this`painted, guard.tty.console
      ensures Balance() && (old(Agree()) ==> Agree()) && (painted ==> old(painted))
      ensures Wrote(old(guard.tty.console.log), old(SpokenOps(kind, text)))
    {
      hide Balance, Agree, NotifyBytes;
      if kind == Title {
        WriteTitle(text);
      } else {
        Interject(NotifyBytes(kind, text));
      }
    }

    /** Clipboard text, dropped while the terminal is the shell's. */
    method CopyOut(text: seq<byte>) returns (written: seq<byte>)
      requires Valid()
      modifies this`painted, guard.tty.console
      ensures Valid()
      ensures written == if !active then []
                         else if tmux then Clipboard.Wrapped(Clipboard.Sequence(text)) else Clipboard.Sequence(text)
      ensures Wrote(old(guard.tty.console.log), if active then [Tty.Put(written)] else [])
      ensures !active ==> unchanged(guard.tty.console) && unchanged(this`painted)
    {
      hide Buffered, Flagged, Sendable;
      hide Account, Balance, Fed, Untouched, Agree, Tty.Bit, Tty.InitFlags, Barred, GoodEvent, Admitted, Input.Parser.Valid;
      if !active || awaitingResume {
        return [];
      }
      if tmux {
        written := Clipboard.Osc52Tmux(text);
      } else {
        written := Clipboard.Osc52(text);
      }
      Interject(written);
    }

    /** What one admitted command does. Only a suspension or a shutdown takes a waiting wheel event away. */
    method Perform(c: Command) returns (r: Outcome, ended: bool)
      requires Valid() && generation.Some? && GoodCommand(c)
      requires c.Token().Some? ==> Word(c.token) && c.token == token && GrantsBelow(trace, c.token)
      modifies this, guard, guard.tty, guard.tty.console
      ensures Core() && (r.Fine? ==> Valid()) && (ended ==> r.Fine? && !active) && old(trace) <= trace
      ensures start == old(start) && end == old(end) && fetched == old(fetched)
      ensures pendingScroll == old(pendingScroll) || pendingScroll.None?
      ensures !c.Shutdown? && !c.Suspend? ==> pendingScroll == old(pendingScroll)
      ensures polite ==> old(polite)
      ensures !c.Shutdown? && !c.Suspend? ==> Retaken(old(items), items) && (!c.Resume? ==> items == old(items))
      ensures (c.Shutdown? || c.Suspend?) && polite && items != old(items) ==>
        items == Dropping(old(items), old(pendingScroll), |old(trace)|)
    {
      hide Core, Agree, Order, GoodCommand, GrantsBelow, Dropping, Retaken;
      if c.Shutdown? {
        r := GiveUp(c.token, false);
        ended := r.Fine?;
      } else if c.Suspend? {
        if !active {
          return Fault(Protocol), false;
        }
        r := GiveUp(c.token, true);
        ended := false;
      } else {
        r := Carry(c);
        ended := false;
      }
    }

    /** The commands that leave the terminal where it is, or take it back. */
    method Carry(c: Command) returns (r: Outcome)
      requires Valid() && generation.Some? && GoodCommand(c) && !c.Shutdown? && !c.Suspend?
      requires c.Token().Some? ==> Word(c.token) && c.token == token && GrantsBelow(trace, c.token)
      modifies this, guard, guard.tty, guard.tty.console
      ensures Core() && (r.Fine? ==> Valid()) && old(trace) <= trace
      ensures start == old(start) && end == old(end) && fetched == old(fetched)
      ensures pendingScroll == old(pendingScroll) && (polite ==> old(polite))
      ensures Retaken(old(items), items) && (!c.Resume? ==> items == old(items))
    {
      hide Valid, Core, GoodCommand, GrantsBelow, Retaken;
      NotRetaken();
      if c.Credit? || c.Draw? {
        r := Flow(c);
      } else if c.Resume? {
        r := TakeBack();
      } else {
        r := Write(c);
      }
    }

    /** Credits and draws. */
    method Flow(c: Command) returns (r: Outcome)
      requires Valid() && generation.Some? && GoodCommand(c) && (c.Credit? || c.Draw?)
      requires c.Token().Some? ==> Word(c.token) && c.token == token && GrantsBelow(trace, c.token)
      modifies this`credit, this`polite, this`sequence, this`dimensions, this`pendingResize, this`painted
      modifies this`trace, guard.tty.console
      ensures Core() && (r.Fine? ==> Valid()) && old(trace) <= trace && (polite ==> old(polite))
    {
      hide Valid, Core, GoodCommand, GrantsBelow;
      if c.Credit? {
        r := Grant(c.token);
        ValidCore();
      } else {
        r := Draw(c.sequence, c.body);
      }
    }

    lemma ValidCore()
      requires Valid()
      ensures Core()
    {
    }

    /** The commands between frames. */
    method Write(c: Command) returns (r: Outcome)
      requires Valid()
      modifies this`flags, this`title, this`titleSaved, this`painted, guard, guard.tty, guard.tty.console
      ensures Core() && (r.Fine? ==> Valid())
    {
      hide Agree, Order, Account, Fed, Balance;
      r := Fine;
      match c {
        case Mouse(_, _, on) =>
          r := Reports(on);
        case Notify(_, _, kind, text) =>
          Announce(kind, text);
        case Redraw(_, _) =>
          Forget();
        case Copy(_, _, text) =>
          var written := CopyOut(text);
        case _ =>
          r := Fault(Protocol);
      }
    }

    /** The painter forgets the screen, so the next frame repaints every cell. */
    method Forget()
      requires Valid()
      modifies this`painted
      ensures Valid() && !painted
    {
      hide Order, Buffered, Flagged, Sendable;
      hide Account, Balance, Fed, Untouched, Agree, Tty.Bit, Tty.InitFlags, Barred, GoodEvent, Admitted, Input.Parser.Valid;
      painted := false;
    }

    /** The connection's generation and flags, and the terminal. */
    method Begin(generation: nat, flags: nat) returns (r: Outcome)
      requires Valid() && this.generation.None? && Word(generation) && Tty.InitFlags(flags)
      modifies this, guard, guard.tty, guard.tty.console
      ensures Core() && (r.Fine? ==> Valid()) && old(trace) <= trace
      ensures start == old(start) && end == old(end) && fetched == old(fetched) && pendingScroll == old(pendingScroll)
      ensures Retaken(old(items), items) && polite == old(polite)
    {
      hide Account, Balance, Fed, Untouched, Tty.Bit, Tty.InitFlags, Barred, GoodEvent, Admitted, Input.Parser.Valid;
      hide Retaken, Buffered;
      NothingBarred();
      NothingWaits();
      this.generation, this.flags := Some(generation), flags;
      r := Activate();
    }

    lemma NothingWaits()
      requires Valid() && generation.None?
      ensures pendingScroll.None? && credit.None?
    {
    }

    /** A token is used for one command only. */
    method TakeToken(token: nat) returns (r: Outcome)
      requires Valid()
      modifies this`token
      ensures Valid() && (r.Fine? ==> this.token == token && GrantsBelow(trace, token))
      ensures r.Fine? <==> token > old(this.token)
      ensures r.Fault? ==> r.reason == Protocol
    {
      hide Buffered, Flagged, Sendable;
      hide Lawful, Outstanding, Balance, Fed, Untouched, Tty.Bit, Tty.InitFlags, Barred, GoodEvent, Admitted;
      hide Input.Parser.Valid, Agree;
      if token <= this.token {
        return Fault(Protocol);
      }
      this.token := token;
      return Fine;
    }

    /** One command of the owner; `ended` after a shutdown. */
    method Command(body: seq<byte>) returns (r: Outcome, ended: bool)
      requires Valid()
      modifies this, guard, guard.tty, guard.tty.console
      ensures Core() && (r.Fine? ==> Valid()) && (ended ==> r.Fine? && !active) && old(trace) <= trace
      ensures start == old(start) && end == old(end) && fetched == old(fetched)
      ensures (pendingScroll == old(pendingScroll) || pendingScroll.None?) && (polite ==> old(polite))
    {
      hide Core, Agree, Order;
      var command := DecodeCommand(body);
      if command.None? {
        return Fault(Protocol), false;
      }
      r, ended := Dispatch(command.value);
    }

    /** Before Init nothing else; afterwards only this generation, and every token once. */
    method Dispatch(c: Command) returns (r: Outcome, ended: bool)
      requires Valid() && GoodCommand(c)
      modifies this, guard, guard.tty, guard.tty.console
      ensures Core() && (r.Fine? ==> Valid()) && (ended ==> r.Fine? && !active) && old(trace) <= trace
      ensures start == old(start) && end == old(end) && fetched == old(fetched)
      ensures (pendingScroll == old(pendingScroll) || pendingScroll.None?) && (polite ==> old(polite))
      ensures old(generation).None? && !c.Init? ==> r == Fault(Protocol) && trace == old(trace)
      ensures old(generation).Some? && c.Generation().Some? && c.Generation() != old(generation) ==>
        r == Fault(Protocol) && trace == old(trace)
      ensures old(generation).Some? && c.Token().Some? && c.token <= old(token) ==>
        r == Fault(Protocol) && trace == old(trace)
    {
      hide Valid, Core, GrantsBelow, GoodCommand;
      GoodParts(c);
      ValidCore();
      ended := false;
      if generation.None? {
        if c.Init? {
          r := Begin(c.generation, c.flags);
        } else {
          r := Fault(Protocol);
        }
        return;
      }
      if c.Generation().Some? && c.Generation() != generation {
        return Fault(Protocol), false;
      }
      if c.Token().Some? {
        r := TakeToken(c.token);
        if r.Fault? {
          ValidCore();
          return;
        }
      }
      r, ended := Perform(c);
    }

    // ----- The loop -----

    /** A stop from the shell, or the continuation that raises the barrier. `again` after a stop. */
    method Signals() returns (r: Outcome, again: bool)
      requires Valid()
      modifies this, guard, guard.tty, guard.tty.console
      ensures Core() && (r.Fine? ==> Valid()) && old(trace) <= trace && (polite ==> old(polite))
    {
      hide Core, Agree, Order;
      var stop := Happens();
      var resume := Happens();
      if stop && active {
        r := Stop();
        return r, true;
      }
      if resume && externallySuspended {
        r := Continue();
        return r, false;
      }
      return Fine, false;
    }

    /** The shell takes the terminal; the process stops after this. */
    method Stop() returns (r: Outcome)
      requires Valid() && active
      modifies this, guard, guard.tty, guard.tty.console
      ensures Core() && (r.Fine? ==> Valid()) && old(trace) <= trace && polite == old(polite)
      ensures r.Fine? ==> !active && externallySuspended
    {
      hide Account, Balance, Fed, Untouched, Agree, Tty.Bit, Tty.InitFlags, Barred, Events, Dropping, GoodEvent, Admitted;
      hide Input.Parser.Valid;
      r := Suspend();
      if r.Fine? {
        externallySuspended := true;
      }
    }

    /** Running again behind a barrier: the owner has to send a Resume. */
    method Continue() returns (r: Outcome)
      requires Valid() && externallySuspended
      modifies this`externallySuspended, this`awaitingResume, this`trace
      ensures Valid() && trace == old(trace) + [Sent(Protocol.ResumeNeeded(generation.value))] && Barred(trace)
    {
      hide Buffered, Flagged;
      hide Account, Balance, Fed, Untouched, Agree, Tty.Bit, Tty.InitFlags, Barred, Events, GoodEvent, Admitted;
      hide Input.Parser.Valid;
      externallySuspended, awaitingResume := false, true;
      r := Send(Protocol.ResumeNeeded(generation.value));
    }

    /** Now and then the size is looked at; then the probe or the credit takes a step. */
    method Step() returns (r: Outcome)
      requires Valid()
      modifies this, input, parser, guard, guard.tty, guard.tty.console
      ensures Core() && (r.Fine? ==> Valid()) && old(trace) <= trace && (polite ==> old(polite))
      ensures r.Fine? && credit.Some? && start == end && polite ==> pendingScroll.None?
    {
      hide Core, Agree, Order;
      var look := Happens();
      if active && look {
        :- Observe();
      }
      if probe {
        WaitsForReady();
        r := ProbeStep();
      } else if active {
        r := Deliver();
      } else {
        Inactive();
        r := Fine;
      }
    }

    method Observe() returns (r: Outcome)
      requires Valid() && active
      modifies this`dimensions, this`pendingResize
      ensures Valid()
    {
      hide Buffered, Flagged;
      hide Account, Balance, Fed, Untouched, Agree, Tty.Bit, Tty.InitFlags, Barred, GoodEvent, Admitted, Input.Parser.Valid;
      r := Measure();
    }

    lemma WaitsForReady()
      requires Valid() && probe
      ensures polite ==> credit.None?
    {
    }

    lemma Inactive()
      requires Valid() && !active
      ensures credit.None?
    {
    }

    /** The terminal, when it was polled: input, its end, or an Escape that has waited long enough. */
    method Terminal() returns (r: Outcome, ended: bool)
      requires Valid() && start == end && credit.Some? && (polite ==> pendingScroll.None?)
      modifies this, input, parser
      ensures Core() && (r.Fine? && !ended ==> Valid()) && old(trace) <= trace && polite == old(polite)
    {
      hide Core, Agree, Order;
      var ready := Happens();
      if ready {
        var t;
        ghost var raw;
        t, raw := Receive();
        if t.Broken? {
          ValidCore();
          return Fault(Reading), true;
        }
        if t == Got(0) {
          r := EndInput();
          return r, true;
        }
      }
      var late := Happens();
      if start == end && escape && late {
        WaitingNotGround();
        r, ended := Late();
        return;
      }
      ValidCore();
      return Fine, false;
    }

    lemma WaitingNotGround()
      requires Valid() && escape
      ensures parser.state != Input.Ground
    {
    }

    /** Bytes that are already there come before an Escape is given up waiting for. */
    method Late() returns (r: Outcome, ended: bool)
      requires Valid() && start == end && credit.Some? && (polite ==> pendingScroll.None?)
      modifies this, input, parser
      ensures Core() && (r.Fine? && !ended ==> Valid()) && old(trace) <= trace && polite == old(polite)
    {
      hide Core, Agree, Order;
      var t;
      ghost var raw;
      t, raw := Receive();
      if t.Broken? || t == Got(0) {
        ValidCore();
        return if t.Broken? then Fault(Reading) else Fine, true;
      }
      if t.Nothing? {
        r := Expire();
        return r, false;
      }
      ValidCore();
      return Fine, false;
    }

    /** The owner's pipe, when it was polled: nothing yet, its end, a bad frame, or a body. */
    method Owner() returns (r: Outcome, ended: bool)
      requires Valid()
      modifies this, guard, guard.tty, guard.tty.console
      ensures Core() && (r.Fine? && !ended ==> Valid()) && old(trace) <= trace && (polite ==> old(polite))
      ensures start == old(start) && end == old(end)
      ensures pendingScroll == old(pendingScroll) || pendingScroll.None?
    {
      hide Core, Agree, Order;
      ValidCore();
      var closed := Happens();
      var bad := Happens();
      var complete := Happens();
      if closed {
        return Fine, true;
      }
      if bad {
        var header := Happens();
        return Fault(if header then Protocol else Reading), true;
      }
      if !complete {
        return Fine, false;
      }
      var body := AnyBytes(Framer.MAX_COMMAND_BYTES);
      r, ended := Command(body);
    }

    /** One turn: signals, the probe or the credit, the owner, and only then the terminal. */
    method Iterate() returns (r: Outcome, ended: bool)
      requires Valid()
      modifies this, input, parser, guard, guard.tty, guard.tty.console
      ensures Core() && (r.Fine? && !ended ==> Valid()) && old(trace) <= trace && (polite ==> old(polite))
    {
      hide Core, Agree, Order;
      ended := Happens();
      if ended {
        ValidCore();
        return Fine, true;
      }
      r, ended := Signals();
      if r.Fault? || ended {
        return r, r.Fault?;
      }
      r := Step();
      if r.Fault? {
        return r, true;
      }
      r, ended := Polled(active && credit.Some? && start == end);
    }

    /** What the poll found; the terminal was polled only when its bytes could be taken. */
    method Polled(readTty: bool) returns (r: Outcome, ended: bool)
      requires Valid() && (readTty ==> start == end && (polite ==> pendingScroll.None?))
      modifies this, input, parser, guard, guard.tty, guard.tty.console
      ensures Core() && (r.Fine? && !ended ==> Valid()) && old(trace) <= trace && (polite ==> old(polite))
    {
      hide Core, Agree, Order;
      ValidCore();
      r, ended := Fine, false;
      var interrupted := Happens();
      if interrupted {
        return;
      }
      var failed := Happens();
      if failed {
        return Fault(Reading), true;
      }
      var command := Happens();
      if command {
        r, ended := Owner();
        if r.Fault? || ended {
          return;
        }
      }
      if readTty && active && credit.Some? && start == end {
        r, ended := Terminal();
      }
    }

    /** Any number of turns, whatever the owner, the terminal, the clock and the signals do. */
    method Run(turns: nat) returns (r: Outcome)
      requires Valid()
      modifies this, input, parser, guard, guard.tty, guard.tty.console
      ensures Core() && old(trace) <= trace && (polite ==> old(polite))
    {
      hide Core, Agree, Order;
      var ended := false;
      r := Fine;
      ValidCore();
      for i := 0 to turns
        invariant Core() && (r.Fine? && !ended ==> Valid()) && old(trace) <= trace && (polite ==> old(polite))
      {
        if r.Fine? && !ended {
          r, ended := Iterate();
        }
      }
    }

    /** The end, however it came: the title and the modes back, and a failure reported. */
    method Close(result: Outcome) returns (failure: Option<Reason>)
      requires Core()
      modifies this`titleSaved, this`trace, guard, guard.tty, guard.tty.console
      ensures Core() && !titleSaved
      ensures failure.None? ==> result.Fine? && !guard.tty.active && trace == old(trace)
      ensures failure.Some? && failure.value != Restoration ==> result == Fault(failure.value) && !guard.tty.active
      ensures failure.Some? ==> trace == old(trace) + [Sent(Failure(Named(), Code(failure.value)))]
    {
      hide Buffered, Sendable, Account, Balance, Fed, Tty.InitFlags;
      Numbered();
      var io := GiveBack();
      if io.Done? && result.Fine? {
        return None;
      }
      var reason := if io.Failed? then Restoration else result.reason;
      Widths();
      var sent := Send(Failure(Named(), Code(reason)));
      return Some(reason);
    }

    /** The title and the modes back. */
    method GiveBack() returns (io: Io)
      requires Balance() && Tty.InitFlags(flags) && Tty.InitFlags(guard.tty.flags)
      modifies this`titleSaved, guard, guard.tty, guard.tty.console
      ensures Balance() && Tty.InitFlags(guard.tty.flags) && !titleSaved && (io.Done? ==> !guard.tty.active)
    {
      hide Balance, Tty.InitFlags;
      RestoreTitle();
      Requests(flags);
      io := Ask(Tty.RESTORE);
    }

    lemma Numbered()
      requires Shape()
      ensures generation.Some? ==> Word(generation.value)
    {
    }

    /** The generation a failure names, 0 before there is one. */
    function Named(): nat
      reads this
    {
      if generation.Some? then generation.value else 0
    }

    /** The guard's own restoration, after the writer is gone. */
    method Reap() returns (io: Io)
      requires Core() && !titleSaved
      modifies guard.tty, guard.tty.console
      ensures Core()
      ensures guard.tty.console.steady ==>
        var m := guard.tty.console.modes;
        io.Done? && Tty.Shell(m.on) && m.keys == 0 && m.titles == 0 && !guard.tty.console.raw
    {
      hide Buffered, Sendable;
      hide Account, Fed, Tty.Bit, Tty.Chosen, Tty.InitFlags, GoodEvent, Admitted, Input.Parser.Valid;
      io := guard.Reap();
    }

    // ----- What a session promises -----

    /** At every step, while every write and acknowledgement has succeeded: the modes that are on are exactly the
        chosen ones while active and a shell's otherwise, the keyboard mode is pushed exactly when it should be, and
        the saved title is accounted for. After a Restored or a ResumeNeeded the terminal is the shell's. */
    lemma ModesAccounted()
      requires Valid() && guard.linked && guard.tty.console.steady
      ensures var m := guard.tty.console.modes;
        && m.on * Tty.OWNED == (if active then Tty.Chosen(flags) else {Tty.AUTOWRAP})
        && m.keys == (if active && enhanced then 1 else 0)
        && m.titles == (if titleSaved then 1 else 0)
        && guard.tty.console.raw == active && guard.tty.active == active
        && (Barred(trace) ==> Tty.Shell(m.on) && m.keys == 0 && m.titles == 0 && !guard.tty.console.raw)
    {
      hide Account, Fed, Shape, Untouched, Tty.Bit, Tty.Chosen, Tty.InitFlags;
    }

    lemma LawfulCore()
      requires Core()
      ensures Lawful(trace)
    {
    }

    /** For an owner whose credits wait for Ready: what was sent, what waits and what is buffered are together exactly
        what everything read says, so what was sent is always a first part of it. */
    lemma NothingLost()
      requires Core() && polite
      ensures Raw(probes, items) == fetched && Honest(probes, items) && cooked == Cooked(probes, items)
      ensures Replay(probes, items).1 ==
        Events(trace) + InputStream.Opt(pendingScroll) + InputStream.FeedAll(parser.Value(), input[start..end]).1
      ensures Events(trace) <= Replay(probes, items).1
    {
      hide Account, Balance, Input.Parser.Valid, Replay, Raw, Events, Honest, Cooked, Accounted;
    }

    /** Only suspensions take a wheel event away, and each takes at most one: when the `i`th read's was taken, the
        credit was withdrawn and everything that had arrived before that read had been sent. */
    lemma OnlySuspensionsDrop(i: nat)
      requires Core() && polite && i < |items| && items[i].Dropped?
      ensures items[i].at < |trace| && trace[items[i].at] == Revoked
      ensures Events(trace[..items[i].at]) == Replay(probes, items[..i]).1
      ensures Drops(items) <= Withdrawals(trace)
    {
      hide Account, Balance, Input.Parser.Valid, Replay, Raw, Events, Honest, Cooked, Conserved;
      DropsCounted(probes, items, trace);
    }

    /** A bracketed paste among everything that arrived, `k` of its bytes in the reads before `during`, the others in
        `during` with a tail behind them. The owner gets it as one event, or, if a wait ran out right after its first
        byte, gets the Escape key instead; and once nothing waits, it has got it. */
    lemma PasteDelivered(before: seq<Item>, during: seq<Item>, after: seq<Item>, es: seq<Input.Event>,
                         payload: seq<byte>, k: nat, tail: seq<byte>)
      requires Core() && polite && items == before + during + after && during != [] && Pastes.NoEnd(during)
      requires InputPaste.FirstEnd(payload) && k < |Pastes.Bracketed(payload)|
      requires Pastes.At(Replay(probes, before), es, Pastes.Bracketed(payload)[..k])
      requires Arrivals.Stream(during) == Pastes.Bracketed(payload)[k..] + tail
      requires k + |Arrivals.Stream(during[..|during| - 1])| < |Pastes.Bracketed(payload)|
      ensures var next := Pastes.Following(during, k, payload, tail);
        && es + next <= Replay(probes, items).1
        && (|es| < |Events(trace)| ==> Events(trace)[|es|] == next[0])
        && (start == end && pendingScroll.None? ==> es + next <= Events(trace))
    {
      hide Core, Replay, Events, Honest, Arrivals.Stream, InputPaste.FirstEnd, Pastes.Bracketed, Pastes.At;
      hide InputPaste.Outcome, InputStream.FeedAll, Tallied, Raw, Pastes.Uninterrupted, Cooked;
      NothingLost();
      InBuffer();
      if start == end {
        Emptied();
      }
      assert (before + during + after)[..|before + during|] == before + during;
      Pastes.HonestPrefix(probes, items, |before + during|);
      Pastes.PasteIntact(probes, before, during, es, payload, k, tail);
      Pastes.Grows(probes, before + during, after);
      var fed := InputStream.FeedAll(Input.START, tail).1;
      assert es + ([InputPaste.Outcome(payload)] + fed) == es + [InputPaste.Outcome(payload)] + fed;
      var rest := InputStream.FeedAll(parser.Value(), input[start..end]).1;
      var next := Pastes.Following(during, k, payload, tail);
      SentNext(Replay(probes, items).1, Events(trace), InputStream.Opt(pendingScroll), rest, es, next);
    }

    /** The same of a paste that began in what was typed before the first Ready, `s` of it. */
    lemma TypedPasteDelivered(during: seq<Item>, after: seq<Item>, head: seq<byte>, s: seq<byte>, payload: seq<byte>,
                              tail: seq<byte>)
      requires Core() && polite && items == during + after && during != [] && Pastes.NoEnd(during)
      requires InputPaste.FirstEnd(payload) && |s| < |Pastes.Bracketed(payload)|
      requires Typeahead(probes) == head + s && s <= Pastes.Bracketed(payload)
      requires InputStream.FeedAll(Input.START, head).0 == Input.START
      requires Arrivals.Stream(during) == Pastes.Bracketed(payload)[|s|..] + tail
      requires |s| + |Arrivals.Stream(during[..|during| - 1])| < |Pastes.Bracketed(payload)|
      ensures var es, next := InputStream.FeedAll(Input.START, head).1, Pastes.Following(during, |s|, payload, tail);
        && es + next <= Replay(probes, items).1
        && (|es| < |Events(trace)| ==> Events(trace)[|es|] == next[0])
        && (start == end && pendingScroll.None? ==> es + next <= Events(trace))
    {
      hide Core, Replay, Events, Arrivals.Stream, InputPaste.FirstEnd, Pastes.Bracketed, Pastes.At, InputStream.FeedAll;
      hide Pastes.Following, Typeahead;
      Pastes.BeginsTyped(probes, head, s);
      assert Pastes.Bracketed(payload)[..|s|] == s && [] + during + after == items;
      PasteDelivered([], during, after, InputStream.FeedAll(Input.START, head).1, payload, |s|, tail);
    }

    lemma InBuffer()
      requires Core()
      ensures start <= end <= input.Length && parser.Valid()
    {
    }

    lemma Emptied()
      requires Core() && start == end
      ensures InputStream.FeedAll(parser.Value(), input[start..end]).1 == []
    {
      assert input[start..end] == [];
    }
  }

  /** A terminal from a shell's hands through a whole session and back: every packet in order, nothing lost, and after
      the guard's last restoration the shell has its terminal again. */
  method Live(tmux: bool, turns: nat, ghost modes: Tty.Modes) returns (failure: Option<Reason>, session: Session)
    requires Tty.Shell(modes.on) && modes.keys == 0 && modes.titles == 0
    ensures session.Core() && Lawful(session.trace)
    ensures session.guard.tty.console.steady ==>
      var m := session.guard.tty.console.modes;
      Tty.Shell(m.on) && m.keys == 0 && m.titles == 0 && !session.guard.tty.console.raw
  {
    var console := new Tty.Console(modes);
    var tty := new Tty.Tty(console);
    var guard := new Tty.Guard(tty);
    hide Session.Valid, Session.Core;
    session := new Session(guard, tmux);
    var r := session.Run(turns);
    failure := session.Close(r);
    var reaped := session.Reap();
    session.LawfulCore();
  }

  /** The count of typed bytes is the one the items leave, and every dropped wheel event was taken away by a suspension
      of its own: a withdrawal of every credit at which all that had arrived before it had been sent. */
  ghost predicate Tallied(probes: seq<Probed>, items: seq<Item>, trace: seq<Entry>, cooked: nat) {
    cooked == Cooked(probes, items) && Accounted(probes, items, trace)
  }

  ghost predicate Accounted(probes: seq<Probed>, items: seq<Item>, trace: seq<Entry>) {
    && (forall i :: 0 <= i < |items| && items[i].Dropped? ==> Withdrawn(probes, items[..i], trace, items[i].at))
    && (forall i, j :: 0 <= i < j < |items| && items[i].Dropped? && items[j].Dropped? ==> items[i].at < items[j].at)
  }

  ghost predicate Withdrawn(probes: seq<Probed>, items: seq<Item>, trace: seq<Entry>, at: nat) {
    at < |trace| && trace[at] == Revoked && Events(trace[..at]) == Replay(probes, items).1
  }

  lemma TalliedOn(probes: seq<Probed>, items: seq<Item>, t: seq<Entry>, u: seq<Entry>, cooked: nat)
    requires t <= u
    ensures Tallied(probes, items, t, cooked) ==> Tallied(probes, items, u, cooked)
  {
    hide Cooked, Replay, Events;
    if Tallied(probes, items, t, cooked) {
      forall i | 0 <= i < |items| && items[i].Dropped? ensures Withdrawn(probes, items[..i], u, items[i].at) {
        assert Withdrawn(probes, items[..i], t, items[i].at);
        assert u[..items[i].at] == t[..items[i].at];
      }
    }
  }

  lemma TalliedItem(probes: seq<Probed>, items: seq<Item>, trace: seq<Entry>, cooked: nat, item: Item)
    requires Tallied(probes, items, trace, cooked) && !item.Dropped? && (item.Carries() ==> item.cooked == cooked)
    ensures Tallied(probes, items + [item], trace,
                    if item.Taken? then item.cooked
                    else if item.Carries() then Left(cooked, |item.raw|) else cooked)
  {
    hide Cooked, Replay, Events, Withdrawn;
    Snoc(probes, items, item);
    var all := items + [item];
    forall i | 0 <= i < |all| && all[i].Dropped? ensures Withdrawn(probes, all[..i], trace, all[i].at) {
      assert all[..i] == items[..i] && all[i] == items[i];
    }
  }

  lemma TalliedCount(probes: seq<Probed>, items: seq<Item>, trace: seq<Entry>, cooked: nat)
    requires Tallied(probes, items, trace, cooked)
    ensures cooked == Cooked(probes, items)
  {
  }

  lemma TalliedNothing(probes: seq<Probed>, trace: seq<Entry>, cooked: nat)
    requires cooked == Cooked(probes, [])
    ensures Tallied(probes, [], trace, cooked)
  {
  }

  lemma TalliedBegan(probes: seq<Probed>, trace: seq<Entry>, cooked: nat, count: nat)
    ensures Tallied(probes + [Began(count)], [], trace, count)
  {
  }

  /** A suspension takes the waiting wheel event away. */
  lemma TalliedDrop(probes: seq<Probed>, items: seq<Item>, trace: seq<Entry>, cooked: nat,
                    waiting: Option<Input.Event>, parser: Input.Parser, buffer: seq<byte>)
    requires Tallied(probes, items, trace, cooked)
    requires parser.Valid() && Conserved(probes, items, Events(trace), waiting, parser, buffer)
    ensures Tallied(probes, Dropping(items, waiting, |trace|), trace + [Revoked], cooked)
  {
    hide Cooked, Replay, Events, Conserved, Honest, Withdrawn;
    TalliedOn(probes, items, trace, trace + [Revoked], cooked);
    Suspended(probes, items, Events(trace), waiting, parser, buffer, |trace|);
    if waiting.Some? {
      Waits(probes, items, Events(trace), waiting, parser, buffer);
      var front := items[..|items| - 1];
      AtWithdrawal(probes, front, trace);
      OneMoreDropped(probes, items, trace, Dropping(items, waiting, |trace|));
    }
  }

  lemma OneMoreDropped(probes: seq<Probed>, items: seq<Item>, trace: seq<Entry>, all: seq<Item>)
    requires Accounted(probes, items, trace) && items != []
    requires |all| == |items| && all[..|all| - 1] == items[..|items| - 1]
    requires all[|all| - 1].Dropped? && all[|all| - 1].at == |trace|
    requires Withdrawn(probes, all[..|all| - 1], trace + [Revoked], |trace|)
    ensures Accounted(probes, all, trace + [Revoked])
  {
    hide Replay, Events, Withdrawn;
    var n := |items| - 1;
    assert forall i :: 0 <= i < n ==> all[i] == all[..n][i] == items[..n][i] == items[i];
    forall i | 0 <= i < |all| && all[i].Dropped?
      ensures Withdrawn(probes, all[..i], trace + [Revoked], all[i].at)
      ensures i < n ==> all[i].at < |trace|
    {
      if i < n {
        assert all[..i] == all[..n][..i] && items[..i] == items[..n][..i];
        StillWithdrawn(probes, items[..i], trace, items[i].at);
      }
    }
  }

  lemma StillWithdrawn(probes: seq<Probed>, items: seq<Item>, trace: seq<Entry>, at: nat)
    requires Withdrawn(probes, items, trace, at)
    ensures at < |trace| && Withdrawn(probes, items, trace + [Revoked], at)
  {
    assert (trace + [Revoked])[..at] == trace[..at];
  }

  lemma Waits(probes: seq<Probed>, items: seq<Item>, sent: seq<Input.Event>, waiting: Option<Input.Event>,
              parser: Input.Parser, buffer: seq<byte>)
    requires parser.Valid() && Conserved(probes, items, sent, waiting, parser, buffer) && waiting.Some?
    ensures items != [] && items[|items| - 1].Burst?
  {
  }

  lemma AtWithdrawal(probes: seq<Probed>, items: seq<Item>, trace: seq<Entry>)
    requires Events(trace) == Replay(probes, items).1
    ensures Withdrawn(probes, items, trace + [Revoked], |trace|)
  {
    assert (trace + [Revoked])[..|trace|] == trace;
  }

  /** Of everything that is to come, what has been sent is a first part. */
  lemma SentNext(all: seq<Input.Event>, sent: seq<Input.Event>, waiting: seq<Input.Event>, rest: seq<Input.Event>,
                 es: seq<Input.Event>, next: seq<Input.Event>)
    requires all == sent + waiting + rest && es + next <= all && next != []
    ensures |es| < |sent| ==> sent[|es|] == next[0]
    ensures waiting == [] && rest == [] ==> es + next <= sent
  {
    assert (es + next)[|es|] == next[0];
    assert |es| < |sent| ==> all[|es|] == sent[|es|];
  }

  /** Wheel events taken away, and credits withdrawn. */
  function Drops(items: seq<Item>): nat {
    if items == [] then 0 else Drops(items[..|items| - 1]) + if items[|items| - 1].Dropped? then 1 else 0
  }

  function Withdrawals(t: seq<Entry>): nat {
    if t == [] then 0 else Withdrawals(t[..|t| - 1]) + if t[|t| - 1].Revoked? then 1 else 0
  }

  lemma {:induction false} WithdrawalsGrow(t: seq<Entry>, n: nat)
    requires n <= |t|
    ensures Withdrawals(t[..n]) <= Withdrawals(t)
    decreases |t|
  {
    if n == |t| {
      assert t[..n] == t;
    } else {
      WithdrawalsGrow(t[..|t| - 1], n);
      assert t[..|t| - 1][..n] == t[..n];
    }
  }

  lemma {:induction false} DropsCounted(probes: seq<Probed>, items: seq<Item>, trace: seq<Entry>)
    requires Accounted(probes, items, trace)
    ensures Drops(items) <= Withdrawals(trace)
    decreases |items|
  {
    hide Replay, Events;
    if items == [] {
    } else {
      var front, last := items[..|items| - 1], items[|items| - 1];
      var n := if last.Dropped? then last.at else |trace|;
      assert items[..|items| - 1] == front;
      forall i | 0 <= i < |front| && front[i].Dropped? ensures Withdrawn(probes, front[..i], trace[..n], front[i].at) {
        assert front[..i] == items[..i] && front[i] == items[i];
        assert Withdrawn(probes, items[..i], trace, items[i].at);
        assert trace[..n][..items[i].at] == trace[..items[i].at];
      }
      DropsCounted(probes, front, trace[..n]);
      if last.Dropped? {
        var upTo := trace[..n + 1];
        assert upTo[..n] == trace[..n];
        WithdrawalsGrow(trace, n + 1);
      } else {
        assert trace[..n] == trace;
      }
    }
  }

  lemma ConservedChain(probes: seq<Probed>, buffer: seq<byte>)
    requires Conserved(probes, [], [], None, Input.START, buffer)
    ensures Chained(probes)
  {
  }

  /** The terminal may have been taken anew meanwhile, and nothing else arrived. */
  predicate Retaken(before: seq<Item>, items: seq<Item>) {
    items == before || (|items| == |before| + 1 && items[..|before|] == before && items[|before|].Taken?)
  }

  lemma Arrows()
    ensures ScrollOf(TWO_UPS, 0) == Some(Input.Scroll(true, 2))
    ensures ScrollOf(TWO_DOWNS, 0) == Some(Input.Scroll(false, 2))
  {
    hide InputBuffer.ArrowBurst;
    var up, down := InputBuffer.UPS[0], InputBuffer.DOWNS[0];
    assert InputBuffer.Entered(TWO_UPS, 0) == TWO_UPS == up + (up + []) == InputBuffer.Times(up, 2);
    assert InputBuffer.Entered(TWO_DOWNS, 0) == TWO_DOWNS == down + (down + []) == InputBuffer.Times(down, 2);
    InputBuffer.BurstExact(TWO_UPS, up, 2);
    InputBuffer.BurstExact(TWO_DOWNS, down, 2);
    assert down[2] != InputBuffer.UPS[0][2] && down[2] != InputBuffer.UPS[1][2];
  }

  lemma GoodParts(c: Command)
    requires GoodCommand(c)
    ensures c.Token().Some? ==> Word(c.token)
    ensures c.Init? ==> Word(c.generation) && Tty.InitFlags(c.flags)
  {
  }

  lemma NothingBarred()
    ensures !Barred([])
  {
  }

  /** The mouse choice keeps the flags init flags, and the alternate screen. */
  lemma Choice(flags: nat, on: bool)
    requires Tty.InitFlags(flags)
    ensures Tty.InitFlags(Tty.WithMouse(flags, on)) && Tty.Bit(Tty.WithMouse(flags, on), 1) == Tty.Bit(flags, 1)
  {
  }

  lemma GoodSequence(sequence: nat, body: seq<byte>)
    requires GoodCommand(Protocol.Draw(sequence, body))
    ensures Word(sequence)
  {
    var f :| Frame.WellFormed(f) && Frame.Encode(f) == body && f.header.sequence == sequence;
    HeaderWords(f);
  }

  lemma HeaderWords(f: Frame.DrawFrame)
    requires Frame.WellFormed(f)
    ensures Word(f.header.sequence) && Word(f.header.revision)
  {
    hide Frame.GoodGlyphs, Frame.Encode;
  }

  /** The buffer without its complete answers, after one more read. */
  ghost function Sifted(before: seq<byte>, raw: seq<byte>, cooked: nat): (seq<byte>, InputBuffer.Found) {
    InputBuffer.WithoutReplies(before + InputBuffer.Entered(raw, cooked), InputBuffer.NOTHING_FOUND)
  }

  /** Flags are an activation request and nothing else; the other requests are no flags. */
  lemma Requests(flags: nat)
    requires Tty.InitFlags(flags)
    ensures flags < 256 && flags !in {Tty.RESTORE, Tty.MOUSE_ON, Tty.MOUSE_OFF, Tty.KITTY_PUSH}
    ensures !Tty.InitFlags(Tty.RESTORE) && !Tty.InitFlags(Tty.MOUSE_ON)
    ensures !Tty.InitFlags(Tty.MOUSE_OFF) && !Tty.InitFlags(Tty.KITTY_PUSH)
  {
  }

  /** The enhanced-keys bit is no init flag. */
  lemma WithEnhanced(flags: nat)
    requires Tty.InitFlags(flags)
    ensures flags + ENHANCED_KEYS < 256 && (flags + ENHANCED_KEYS) % ENHANCED_KEYS == flags
    ensures flags % ENHANCED_KEYS == flags
  {
  }

  lemma NothingSent()
    ensures Lawful([]) && Outstanding([]) == None && !Barred([]) && Events([]) == []
  {
  }

  lemma StartValid()
    ensures Input.START.Valid() && Input.START.state != Input.Escaped
  {
  }

  lemma NothingArrived(buffer: seq<byte>)
    requires buffer == []
    ensures Raw([], []) == [] && Typeahead([]) == buffer
    ensures Conserved([], [], [], None, Input.START, buffer) && Tallied([], [], [], 0)
  {
    Arrivals.Nothing(Input.START, []);
    assert InputStream.FeedAll(Input.START, Typeahead([])) == (Input.START, []);
  }
}
