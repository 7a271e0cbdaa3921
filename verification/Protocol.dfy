/** The version-one bodies of the terminal port: commands from the owner, responses and events to it. */
module Protocol {
  import opened Bytes
  import opened Input
  import Frame
  import FrameCodec
  import Framer
  import InputBuffer
  import Tty
  import Utf8

  const MAX_COPY_BYTES: nat := 65_536
  const MAX_NOTIFY_BYTES: nat := 512
  const MAX_RESPONSE_BYTES: nat := 262_167
  const ENHANCED_KEYS: nat := 128

  // ----- Commands -----

  datatype NotifyKind = Bell | Notification | Title

  datatype Command =
    | Init(generation: nat, flags: nat)
    | Credit(generation: nat, token: nat)
    | Draw(sequence: nat, body: seq<byte>)
    | Shutdown(generation: nat, token: nat)
    | Suspend(generation: nat, token: nat)
    | Resume(generation: nat, token: nat)
    | Copy(generation: nat, token: nat, text: seq<byte>)
    | Mouse(generation: nat, token: nat, on: bool)
    | Notify(generation: nat, token: nat, kind: NotifyKind, text: seq<byte>)
    | Redraw(generation: nat, token: nat)
  {
    /** Draw inherits the connection's generation. */
    function Generation(): Option<nat> {
      if Draw? then None else Some(generation)
    }

    function Token(): Option<nat> {
      if Draw? || Init? then None else Some(token)
    }
  }

  /** Line feeds and tabs are kept, every other control and the bidirectional overrides refused. */
  predicate Pasteable(s: seq<byte>)
    requires Utf8.Valid(s)
  {
    forall v :: v in Utf8.Scalars(s) ==> (Utf8.IsControl(v) ==> v == 10 || v == 9) && !Utf8.IsBidi(v)
  }

  predicate NoControl(s: seq<byte>)
    requires Utf8.Valid(s)
  {
    forall v :: v in Utf8.Scalars(s) ==> !Utf8.IsControl(v)
  }

  predicate CopyText(s: seq<byte>) {
    1 <= |s| <= MAX_COPY_BYTES && Utf8.Valid(s) && Pasteable(s)
  }

  /** A notification does not start with a digit. */
  predicate NotifyText(kind: NotifyKind, s: seq<byte>) {
    && |s| <= MAX_NOTIFY_BYTES && Utf8.Valid(s) && NoControl(s)
    && (kind == Notification && s != [] ==> !Digit(s[0]))
  }

  predicate Word(n: nat) {
    n < Pow256(8)
  }

  ghost predicate GoodCommand(c: Command) {
    match c
    case Init(generation, flags) => Word(generation) && Tty.InitFlags(flags)
    case Copy(generation, token, text) => Word(generation) && Word(token) && CopyText(text)
    case Notify(generation, token, kind, text) => Word(generation) && Word(token) && NotifyText(kind, text)
    case Draw(sequence, body) =>
      exists f :: Frame.WellFormed(f) && Frame.Encode(f) == body && f.header.sequence == sequence
    case _ => Word(c.generation) && Word(c.token)
  }

  /** Version, tag, generation and token. */
  function Front(tag: byte, generation: nat, token: nat): (s: seq<byte>)
    ensures |s| == 18
  {
    [1, tag] + Be(generation, 8) + Be(token, 8)
  }

  function KindCode(kind: NotifyKind): byte {
    match kind
    case Bell => 0
    case Notification => 1
    case Title => 2
  }

  /** What the terminal is sent: BEL, OSC 9 or OSC 2. */
  function NotifyBytes(kind: NotifyKind, text: seq<byte>): seq<byte> {
    match kind
    case Bell => [7]
    case Notification => [0x1b, 0x5d, 0x39, 0x3b] + text + [7]
    case Title => [0x1b, 0x5d, 0x32, 0x3b] + text + [7]
  }

  /** The wire layout of a command. */
  function CommandBytes(c: Command): seq<byte> {
    match c
    case Init(generation, flags) => [1, 1] + Be(generation, 8) + [flags % 256]
    case Credit(generation, token) => Front(2, generation, token)
    case Draw(_, body) => body
    case Shutdown(generation, token) => Front(4, generation, token)
    case Suspend(generation, token) => Front(5, generation, token)
    case Resume(generation, token) => Front(6, generation, token)
    case Copy(generation, token, text) => Front(7, generation, token) + Be(|text|, 4) + text
    case Mouse(generation, token, on) => Front(8, generation, token) + [if on then 1 else 0]
    case Notify(generation, token, kind, text) =>
      Front(9, generation, token) + [KindCode(kind)] + Be(|text|, 2) + text
    case Redraw(generation, token) => Front(10, generation, token)
  }

  function DecodeMouse(b: seq<byte>): Option<Command> {
    if |b| != 19 || b[18] > 1 then None
    else Some(Mouse(Value(b[2..10]), Value(b[10..18]), b[18] == 1))
  }

  function DecodeNotify(b: seq<byte>): Option<Command> {
    if |b| < 21 then None
    else
      var generation, token := Value(b[2..10]), Value(b[10..18]);
      if b[18] > 2 then None
      else
        var kind := if b[18] == 0 then Bell else if b[18] == 1 then Notification else Title;
        var length := Value(b[19..21]);
        if length > MAX_NOTIFY_BYTES || |b| != 21 + length then None
        else if !Utf8.Valid(b[21..]) || !NoControl(b[21..]) then None
        else if kind == Notification && |b| > 21 && Digit(b[21]) then None
        else Some(Notify(generation, token, kind, b[21..]))
  }

  function DecodeCopy(b: seq<byte>): Option<Command> {
    if |b| < 23 then None
    else
      var generation, token := Value(b[2..10]), Value(b[10..18]);
      var length := Value(b[18..22]);
      if !(1 <= length <= MAX_COPY_BYTES) || |b| != 22 + length then None
      else if !Utf8.Valid(b[22..]) || !Pasteable(b[22..]) then None
      else Some(Copy(generation, token, b[22..]))
  }

  /** Every command but Draw. */
  function DecodeControl(b: seq<byte>): Option<Command>
    requires |b| >= 2
  {
    if b[1] == 7 then DecodeCopy(b)
    else if b[1] == 8 then DecodeMouse(b)
    else if b[1] == 9 then DecodeNotify(b)
    else if b[1] == 1 then
      if |b| != 11 || !Tty.InitFlags(b[10]) then None else Some(Init(Value(b[2..10]), b[10]))
    else if b[1] !in {2, 4, 5, 6, 10} || |b| != 18 then None
    else
      var generation, token := Value(b[2..10]), Value(b[10..18]);
      Some(if b[1] == 2 then Credit(generation, token)
           else if b[1] == 4 then Shutdown(generation, token)
           else if b[1] == 5 then Suspend(generation, token)
           else if b[1] == 6 then Resume(generation, token)
           else Redraw(generation, token))
  }

  lemma FrontParts(tag: byte, generation: nat, token: nat, rest: seq<byte>)
    requires Word(generation) && Word(token)
    ensures var b := Front(tag, generation, token) + rest;
      && b[0] == 1 && b[1] == tag && Value(b[2..10]) == generation && Value(b[10..18]) == token
      && b[18..] == rest && |b| == 18 + |rest|
  {
    var b := Front(tag, generation, token) + rest;
    assert b[2..10] == Be(generation, 8) && b[10..18] == Be(token, 8);
    ValueOfBe(generation, 8);
    ValueOfBe(token, 8);
  }

  lemma FrontWhole(b: seq<byte>)
    requires |b| >= 18 && b[0] == 1
    ensures Word(Value(b[2..10])) && Word(Value(b[10..18]))
    ensures Front(b[1], Value(b[2..10]), Value(b[10..18])) + b[18..] == b
  {
    BeOfValue(b[2..10]);
    BeOfValue(b[10..18]);
    assert b[..2] == [1, b[1]];
    assert b == b[..2] + b[2..10] + b[10..18] + b[18..];
  }

  predicate Plain(c: Command) {
    c.Credit? || c.Shutdown? || c.Suspend? || c.Resume? || c.Redraw?
  }

  /** Every well-formed command other than a draw is read back from its bytes. */
  lemma ControlComplete(c: Command)
    requires GoodCommand(c) && !c.Draw?
    ensures var b := CommandBytes(c); |b| >= 2 && b[0] == 1 && b[1] != 3 && DecodeControl(b) == Some(c)
  {
    hide CopyText, NotifyText, DecodeCopy, DecodeNotify;
    Widths();
    var b := CommandBytes(c);
    if c.Init? {
      assert b[2..10] == Be(c.generation, 8);
      ValueOfBe(c.generation, 8);
    } else if Plain(c) {
      FrontParts(b[1], c.generation, c.token, []);
      assert b + [] == b;
    } else if c.Mouse? {
      FrontParts(8, c.generation, c.token, [if c.on then 1 else 0]);
      assert b[18..][0] == b[18];
    } else if c.Copy? {
      CopyComplete(c);
    } else {
      NotifyComplete(c);
    }
  }

  lemma CopyComplete(c: Command)
    requires GoodCommand(c) && c.Copy?
    ensures DecodeCopy(CommandBytes(c)) == Some(c) && CommandBytes(c)[..2] == [1, 7]
  {
    hide Utf8.Valid, Pasteable;
    Widths();
    var b, rest := CommandBytes(c), Be(|c.text|, 4) + c.text;
    assert b == Front(7, c.generation, c.token) + rest;
    FrontParts(7, c.generation, c.token, rest);
    assert b[18..22] == rest[..4] == Be(|c.text|, 4);
    assert b[22..] == rest[4..] == c.text;
    ValueOfBe(|c.text|, 4);
  }

  lemma NotifyComplete(c: Command)
    requires GoodCommand(c) && c.Notify?
    ensures DecodeNotify(CommandBytes(c)) == Some(c) && CommandBytes(c)[..2] == [1, 9]
  {
    hide Utf8.Valid, NoControl;
    Widths();
    var b, rest := CommandBytes(c), [KindCode(c.kind)] + Be(|c.text|, 2) + c.text;
    assert b == Front(9, c.generation, c.token) + rest;
    FrontParts(9, c.generation, c.token, rest);
    assert b[18] == rest[0] && b[19..21] == rest[1..3] == Be(|c.text|, 2);
    assert b[21..] == rest[3..] == c.text;
    ValueOfBe(|c.text|, 2);
  }

  /** Whatever is read is well formed and has just these bytes. */
  lemma ControlSound(b: seq<byte>)
    requires |b| >= 2 && b[0] == 1 && b[1] != 3 && DecodeControl(b).Some?
    ensures var c := DecodeControl(b).value; GoodCommand(c) && !c.Draw? && CommandBytes(c) == b
  {
    hide CopyText, NotifyText;
    Widths();
    var c := DecodeControl(b).value;
    if c.Init? {
      BeOfValue(b[2..10]);
      assert b == b[..2] + b[2..10] + b[10..] && b[..2] == [1, 1] && b[10..] == [b[10]];
    } else {
      FrontWhole(b);
      if Plain(c) {
        assert b[18..] == [];
        assert Front(b[1], c.generation, c.token) + [] == Front(b[1], c.generation, c.token);
      } else if c.Mouse? {
        assert b[18..] == [b[18]];
      } else if c.Copy? {
        CopySound(b);
      } else {
        NotifySound(b);
      }
    }
  }

  lemma CopySound(b: seq<byte>)
    requires |b| >= 2 && b[0] == 1 && b[1] == 7 && DecodeCopy(b).Some?
    ensures GoodCommand(DecodeCopy(b).value) && CommandBytes(DecodeCopy(b).value) == b
  {
    hide Utf8.Valid, Pasteable, Front;
    var text := b[22..];
    FrontWhole(b);
    BeOfValue(b[18..22]);
    var front := Front(7, Value(b[2..10]), Value(b[10..18]));
    assert b[18..] == Be(|text|, 4) + text;
    assert front + (Be(|text|, 4) + text) == front + Be(|text|, 4) + text;
  }

  lemma NotifySound(b: seq<byte>)
    requires |b| >= 2 && b[0] == 1 && b[1] == 9 && DecodeNotify(b).Some?
    ensures GoodCommand(DecodeNotify(b).value) && CommandBytes(DecodeNotify(b).value) == b
  {
    hide Utf8.Valid, NoControl;
    var c, text := DecodeNotify(b).value, b[21..];
    FrontWhole(b);
    BeOfValue(b[19..21]);
    assert text != [] ==> text[0] == b[21];
    assert b[18..] == [KindCode(c.kind)] + Be(|text|, 2) + text;
  }

  /** A draw body carries its own tag. */
  lemma DrawTag(f: Frame.DrawFrame)
    ensures |Frame.Encode(f)| >= 2 && Frame.Encode(f)[..2] == [1, 3]
  {
    assert Frame.EncodeFixed(f.header)[..2] == [1, 3];
    assert Frame.Encode(f)[..2] == Frame.EncodeFixed(f.header)[..2];
  }

  /** The first two bytes of a well-formed command. */
  lemma Tagged(c: Command)
    requires GoodCommand(c)
    ensures var b := CommandBytes(c); 2 <= |b| <= Framer.MAX_COMMAND_BYTES && b[0] == 1 && (b[1] == 3 <==> c.Draw?)
  {
    if c.Draw? {
      var f :| Frame.WellFormed(f) && Frame.Encode(f) == c.body && f.header.sequence == c.sequence;
      DrawTag(f);
      assert c.body[0] == c.body[..2][0] && c.body[1] == c.body[..2][1];
    } else {
      ControlComplete(c);
    }
  }

  method DecodeDraw(body: seq<byte>) returns (r: Option<Command>)
    ensures r.Some? ==> GoodCommand(r.value) && CommandBytes(r.value) == body
    ensures forall f :: Frame.WellFormed(f) && Frame.Encode(f) == body ==> r == Some(Draw(f.header.sequence, body))
  {
    hide Frame.WellFormed, Frame.Encode;
    var frame := FrameCodec.Decode(body);
    if frame.Err? {
      return None;
    }
    return Some(Draw(frame.value.header.sequence, body));
  }

  /** One complete body: accepted exactly when it is the encoding of a well-formed command, which it then gives. */
  method DecodeCommand(body: seq<byte>) returns (r: Option<Command>)
    ensures r.Some? ==> GoodCommand(r.value) && CommandBytes(r.value) == body
    ensures forall c :: GoodCommand(c) && CommandBytes(c) == body ==> r == Some(c)
  {
    hide Frame.WellFormed, Frame.Encode, DecodeControl, CommandBytes, GoodCommand;
    forall c | GoodCommand(c) && CommandBytes(c) == body
      ensures 2 <= |body| <= Framer.MAX_COMMAND_BYTES && body[0] == 1 && (body[1] == 3 <==> c.Draw?)
    {
      Tagged(c);
    }
    if |body| > Framer.MAX_COMMAND_BYTES || |body| < 2 || body[0] != 1 {
      return None;
    }
    if body[1] == 3 {
      r := DecodeDraw(body);
      forall c | GoodCommand(c) && CommandBytes(c) == body ensures r == Some(c) {
        OneDraw(c, body, r);
      }
      return;
    }
    r := DecodeControl(body);
    if r.Some? {
      ControlSound(body);
    }
    forall c | GoodCommand(c) && CommandBytes(c) == body ensures r == Some(c) {
      ControlComplete(c);
    }
  }

  lemma OneDraw(c: Command, body: seq<byte>, r: Option<Command>)
    requires c.Draw? && GoodCommand(c) && CommandBytes(c) == body
    requires forall f :: Frame.WellFormed(f) && Frame.Encode(f) == body ==> r == Some(Draw(f.header.sequence, body))
    ensures r == Some(c)
  {
  }

  // ----- Events -----

  function PhaseCode(phase: Phase): byte {
    match phase
    case Press => 0
    case Repeat => 1
    case Release => 2
  }

  /** Keys with no code do not exist. */
  predicate GoodKey(key: Key) {
    key.F? ==> 1 <= key.number <= 12
  }

  function KeyCode(key: Key): byte
    requires GoodKey(key)
  {
    match key
    case Backspace => 0
    case Enter => 1
    case Left => 2
    case Right => 3
    case Up => 4
    case Down => 5
    case Home => 6
    case End => 7
    case PageUp => 8
    case PageDown => 9
    case Tab => 10
    case BackTab => 11
    case Delete => 12
    case Insert => 13
    case Escape => 14
    case Null => 15
    case CapsLock => 16
    case ScrollLock => 17
    case NumLock => 18
    case PrintScreen => 19
    case Pause => 20
    case Menu => 21
    case KeypadBegin => 22
    case F(number) => 31 + number
  }

  function ReasonCode(reason: Rejection): byte {
    match reason
    case InvalidUtf8 => 0
    case TextFragmentTooLarge => 1
    case PasteTooLarge => 2
  }

  /** The values the event type holds. */
  predicate GoodEvent(e: Event) {
    match e
    case KeyEvent(_, key, modifiers) => GoodKey(key) && modifiers < 64
    case Text(_, text, modifiers) => Utf8.Valid(text) && modifiers < 64
    case Pasted(text) => Utf8.Valid(text)
    case Wheel(_, column, row, modifiers) => column < 0x1_0000 && row < 0x1_0000 && modifiers < 64
    case Scroll(_, count) => count < 256
    case _ => true
  }

  /** What the encoder accepts of them. */
  predicate Admitted(e: Event) {
    match e
    case Text(_, text, _) => 1 <= |text| <= 4096
    case Pasted(text) => |text| <= 262_144
    case Scroll(_, count) => 1 <= count <= InputBuffer.MAX_SCROLL_COUNT
    case _ => true
  }

  /** The kind and what follows it. */
  function EventBytes(e: Event): (s: seq<byte>)
    requires GoodEvent(e)
    ensures 1 <= |s|
  {
    match e
    case KeyEvent(phase, key, modifiers) => [0, PhaseCode(phase), KeyCode(key), modifiers]
    case Text(phase, text, modifiers) => [1, PhaseCode(phase), modifiers] + Be(|text|, 2) + text
    case Pasted(text) => [2] + Be(|text|, 4) + text
    case Rejected(reason) => [3, ReasonCode(reason)]
    case FocusGained => [4]
    case FocusLost => [5]
    case Wheel(up, column, row, modifiers) =>
      [6, if up then 0 else 1, modifiers] + Be(column, 2) + Be(row, 2)
    case Scroll(up, count) => [7, if up then 1 else 0, count]
  }

  // ----- Responses -----

  datatype Packet =
    | Ready(generation: nat, columns: nat, rows: nat, flags: nat)
    | InputEvent(generation: nat, token: nat, event: Event)
    | Painted(generation: nat, sequence: nat, revision: nat)
    | Restored(generation: nat, token: nat, suspended: bool)
    | Resize(generation: nat, token: nat, columns: nat, rows: nat)
    | Failure(generation: nat, reason: nat)
    | Skipped(generation: nat, sequence: nat, revision: nat)
    | ResumeNeeded(generation: nat)

  predicate Size(columns: nat, rows: nat) {
    1 <= columns < 0x1_0000 && 1 <= rows < 0x1_0000
  }

  predicate GoodPacket(p: Packet) {
    && Word(p.generation)
    && match p
       case Ready(_, columns, rows, flags) =>
         Size(columns, rows) && flags < 256 && Tty.InitFlags(flags % ENHANCED_KEYS)
       case InputEvent(_, token, event) => Word(token) && GoodEvent(event) && Admitted(event)
       case Painted(_, sequence, revision) => Word(sequence) && Word(revision)
       case Skipped(_, sequence, revision) => Word(sequence) && Word(revision)
       case Restored(_, token, _) => Word(token)
       case Resize(_, token, columns, rows) => Word(token) && Size(columns, rows)
       case Failure(_, reason) => 1 <= reason <= 6
       case ResumeNeeded(_) => true
  }

  function Tag(p: Packet): byte {
    match p
    case Ready(_, _, _, _) => 16
    case InputEvent(_, _, _) => 17
    case Painted(_, _, _) => 18
    case Restored(_, _, _) => 19
    case Resize(_, _, _, _) => 20
    case Failure(_, _) => 21
    case Skipped(_, _, _) => 23
    case ResumeNeeded(_) => 24
  }

  function Payload(p: Packet): seq<byte>
    requires GoodPacket(p)
  {
    match p
    case Ready(_, columns, rows, flags) => Be(columns, 2) + Be(rows, 2) + [flags]
    case InputEvent(_, token, event) => Be(token, 8) + EventBytes(event)
    case Painted(_, sequence, revision) => Be(sequence, 8) + Be(revision, 8)
    case Restored(_, token, suspended) => Be(token, 8) + [if suspended then 1 else 0]
    case Resize(_, token, columns, rows) => Be(token, 8) + Be(columns, 2) + Be(rows, 2)
    case Failure(_, reason) => [reason]
    case Skipped(_, sequence, revision) => Be(sequence, 8) + Be(revision, 8)
    case ResumeNeeded(_) => []
  }

  function Body(p: Packet): seq<byte>
    requires GoodPacket(p)
  {
    [1, Tag(p)] + Be(p.generation, 8) + Payload(p)
  }

  function EventLength(e: Event): nat {
    match e
    case KeyEvent(_, _, _) => 4
    case Text(_, text, _) => 5 + |text|
    case Pasted(text) => 5 + |text|
    case Rejected(_) => 2
    case Wheel(_, _, _, _) => 7
    case Scroll(_, _) => 3
    case _ => 1
  }

  /** The framed packet of an event under its credit; refused when a length would not fit. The length header is
      computed before the payload is written. */
  method EncodeEvent(generation: nat, credit: nat, e: Event) returns (r: Option<seq<byte>>)
    requires Word(generation) && Word(credit) && GoodEvent(e)
    ensures r.Some? <==> Admitted(e)
    ensures r.Some? ==> r.value == Framer.Frame(Body(InputEvent(generation, credit, e)))
    ensures r.Some? ==> |r.value| <= 4 + MAX_RESPONSE_BYTES
  {
    hide EventBytes;
    EventSize(e);
    if !Admitted(e) {
      return None;
    }
    var length := 18 + EventLength(e);
    if length > MAX_RESPONSE_BYTES {
      return None;
    }
    var packet := Be(length, 4) + [1, 17] + Be(generation, 8);
    packet := packet + Be(credit, 8);
    packet := packet + EventBytes(e);
    ghost var body := Body(InputEvent(generation, credit, e));
    assert |body| == length && packet == Be(length, 4) + body;
    return Some(packet);
  }

  lemma EventSize(e: Event)
    requires GoodEvent(e)
    ensures |EventBytes(e)| == EventLength(e)
    ensures Admitted(e) ==> 18 + EventLength(e) <= MAX_RESPONSE_BYTES
  {
  }

  // ----- The other side: a decoder for the wire layout -----

  function PhaseOfCode(b: byte): Option<Phase> {
    if b == 0 then Some(Press) else if b == 1 then Some(Repeat) else if b == 2 then Some(Release) else None
  }

  function KeyOfCode(b: byte): Option<Key> {
    if 32 <= b <= 43 then Some(F(b - 31))
    else if b <= 22 then
      Some([Backspace, Enter, Left, Right, Up, Down, Home, End, PageUp, PageDown, Tab, BackTab, Delete, Insert, Escape,
            Null, CapsLock, ScrollLock, NumLock, PrintScreen, Pause, Menu, KeypadBegin][b])
    else None
  }

  function EventOf(b: seq<byte>): Option<Event>
    requires b != []
  {
    var kind := b[0];
    if kind == 0 then
      if |b| != 4 || PhaseOfCode(b[1]).None? || KeyOfCode(b[2]).None? || b[3] >= 64 then None
      else Some(KeyEvent(PhaseOfCode(b[1]).value, KeyOfCode(b[2]).value, b[3]))
    else if kind == 1 then
      if |b| < 5 || PhaseOfCode(b[1]).None? || b[2] >= 64 || |b| != 5 + Value(b[3..5]) then None
      else if !(1 <= |b| - 5 <= 4096) || !Utf8.Valid(b[5..]) then None
      else Some(Text(PhaseOfCode(b[1]).value, b[5..], b[2]))
    else if kind == 2 then
      if |b| < 5 || |b| != 5 + Value(b[1..5]) || |b| - 5 > 262_144 || !Utf8.Valid(b[5..]) then None
      else Some(Pasted(b[5..]))
    else if kind == 3 then
      if |b| != 2 || b[1] > 2 then None
      else Some(Rejected(if b[1] == 0 then InvalidUtf8 else if b[1] == 1 then TextFragmentTooLarge else PasteTooLarge))
    else if kind == 4 then
      if |b| != 1 then None else Some(FocusGained)
    else if kind == 5 then
      if |b| != 1 then None else Some(FocusLost)
    else if kind == 6 then
      if |b| != 7 || b[1] > 1 || b[2] >= 64 then None
      else Some(Wheel(b[1] == 0, Value(b[3..5]), Value(b[5..7]), b[2]))
    else if kind == 7 then
      if |b| != 3 || b[1] > 1 || !(1 <= b[2] <= 32) then None else Some(Scroll(b[1] == 1, b[2]))
    else None
  }

  lemma TextRoundTrip(e: Event)
    requires e.Text? && GoodEvent(e) && Admitted(e)
    ensures EventOf(EventBytes(e)) == Some(e)
  {
    hide Utf8.Valid, Be, Value;
    Widths();
    var b := EventBytes(e);
    assert b[3..5] == Be(|e.text|, 2) && b[5..] == e.text;
    ValueOfBe(|e.text|, 2);
  }

  lemma PasteRoundTrip(e: Event)
    requires e.Pasted? && GoodEvent(e) && Admitted(e)
    ensures EventOf(EventBytes(e)) == Some(e)
  {
    hide Utf8.Valid, Be, Value;
    Widths();
    var b := EventBytes(e);
    assert b[1..5] == Be(|e.text|, 4) && b[5..] == e.text;
    ValueOfBe(|e.text|, 4);
  }

  lemma WheelRoundTrip(e: Event)
    requires e.Wheel? && GoodEvent(e)
    ensures EventOf(EventBytes(e)) == Some(e)
  {
    hide Be, Value;
    Widths();
    var b := EventBytes(e);
    assert b[3..5] == Be(e.column, 2) && b[5..7] == Be(e.row, 2);
    ValueOfBe(e.column, 2);
    ValueOfBe(e.row, 2);
    assert b == [6, if e.up then 0 else 1, e.modifiers] + b[3..5] + b[5..7];
  }

  lemma EventRoundTrip(e: Event)
    requires GoodEvent(e) && Admitted(e)
    ensures EventOf(EventBytes(e)) == Some(e)
  {
    hide Be, Value, Utf8.Valid;
    match e {
      case Text(_, _, _) => TextRoundTrip(e);
      case Pasted(_) => PasteRoundTrip(e);
      case Wheel(_, _, _, _) => WheelRoundTrip(e);
      case _ =>
    }
  }

  function PacketOf(b: seq<byte>): Option<Packet> {
    if |b| < 10 || b[0] != 1 then None
    else
      var generation, rest := Value(b[2..10]), b[10..];
      if b[1] == 16 then
        if |rest| != 5 then None else Some(Ready(generation, Value(rest[..2]), Value(rest[2..4]), rest[4]))
      else if b[1] == 17 then
        if |rest| < 9 || EventOf(rest[8..]).None? then None
        else Some(InputEvent(generation, Value(rest[..8]), EventOf(rest[8..]).value))
      else if b[1] == 18 || b[1] == 23 then
        if |rest| != 16 then None
        else if b[1] == 18 then Some(Painted(generation, Value(rest[..8]), Value(rest[8..])))
        else Some(Skipped(generation, Value(rest[..8]), Value(rest[8..])))
      else if b[1] == 19 then
        if |rest| != 9 || rest[8] > 1 then None else Some(Restored(generation, Value(rest[..8]), rest[8] == 1))
      else if b[1] == 20 then
        if |rest| != 12 then None
        else Some(Resize(generation, Value(rest[..8]), Value(rest[8..10]), Value(rest[10..])))
      else if b[1] == 21 then
        if |rest| != 1 then None else Some(Failure(generation, rest[0]))
      else if b[1] == 24 && rest == [] then Some(ResumeNeeded(generation))
      else None
  }

  lemma PayloadParts(p: Packet)
    requires GoodPacket(p)
    ensures var b := Payload(p);
      match p
      case Ready(_, columns, rows, flags) =>
        |b| == 5 && Value(b[..2]) == columns && Value(b[2..4]) == rows && b[4] == flags
      case InputEvent(_, token, event) => |b| >= 9 && Value(b[..8]) == token && b[8..] == EventBytes(event)
      case Restored(_, token, suspended) =>
        |b| == 9 && Value(b[..8]) == token && b[8] == if suspended then 1 else 0
      case Resize(_, token, columns, rows) =>
        |b| == 12 && Value(b[..8]) == token && Value(b[8..10]) == columns && Value(b[10..]) == rows
      case Failure(_, reason) => b == [reason]
      case ResumeNeeded(_) => b == []
      case _ => |b| == 16 && Value(b[..8]) == p.sequence && Value(b[8..]) == p.revision
  {
    Widths();
    var b := Payload(p);
    match p {
      case Ready(_, columns, rows, _) =>
        assert b[..2] == Be(columns, 2) && b[2..4] == Be(rows, 2);
        ValueOfBe(columns, 2);
        ValueOfBe(rows, 2);
      case InputEvent(_, token, event) =>
        assert b[..8] == Be(token, 8) && b[8..] == EventBytes(event);
        ValueOfBe(token, 8);
      case Restored(_, token, _) =>
        assert b[..8] == Be(token, 8);
        ValueOfBe(token, 8);
      case Resize(_, token, columns, rows) =>
        assert b[..8] == Be(token, 8) && b[8..10] == Be(columns, 2) && b[10..] == Be(rows, 2);
        ValueOfBe(token, 8);
        ValueOfBe(columns, 2);
        ValueOfBe(rows, 2);
      case Failure(_, _) =>
      case ResumeNeeded(_) =>
      case _ =>
        assert b[..8] == Be(p.sequence, 8) && b[8..] == Be(p.revision, 8);
        ValueOfBe(p.sequence, 8);
        ValueOfBe(p.revision, 8);
    }
  }

  /** Generation, credit and event come back, whatever the packet. */
  lemma PacketRoundTrip(p: Packet)
    requires GoodPacket(p)
    ensures PacketOf(Body(p)) == Some(p)
  {
    hide EventBytes, EventOf, Payload;
    var b := Body(p);
    assert b[2..10] == Be(p.generation, 8) && b[10..] == Payload(p);
    ValueOfBe(p.generation, 8);
    PayloadParts(p);
    if p.InputEvent? {
      EventRoundTrip(p.event);
    }
  }

  lemma BodySize(p: Packet)
    requires GoodPacket(p)
    ensures 10 <= |Body(p)| <= MAX_RESPONSE_BYTES
  {
    if p.InputEvent? {
      EventSize(p.event);
    }
  }

  // ----- The response stream -----

  predicate AllGood(ps: seq<Packet>) {
    forall i :: 0 <= i < |ps| ==> GoodPacket(ps[i])
  }

  function Stream(ps: seq<Packet>): seq<byte>
    requires AllGood(ps)
  {
    if ps == [] then [] else Framer.Frame(Body(ps[0])) + Stream(ps[1..])
  }

  /** Reads packets by their length headers until one is cut short or unknown. */
  function Unstream(s: seq<byte>): seq<Packet> {
    if |s| < 4 || |s| < 4 + Value(s[..4]) then []
    else
      var n := 4 + Value(s[..4]);
      var p := PacketOf(s[4..n]);
      if p.None? then [] else [p.value] + Unstream(s[n..])
  }

  /** Any concatenation of packets is read back, up to wherever the next one is cut. */
  lemma {:induction false} StreamRoundTrip(ps: seq<Packet>)
    requires AllGood(ps)
    ensures Unstream(Stream(ps)) == ps
  {
    hide PacketOf, Body;
    if ps == [] {
    } else {
      var body, rest := Body(ps[0]), Stream(ps[1..]);
      BodySize(ps[0]);
      PacketRoundTrip(ps[0]);
      Framer.HeaderOfFrame(body, rest);
      StreamRoundTrip(ps[1..]);
      var s := Framer.Frame(body) + rest;
      assert s[4..4 + |body|] == body && s[4 + |body|..] == rest;
    }
  }

  // ----- Everything the parser can say is encodable -----

  lemma ScalarValid(v: nat)
    requires Utf8.IsScalar(v)
    ensures Utf8.Valid(Utf8.EncodeScalar(v)) && 1 <= |Utf8.EncodeScalar(v)| <= 4
  {
    var s := Utf8.EncodeScalar(v);
    Utf8.ScalarOfEncoding(v, []);
    assert s + [] == s && s[|s|..] == [];
  }

  lemma DecodedGood(params: seq<byte>, final: byte, ss3: bool)
    ensures var e := DecodeSequence(params, final, ss3); e.Some? ==> GoodEvent(e.value) && Admitted(e.value)
  {
    hide Split, Decimal, Modifiers, Utf8.Valid, Utf8.EncodeScalar;
    if !ss3 && final == 'u' as int {
      var code := Decimal(Split(params, ';' as int)[0]);
      if code.Some? && Utf8.IsScalar(code.value) {
        ScalarValid(code.value);
      }
    }
  }

  lemma TurnGood(p: Parser, b: byte)
    requires p.Valid()
    ensures var e := Turn(p, b).0.event; e.Some? ==> GoodEvent(e.value) && Admitted(e.value)
  {
    hide DecodeSequence, Utf8.Valid;
    match p.state {
      case Ground => OrdinaryGood(b, NO_MODIFIERS);
      case Escaped => OrdinaryGood(b, ALT);
      case InvalidContinuations => OrdinaryGood(b, NO_MODIFIERS);
      case Sequence(bytes, ss3) => DecodedGood(bytes, b, ss3);
      case _ =>
    }
  }

  lemma OrdinaryGood(b: byte, modifiers: nat)
    requires modifiers == NO_MODIFIERS || modifiers == ALT
    ensures var e := Ordinary(b, modifiers).event; e.Some? ==> GoodEvent(e.value) && Admitted(e.value)
  {
    assert forall c: byte :: c < 0x80 ==> Utf8.Valid([c]) by {
      forall c: byte | c < 0x80 ensures Utf8.Valid([c]) {
        assert [c][1..] == [];
      }
    }
  }

  /** Every event of a call, an expiry or the end of input is encodable, no length truncated. */
  lemma {:induction false} ParserEvents(p: Parser, bytes: seq<byte>)
    requires p.Valid()
    ensures var e := Advanced(p, bytes).event; e.Some? ==> GoodEvent(e.value) && Admitted(e.value)
    ensures var e := Expired(p).1; e.Some? ==> GoodEvent(e.value) && Admitted(e.value)
    ensures var e := Finished(p); e.Some? ==> GoodEvent(e.value) && Admitted(e.value)
    decreases |bytes|
  {
    hide Turn, GoodEvent;
    assert GoodEvent(KeyEvent(Press, Escape, NO_MODIFIERS)) && GoodEvent(Rejected(InvalidUtf8)) by { Constants(); }
    if bytes == [] {
    } else {
      TurnGood(p, bytes[0]);
      var (t, paste) := Turn(p, bytes[0]);
      if t.took && t.event.None? {
        ParserEvents(Parser(t.state, paste), bytes[1..]);
      }
    }
  }

  lemma Constants()
    ensures GoodEvent(KeyEvent(Press, Escape, NO_MODIFIERS)) && GoodEvent(Rejected(InvalidUtf8))
  {
  }

  /** So is every wheel burst. */
  lemma BurstEvents(s: seq<byte>)
    ensures var b := InputBuffer.ArrowBurst(s);
      b.Some? ==> GoodEvent(Scroll(b.value.0, b.value.1)) && Admitted(Scroll(b.value.0, b.value.1))
  {
  }
}
