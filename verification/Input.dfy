/** The incremental terminal input parser: one byte at a time, at most one event a call. */
module Input {
  import opened Bytes
  import Utf8

  const MAX_PASTE_BYTES: nat := 262_144
  const MAX_SEQUENCE_BYTES: nat := 64

  datatype Phase = Press | Repeat | Release

  datatype Key =
    | Backspace | Enter | Left | Right | Up | Down | Home | End | PageUp | PageDown | Tab | BackTab | Delete | Insert
    | Escape | Null | CapsLock | ScrollLock | NumLock | PrintScreen | Pause | Menu | KeypadBegin
    | F(number: nat)

  datatype Rejection = InvalidUtf8 | TextFragmentTooLarge | PasteTooLarge

  datatype Event =
    | KeyEvent(phase: Phase, key: Key, modifiers: nat)
    | Text(phase: Phase, text: seq<byte>, modifiers: nat)
    | Pasted(text: seq<byte>)
    | Rejected(reason: Rejection)
    | FocusGained
    | FocusLost
    | Wheel(up: bool, column: nat, row: nat, modifiers: nat)
    | Scroll(up: bool, count: nat)

  const NO_MODIFIERS: nat := 0
  const CONTROL: nat := 2
  const ALT: nat := 4

  // ----- Parameters of a control sequence -----

  function Split(s: seq<byte>, separator: byte): (fields: seq<seq<byte>>)
    ensures |fields| >= 1
  {
    if s == [] then [[]]
    else
      var rest := Split(s[1..], separator);
      if s[0] == separator then [[]] + rest else [[s[0]] + rest[0]] + rest[1..]
  }

  predicate Digit(b: byte) {
    0x30 <= b <= 0x39
  }

  /** The decimal digits so far; `None` at another byte or past 32 bits. */
  function DecimalFrom(s: seq<byte>, n: nat): (r: Option<nat>)
    requires n < 0x1_0000_0000
    ensures r.Some? ==> r.value < 0x1_0000_0000
  {
    if s == [] then Some(n)
    else if !Digit(s[0]) || n * 10 + (s[0] - 0x30) >= 0x1_0000_0000 then None
    else DecimalFrom(s[1..], n * 10 + (s[0] - 0x30))
  }

  function Decimal(s: seq<byte>): (r: Option<nat>)
    ensures r.Some? ==> r.value < 0x1_0000_0000
  {
    if s == [] then None else DecimalFrom(s, 0)
  }

  predicate HasBit(bits: nat, value: nat)
    requires value > 0
  {
    bits / value % 2 == 1
  }

  /** xterm orders Shift, Alt, Control; events order Shift, Control, Alt. Lock bits are dropped. */
  function EventBits(bits: nat): (r: nat)
    ensures r < 64 && r / 8 == bits / 8 % 8 && (HasBit(r, 1) <==> HasBit(bits, 1))
    ensures HasBit(r, CONTROL) <==> HasBit(bits, 4)
    ensures HasBit(r, ALT) <==> HasBit(bits, 2)
  {
    var shift, alt, control, others := bits % 2, bits / 2 % 2, bits / 4 % 2, bits / 8 % 8;
    var r := shift + CONTROL * control + ALT * alt + 8 * others;
    assert r / 2 == control + 2 * alt + 4 * others;
    assert r / 4 == alt + 2 * others;
    r
  }

  function Modifiers(parameter: seq<byte>): (r: Option<nat>)
    ensures r.Some? <==> Decimal(parameter).Some? && 1 <= Decimal(parameter).value <= 256
    ensures r.Some? ==> r.value == EventBits(Decimal(parameter).value - 1) < 64
  {
    var n := Decimal(parameter);
    if n.None? || n.value == 0 || n.value - 1 > 255 then None else Some(EventBits(n.value - 1))
  }

  function TildeKey(code: nat): Option<Key> {
    if code == 1 || code == 7 then Some(Home)
    else if code == 2 then Some(Insert)
    else if code == 3 then Some(Delete)
    else if code == 4 || code == 8 then Some(End)
    else if code == 5 then Some(PageUp)
    else if code == 6 then Some(PageDown)
    else if 11 <= code <= 15 then Some(F(code - 10))
    else if 17 <= code <= 21 then Some(F(code - 11))
    else if 23 <= code <= 24 then Some(F(code - 12))
    else None
  }

  function LetterKey(final: byte): Option<Key> {
    if final == 'A' as int then Some(Up)
    else if final == 'B' as int then Some(Down)
    else if final == 'C' as int then Some(Right)
    else if final == 'D' as int then Some(Left)
    else if final == 'H' as int then Some(Home)
    else if final == 'F' as int then Some(End)
    else if final == 'E' as int then Some(KeypadBegin)
    else if final == 'Z' as int then Some(BackTab)
    else if 'P' as int <= final <= 'S' as int then Some(F(final - 'P' as int + 1))
    else None
  }

  function DecodeSequence(params: seq<byte>, final: byte, ss3: bool): (e: Option<Event>) {
    if !ss3 && final == 'u' as int then DecodeCsiU(params)
    else if !ss3 && (final == 'M' as int || final == 'm' as int) && params != [] && params[0] == '<' as int then
      DecodeSgrMouse(params[1..], final)
    else if !ss3 && params == [] && final == 'I' as int then Some(FocusGained)
    else if !ss3 && params == [] && final == 'O' as int then Some(FocusLost)
    else
      var fields := Split(params, ';' as int);
      if |fields| > 2 then None
      else
        var mods := if |fields| == 2 then Modifiers(fields[1]) else Some(NO_MODIFIERS);
        var code := if fields[0] == [] then Some(1) else Decimal(fields[0]);
        if mods.None? || code.None? then None
        else
          var key := if final == '~' as int && !ss3 then TildeKey(code.value)
                     else if code.value != 1 then None
                     else LetterKey(final);
          if key.None? then None else Some(KeyEvent(Press, key.value, mods.value))
  }

  /** `CSI < button ; column ; row M`: only a wheel press is an event. */
  function DecodeSgrMouse(params: seq<byte>, final: byte): (e: Option<Event>) {
    var fields := Split(params, ';' as int);
    if |fields| != 3 then None
    else
      var button, column, row := Decimal(fields[0]), Decimal(fields[1]), Decimal(fields[2]);
      if button.None? || column.None? || row.None? || final != 'M' as int then None
      else if column.value == 0 || row.value == 0 || column.value > 65535 || row.value > 65535 then None
      else if button.value / 32 != 2 || button.value % 4 > 1 then None
      else
        var shift, alt, control := button.value / 4 % 2, button.value / 8 % 2, button.value / 16 % 2;
        Some(Wheel(button.value % 4 == 0, column.value - 1, row.value - 1, shift + CONTROL * control + ALT * alt))
  }

  function CsiUKey(code: nat): Option<Key> {
    if code == 0 then Some(Null)
    else if code == 8 || code == 127 || code == 57347 then Some(Backspace)
    else if code == 9 || code == 57346 then Some(Tab)
    else if code == 10 || code == 13 || code == 57345 then Some(Enter)
    else if code == 27 || code == 57344 then Some(Escape)
    else if code == 57348 then Some(Insert)
    else if code == 57349 then Some(Delete)
    else if code == 57350 then Some(Left)
    else if code == 57351 then Some(Right)
    else if code == 57352 then Some(Up)
    else if code == 57353 then Some(Down)
    else if code == 57354 then Some(PageUp)
    else if code == 57355 then Some(PageDown)
    else if code == 57356 then Some(Home)
    else if code == 57357 then Some(End)
    else if code == 57358 then Some(CapsLock)
    else if code == 57359 then Some(ScrollLock)
    else if code == 57360 then Some(NumLock)
    else if code == 57361 then Some(PrintScreen)
    else if code == 57362 then Some(Pause)
    else if code == 57363 then Some(Menu)
    else if 57364 <= code <= 57375 then Some(F(code - 57363))
    else if code == 57427 then Some(KeypadBegin)
    else None
  }

  function PhaseOf(code: nat): Option<Phase> {
    if code == 1 then Some(Press) else if code == 2 then Some(Repeat) else if code == 3 then Some(Release) else None
  }

  /** The second field of `CSI … u`: modifiers and, after a colon, the phase. */
  function PhaseAndModifiers(value: seq<byte>): (r: Option<(Phase, nat)>)
    ensures r.Some? ==> r.value.1 < 64
  {
    var pieces := Split(value, ':' as int);
    var mods := Modifiers(pieces[0]);
    if mods.None? || |pieces| > 2 then None
    else if |pieces| == 1 then Some((Press, mods.value))
    else
      var code := Decimal(pieces[1]);
      if code.None? || PhaseOf(code.value).None? then None else Some((PhaseOf(code.value).value, mods.value))
  }

  function DecodeCsiU(params: seq<byte>): (e: Option<Event>) {
    var fields := Split(params, ';' as int);
    var code := Decimal(fields[0]);
    var more := if |fields| == 1 then Some((Press, NO_MODIFIERS)) else PhaseAndModifiers(fields[1]);
    if code.None? || more.None? || |fields| > 2 then None
    else
      var key := CsiUKey(code.value);
      if key.Some? then Some(KeyEvent(more.value.0, key.value, more.value.1))
      else if !Utf8.IsScalar(code.value) || Utf8.IsControl(code.value) || 57344 <= code.value <= 63743 then None
      else Some(Text(more.value.0, Utf8.EncodeScalar(code.value), more.value.1))
  }

  // ----- The state machine -----

  /** ESC [ 2 0 1 ~ */
  const PASTE_END: seq<byte> := [0x1b, 0x5b, 0x32, 0x30, 0x31, 0x7e]

  datatype State =
    | Ground
    | Escaped
    | EscapeIntermediate
    | Scalar(bytes: seq<byte>, expected: nat, modifiers: nat)
    | InvalidContinuations
    | Sequence(bytes: seq<byte>, ss3: bool)
    | DiscardSequence
    | ControlString(osc: bool, escape: bool)
    | Pasting(matched: nat, discard: bool)

  /** The state and the paste bytes retained between calls. */
  datatype Parser = Parser(state: State, paste: seq<byte>) {
    predicate Valid() {
      match state
      case Scalar(bytes, expected, modifiers) => 1 <= |bytes| < expected <= 4 && modifiers < 64 && paste == []
      case Sequence(bytes, _) => |bytes| <= MAX_SEQUENCE_BYTES && paste == []
      case Pasting(matched, discard) =>
        matched < |PASTE_END| && |paste| <= MAX_PASTE_BYTES && (discard ==> paste == [])
      case _ => paste == []
    }

    /** Content bytes retained across calls, a pending paste terminator included. */
    function Retained(): nat {
      |paste| + match state
                case Scalar(bytes, _, _) => |bytes|
                case Sequence(bytes, _) => |bytes|
                case Pasting(matched, _) => matched
                case Escaped => 1
                case ControlString(_, escape) => if escape then 1 else 0
                case _ => 0
    }
  }

  const START: Parser := Parser(Ground, [])

  /** One turn of the loop: the next state, the event if any, and whether the byte was consumed. */
  datatype Turned = Turned(state: State, event: Option<Event>, took: bool)

  function Quiet(state: State): Turned {
    Turned(state, None, true)
  }

  function Emits(event: Event): Turned {
    Turned(Ground, Some(event), true)
  }

  function Letter(scalar: byte, modifiers: nat): Event {
    Text(Press, [scalar], modifiers)
  }

  function WithControl(modifiers: nat): nat {
    if modifiers / 2 % 2 == 1 then modifiers else modifiers + CONTROL
  }

  /** A byte outside every sequence. */
  function Ordinary(b: byte, modifiers: nat): (t: Turned)
    ensures t.took
  {
    if b == 0 then Emits(KeyEvent(Press, Null, modifiers))
    else if b == 0x0d then Emits(KeyEvent(Press, Enter, modifiers))
    else if b == 0x09 then Emits(KeyEvent(Press, Tab, modifiers))
    else if b == 8 || b == 127 then Emits(KeyEvent(Press, Backspace, modifiers))
    else if b == ESC then Quiet(Escaped)
    else if 1 <= b <= 26 then Emits(Letter('a' as int + b - 1, WithControl(modifiers)))
    else if 28 <= b <= 31 then Emits(Letter(b + 64, WithControl(modifiers)))
    else if 0x20 <= b <= 0x7e then Emits(Letter(b, modifiers))
    else if 0xc0 <= b <= 0xf7 then
      Quiet(Scalar([b], if b < 0xe0 then 2 else if b < 0xf0 then 3 else 4, modifiers))
    else Turned(InvalidContinuations, Some(Rejected(InvalidUtf8)), true)
  }

  function AfterEscape(b: byte): (t: Turned)
    ensures t.took
  {
    if b == '[' as int then Quiet(Sequence([], false))
    else if b == 'O' as int then Quiet(Sequence([], true))
    else if b == ']' as int then Quiet(ControlString(true, false))
    else if b == 'P' as int || b == 'X' as int || b == '_' as int || b == '^' as int then
      Quiet(ControlString(false, false))
    else if b == ESC then Turned(Escaped, Some(KeyEvent(Press, Escape, NO_MODIFIERS)), true)
    else if 0x21 <= b <= 0x2f then Quiet(EscapeIntermediate)
    else Ordinary(b, ALT)
  }

  predicate Continuation(b: byte) {
    0x80 <= b < 0xc0
  }

  function InScalar(bytes: seq<byte>, expected: nat, modifiers: nat, b: byte): (t: Turned) {
    if !Continuation(b) then Turned(Ground, Some(Rejected(InvalidUtf8)), false)
    else if |bytes| + 1 == expected then
      Emits(if Utf8.Valid(bytes + [b]) then Text(Press, bytes + [b], modifiers) else Rejected(InvalidUtf8))
    else Quiet(Scalar(bytes + [b], expected, modifiers))
  }

  function InSequence(bytes: seq<byte>, ss3: bool, b: byte): (t: Turned)
    ensures t.took
  {
    if 0x40 <= b <= 0x7e then
      if |bytes| >= MAX_SEQUENCE_BYTES then Quiet(Ground)
      else if !ss3 && b == '~' as int && bytes == [0x32, 0x30, 0x30] then Quiet(Pasting(0, false))
      else Turned(Ground, DecodeSequence(bytes, b, ss3), true)
    else if |bytes| < MAX_SEQUENCE_BYTES && 0x20 <= b <= 0x3f then Quiet(Sequence(bytes + [b], ss3))
    else Quiet(DiscardSequence)
  }

  /** One turn inside a bracketed paste; `paste` changes here and nowhere else. */
  function InPaste(matched: nat, discard: bool, paste: seq<byte>, b: byte): (r: (Turned, seq<byte>))
    requires matched < |PASTE_END| && |paste| <= MAX_PASTE_BYTES
    ensures r.0.took
  {
    if b == PASTE_END[matched] then
      if matched + 1 < |PASTE_END| then (Quiet(Pasting(matched + 1, discard)), paste)
      else if discard then (Quiet(Ground), paste)
      else (Emits(if Utf8.Valid(paste) then Pasted(paste) else Rejected(InvalidUtf8)), [])
    else
      var next := if b == PASTE_END[0] then 1 else 0;
      var extra := PASTE_END[..matched] + if next == 0 then [b] else [];
      if discard then (Quiet(Pasting(next, true)), paste)
      else if |extra| > MAX_PASTE_BYTES - |paste| then
        (Turned(Pasting(next, true), Some(Rejected(PasteTooLarge)), true), [])
      else (Quiet(Pasting(next, false)), paste + extra)
  }

  function Turn(p: Parser, b: byte): (r: (Turned, seq<byte>))
    requires p.Valid()
    ensures Parser(r.0.state, r.1).Valid()
    ensures !r.0.took ==> p.state.Scalar? && r.0.state == Ground && r.0.event.Some?
  {
    match p.state
    case Ground => (Ordinary(b, NO_MODIFIERS), p.paste)
    case Escaped => (AfterEscape(b), p.paste)
    case EscapeIntermediate => (Quiet(if 0x30 <= b <= 0x7e then Ground else EscapeIntermediate), p.paste)
    case Scalar(bytes, expected, modifiers) => (InScalar(bytes, expected, modifiers, b), p.paste)
    case InvalidContinuations =>
      (if Continuation(b) then Quiet(InvalidContinuations) else Ordinary(b, NO_MODIFIERS), p.paste)
    case Sequence(bytes, ss3) => (InSequence(bytes, ss3, b), p.paste)
    case DiscardSequence => (Quiet(if 0x40 <= b <= 0x7e then Ground else DiscardSequence), p.paste)
    case ControlString(osc, escape) =>
      (Quiet(if (osc && b == 7) || (escape && b == '\\' as int) then Ground else ControlString(osc, b == ESC)), p.paste)
    case Pasting(matched, discard) => InPaste(matched, discard, p.paste, b)
  }

  // ----- Calls -----

  /** What one call does: the parser left, how much it consumed, and its event. */
  datatype Step = Step(parser: Parser, consumed: nat, event: Option<Event>)

  function Advanced(p: Parser, bytes: seq<byte>): (s: Step)
    requires p.Valid()
    decreases |bytes|
    ensures s.parser.Valid() && s.consumed <= |bytes|
    ensures s.event.None? ==> s.consumed == |bytes|
    ensures s.consumed == 0 && bytes != [] ==> p.state.Scalar? && s.parser.state == Ground
  {
    if bytes == [] then Step(p, 0, None)
    else
      var (t, paste) := Turn(p, bytes[0]);
      var next := Parser(t.state, paste);
      if !t.took then Step(next, 0, t.event)
      else if t.event.Some? then Step(next, 1, t.event)
      else
        var s := Advanced(next, bytes[1..]);
        s.(consumed := s.consumed + 1)
  }

  /** Only an ambiguous standalone Escape expires. */
  function Expired(p: Parser): (r: (Parser, Option<Event>)) {
    if p.state == Escaped then (p.(state := Ground), Some(KeyEvent(Press, Escape, NO_MODIFIERS))) else (p, None)
  }

  /** End of input: an incomplete paste or control string never becomes text. */
  function Finished(p: Parser): (e: Option<Event>) {
    match p.state
    case Escaped => Some(KeyEvent(Press, Escape, NO_MODIFIERS))
    case Scalar(_, _, _) => Some(Rejected(InvalidUtf8))
    case _ => None
  }

  class InputParser {
    var state: State
    var paste: seq<byte>

    ghost predicate Valid()
      reads this
    {
      Value().Valid()
    }

    function Value(): Parser
      reads this
    {
      Parser(state, paste)
    }

    constructor ()
      ensures Valid() && Value() == START
    {
      state, paste := Ground, [];
    }

    /** At most one event, and the exact consumed prefix. */
    method Advance(bytes: seq<byte>) returns (consumed: nat, event: Option<Event>)
      requires Valid()
      modifies this
      ensures Valid() && consumed <= |bytes|
      ensures Step(Value(), consumed, event) == Advanced(old(Value()), bytes)
    {
      consumed := 0;
      while consumed < |bytes|
        invariant Valid() && consumed <= |bytes|
        invariant var s := Advanced(Value(), bytes[consumed..]);
          Advanced(old(Value()), bytes) == s.(consumed := s.consumed + consumed)
      {
        assert bytes[consumed..][1..] == bytes[consumed + 1..];
        var (turned, kept) := Turn(Value(), bytes[consumed]);
        state, paste := turned.state, kept;
        if !turned.took {
          return consumed, turned.event;
        }
        consumed := consumed + 1;
        if turned.event.Some? {
          return consumed, turned.event;
        }
      }
      return consumed, None;
    }

    method ExpireEscape() returns (event: Option<Event>)
      requires Valid()
      modifies this
      ensures Valid() && (Value(), event) == Expired(old(Value()))
      ensures event == if old(state) == Escaped then Some(KeyEvent(Press, Escape, NO_MODIFIERS)) else None
      ensures event.Some? ==> state == Ground && paste == old(paste)
      ensures event.None? ==> Value() == old(Value())
    {
      if state == Escaped {
        state := Ground;
        return Some(KeyEvent(Press, Escape, NO_MODIFIERS));
      }
      return None;
    }

    method Finish() returns (event: Option<Event>)
      requires Valid()
      modifies this
      ensures Valid() && Value() == START && event == Finished(old(Value()))
      ensures event == Some(KeyEvent(Press, Escape, NO_MODIFIERS)) <==> old(state) == Escaped
      ensures event == Some(Rejected(InvalidUtf8)) <==> old(state.Scalar?)
      ensures event.Some? ==> !event.value.Text? && !event.value.Pasted?
    {
      event := Finished(Value());
      state, paste := Ground, [];
    }
  }
}
