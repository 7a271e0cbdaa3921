/** The terminal's modes and the process that owns them behind a one-byte handshake. */
module Tty {
  import opened Bytes
  import opened World

  // ----- The terminal's modes -----

  const AUTOWRAP: nat := 7
  const REPORTS: set<nat> := {1000, 1002, 1003, 1006}
  const FOCUS: nat := 1004
  const ALTERNATE_SCROLL: nat := 1007
  const ALTERNATE: nat := 1049
  const PASTE: nat := 2004

  /** Every mode the port ever switches. */
  const OWNED: set<nat> := {7, 1000, 1002, 1003, 1006, 1004, 1007, 1049, 2004}

  /** One write: mode switches (`CSI ? n l`, `CSI ? n h`), the keyboard stack, the title stack, other bytes that move
      none of them, or a frame. */
  datatype Op =
    | Switch(off: set<nat>, on: set<nat>)
    | PushKeys
    | PopKeys
    | SaveTitle
    | RestoreTitle
    | Put(bytes: seq<byte>)
    | Frame

  /** The private modes that are on, the pushed keyboard modes and the saved titles. */
  datatype Modes = Modes(on: set<nat>, keys: int, titles: int)

  function Apply(m: Modes, op: Op): Modes {
    match op
    case Switch(off, on) => m.(on := m.on - off + on)
    case PushKeys => m.(keys := m.keys + 1)
    case PopKeys => m.(keys := m.keys - 1)
    case SaveTitle => m.(titles := m.titles + 1)
    case RestoreTitle => m.(titles := m.titles - 1)
    case Put(_) => m
    case Frame => m
  }

  /** The terminal and its descriptor. After a call that failed nothing more is known of it: it is no longer
      `steady`. `log` holds the writes that succeeded, `disciplined` whether the last `tcsetattr` did. */
  class Console {
    ghost var modes: Modes
    ghost var raw: bool
    ghost var steady: bool
    ghost var log: seq<Op>
    ghost var disciplined: bool

    constructor (ghost modes: Modes)
      ensures this.modes == modes && !raw && steady && log == [] && disciplined
    {
      this.modes, raw, steady, log, disciplined := modes, false, true, [], true;
    }

    method Write(ghost op: Op) returns (io: Io)
      modifies this
      ensures raw == old(raw) && disciplined == old(disciplined)
      ensures steady == (old(steady) && io.Done?)
      ensures log == if io.Done? then old(log) + [op] else old(log)
      ensures io.Done? ==> modes == Apply(old(modes), op)
    {
      var ok := Happens();
      if ok {
        modes, log := Apply(modes, op), log + [op];
        return Done;
      }
      ghost var torn: Modes :| true;
      modes, steady := torn, false;
      return Failed;
    }

    /** `tcsetattr`: raw, or exactly as it was found. */
    method Discipline(raw: bool) returns (io: Io)
      modifies this
      ensures modes == old(modes) && log == old(log) && steady == (old(steady) && io.Done?)
      ensures this.raw == (if io.Done? then raw else old(this.raw)) && disciplined == io.Done?
    {
      var ok := Happens();
      disciplined := ok;
      if ok {
        this.raw := raw;
        return Done;
      }
      steady := false;
      return Failed;
    }

    /** The descriptor's status flags. */
    method StatusFlags() returns (io: Io)
      modifies this
      ensures modes == old(modes) && raw == old(raw) && log == old(log) && disciplined == old(disciplined)
      ensures steady == (old(steady) && io.Done?)
    {
      var ok := Happens();
      steady := steady && ok;
      return if ok then Done else Failed;
    }
  }

  // ----- Flags -----

  predicate Bit(flags: nat, value: nat)
    requires value > 0
  {
    flags / value % 2 == 1
  }

  /** Alternate screen 1, focus reports 2, bracketed paste 4, mouse reports 16. */
  predicate InitFlags(flags: nat) {
    flags < 24 && !Bit(flags, 8)
  }

  function WithMouse(flags: nat, on: bool): (r: nat)
    requires InitFlags(flags)
    ensures InitFlags(r) && Bit(r, 16) == on
    ensures Bit(r, 1) == Bit(flags, 1) && Bit(r, 2) == Bit(flags, 2) && Bit(r, 4) == Bit(flags, 4)
    ensures Bit(flags, 16) == on ==> r == flags
  {
    flags % 8 + if on then 16 else 0
  }

  /** The owned modes that are on while the terminal is active with these flags. */
  function Chosen(flags: nat): set<nat> {
    Given(flags, 1, ALTERNATE) + Given(flags, 2, FOCUS) + Given(flags, 4, PASTE) + Wheel(flags)
  }

  function Given(flags: nat, value: nat, mode: nat): set<nat>
    requires value > 0
  {
    if Bit(flags, value) then {mode} else {}
  }

  /** With mouse reports the wheel is a report, on the alternate screen without them it is arrow keys. */
  function Wheel(flags: nat): set<nat> {
    if Bit(flags, 16) then {1000, 1006} else Given(flags, 1, ALTERNATE_SCROLL)
  }

  /** A shell's terminal: of the owned modes only autowrap is on. */
  predicate Shell(on: set<nat>) {
    on * OWNED == {AUTOWRAP}
  }

  /** What each transaction does to the modes when every write succeeds. */
  function Activated(m: Modes, flags: nat): Modes {
    m.(on := m.on - (REPORTS + {FOCUS, PASTE, AUTOWRAP}) + Chosen(flags))
  }

  function MouseSwitched(m: Modes, flags: nat, on: bool): Modes {
    if on then m.(on := m.on - {ALTERNATE_SCROLL} + {1000, 1006})
    else m.(on := m.on - REPORTS + if Bit(flags, 1) then {ALTERNATE_SCROLL} else {})
  }

  function Restored(m: Modes, flags: nat, kitty: bool): Modes {
    Modes(m.on - (REPORTS + {FOCUS, PASTE, ALTERNATE_SCROLL}) - (if Bit(flags, 1) then {ALTERNATE} else {}) + {AUTOWRAP},
          m.keys - (if kitty then 1 else 0), m.titles)
  }

  /** Activating a shell's terminal leaves on exactly what was chosen, switching the mouse reports leaves on exactly
      what is chosen now, and restoring gives the shell its terminal back. */
  lemma RoundTrip(m: Modes, flags: nat, mouse: bool)
    requires Shell(m.on) && InitFlags(flags)
    ensures Activated(m, flags).on * OWNED == Chosen(flags)
    ensures MouseSwitched(Activated(m, flags), flags, mouse).on * OWNED == Chosen(WithMouse(flags, mouse))
    ensures Shell(Restored(Activated(m, flags), flags, false).on)
    ensures Restored(Activated(m, flags), flags, false).on - OWNED == m.on - OWNED
  {
    OwnedAfter(m, flags);
    var a := Activated(m, flags);
    OwnedSwitch(a, flags, mouse);
    OwnedRestored(a, flags, false);
  }

  lemma OwnedAfter(m: Modes, flags: nat)
    requires Shell(m.on)
    ensures Activated(m, flags).on * OWNED == Chosen(flags)
  {
    forall n ensures n in Activated(m, flags).on * OWNED <==> n in Chosen(flags) {
      assert n in m.on * OWNED <==> n == AUTOWRAP;
    }
  }

  lemma OwnedSwitch(m: Modes, flags: nat, mouse: bool)
    requires InitFlags(flags) && m.on * OWNED == Chosen(flags)
    ensures MouseSwitched(m, flags, mouse).on * OWNED == Chosen(WithMouse(flags, mouse))
  {
    forall n ensures n in MouseSwitched(m, flags, mouse).on * OWNED <==> n in Chosen(WithMouse(flags, mouse)) {
      assert n in m.on && n in OWNED <==> n in Chosen(flags);
    }
  }

  lemma OwnedRestored(m: Modes, flags: nat, kitty: bool)
    requires m.on * OWNED == Chosen(flags)
    ensures Shell(Restored(m, flags, kitty).on)
  {
    forall n ensures n in Restored(m, flags, kitty).on * OWNED <==> n in {AUTOWRAP} {
      assert n in m.on && n in OWNED <==> n in Chosen(flags);
    }
  }

  /** A second activation with other flags is not undone by a restoration unless it keeps the alternate screen. */
  lemma ActivatedTwice(m: Modes, first: nat, second: nat)
    requires Shell(m.on) && InitFlags(first) && InitFlags(second)
    ensures Shell(Restored(Activated(Activated(m, first), second), second, false).on)
      <==> (Bit(first, 1) ==> Bit(second, 1))
  {
    OwnedAfter(m, first);
    var twice := Activated(Activated(m, first), second);
    var back := Restored(twice, second, false);
    assert ALTERNATE in back.on * OWNED <==> Bit(first, 1) && !Bit(second, 1) by {
      assert ALTERNATE in Activated(m, first).on * OWNED <==> Bit(first, 1);
    }
    forall n | n != ALTERNATE ensures n in back.on * OWNED <==> n == AUTOWRAP {
      assert n in Activated(m, first).on * OWNED <==> n in Chosen(first);
    }
    if Bit(first, 1) ==> Bit(second, 1) {
      assert back.on * OWNED == {AUTOWRAP};
    }
  }

  // ----- The owner of the modes -----

  class Tty {
    const console: Console
    var active: bool
    var flags: nat
    var kitty: bool

    constructor (console: Console)
      requires console.steady && !console.raw && Shell(console.modes.on) && console.modes.keys == 0
      ensures this.console == console && Balanced() && !active
    {
      this.console := console;
      active, flags, kitty := false, 0, false;
    }

    /** While every call has succeeded the modes are exactly those this object accounts for. */
    ghost predicate Balanced()
      reads this, console
    {
      && InitFlags(flags)
      && (console.steady ==>
            && console.raw == active
            && console.modes.keys == (if kitty then 1 else 0)
            && (kitty ==> active)
            && console.modes.on * OWNED == if active then Chosen(flags) else {AUTOWRAP})
    }

    /** Marked active before anything is written: every partial activation is eligible for restoration. */
    method Activate(flags: nat) returns (io: Io)
      requires InitFlags(flags)
      modifies this, console
      ensures active && this.flags == flags && kitty == old(kitty)
      ensures console.steady == (old(console.steady) && io.Done?)
      ensures io.Done? ==> console.modes == Activated(old(console.modes), flags) && console.raw
      ensures old(Balanced()) && !old(active) ==> Balanced()
    {
      hide Bit;
      this.flags := flags;
      active := true;
      ghost var m := console.modes;
      :- console.StatusFlags();
      :- console.Discipline(true);
      io := WriteActivation();
      if io.Done? && Shell(m.on) {
        OwnedAfter(m, flags);
      }
    }

    method WriteActivation() returns (io: Io)
      modifies console
      ensures console.steady == (old(console.steady) && io.Done?) && console.raw == old(console.raw)
      ensures io.Done? ==> console.modes == Activated(old(console.modes), flags)
    {
      hide Bit, Given, Wheel;
      ghost var m := console.modes;
      :- WriteScreen();
      :- WriteInput();
      io := WriteWheel();
      if io.Done? {
        assert console.modes.on == Activated(m, flags).on;
      }
    }

    /** No reports, the alternate screen if chosen, and no autowrap. */
    method WriteScreen() returns (io: Io)
      modifies console
      ensures console.steady == (old(console.steady) && io.Done?) && console.raw == old(console.raw)
      ensures io.Done? ==>
        console.modes == old(console.modes).(
          on := old(console.modes.on) - (REPORTS + {FOCUS, PASTE, AUTOWRAP}) + Given(flags, 1, ALTERNATE))
    {
      hide Bit;
      ghost var cleared := console.modes.on - (REPORTS + {FOCUS, PASTE, AUTOWRAP});
      :- console.Write(Switch(REPORTS + {FOCUS, PASTE}, {}));
      if Bit(flags, 1) {
        :- console.Write(Switch({}, {ALTERNATE}));
      }
      :- console.Write(Switch({AUTOWRAP}, {}));
      assert console.modes.on == cleared + Given(flags, 1, ALTERNATE);
      return Done;
    }

    /** Focus reports and bracketed paste, if chosen. */
    method WriteInput() returns (io: Io)
      modifies console
      ensures console.steady == (old(console.steady) && io.Done?) && console.raw == old(console.raw)
      ensures io.Done? ==>
        console.modes == old(console.modes).(
          on := old(console.modes.on) + Given(flags, 2, FOCUS) + Given(flags, 4, PASTE))
    {
      hide Bit;
      ghost var before := console.modes.on;
      if Bit(flags, 2) {
        :- console.Write(Switch({}, {FOCUS}));
      }
      if Bit(flags, 4) {
        :- console.Write(Switch({}, {PASTE}));
      }
      assert console.modes.on == before + Given(flags, 2, FOCUS) + Given(flags, 4, PASTE);
      return Done;
    }

    method WriteWheel() returns (io: Io)
      modifies console
      ensures console.steady == (old(console.steady) && io.Done?) && console.raw == old(console.raw)
      ensures io.Done? ==> console.modes == old(console.modes).(on := old(console.modes.on) + Wheel(flags))
    {
      ghost var before := console.modes.on;
      if Bit(flags, 16) {
        :- console.Write(Switch({}, {1000, 1006}));
      } else if Bit(flags, 1) {
        :- console.Write(Switch({}, {ALTERNATE_SCROLL}));
      }
      assert console.modes.on == before + Wheel(flags);
      return Done;
    }

    method KittyPush() returns (io: Io)
      modifies this, console
      ensures active == old(active) && flags == old(flags) && console.raw == old(console.raw)
      ensures !active ==> io.Failed? && console.steady == old(console.steady) && console.modes == old(console.modes)
      ensures active ==> console.steady == (old(console.steady) && io.Done?)
      ensures io.Done? ==> kitty && console.modes == Apply(old(console.modes), PushKeys)
      ensures io.Failed? ==> kitty == old(kitty)
      ensures old(Balanced()) && !old(kitty) ==> Balanced()
    {
      if !active {
        return Failed;
      }
      :- console.Write(PushKeys);
      kitty := true;
      return Done;
    }

    /** Mouse reports on or off while active; the flags keep the choice. */
    method Mouse(on: bool) returns (io: Io)
      requires InitFlags(flags)
      modifies this, console
      ensures active == old(active) && kitty == old(kitty) && console.raw == old(console.raw)
      ensures !active ==> io.Failed? && console.steady == old(console.steady) && console.modes == old(console.modes)
      ensures active ==> console.steady == (old(console.steady) && io.Done?)
      ensures flags == if io.Done? then WithMouse(old(flags), on) else old(flags)
      ensures io.Done? ==> console.modes == MouseSwitched(old(console.modes), old(flags), on)
      ensures old(Balanced()) ==> Balanced()
    {
      hide Bit, WithMouse;
      if !active {
        return Failed;
      }
      ghost var m := console.modes;
      if on {
        :- console.Write(Switch({ALTERNATE_SCROLL}, {1000, 1006}));
      } else {
        :- console.Write(Switch(REPORTS, {}));
        if Bit(flags, 1) {
          :- console.Write(Switch({}, {ALTERNATE_SCROLL}));
        }
      }
      assert console.modes.on == MouseSwitched(m, flags, on).on;
      if m.on * OWNED == Chosen(flags) {
        OwnedSwitch(m, flags, on);
      }
      flags := WithMouse(flags, on);
      return Done;
    }

    /** Restores the terminal. The line discipline is restored even when the writes failed; only a restoration that
        succeeded throughout ends the activity. */
    method Restore() returns (io: Io)
      modifies this, console
      ensures flags == old(flags)
      ensures !old(active) ==> io.Done? && !active && kitty == old(kitty)
      ensures !old(active) ==> console.modes == old(console.modes) && console.raw == old(console.raw)
      ensures old(active) ==> active == io.Failed? && !kitty
      ensures old(active) && console.disciplined ==> !console.raw
      ensures old(active) && io.Done? ==>
        !console.raw && console.modes == Restored(old(console.modes), flags, old(kitty))
      ensures console.steady == (old(console.steady) && io.Done?)
      ensures old(Balanced()) ==> Balanced()
      ensures old(Balanced()) && console.steady ==> !active && Shell(console.modes.on) && console.modes.keys == 0
    {
      hide Bit;
      if !active {
        return Done;
      }
      ghost var m := console.modes;
      var popped := kitty;
      kitty := false;
      var written := WriteRestoration(popped);
      :- console.Discipline(false);
      :- console.StatusFlags();
      active := written.Failed?;
      if written.Done? && m.on * OWNED == Chosen(flags) {
        OwnedRestored(m, flags, popped);
      }
      return written;
    }

    method WriteRestoration(popped: bool) returns (io: Io)
      modifies console
      ensures console.steady == (old(console.steady) && io.Done?) && console.raw == old(console.raw)
      ensures io.Done? ==> console.modes == Restored(old(console.modes), flags, popped)
    {
      hide Bit;
      ghost var m := console.modes;
      :- console.StatusFlags();
      if popped {
        :- console.Write(PopKeys);
      }
      :- console.Write(Switch(REPORTS + {FOCUS, PASTE}, {}));
      :- console.Write(Switch({ALTERNATE_SCROLL}, {}));
      if Bit(flags, 1) {
        :- console.Write(Switch({ALTERNATE}, {}));
      }
      :- console.Write(Switch({}, {AUTOWRAP}));
      assert console.modes.on == Restored(m, flags, popped).on;
      return Done;
    }
  }

  // ----- The guard process -----

  const RESTORE: byte := 8
  const MOUSE_ON: byte := 32
  const MOUSE_OFF: byte := 64
  const KITTY_PUSH: byte := 128

  /** What the owner of the modes remembers. */
  datatype Ownership = Ownership(active: bool, flags: nat, kitty: bool)

  /** Restore, mouse on or off, keyboard push, or activation with any byte made only of init flags. */
  predicate Known(request: byte) {
    request in {RESTORE, MOUSE_ON, MOUSE_OFF, KITTY_PUSH} || InitFlags(request)
  }

  /** The requests the owner can serve as it stands. */
  predicate Serviceable(o: Ownership, request: byte) {
    Known(request) && (request in {MOUSE_ON, MOUSE_OFF, KITTY_PUSH} ==> o.active)
  }

  /** The requests that keep the account of the modes: no second activation, no second keyboard push. */
  predicate Orderly(o: Ownership, request: byte) {
    (InitFlags(request) ==> !o.active) && (request == KITTY_PUSH ==> !o.kitty)
  }

  function Served(o: Ownership, request: byte): Ownership
    requires InitFlags(o.flags) && Serviceable(o, request)
  {
    if request == RESTORE then o.(active := false, kitty := o.kitty && !o.active)
    else if request == MOUSE_ON then o.(flags := WithMouse(o.flags, true))
    else if request == MOUSE_OFF then o.(flags := WithMouse(o.flags, false))
    else if request == KITTY_PUSH then o.(kitty := true)
    else o.(active := true, flags := request)
  }

  class Guard {
    const tty: Tty
    var stopping: bool
    /** The socket to the writer has carried every request and every answer. */
    ghost var linked: bool

    constructor (tty: Tty)
      ensures this.tty == tty && !stopping && linked
    {
      this.tty, stopping, linked := tty, false, true;
    }

    function Owned(): Ownership
      reads this, tty
    {
      Ownership(tty.active, tty.flags, tty.kitty)
    }

    /** One byte, one transaction, one acknowledgement; a failed one starts the stop. */
    method Serve(request: byte) returns (ack: bool)
      requires InitFlags(tty.flags)
      modifies this`stopping, tty, tty.console
      ensures InitFlags(tty.flags)
      ensures old(tty.Balanced()) && Orderly(old(Owned()), request) ==> tty.Balanced()
      ensures ack ==> Serviceable(old(Owned()), request) && Owned() == Served(old(Owned()), request)
      ensures ack ==> tty.console.steady == old(tty.console.steady) && stopping == old(stopping)
      ensures !ack ==> stopping
      ensures !ack && tty.console.steady ==>
        old(tty.console.steady) && !Serviceable(old(Owned()), request) && Owned() == old(Owned())
      ensures tty.console.steady ==> old(tty.console.steady) && tty.console.modes.titles == old(tty.console.modes.titles)
      ensures request == KITTY_PUSH ==> tty.active == old(tty.active) && tty.flags == old(tty.flags)
    {
      hide InitFlags, WithMouse, Bit, Chosen;
      var io;
      NotFlags();
      if request == RESTORE {
        io := tty.Restore();
      } else if request == MOUSE_ON {
        io := tty.Mouse(true);
      } else if request == MOUSE_OFF {
        io := tty.Mouse(false);
      } else if request == KITTY_PUSH {
        io := tty.KittyPush();
      } else if InitFlags(request) {
        io := tty.Activate(request);
      } else {
        io := Failed;
      }
      if io.Failed? {
        stopping := true;
      }
      return io.Done?;
    }

    /** The writer's side: a request and its acknowledgement, over a socket that may break before or after it was
        served. */
    method Ask(request: byte) returns (io: Io)
      requires InitFlags(tty.flags)
      modifies this, tty, tty.console
      ensures InitFlags(tty.flags)
      ensures old(tty.Balanced()) && Orderly(old(Owned()), request) ==> tty.Balanced()
      ensures linked ==> old(linked)
      ensures io.Done? ==> linked == old(linked)
      ensures io.Done? ==> Serviceable(old(Owned()), request) && Owned() == Served(old(Owned()), request)
      ensures io.Done? ==> tty.console.steady == old(tty.console.steady)
      ensures io.Failed? && linked && tty.console.steady ==>
        old(tty.console.steady) && !Serviceable(old(Owned()), request) && Owned() == old(Owned())
      ensures tty.console.steady ==> old(tty.console.steady) && tty.console.modes.titles == old(tty.console.modes.titles)
      ensures request == KITTY_PUSH ==> tty.active == old(tty.active) && tty.flags == old(tty.flags)
    {
      var delivered := Happens();
      if !delivered {
        linked := false;
        return Failed;
      }
      var ack := Serve(request);
      var answered := Happens();
      if !answered {
        linked := false;
        return Failed;
      }
      return if ack then Done else Failed;
    }

    /** The writer is gone: whatever it left, a restoration in which every call succeeds gives the shell its
        terminal back. */
    method Reap() returns (io: Io)
      requires InitFlags(tty.flags)
      modifies tty, tty.console
      ensures old(tty.Balanced()) ==> tty.Balanced()
      ensures tty.console.steady ==> old(tty.console.steady) && tty.console.modes.titles == old(tty.console.modes.titles)
      ensures old(tty.Balanced()) && tty.console.steady ==>
        io.Done? && !tty.active && Shell(tty.console.modes.on) && tty.console.modes.keys == 0 && !tty.console.raw
    {
      io := tty.Restore();
    }
  }

  /** No request byte is made only of init flags. */
  lemma NotFlags()
    ensures !InitFlags(RESTORE) && !InitFlags(MOUSE_ON) && !InitFlags(MOUSE_OFF) && !InitFlags(KITTY_PUSH)
  {
  }
}
