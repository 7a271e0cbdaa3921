/** The locked copier of a SQLite main file and its write-ahead log, among any honest other processes. */
module Snapshot {
  import opened Bytes
  import opened Locks

  const BUFFER: nat := 65_536
  const MAX_SIZE: nat := 0x7fff_ffff_ffff_ffff

  // ----- The system -----

  /** One call of the copier: what the others do first, and how the call goes. */
  datatype Turn = Turn(moves: seq<(nat, Move)>, running: bool, works: bool, interrupted: bool, count: nat)

  const NO_TURN: Turn := Turn([], false, false, false, 0)

  datatype Transfer = Took(count: nat) | Interrupted | Broken

  /** What a lock query tells about the others. */
  datatype Query = Free | ReadHeld | WriteHeld | QueryFailed

  /** The files and locks, changed by the others before every call, as the script says; a script that has run out
      ends the copy. */
  class System {
    var disk: Disk
    var script: seq<Turn>
    /** The lock queries and their answers. */
    ghost var asked: seq<(Place, Query)>

    constructor (disk: Disk, script: seq<Turn>)
      ensures this.disk == disk && this.script == script && asked == []
    {
      this.disk, this.script, asked := disk, script, [];
    }

    /** The others' turn; a dishonest step is not taken. */
    method Next() returns (t: Turn)
      requires Exclusive(disk.table)
      modifies this`disk, this`script
      ensures Allowed(old(disk), disk) && Exclusive(disk.table)
      ensures |script| < |old(script)| || (script == old(script) == [] && t == NO_TURN)
    {
      hide Allowed, Honest, Locks.Moved;
      Unmoved(disk);
      if script == [] {
        return NO_TURN;
      }
      t := script[0];
      script := script[1..];
      for i := 0 to |t.moves|
        invariant Allowed(old(disk), disk) && Exclusive(disk.table)
        modifies this`disk
      {
        var (p, m) := t.moves[i];
        if p != US && Honest(disk.table, p, m) {
          OneMove(disk, p, m);
          AllowedTwice(old(disk), disk, Locks.Moved(disk, p, m));
          StaysExclusive(disk, Locks.Moved(disk, p, m));
          disk := Locks.Moved(disk, p, m);
        }
      }
    }

    method StillRunning() returns (running: bool)
      requires Exclusive(disk.table)
      modifies this`disk, this`script
      ensures Allowed(old(disk), disk) && Exclusive(disk.table)
      ensures |script| <= |old(script)| && (running ==> |script| < |old(script)|)
    {
      hide Allowed;
      var t := Next();
      running := t.running;
    }

    /** A call that the copier makes only while it may still run. */
    method Call() returns (t: Option<Turn>)
      requires Exclusive(disk.table)
      modifies this`disk, this`script
      ensures Allowed(old(disk), disk) && Exclusive(disk.table) && |script| <= |old(script)|
    {
      hide Allowed;
      var running := StillRunning();
      StaysExclusive(old(disk), disk);
      if !running {
        return None;
      }
      ghost var between := disk;
      var turn := Next();
      AllowedTwice(old(disk), between, disk);
      StaysExclusive(between, disk);
      return Some(turn);
    }

    /** A lock on some bytes of one file, refused at once when another process is in the way. */
    method SetLock(places: set<Place>, write: bool) returns (ok: bool)
      requires Exclusive(disk.table)
      modifies this`disk, this`script
      ensures Exclusive(disk.table) && |script| <= |old(script)|
      ensures ok ==> forall at :: Holds(disk.table, US, at) <==> at in places || Holds(old(disk.table), US, at)
      ensures ok ==> forall at ::
        HoldsWrite(disk.table, US, at) <==> if at in places then write else HoldsWrite(old(disk.table), US, at)
    {
      hide Blocked;
      var t := Call();
      if t.None? || !t.value.works || Blocked(disk.table, US, places, write) {
        return false;
      }
      LockedExclusive(disk.table, US, places, write);
      disk := disk.(table := Locked(disk.table, US, places, write));
      ok := true;
    }

    method Unlock(places: set<Place>) returns (ok: bool)
      requires Exclusive(disk.table)
      modifies this`disk, this`script
      ensures Exclusive(disk.table) && |script| <= |old(script)|
      ensures ok ==> forall at :: Holds(disk.table, US, at) <==> at !in places && Holds(old(disk.table), US, at)
      ensures ok ==> forall at ::
        HoldsWrite(disk.table, US, at) <==> at !in places && HoldsWrite(old(disk.table), US, at)
    {
      var t := Call();
      if t.None? || !t.value.works {
        return false;
      }
      UnlockedExclusive(disk.table, US, places);
      disk := disk.(table := Unlocked(disk.table, US, places));
      ok := true;
    }

    /** Who else is on a byte, just now. */
    method Ask(at: Place) returns (q: Query)
      requires Exclusive(disk.table)
      modifies this
      ensures Allowed(old(disk), disk) && Exclusive(disk.table) && |script| <= |old(script)|
      ensures asked == old(asked) + [(at, q)]
      ensures q.Free? ==> !Blocked(disk.table, US, {at}, true)
      ensures q.ReadHeld? ==> Blocked(disk.table, US, {at}, true) && !Blocked(disk.table, US, {at}, false)
      ensures q.WriteHeld? ==> Blocked(disk.table, US, {at}, false)
    {
      hide Allowed;
      var t := Call();
      if t.None? || !t.value.works {
        asked := asked + [(at, QueryFailed)];
        return QueryFailed;
      }
      q := if !Blocked(disk.table, US, {at}, true) then Free
           else if Blocked(disk.table, US, {at}, false) then WriteHeld else ReadHeld;
      asked := asked + [(at, q)];
    }

    // ----- The locks of the copy -----

    /** The pending byte first, so that no waiting writer is overtaken; then the shared range. */
    method LockMainShared() returns (ok: bool)
      requires Exclusive(disk.table)
      modifies this`disk, this`script
      ensures Exclusive(disk.table) && |script| <= |old(script)|
      ensures ok ==> forall at :: at in SHARED ==> Holds(disk.table, US, at)
    {
      ok := SetLock(MainRange(PENDING_BYTE, 1), false);
      if ok {
        ok := SetLock(SHARED, false);
      }
      if ok {
        ok := Unlock(MainRange(PENDING_BYTE, 1));
      }
    }

    method LockMainExclusive() returns (ok: bool)
      requires Exclusive(disk.table)
      modifies this`disk, this`script
      ensures Exclusive(disk.table) && |script| <= |old(script)| && (ok ==> MainGuard(disk.table))
    {
      ok := SetLock(MainRange(RESERVED_BYTE, 1), true);
      if ok {
        ok := SetLock(MainRange(PENDING_BYTE, 1), true);
      }
      if ok {
        ok := SetLock(SHARED, true);
      }
    }

    /** Refuses while an initializer is at work; joins others, or keeps them out when there are none. */
    method LockShm() returns (ok: bool)
      requires Exclusive(disk.table) && forall at :: at in SHARED ==> Holds(disk.table, US, at)
      modifies this
      ensures Exclusive(disk.table) && |script| <= |old(script)| && (ok ==> ShmGuard(disk.table))
      ensures |asked| == |old(asked)| + 1 && asked[..|old(asked)|] == old(asked)
      ensures asked[|old(asked)|].0 == Shm(SHM_DMS)
      ensures ok ==> asked[|old(asked)|].1 in {Free, ReadHeld}
      ensures ok ==> (HoldsWrite(disk.table, US, Shm(SHM_DMS)) <==> asked[|old(asked)|].1 == Free)
    {
      var state := Ask(Shm(SHM_DMS));
      match state {
        case Free => ok := SetLock(ShmRange(SHM_DMS, 1), true);
        case ReadHeld => ok := SetLock(ShmRange(SHM_DMS, 1), false);
        case _ => return false;
      }
      if ok {
        ok := SetLock(LOG_LOCKS, true);
      }
    }

    // ----- The files -----

    /** The length of a file, if it is there. */
    method Measure(log: bool) returns (size: Option<nat>)
      requires Exclusive(disk.table)
      modifies this`disk, this`script
      ensures Allowed(old(disk), disk) && |script| <= |old(script)|
      ensures size.Some? ==> Content(disk, log).Some? && size.value == |Content(disk, log).value| <= MAX_SIZE
    {
      hide Allowed;
      var t := Next();
      var content := Content(disk, log);
      if !t.works || content.None? || |content.value| > MAX_SIZE {
        return None;
      }
      return Some(|content.value|);
    }

    method Exists(log: bool) returns (there: bool)
      requires Exclusive(disk.table)
      modifies this`disk, this`script
      ensures Allowed(old(disk), disk) && Exclusive(disk.table) && |script| <= |old(script)|
      ensures there == Content(disk, log).Some?
    {
      hide Allowed;
      var t := Next();
      there := Content(disk, log).Some?;
    }

    method NoJournal() returns (ok: bool)
      requires Exclusive(disk.table)
      modifies this`disk, this`script
      ensures Allowed(old(disk), disk) && Exclusive(disk.table) && |script| <= |old(script)| && (ok ==> !disk.journal)
    {
      hide Allowed;
      var t := Next();
      ok := t.works && !disk.journal;
    }

    /** At most `wanted` bytes from `offset` on; possibly fewer, possibly an interruption. */
    method Read(log: bool, buffer: array<byte>, wanted: nat, offset: nat) returns (r: Transfer)
      requires Exclusive(disk.table) && wanted <= buffer.Length
      modifies this`disk, this`script, buffer
      ensures Allowed(old(disk), disk) && |script| <= |old(script)|
      ensures r.Took? ==> r.count <= wanted && Content(disk, log).Some?
      ensures r.Took? && r.count > 0 ==>
        offset + r.count <= |Content(disk, log).value|
        && buffer[..r.count] == Content(disk, log).value[offset..offset + r.count]
    {
      hide Allowed;
      var t := Next();
      var content := Content(disk, log);
      if t.interrupted {
        return Interrupted;
      }
      if !t.works || content.None? {
        return Broken;
      }
      var n := if t.count < wanted then t.count else wanted;
      n := if offset >= |content.value| then 0
           else if n <= |content.value| - offset then n else |content.value| - offset;
      forall i | 0 <= i < n {
        buffer[i] := content.value[offset + i];
      }
      assert n > 0 ==> buffer[..n] == content.value[offset..offset + n];
      return Took(n);
    }
  }

  /** The main file, or the log if there is one. */
  function Content(d: Disk, log: bool): Option<seq<byte>> {
    if log then d.log else Some(d.main)
  }

  lemma Unmoved(d: Disk)
    requires Exclusive(d.table)
    ensures Allowed(d, d)
  {
  }

  lemma StaysExclusive(d: Disk, e: Disk)
    requires Allowed(d, e)
    ensures Exclusive(e.table)
  {
  }

  /** Under a guard the contents do not move. */
  lemma Kept(d: Disk, e: Disk)
    requires Allowed(d, e) && Guarded(d.table)
    ensures Exclusive(e.table) && Guarded(e.table) && e.main == d.main && e.log == d.log
    ensures MainGuard(d.table) ==> MainGuard(e.table) && e.journal == d.journal
  {
    SameGuards(d.table, e.table);
  }

  // ----- The copy -----

  /** The guard is on and the sources are still `main` and `log`. */
  ghost predicate Still(d: Disk, main: seq<byte>, log: Option<seq<byte>>) {
    Exclusive(d.table) && Guarded(d.table) && d.main == main && d.log == log
  }

  lemma StillAfter(d: Disk, e: Disk, main: seq<byte>, log: Option<seq<byte>>)
    requires Still(d, main, log) && Allowed(d, e)
    ensures Still(e, main, log)
  {
    Kept(d, e);
  }

  /** `data` written at an offset, a hole before it filled with zeros. */
  function Patched(bytes: seq<byte>, offset: nat, data: seq<byte>): seq<byte> {
    var front := if offset <= |bytes| then bytes[..offset] else bytes + seq(offset - |bytes|, _ => 0);
    front + data + if offset + |data| <= |bytes| then bytes[offset + |data|..] else []
  }

  class Output {
    var bytes: seq<byte>

    constructor ()
      ensures bytes == []
    {
      bytes := [];
    }

    method Write(sys: System, buffer: array<byte>, first: nat, last: nat, offset: nat) returns (r: Transfer)
      requires Exclusive(sys.disk.table) && first <= last <= buffer.Length
      modifies this, sys
      ensures Allowed(old(sys.disk), sys.disk) && |sys.script| <= |old(sys.script)|
      ensures r.Took? ==> first + r.count <= last
      ensures bytes == if r.Took? then Patched(old(bytes), offset, buffer[first..first + r.count]) else old(bytes)
    {
      hide Allowed;
      var t := sys.Next();
      if t.interrupted {
        return Interrupted;
      }
      if !t.works {
        return Broken;
      }
      var n := if t.count < last - first then t.count else last - first;
      bytes := Patched(bytes, offset, buffer[first..first + n]);
      return Took(n);
    }
  }

  class Copier {
    const sys: System
    const buffer: array<byte>

    constructor (sys: System)
      ensures this.sys == sys && buffer.Length == BUFFER && fresh(buffer)
    {
      this.sys := sys;
      buffer := new byte[BUFFER](_ => 0);
    }

    /** The buffered bytes to the end of the output, through short writes and interruptions. */
    method WriteChunk(out: Output, count: nat, ghost main: seq<byte>, ghost log: Option<seq<byte>>) returns (ok: bool)
      requires Still(sys.disk, main, log) && count <= buffer.Length
      modifies sys, out
      ensures Still(sys.disk, main, log) && |sys.script| <= |old(sys.script)|
      ensures ok ==> out.bytes == old(out.bytes) + buffer[..count]
    {
      hide Still, Allowed;
      var written: nat, offset: nat := 0, |out.bytes|;
      while written < count
        invariant Still(sys.disk, main, log) && written <= count && |sys.script| <= |old(sys.script)|
        invariant out.bytes == old(out.bytes) + buffer[..written]
        decreases |sys.script|
      {
        Unfold(sys.disk, main, log);
        ghost var before := sys.disk;
        var running := sys.StillRunning();
        StillAfter(before, sys.disk, main, log);
        if !running {
          return false;
        }
        Unfold(sys.disk, main, log);
        before := sys.disk;
        var part := out.Write(sys, buffer, written, count, offset + written);
        StillAfter(before, sys.disk, main, log);
        if part.Interrupted? {
          continue;
        }
        if part.Broken? || part.count == 0 {
          return false;
        }
        assert buffer[..written] + buffer[written..written + part.count] == buffer[..written + part.count];
        written := written + part.count;
      }
      ok := true;
    }

    lemma Unfold(d: Disk, main: seq<byte>, log: Option<seq<byte>>)
      requires Still(d, main, log)
      ensures Exclusive(d.table) && d.main == main && d.log == log
    {
    }

    /** A whole file, through short reads, short writes and interruptions. */
    method CopyFile(isLog: bool, size: nat, out: Output, ghost main: seq<byte>, ghost log: Option<seq<byte>>)
      returns (ok: bool)
      requires Still(sys.disk, main, log) && out.bytes == [] && buffer.Length == BUFFER
      requires Content(sys.disk, isLog).Some? && size == |Content(sys.disk, isLog).value|
      modifies sys, out, buffer
      ensures Still(sys.disk, main, log)
      ensures ok ==> Some(out.bytes) == if isLog then log else Some(main)
    {
      hide Still, Allowed;
      Unfold(sys.disk, main, log);
      ghost var content := if isLog then log.value else main;
      var copied: nat := 0;
      while copied < size
        invariant Still(sys.disk, main, log) && copied <= size && out.bytes == content[..copied]
        decreases |sys.script|
      {
        Unfold(sys.disk, main, log);
        ghost var before := sys.disk;
        var running := sys.StillRunning();
        StillAfter(before, sys.disk, main, log);
        if !running {
          return false;
        }
        var wanted := if size - copied < BUFFER then size - copied else BUFFER;
        Unfold(sys.disk, main, log);
        before := sys.disk;
        var part := sys.Read(isLog, buffer, wanted, copied);
        StillAfter(before, sys.disk, main, log);
        Unfold(sys.disk, main, log);
        if part.Interrupted? {
          continue;
        }
        if part.Broken? || part.count == 0 {
          return false;
        }
        ok := WriteChunk(out, part.count, main, log);
        if !ok {
          return false;
        }
        assert content[..copied] + content[copied..copied + part.count] == content[..copied + part.count];
        copied := copied + part.count;
      }
      assert content[..size] == content;
      Unfold(sys.disk, main, log);
      ghost var before := sys.disk;
      ok := sys.StillRunning();
      StillAfter(before, sys.disk, main, log);
    }

    /** Both sizes and the absence of a rollback journal, under the guard. */
    method Inspect(hasLog: bool, ghost main: seq<byte>, ghost log: Option<seq<byte>>)
      returns (sizes: Option<(nat, nat)>)
      requires Still(sys.disk, main, log)
      modifies sys
      ensures Still(sys.disk, main, log) && |sys.script| <= |old(sys.script)|
      ensures sizes.Some? ==> sizes.value.0 == |main| && (log.Some? <==> hasLog)
      ensures sizes.Some? ==> sizes.value.1 == if log.Some? then |log.value| else 0
    {
      hide Still, Allowed;
      Unfold(sys.disk, main, log);
      ghost var before := sys.disk;
      var size := sys.Measure(false);
      StillAfter(before, sys.disk, main, log);
      Unfold(sys.disk, main, log);
      before := sys.disk;
      var logSize, there := Option<nat>.None, false;
      if hasLog {
        logSize := sys.Measure(true);
      } else {
        there := sys.Exists(true);
      }
      StillAfter(before, sys.disk, main, log);
      Unfold(sys.disk, main, log);
      before := sys.disk;
      var clean := sys.NoJournal();
      StillAfter(before, sys.disk, main, log);
      if size.None? || there || (hasLog && logSize.None?) || !clean {
        return None;
      }
      return Some((size.value, if hasLog then logSize.value else 0));
    }

    /** `fsync`, through interruptions. */
    method Sync(ghost main: seq<byte>, ghost log: Option<seq<byte>>) returns (ok: bool)
      requires Still(sys.disk, main, log)
      modifies sys
      ensures Still(sys.disk, main, log) && |sys.script| <= |old(sys.script)|
    {
      hide Still, Allowed;
      ok := false;
      var running := true;
      while running
        invariant Still(sys.disk, main, log) && |sys.script| <= |old(sys.script)|
        decreases |sys.script|, running
      {
        Unfold(sys.disk, main, log);
        ghost var before := sys.disk;
        running := sys.StillRunning();
        StillAfter(before, sys.disk, main, log);
        if running {
          Unfold(sys.disk, main, log);
          before := sys.disk;
          var t := sys.Next();
          StillAfter(before, sys.disk, main, log);
          if !t.interrupted {
            return t.works;
          }
        }
      }
    }

    /** The guard for the files there are: with a log and its shared memory the log's locks, otherwise the main file
        exclusively. */
    method Guard(hasLog: bool, hasShm: bool) returns (ok: bool)
      requires Exclusive(sys.disk.table)
      modifies sys
      ensures Exclusive(sys.disk.table) && (ok ==> Guarded(sys.disk.table))
      ensures ok && !(hasLog && hasShm) ==> MainGuard(sys.disk.table)
      ensures ok && hasLog && hasShm ==> ShmGuard(sys.disk.table)
    {
      ok := sys.LockMainShared();
      if ok {
        if hasLog && hasShm {
          ok := sys.LockShm();
        } else {
          ok := sys.LockMainExclusive();
        }
      }
    }

    /** The whole copy. Success is one instant: with the locks still held the outputs are the main file and the log,
        as they have both been since the guard went on, and there is no other log. */
    method Run(hasLog: bool, hasShm: bool, cap: nat, outMain: Output, outLog: Output)
      returns (report: Option<(nat, nat)>)
      requires Exclusive(sys.disk.table) && outMain.bytes == [] && outLog.bytes == [] && outMain != outLog
      requires buffer.Length == BUFFER
      modifies sys, outMain, outLog, buffer
      ensures Exclusive(sys.disk.table)
      ensures report.Some? ==>
        && Guarded(sys.disk.table)
        && outMain.bytes == sys.disk.main
        && sys.disk.log == (if hasLog then Some(outLog.bytes) else None)
        && report.value == (|sys.disk.main|, |outLog.bytes|)
        && report.value.0 + report.value.1 <= cap
    {
      hide Still, Allowed, Guarded, MainGuard, ShmGuard;
      var there := sys.Exists(true);
      var clean := sys.NoJournal();
      if !clean || there != hasLog {
        return None;
      }
      var ok := Guard(hasLog, hasShm);
      if !ok {
        return None;
      }
      ghost var main, log := sys.disk.main, sys.disk.log;
      Begin(sys.disk);
      var sizes := Inspect(hasLog, main, log);
      Unfold(sys.disk, main, log);
      if sizes.None? || sizes.value.0 > cap || sizes.value.1 > cap - sizes.value.0 {
        return None;
      }
      ok := CopyFile(false, sizes.value.0, outMain, main, log);
      Unfold(sys.disk, main, log);
      if ok && hasLog {
        ok := CopyFile(true, sizes.value.1, outLog, main, log);
      }
      if ok {
        ok := Sync(main, log);
      }
      if ok {
        ok := Sync(main, log);
      }
      var again := Inspect(hasLog, main, log);
      Unfold(sys.disk, main, log);
      if !ok || again != sizes {
        return None;
      }
      ghost var before := sys.disk;
      var told := sys.StillRunning();
      StillAfter(before, sys.disk, main, log);
      Unfold(sys.disk, main, log);
      if !told {
        return None;
      }
      End(sys.disk, main, log);
      return sizes;
    }

    lemma Begin(d: Disk)
      requires Exclusive(d.table) && Guarded(d.table)
      ensures Still(d, d.main, d.log)
    {
    }

    lemma End(d: Disk, main: seq<byte>, log: Option<seq<byte>>)
      requires Still(d, main, log)
      ensures Guarded(d.table)
    {
    }
  }

  // ----- Numbers on the command line -----

  const WORD: nat := 0x1_0000_0000_0000_0000

  /** The digits of a number, without leading zeros. */
  function Digits(n: nat): (s: seq<byte>)
    ensures |s| >= 1 && (n > 0 ==> s[0] != '0' as int)
    ensures forall i :: 0 <= i < |s| ==> '0' as int <= s[i] <= '9' as int
  {
    if n < 10 then ['0' as int + n] else Digits(n / 10) + ['0' as int + n % 10]
  }

  function NumberOf(s: seq<byte>): int {
    if s == [] then 0 else NumberOf(s[..|s| - 1]) * 10 + (s[|s| - 1] - '0' as int)
  }

  lemma {:induction false} NumberOfDigits(n: nat)
    ensures NumberOf(Digits(n)) == n
  {
    if n < 10 {
      assert Digits(n)[..0] == [];
    } else {
      NumberOfDigits(n / 10);
      assert Digits(n)[..|Digits(n)| - 1] == Digits(n / 10);
    }
  }

  /** The front of a number's digits is a number no larger. */
  lemma {:induction false} FrontOf(n: nat, k: nat) returns (m: nat)
    requires 1 <= k <= |Digits(n)|
    ensures m <= n && Digits(n)[..k] == Digits(m)
  {
    if k == |Digits(n)| {
      m := n;
    } else {
      assert Digits(n) == Digits(n / 10) + ['0' as int + n % 10];
      m := FrontOf(n / 10, k);
      assert Digits(n)[..k] == Digits(n / 10)[..k];
    }
  }

  lemma TooLarge(text: seq<byte>, n: nat, k: nat, value: nat)
    requires text == Digits(n) && 1 <= k <= |text| && text[..k] == Digits(value)
    ensures n >= value
  {
    var m := FrontOf(n, k);
    NumberOfDigits(m);
    NumberOfDigits(value);
  }

  lemma OneMoreDigit(number: nat, digit: nat)
    requires number > 0 && digit < 10
    ensures Digits(number * 10 + digit) == Digits(number) + ['0' as int + digit]
  {
    assert (number * 10 + digit) / 10 == number && (number * 10 + digit) % 10 == digit;
  }

  /** Accepts exactly the digits of the numbers of 64 bits. */
  method ParseNumber(text: seq<byte>) returns (r: Option<nat>)
    ensures r.Some? ==> r.value < WORD && text == Digits(r.value)
    ensures forall n: nat :: n < WORD && text == Digits(n) ==> r == Some(n)
  {
    assert Digits(0) == ['0' as int];
    if text == [] || (text[0] == '0' as int && |text| > 1) {
      return None;
    }
    var number: nat := 0;
    for i := 0 to |text|
      invariant number < WORD && (i == 0 ==> number == 0) && (i > 0 ==> text[..i] == Digits(number))
    {
      if text[i] < '0' as int || text[i] > '9' as int {
        return None;
      }
      var digit: nat := text[i] - '0' as int;
      ghost var next := number * 10 + digit;
      assert text[..i + 1] == text[..i] + ['0' as int + digit];
      if i > 0 {
        assert text[0] == text[..i][0];
        OneMoreDigit(number, digit);
      }
      assert text[..i + 1] == Digits(next);
      if number > (WORD - 1 - digit) / 10 {
        forall n: nat | text == Digits(n) ensures n >= WORD {
          TooLarge(text, n, i + 1, next);
        }
        return None;
      }
      number := number * 10 + digit;
    }
    assert text[..|text|] == text;
    forall n: nat | text == Digits(n) ensures n == number {
      NumberOfDigits(n);
      NumberOfDigits(number);
    }
    return Some(number);
  }
}
