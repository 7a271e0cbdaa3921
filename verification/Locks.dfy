/** SQLite's lock bytes and the processes that honour them. */
module Locks {
  import opened Bytes

  // ----- The bytes -----

  const PENDING_BYTE: nat := 0x4000_0000
  const RESERVED_BYTE: nat := PENDING_BYTE + 1
  const SHARED_FIRST: nat := PENDING_BYTE + 2
  const SHARED_SIZE: nat := 510
  const SHM_WRITE: nat := 120
  const SHM_CHECKPOINT: nat := 121
  const SHM_RECOVER: nat := 122
  const SHM_DMS: nat := 128

  /** A byte of the main file or of the shared-memory file. */
  datatype Place = Main(offset: nat) | Shm(offset: nat)

  /** Who holds what: true for a write lock. The copier is process 0. */
  type Table = map<(nat, Place), bool>

  const US: nat := 0

  predicate Holds(t: Table, p: nat, at: Place) {
    (p, at) in t
  }

  predicate HoldsWrite(t: Table, p: nat, at: Place) {
    (p, at) in t && t[(p, at)]
  }

  /** POSIX record locks: a write lock is alone on its byte. */
  ghost predicate Exclusive(t: Table) {
    forall p, q, at :: Holds(t, p, at) && HoldsWrite(t, q, at) ==> p == q
  }

  /** Another process stands in the way. */
  predicate Blocked(t: Table, p: nat, places: set<Place>, write: bool) {
    exists k :: k in t && k.0 != p && k.1 in places && (write || t[k])
  }

  function Locked(t: Table, p: nat, places: set<Place>, write: bool): Table {
    map k | k in t.Keys + Keyed(p, places) :: if k.0 == p && k.1 in places then write else t[k]
  }

  function Keyed(p: nat, places: set<Place>): (r: set<(nat, Place)>)
    ensures forall k :: k in r <==> k.0 == p && k.1 in places
  {
    set at | at in places :: (p, at)
  }

  function Unlocked(t: Table, p: nat, places: set<Place>): Table {
    map k | k in t.Keys && !(k.0 == p && k.1 in places) :: t[k]
  }

  lemma LockedExclusive(t: Table, p: nat, places: set<Place>, write: bool)
    requires Exclusive(t) && !Blocked(t, p, places, write)
    ensures Exclusive(Locked(t, p, places, write))
  {
    var u := Locked(t, p, places, write);
    forall q, r, at | Holds(u, q, at) && HoldsWrite(u, r, at) ensures q == r {
      if at !in places {
        assert Holds(t, q, at) && HoldsWrite(t, r, at);
      }
    }
  }

  lemma UnlockedExclusive(t: Table, p: nat, places: set<Place>)
    requires Exclusive(t)
    ensures Exclusive(Unlocked(t, p, places))
  {
    var u := Unlocked(t, p, places);
    forall q, r, at | Holds(u, q, at) && HoldsWrite(u, r, at) ensures q == r {
      assert Holds(t, q, at) && HoldsWrite(t, r, at);
    }
  }

  function MainRange(first: nat, count: nat): (r: set<Place>)
    ensures forall at :: at in r <==> at.Main? && first <= at.offset < first + count
  {
    set i | first <= i < first + count :: Main(i)
  }

  function ShmRange(first: nat, count: nat): (r: set<Place>)
    ensures forall at :: at in r <==> at.Shm? && first <= at.offset < first + count
  {
    set i | first <= i < first + count :: Shm(i)
  }

  const SHARED: set<Place> := MainRange(SHARED_FIRST, SHARED_SIZE)
  const LOG_LOCKS: set<Place> := ShmRange(SHM_WRITE, 3)

  // ----- What honest processes may do -----

  /** The exclusive lock of the main file: every byte of the shared range for writing. */
  predicate HasExclusive(t: Table, p: nat) {
    forall at :: at in SHARED ==> HoldsWrite(t, p, at)
  }

  predicate HasShared(t: Table, p: nat) {
    exists at :: at in SHARED && Holds(t, p, at)
  }

  /** The main file is written under its exclusive lock, or by a checkpointer. */
  predicate MayWriteMain(t: Table, p: nat) {
    HasExclusive(t, p) || (HasShared(t, p) && HoldsWrite(t, p, Shm(SHM_CHECKPOINT)))
  }

  /** The log is written under the main file's exclusive lock, by a writer or by a recoverer. */
  predicate MayWriteLog(t: Table, p: nat) {
    || HasExclusive(t, p)
    || (HasShared(t, p) && (HoldsWrite(t, p, Shm(SHM_WRITE)) || HoldsWrite(t, p, Shm(SHM_RECOVER))))
  }

  /** A rollback journal comes and goes under the reserved or the exclusive lock. */
  predicate MayJournal(t: Table, p: nat) {
    HasExclusive(t, p) || HoldsWrite(t, p, Main(RESERVED_BYTE))
  }

  /** The copier holds the main file shared and the three log locks, and no initializer can be at work. */
  ghost predicate ShmGuard(t: Table) {
    && (forall at :: at in SHARED ==> Holds(t, US, at))
    && (forall at :: at in LOG_LOCKS ==> HoldsWrite(t, US, at))
    && Holds(t, US, Shm(SHM_DMS))
  }

  /** The copier holds the main file exclusively. */
  ghost predicate MainGuard(t: Table) {
    HasExclusive(t, US) && HoldsWrite(t, US, Main(RESERVED_BYTE)) && HoldsWrite(t, US, Main(PENDING_BYTE))
  }

  ghost predicate Guarded(t: Table) {
    ShmGuard(t) || MainGuard(t)
  }

  /** Under either guard nobody else may write the main file or the log, and nobody initializes the shared memory. */
  lemma GuardStopsWriters(t: Table, p: nat)
    requires Exclusive(t) && Guarded(t) && p != US
    ensures !MayWriteMain(t, p) && !MayWriteLog(t, p)
    ensures MainGuard(t) ==> !MayJournal(t, p)
    ensures ShmGuard(t) ==> !HoldsWrite(t, p, Shm(SHM_DMS))
  {
    var first := Main(SHARED_FIRST);
    assert first in SHARED && Holds(t, US, first);
    Alone(t, US, p, first);
    if MainGuard(t) {
      forall at | at in SHARED ensures !Holds(t, p, at) {
        Alone(t, US, p, at);
      }
      Alone(t, US, p, Main(RESERVED_BYTE));
    }
    if ShmGuard(t) {
      Alone(t, US, p, Shm(SHM_DMS));
      forall n | n in {SHM_WRITE, SHM_CHECKPOINT, SHM_RECOVER} ensures !HoldsWrite(t, p, Shm(n)) {
        assert Shm(n) in LOG_LOCKS;
        Alone(t, US, p, Shm(n));
      }
    }
  }

  /** What one process holds keeps another from writing, and from anything when it is held for writing. */
  lemma Alone(t: Table, p: nat, q: nat, at: Place)
    requires Exclusive(t) && p != q && Holds(t, p, at)
    ensures !HoldsWrite(t, q, at) && (HoldsWrite(t, p, at) ==> !Holds(t, q, at))
  {
  }

  /** Our own locks are the same. */
  ghost predicate SameForUs(t: Table, u: Table) {
    forall at :: (Holds(t, US, at) <==> Holds(u, US, at)) && (HoldsWrite(t, US, at) <==> HoldsWrite(u, US, at))
  }

  lemma SameGuards(t: Table, u: Table)
    requires SameForUs(t, u)
    ensures ShmGuard(t) == ShmGuard(u) && MainGuard(t) == MainGuard(u)
  {
  }

  // ----- The disk -----

  /** One step of another process. */
  datatype Move =
    | Lock(places: set<Place>, write: bool)
    | Unlock(places: set<Place>)
    | WriteMain(main: seq<byte>)
    | WriteLog(log: Option<seq<byte>>)
    | SetJournal(journal: bool)

  predicate Honest(t: Table, p: nat, m: Move) {
    match m
    case Lock(places, write) => !Blocked(t, p, places, write)
    case Unlock(_) => true
    case WriteMain(_) => MayWriteMain(t, p)
    case WriteLog(_) => MayWriteLog(t, p)
    case SetJournal(_) => MayJournal(t, p)
  }

  datatype Disk = Disk(main: seq<byte>, log: Option<seq<byte>>, journal: bool, table: Table)

  function Moved(d: Disk, p: nat, m: Move): Disk {
    match m
    case Lock(places, write) => d.(table := Locked(d.table, p, places, write))
    case Unlock(places) => d.(table := Unlocked(d.table, p, places))
    case WriteMain(main) => d.(main := main)
    case WriteLog(log) => d.(log := log)
    case SetJournal(journal) => d.(journal := journal)
  }

  /** What honest steps of other processes leave to the copier. */
  ghost predicate Allowed(d: Disk, e: Disk) {
    && Exclusive(e.table) && SameForUs(d.table, e.table)
    && (Guarded(d.table) ==> e.main == d.main && e.log == d.log)
    && (MainGuard(d.table) ==> e.journal == d.journal)
  }

  lemma AllowedTwice(d: Disk, e: Disk, f: Disk)
    requires Allowed(d, e) && Allowed(e, f)
    ensures Allowed(d, f)
  {
    SameGuards(d.table, e.table);
  }

  lemma OneMove(d: Disk, p: nat, m: Move)
    requires Exclusive(d.table) && p != US && Honest(d.table, p, m)
    ensures Allowed(d, Moved(d, p, m))
  {
    hide MayWriteMain, MayWriteLog, MayJournal, Guarded, MainGuard, ShmGuard;
    if Guarded(d.table) {
      GuardStopsWriters(d.table, p);
    }
    GuardCases(d.table);
    match m {
      case Lock(places, write) => LockedExclusive(d.table, p, places, write);
      case Unlock(places) => UnlockedExclusive(d.table, p, places);
      case _ =>
    }
  }

  lemma GuardCases(t: Table)
    ensures MainGuard(t) || ShmGuard(t) <==> Guarded(t)
  {
  }
}
