/** Restoring a database file: the three SQLite files are moved to quarantine, the new file is
    swapped in and audited, and a failure rolls back. Any single step may fail.

    A step either happens or raises; `Error` is an ordinary exception, which the rollback handlers
    catch, and `Interrupt` one that they do not. */
module Restore {

  /** The database and its two side files, the quarantine name of each, and the temporary file. */
  datatype Path = Database(k: nat) | Old(k: nat) | Temp

  type Content = int
  type Files = map<Path, Content>

  datatype Fault = Fine | Error | Interrupt

  const COUNT: nat := 3

  /* ---------- What rolling back achieves ---------- */

  /** The files after the first `k` originals have been moved to quarantine. */
  ghost function Quarantined(files: Files, k: nat): Files {
    if k == 0 then files else OneQuarantined(Quarantined(files, k - 1), k - 1)
  }

  ghost function OneQuarantined(files: Files, k: nat): Files {
    if Database(k) in files then (files - {Database(k)})[Old(k) := files[Database(k)]] else files
  }

  /** Delete the originals, then move the quarantined ones back. */
  ghost function RolledBack(files: Files, moved: set<nat>): Files {
    map p | p in (files.Keys + set k | k in moved :: Database(k))
          && (match p case Database(k) => k in moved && Old(k) in files
                      case Old(k) => k !in moved
                      case Temp => true)
      :: if p.Database? then files[Old(p.k)] else files[p]
  }

  /** The files after the first `n` database files have been deleted. */
  ghost function Deleted(files: Files, n: nat): Files {
    map p | p in files && !(p.Database? && p.k < n) :: files[p]
  }

  /** The files after the first `n` of the moved ones have been moved back. */
  ghost function MovedBack(files: Files, moved: seq<nat>, n: nat): Files
    requires n <= |moved|
  {
    if n == 0 then files
    else
      var earlier, k := MovedBack(files, moved, n - 1), moved[n - 1];
      if Old(k) in earlier then (earlier - {Old(k)})[Database(k) := earlier[Old(k)]] else earlier
  }

  /** The files after so many steps of a rollback: three deletions, and then two for each moved file,
      of which the second moves it back. */
  ghost function RollingBack(files: Files, moved: seq<nat>, steps: nat): Files
    requires steps <= 3 + 2 * |moved|
  {
    if steps <= 3 then Deleted(files, steps) else MovedBack(Deleted(files, 3), moved, (steps - 3) / 2)
  }

  lemma RollingDeletes(files: Files, moved: seq<nat>, n: nat)
    requires n <= COUNT
    ensures RollingBack(files, moved, n) == Deleted(files, n)
  {}

  lemma RollingMoves(files: Files, moved: seq<nat>, n: nat)
    requires n <= |moved|
    ensures RollingBack(files, moved, COUNT + 2 * n) == MovedBack(Deleted(files, COUNT), moved, n)
    ensures n < |moved| ==>
              RollingBack(files, moved, COUNT + 2 * n + 1) == MovedBack(Deleted(files, COUNT), moved, n)
  {
    hide Deleted, MovedBack;
    MovedBackNone(Deleted(files, COUNT), moved);
    Halves(n);
  }

  lemma Halves(n: nat)
    ensures (COUNT + 2 * n - 3) / 2 == n == (COUNT + 2 * n + 1 - 3) / 2
  {}

  lemma MovedBackNone(files: Files, moved: seq<nat>)
    ensures MovedBack(files, moved, 0) == files
  {}

  /** The two steps of moving one file back. */
  lemma RollingOne(start: Files, now: Files, moved: seq<nat>, n: nat)
    requires n < |moved| && now == RollingBack(start, moved, COUNT + 2 * n)
    ensures RollingBack(start, moved, COUNT + 2 * n + 1) == now
    ensures Old(moved[n]) in now ==>
              RollingBack(start, moved, COUNT + 2 * (n + 1))
              == (now - {Old(moved[n])})[Database(moved[n]) := now[Old(moved[n])]]
  {
    RollingMoves(start, moved, n);
    RollingMoves(start, moved, n + 1);
    hide Deleted, RollingBack;
  }

  ghost predicate SameOriginals(files: Files, files': Files) {
    forall k :: 0 <= k < COUNT ==>
      && (Database(k) in files <==> Database(k) in files')
      && (Database(k) in files ==> files[Database(k)] == files'[Database(k)])
  }

  /** The originals among the first `k` that exist. */
  ghost function Existing(files: Files, k: nat): set<nat> {
    set i: nat | i < k && Database(i) in files
  }

  lemma {:induction false} QuarantinedFiles(files: Files, k: nat, i: nat)
    ensures Database(i) in Quarantined(files, k) <==> Database(i) in files && i >= k
    ensures Database(i) in Quarantined(files, k) ==> Quarantined(files, k)[Database(i)] == files[Database(i)]
    ensures i < k && Database(i) in files ==>
              Old(i) in Quarantined(files, k) && Quarantined(files, k)[Old(i)] == files[Database(i)]
  {
    if k > 0 {
      QuarantinedFiles(files, k - 1, i);
      QuarantinedFiles(files, k - 1, k - 1);
    }
  }

  /** Rolling back after `k` files restores the originals exactly when no original is left that was
      not yet moved: the rollback deletes the database files without asking whether they were. */
  lemma RollbackRestoresIff(files: Files, k: nat)
    requires k <= COUNT
    ensures SameOriginals(files, RolledBack(Quarantined(files, k), Existing(files, k)))
       <==> forall i :: k <= i < COUNT ==> Database(i) !in files
  {
    var back := RolledBack(Quarantined(files, k), Existing(files, k));
    forall i: nat | i < COUNT
      ensures Database(i) in back <==> Database(i) in files && i < k
      ensures Database(i) in back ==> back[Database(i)] == files[Database(i)]
    {
      QuarantinedFiles(files, k, i);
    }
  }

  /** A database with a write-ahead log is lost when moving the log fails. */
  lemma RollbackCanLose(db: Content, wal: Content)
    ensures var files := map[Database(0) := db, Database(1) := wal];
            !SameOriginals(files, RolledBack(Quarantined(files, 1), Existing(files, 1)))
  {
    var files := map[Database(0) := db, Database(1) := wal];
    RollbackRestoresIff(files, 1);
    assert Database(1) in files;
  }

  /* ---------- Preservation ---------- */

  /** Original `k` still has its content, at its own path or in quarantine. */
  ghost predicate Kept(before: Files, now: Files, k: nat) {
    Database(k) in before ==>
      || (Database(k) in now && now[Database(k)] == before[Database(k)])
      || (Old(k) in now && now[Old(k)] == before[Database(k)])
  }

  ghost predicate Preserved(before: Files, now: Files) {
    forall k: nat :: k < COUNT ==> Kept(before, now, k)
  }

  /** Original `k` has its content in quarantine. */
  ghost predicate Safe(before: Files, now: Files, k: nat) {
    Database(k) in before ==> Old(k) in now && now[Old(k)] == before[Database(k)]
  }

  ghost predicate AllSafe(before: Files, now: Files) {
    forall k: nat :: k < COUNT ==> Safe(before, now, k)
  }

  ghost predicate AllPreserved(before: Files, states: seq<Files>) {
    forall s :: s in states ==> Preserved(before, s)
  }

  /** Nothing but the database files differs. */
  ghost predicate OthersStay(files: Files, files': Files) {
    forall q: Path :: !q.Database? ==> (q in files' <==> q in files) && (q in files' ==> files'[q] == files[q])
  }

  /* ---------- How many steps a restore takes ---------- */

  /** Looking at an original takes one step; moving it takes two more. */
  function MoveSteps(files: Files, k: nat): nat {
    if k == 0 then 0 else MoveSteps(files, k - 1) + if Database(k - 1) in files then 3 else 1
  }

  /** How many of the first `k` originals exist. */
  function Present(files: Files, k: nat): nat {
    if k == 0 then 0 else Present(files, k - 1) + if Database(k - 1) in files then 1 else 0
  }

  /** Deleting the three files, then looking for each quarantined one and moving it back. */
  function RollbackSteps(moved: nat): nat {
    COUNT + 2 * moved
  }

  /** Deleting the temporary file, preparing, quarantine, and swapping. */
  function AttemptSteps(files: Files): nat {
    1 + 4 + MoveSteps(files, COUNT) + 3
  }

  /** And deleting the temporary file again and the originals in quarantine. */
  function RestoreSteps(files: Files): nat {
    AttemptSteps(files) + 1 + Present(files, COUNT)
  }

  lemma {:induction false} MoveStepsGrow(files: Files, k: nat, n: nat)
    requires k < n
    ensures MoveSteps(files, k + 1) <= MoveSteps(files, n)
    decreases n
  {
    if k + 1 < n {
      MoveStepsGrow(files, k, n - 1);
    }
  }

  /** How far a restore got. */
  datatype Stage = Starting | Preparing | Quarantining(k: nat) | Swapping | Finishing

  /** What the caller sees (`result`), the stage that failed and the fault that struck it, whether a
      rollback ran to its end, and whether the temporary file and the quarantined originals were
      removed. `at` is the step that failed. */
  datatype Report = Report(
    result: Fault,
    stage: Stage,
    struck: Fault,
    at: nat,
    rolledBack: bool,
    cleaned: bool,
    deleted: bool)

  class Disk {
    const faults: nat -> Fault
    const audited: Content -> Content
    var files: Files
    var clock: nat
    ghost var history: seq<Files>

    constructor (files: Files, faults: nat -> Fault, audited: Content -> Content)
      ensures this.files == files && history == [files] && this.clock == 0
      ensures this.faults == faults && this.audited == audited
    {
      this.files, this.faults, this.audited, this.clock := files, faults, audited, 0;
      history := [files];
    }

    /** Every state since `from` is logged, the present one included. */
    ghost predicate Logged()
      reads this
    {
      history != [] && history[|history| - 1] == files
    }

    /** No fault strikes from one step up to another. */
    ghost predicate Calm(from: nat, to: nat) {
      forall c :: from <= c < to ==> faults(c) == Fine
    }

    /** The steps since `from` went as planned, or ended with the first that failed. */
    ghost predicate Took(from: nat, steps: nat, fault: Fault, now: nat) {
      if fault == Fine then now == from + steps && Calm(from, now)
      else from < now <= from + steps && FirstFault(from, now - 1, fault)
    }

    lemma TookMore(from: nat, steps: nat, more: nat, fault: Fault, now: nat)
      requires Calm(from, from + steps) && Took(from + steps, more, fault, now)
      ensures Took(from, steps + more, fault, now)
    {}

    lemma TookWithin(from: nat, steps: nat, total: nat, fault: Fault, now: nat)
      requires Took(from, steps, fault, now) && fault != Fine && steps <= total
      ensures Took(from, total, fault, now)
    {}

    ghost predicate FirstFault(from: nat, at: nat, fault: Fault) {
      from <= at && Calm(from, at) && faults(at) == fault && fault != Fine
    }

    /** What the handler of a fault comes to: an ordinary exception is rolled back in so many steps
        and raised again, unless a step of the rollback fails; any other is just passed on. */
    ghost predicate Handled(struck: Fault, from: nat, steps: nat, rolledBack: bool, raised: Fault) {
      if struck == Interrupt then !rolledBack && raised == Interrupt
      else if Calm(from, from + steps) then rolledBack && raised == Error
      else !rolledBack && exists at: nat :: FirstFault(from, at, raised) && at < from + steps
    }

    lemma PassedOn(from: nat, steps: nat)
      ensures Handled(Interrupt, from, steps, false, Interrupt)
    {}

    /** A step that reads or checks something. */
    method Check() returns (fault: Fault)
      modifies this`clock
      ensures clock == old(clock) + 1 && fault == faults(old(clock))
    {
      fault := faults(clock);
      clock := clock + 1;
    }

    method Unlink(p: Path) returns (fault: Fault)
      requires Logged()
      modifies this`clock, this`files, this`history
      ensures Logged() && history == old(history) + [files]
      ensures clock == old(clock) + 1 && fault == faults(old(clock))
      ensures files == if fault == Fine then old(files) - {p} else old(files)
    {
      fault := Check();
      if fault == Fine {
        files := files - {p};
      }
      history := history + [files];
    }

    method Move(source: Path, target: Path) returns (fault: Fault)
      requires Logged()
      modifies this`clock, this`files, this`history
      ensures Logged() && history == old(history) + [files]
      ensures clock == old(clock) + 1
      ensures fault == if faults(old(clock)) == Fine && source !in old(files) then Error else faults(old(clock))
      ensures files == if fault == Fine then (old(files) - {source})[target := old(files)[source]] else old(files)
    {
      fault := Check();
      if fault == Fine && source !in files {
        fault := Error;
      }
      if fault == Fine {
        files := (files - {source})[target := files[source]];
      }
      history := history + [files];
    }

    /** Writing a file is not atomic: a failed write may leave anything there. */
    method Write(p: Path, content: Content) returns (fault: Fault)
      requires Logged()
      modifies this`clock, this`files, this`history
      ensures Logged() && history == old(history) + [files]
      ensures forall q :: q != p ==> (q in files <==> q in old(files)) && (q in files ==> files[q] == old(files)[q])
      ensures clock == old(clock) + 1 && fault == faults(old(clock))
      ensures fault == Fine ==> p in files && files[p] == content
    {
      fault := Check();
      var left: Content := *;
      files := files[p := if fault == Fine then content else left];
      history := history + [files];
    }

    /** The audit opens the new database: its side files may come and go, and a failed audit may
        leave anything in all three. */
    method Audit() returns (fault: Fault)
      requires Logged()
      modifies this`clock, this`files, this`history
      ensures Logged() && history == old(history) + [files]
      ensures OthersStay(old(files), files)
      ensures clock == old(clock) + 1
      ensures fault == if faults(old(clock)) == Fine && Database(0) !in old(files) then Error else faults(old(clock))
      ensures fault == Fine ==> Database(0) in old(files) && Database(0) in files
      ensures fault == Fine ==> files[Database(0)] == audited(old(files)[Database(0)])
    {
      fault := Check();
      if fault == Fine && Database(0) !in files {
        fault := Error;
      }
      var main, wal, shm: Content := *, *, *;
      var hasMain, hasWal, hasShm: bool := *, *, *;
      if fault == Fine {
        main, hasMain := audited(files[Database(0)]), true;
      }
      var others := map p | p in files && !(p.Database? && p.k < COUNT) :: files[p];
      files := others + (if hasMain then map[Database(0) := main] else map[])
             + (if hasWal then map[Database(1) := wal] else map[])
             + (if hasShm then map[Database(2) := shm] else map[]);
      history := history + [files];
    }

    /** Delete the three database files, then move the quarantined ones back. */
    method Rollback(moved: seq<nat>, ghost before: Files) returns (fault: Fault)
      requires Logged() && MovedList(before, moved) && Quarantines(before, files, moved)
      modifies this`clock, this`files, this`history
      ensures Logged() && SameTemp(old(files), files)
      ensures fault == Fine ==> BackIn(before, files, moved)
      ensures fault == Fine ==> SameOriginals(files, RolledBack(old(files), set k | k in moved))
      ensures Took(old(clock), RollbackSteps(|moved|), fault, clock)
      ensures files == RollingBack(old(files), moved, clock - old(clock) - if fault == Fine then 0 else 1)
      ensures old(AllSafe(before, files) && AllPreserved(before, history)) && AllMoved(before, moved) ==>
                AllPreserved(before, history)
    {
      hide Deleted, MovedBack, RollingBack;
      fault := DeleteDatabase(before);
      RollingDeletes(old(files), moved, clock - old(clock) - if fault == Fine then 0 else 1);
      if fault != Fine {
        return;
      }
      for i := 0 to |moved|
        invariant Logged() && SameTemp(old(files), files)
        invariant PartlyBack(before, files, moved, i)
        invariant Took(old(clock), COUNT + 2 * i, Fine, clock)
        invariant files == RollingBack(old(files), moved, COUNT + 2 * i)
        invariant old(AllSafe(before, files) && AllPreserved(before, history)) && AllMoved(before, moved) ==>
                    AllPreserved(before, history)
      {
        hide AllSafe, AllPreserved, AllMoved, MovedList, Quarantines, Took, PartlyBack, SameTemp;
        ghost var earlier, states := files, history;
        RollingOne(old(files), files, moved, i);
        fault := MoveBack(moved, i, before);
        TookMore(old(clock), COUNT + 2 * i, 2, fault, clock);
        if fault != Fine {
          TookWithin(old(clock), COUNT + 2 * i + 2, COUNT + 2 * |moved|, fault, clock);
          return;
        }
      }
      PartlyBackDone(before, files, moved);
      BackIsRolledBack(before, old(files), files, moved);
      fault := Fine;
    }

    /** Look for a quarantined file and move it back. */
    method MoveBack(moved: seq<nat>, i: nat, ghost before: Files) returns (fault: Fault)
      requires Logged() && MovedList(before, moved) && i < |moved| && PartlyBack(before, files, moved, i)
      modifies this`clock, this`files, this`history
      ensures Logged() && SameTemp(old(files), files)
      ensures fault == Fine ==> PartlyBack(before, files, moved, i + 1)
      ensures AllMoved(before, moved) && old(AllPreserved(before, history)) ==> AllPreserved(before, history)
      ensures Took(old(clock), 2, fault, clock)
      ensures fault != Fine ==> files == old(files)
      ensures fault == Fine ==>
                && Old(moved[i]) in old(files)
                && files == (old(files) - {Old(moved[i])})[Database(moved[i]) := old(files)[Old(moved[i])]]
    {
      hide AllPreserved, AllMoved, MovedList;
      fault := Check();
      PartlyBackNext(before, files, moved, i);
      if fault == Fine && Old(moved[i]) in files {
        ghost var earlier, states := files, history;
        fault := Move(Old(moved[i]), Database(moved[i]));
        if fault != Fine {
          PartlyBackPreserved(before, files, states, moved, i);
        } else {
          PartlyBackStep(before, earlier, files, moved, i);
          PartlyBackPreserved(before, files, states, moved, i + 1);
        }
      }
    }

    method DeleteDatabase(ghost before: Files) returns (fault: Fault)
      requires Logged()
      modifies this`clock, this`files, this`history
      ensures Logged()
      ensures OthersStay(old(files), files)
      ensures fault == Fine ==> forall j: nat :: j < COUNT ==> Database(j) !in files
      ensures Took(old(clock), COUNT, fault, clock)
      ensures files == Deleted(old(files), clock - old(clock) - if fault == Fine then 0 else 1)
      ensures old(AllSafe(before, files) && AllPreserved(before, history)) ==> AllPreserved(before, history)
    {
      for k := 0 to COUNT
        invariant Logged()
        invariant OthersStay(old(files), files)
        invariant forall j: nat :: j < k ==> Database(j) !in files
        invariant Took(old(clock), k, Fine, clock) && files == Deleted(old(files), k)
        invariant old(AllSafe(before, files) && AllPreserved(before, history)) ==> AllPreserved(before, history)
      {
        fault := Unlink(Database(k));
        SafeIsPreserved(before, old(files), files);
        if fault != Fine {
          return;
        }
      }
      fault := Fine;
    }

    /** Move original `k` to quarantine, if it exists. */
    method QuarantineOne(k: nat, ghost before: Files) returns (fault: Fault, present: bool)
      requires Logged() && k < COUNT && Half(before, files, k) && AllPreserved(before, history)
      modifies this`clock, this`files, this`history
      ensures Logged() && SameTemp(old(files), files) && AllPreserved(before, history)
      ensures Half(before, files, if fault == Fine then k + 1 else k)
      ensures fault == Fine ==> (present <==> Database(k) in before) && files == OneQuarantined(old(files), k)
      ensures Took(old(clock), if Database(k) in before then 3 else 1, fault, clock)
      ensures fault != Fine ==> files == if clock == old(clock) + 3 then old(files) - {Old(k)} else old(files)
    {
      present := false;
      assert Database(k) in files <==> Database(k) in before;
      fault := Check();
      if fault != Fine || Database(k) !in files {
        return;
      }
      present := true;
      fault := Unlink(Old(k));
      HalfPreserved(before, files, k);
      if fault != Fine {
        return;
      }
      ghost var halfway := files;
      fault := Move(Database(k), Old(k));
      if fault == Fine {
        HalfStep(before, halfway, files, k);
        HalfPreserved(before, files, k + 1);
      } else {
        HalfPreserved(before, files, k);
      }
    }

    /** Roll back after `k` files have been moved; the failure is raised again. */
    method RollbackBelow(moved: seq<nat>, k: nat, ghost before: Files) returns (fault: Fault, rolledBack: bool)
      requires Logged() && k < COUNT && Half(before, files, k) && MovedBelow(before, moved, k)
      requires AllPreserved(before, history)
      modifies this`clock, this`files, this`history
      ensures Logged() && SameTemp(old(files), files) && fault != Fine
      ensures rolledBack ==>
                && BackBelow(before, files, k)
                && SameOriginals(files, RolledBack(Quarantined(before, k), Existing(before, k)))
      ensures (forall j: nat :: k <= j < COUNT ==> Database(j) !in before) ==> AllPreserved(before, history)
      ensures Handled(Error, old(clock), RollbackSteps(|moved|), rolledBack, fault)
    {
      hide RolledBack, SameOriginals, BackBelow, Half;
      MovedBelowFacts(before, files, moved, k);
      fault := Rollback(moved, before);
      rolledBack := fault == Fine;
      if !rolledBack {
        assert FirstFault(old(clock), clock - 1, fault);
      } else {
        fault := Error;
        BackBelowFacts(before, files, moved, k);
        BelowIsRolledBack(before, files, k);
      }
    }

    /** Move the originals that exist to quarantine, one by one. On a fault, `k` are done. */
    method MoveAll(ghost before: Files) returns (fault: Fault, moved: seq<nat>, k: nat)
      requires Logged() && SameOriginals(before, files) && AllPreserved(before, history)
      modifies this`clock, this`files, this`history
      ensures Logged() && SameTemp(old(files), files) && AllPreserved(before, history) && k <= COUNT
      ensures MovedBelow(before, moved, k) && Half(before, files, k) && |moved| == Present(before, k)
      ensures fault == Fine ==>
                && k == COUNT && files == Quarantined(old(files), COUNT)
                && clock == old(clock) + MoveSteps(before, COUNT) && Calm(old(clock), clock)
      ensures fault != Fine ==>
                && k < COUNT && clock > 0 && FirstFault(old(clock), clock - 1, fault)
                && old(clock) + MoveSteps(before, k) < clock <= old(clock) + MoveSteps(before, k + 1)
    {
      fault, moved, k := Fine, [], 0;
      while k < COUNT
        invariant Logged() && k <= COUNT && SameTemp(old(files), files) && AllPreserved(before, history)
        invariant Half(before, files, k) && MovedBelow(before, moved, k)
        invariant files == Quarantined(old(files), k)
        invariant clock == old(clock) + MoveSteps(before, k) && Calm(old(clock), clock)
        invariant |moved| == Present(before, k) && fault == Fine
      {
        hide AllPreserved, Half, MovedBelow, MovedList, AllSafe, SameTemp;
        var present;
        fault, present := QuarantineOne(k, before);
        if fault != Fine {
          return;
        }
        MovedBelowStep(before, moved, k);
        if present {
          moved := moved + [k];
        }
        k := k + 1;
      }
    }

    /** Move the originals to quarantine; roll back if a step fails. */
    method Quarantine(ghost before: Files)
        returns (fault: Fault, moved: seq<nat>, k: nat, struck: Fault, at: nat, rolledBack: bool)
      requires Logged() && SameOriginals(before, files) && AllPreserved(before, history)
      modifies this`clock, this`files, this`history
      ensures Logged() && SameTemp(old(files), files)
      ensures fault == Fine ==>
                && MovedBelow(before, moved, COUNT) && Half(before, files, COUNT) && AllPreserved(before, history)
                && files == Quarantined(old(files), COUNT)
      ensures fault != Fine ==> k < COUNT && struck != Fine
      ensures struck == Interrupt ==> AllPreserved(before, history) && Half(before, files, k)
      ensures rolledBack ==>
                && BackBelow(before, files, k)
                && SameOriginals(files, RolledBack(Quarantined(before, k), Existing(before, k)))
      ensures fault == Fine ==>
                && clock == old(clock) + MoveSteps(before, COUNT) && Calm(old(clock), clock)
                && |moved| == Present(before, COUNT)
      ensures fault != Fine ==>
                && FirstFault(old(clock), at, struck)
                && old(clock) + MoveSteps(before, k) <= at < old(clock) + MoveSteps(before, k + 1)
                && Handled(struck, at + 1, RollbackSteps(Present(before, k)), rolledBack, fault)
      ensures (forall j: nat :: k <= j < COUNT ==> Database(j) !in before) ==> AllPreserved(before, history)
    {
      hide AllPreserved, Half, MovedBelow, MovedList, AllSafe, Handled, RollbackSteps, Quarantined, RolledBack;
      hide SameOriginals, BackBelow, MoveSteps, Present;
      fault, moved, k := MoveAll(before);
      struck, at, rolledBack := fault, if fault == Fine then 0 else clock - 1, false;
      if fault == Interrupt {
        PassedOn(clock, RollbackSteps(Present(before, k)));
      } else if fault == Error {
        fault, rolledBack := RollbackBelow(moved, k, before);
      }
    }
  }

  /** The rollback does to the originals what `RolledBack` says. */
  lemma BackIsRolledBack(before: Files, earlier: Files, now: Files, moved: seq<nat>)
    requires MovedList(before, moved) && Quarantines(before, earlier, moved) && BackIn(before, now, moved)
    ensures SameOriginals(now, RolledBack(earlier, set k | k in moved))
  {
    var back := RolledBack(earlier, set k | k in moved);
    forall k: nat | k < COUNT
      ensures Database(k) in now <==> Database(k) in back
      ensures Database(k) in now ==> now[Database(k)] == back[Database(k)]
    {
      assert k in moved ==> Old(k) in earlier;
    }
  }

  /** The originals below `k` and no others: that is quarantine up to `k`, rolled back. */
  lemma BelowIsRolledBack(before: Files, now: Files, k: nat)
    requires k <= COUNT && BackBelow(before, now, k)
    ensures SameOriginals(now, RolledBack(Quarantined(before, k), Existing(before, k)))
  {
    var back := RolledBack(Quarantined(before, k), Existing(before, k));
    forall i: nat | i < COUNT
      ensures Database(i) in now <==> Database(i) in back
      ensures Database(i) in now ==> now[Database(i)] == back[Database(i)]
    {
      QuarantinedFiles(before, k, i);
    }
  }

  ghost predicate SameTemp(files: Files, files': Files) {
    && (Temp in files <==> Temp in files')
    && (Temp in files ==> files[Temp] == files'[Temp])
  }

  /** The originals below `k` are back in place, and the others are gone. */
  ghost predicate BackBelow(before: Files, now: Files, k: nat) {
    forall j: nat :: j < COUNT ==>
      && (Database(j) in now <==> Database(j) in before && j < k)
      && (Database(j) in now ==> now[Database(j)] == before[Database(j)])
  }

  lemma HalfStep(before: Files, halfway: Files, now: Files, k: nat)
    requires k < COUNT && Half(before, halfway, k) && Database(k) in halfway
    requires now == (halfway - {Database(k)})[Old(k) := halfway[Database(k)]]
    ensures Half(before, now, k + 1)
  {
    forall j: nat | j < k + 1
      ensures Database(j) !in now && Safe(before, now, j)
    {
      assert j < k ==> Safe(before, halfway, j);
    }
  }

  lemma MovedBelowStep(before: Files, moved: seq<nat>, k: nat)
    requires k < COUNT && MovedBelow(before, moved, k)
    ensures MovedBelow(before, if Database(k) in before then moved + [k] else moved, k + 1)
  {
    var moved' := if Database(k) in before then moved + [k] else moved;
    forall j: nat
      ensures j in moved' <==> j < k + 1 && Database(j) in before
    {
      assert j in moved' <==> j in moved || (Database(k) in before && j == k);
    }
    assert forall j :: j in moved' ==> j in moved || j == k;
    forall i, j | 0 <= i < j < |moved'|
      ensures moved'[i] < moved'[j]
    {
      assert i < |moved| && moved[i] in moved;
    }
  }

  /** What the rollback needs after `k` files. */
  lemma MovedBelowFacts(before: Files, now: Files, moved: seq<nat>, k: nat)
    requires k <= COUNT && MovedBelow(before, moved, k) && Half(before, now, k)
    ensures MovedList(before, moved) && Quarantines(before, now, moved)
    ensures (forall j: nat :: k <= j < COUNT ==> Database(j) !in before) ==>
              AllMoved(before, moved) && AllSafe(before, now)
  {
    forall j | j in moved
      ensures Old(j) in now && now[Old(j)] == before[Database(j)]
    {
      assert Safe(before, now, j);
    }
    if forall j: nat :: k <= j < COUNT ==> Database(j) !in before {
      forall j: nat | j < COUNT
        ensures Safe(before, now, j)
      {
        if j < k {
          assert Safe(before, now, j);
        }
      }
    }
  }

  lemma BackBelowFacts(before: Files, now: Files, moved: seq<nat>, k: nat)
    requires MovedBelow(before, moved, k) && BackIn(before, now, moved)
    ensures BackBelow(before, now, k)
  {}

  ghost predicate Quarantines(before: Files, now: Files, moved: seq<nat>)
    requires MovedList(before, moved)
  {
    forall k :: k in moved ==> Old(k) in now && now[Old(k)] == before[Database(k)]
  }

  /** Exactly the moved originals are in place. */
  ghost predicate BackIn(before: Files, now: Files, moved: seq<nat>) {
    forall k: nat :: k < COUNT ==>
      && (Database(k) in now <==> k in moved)
      && (k in moved ==> Database(k) in before && now[Database(k)] == before[Database(k)])
  }

  /** The originals moved so far, each once. */
  ghost predicate MovedList(before: Files, moved: seq<nat>) {
    && (forall i, j :: 0 <= i < j < |moved| ==> moved[i] < moved[j])
    && (forall k :: k in moved ==> k < COUNT && Database(k) in before)
  }

  ghost predicate MovedBelow(before: Files, moved: seq<nat>, k: nat) {
    MovedList(before, moved) && forall j: nat :: j in moved <==> j < k && Database(j) in before
  }

  ghost predicate AllMoved(before: Files, moved: seq<nat>) {
    forall k: nat :: k < COUNT && Database(k) in before ==> k in moved
  }

  /** The originals below `k` are in quarantine; the others are in place. */
  ghost predicate Half(before: Files, now: Files, k: nat) {
    && (forall j: nat :: j < k ==> Database(j) !in now && Safe(before, now, j))
    && (forall j: nat :: k <= j < COUNT ==>
          && (Database(j) in now <==> Database(j) in before)
          && (Database(j) in now ==> now[Database(j)] == before[Database(j)]))
  }

  lemma HalfPreserved(before: Files, now: Files, k: nat)
    requires Half(before, now, k)
    ensures Preserved(before, now)
  {
    forall j: nat | j < COUNT
      ensures Kept(before, now, j)
    {
      assert j < k ==> Safe(before, now, j);
    }
  }

  lemma SafeIsPreserved(before: Files, earlier: Files, now: Files)
    requires OthersStay(earlier, now)
    ensures AllSafe(before, earlier) ==> Preserved(before, now) && AllSafe(before, now)
  {
    if AllSafe(before, earlier) {
      forall k: nat | k < COUNT
        ensures Kept(before, now, k) && Safe(before, now, k)
      {
        assert Safe(before, earlier, k);
      }
    }
  }

  /** The first `n` of the quarantined files have been moved back, the others are in quarantine. */
  ghost predicate PartlyBack(before: Files, now: Files, moved: seq<nat>, n: nat)
    requires n <= |moved| && MovedList(before, moved)
  {
    && (forall i :: 0 <= i < n ==> Database(moved[i]) in now && now[Database(moved[i])] == before[Database(moved[i])])
    && (forall i :: n <= i < |moved| ==> Old(moved[i]) in now && now[Old(moved[i])] == before[Database(moved[i])])
    && (forall k: nat :: k < COUNT && k !in moved[..n] ==> Database(k) !in now)
  }

  lemma PartlyBackNext(before: Files, now: Files, moved: seq<nat>, n: nat)
    requires n < |moved| && MovedList(before, moved) && PartlyBack(before, now, moved, n)
    ensures Old(moved[n]) in now
  {}

  lemma PartlyBackStep(before: Files, earlier: Files, now: Files, moved: seq<nat>, n: nat)
    requires n < |moved| && MovedList(before, moved) && PartlyBack(before, earlier, moved, n)
    requires Old(moved[n]) in earlier
    requires now == (earlier - {Old(moved[n])})[Database(moved[n]) := earlier[Old(moved[n])]]
    ensures PartlyBack(before, now, moved, n + 1)
  {
    assert moved[..n + 1] == moved[..n] + [moved[n]];
  }

  lemma PartlyBackDone(before: Files, now: Files, moved: seq<nat>)
    requires MovedList(before, moved) && PartlyBack(before, now, moved, |moved|)
    ensures BackIn(before, now, moved)
  {
    assert moved[..|moved|] == moved;
  }

  lemma PartlyBackPreserved(before: Files, now: Files, states: seq<Files>, moved: seq<nat>, n: nat)
    requires n <= |moved| && MovedList(before, moved) && PartlyBack(before, now, moved, n)
    ensures AllMoved(before, moved) && AllPreserved(before, states) ==> AllPreserved(before, states + [now])
  {
    if AllMoved(before, moved) {
      forall k: nat | k < COUNT
        ensures Kept(before, now, k)
      {
        if Database(k) in before {
          var i :| 0 <= i < |moved| && moved[i] == k;
        }
      }
    }
  }

  /* ---------- The whole restore ---------- */

  class Restorer {
    const disk: Disk

    constructor (disk: Disk)
      ensures this.disk == disk
    {
      this.disk := disk;
    }

    /** Copy the backup to the temporary file and check it. */
    method Prepare(backup: Content, ghost before: Files) returns (fault: Fault)
      requires disk.Logged() && SameOriginals(before, disk.files) && AllPreserved(before, disk.history)
      modifies disk`clock, disk`files, disk`history
      ensures disk.Logged() && SameOriginals(before, disk.files) && AllPreserved(before, disk.history)
      ensures fault == Fine ==> Temp in disk.files && disk.files[Temp] == backup
      ensures disk.Took(old(disk.clock), 4, fault, disk.clock)
    {
      fault := disk.Write(Temp, backup);
      UnchangedPreserved(before, disk.files);
      for check := 0 to 3
        invariant disk.Logged() && SameOriginals(before, disk.files) && AllPreserved(before, disk.history)
        invariant fault == Fine ==> Temp in disk.files && disk.files[Temp] == backup
        invariant disk.Took(old(disk.clock), 1 + check, fault, disk.clock)
      {
        if fault == Fine {
          fault := disk.Check();
        }
      }
    }

    /** Put the temporary file in place and audit it. */
    method Swap(backup: Content, ghost before: Files) returns (fault: Fault)
      requires disk.Logged() && AllSafe(before, disk.files) && AllPreserved(before, disk.history)
      requires Temp in disk.files && disk.files[Temp] == backup
      modifies disk`clock, disk`files, disk`history
      ensures disk.Logged() && AllSafe(before, disk.files) && AllPreserved(before, disk.history)
      ensures fault == Fine ==> Temp !in disk.files && Database(0) in disk.files
      ensures fault == Fine ==> disk.files[Database(0)] == disk.audited(backup)
      ensures fault != Fine && disk.clock == old(disk.clock) + 1 ==> disk.files == old(disk.files)
      ensures fault != Fine && disk.clock == old(disk.clock) + 2 ==>
                disk.files == (old(disk.files) - {Temp})[Database(0) := backup]
      ensures disk.Took(old(disk.clock), 3, fault, disk.clock)
    {
      fault := disk.Move(Temp, Database(0));
      SafeIsPreserved'(before, old(disk.files), disk.files);
      if fault != Fine {
        return;
      }
      fault := disk.Check();
      if fault != Fine {
        return;
      }
      ghost var swapped := disk.files;
      fault := disk.Audit();
      SafeIsPreserved'(before, swapped, disk.files);
    }

    /** Remove the quarantined originals of a successful restore. */
    method DeleteQuarantined(moved: seq<nat>) returns (fault: Fault)
      requires disk.Logged()
      modifies disk`clock, disk`files, disk`history
      ensures disk.Logged() && old(disk.history) <= disk.history
      ensures forall q: Path :: !q.Old? ==> (q in disk.files <==> q in old(disk.files))
      ensures forall q: Path :: !q.Old? && q in disk.files ==> disk.files[q] == old(disk.files)[q]
      ensures fault == Fine ==> forall k :: k in moved ==> Old(k) !in disk.files
      ensures var done := disk.clock - old(disk.clock) - if fault == Fine then 0 else 1;
              && 0 <= done <= |moved|
              && forall k :: Old(k) in disk.files <==> Old(k) in old(disk.files) && k !in moved[..done]
      ensures disk.Took(old(disk.clock), |moved|, fault, disk.clock)
    {
      for i := 0 to |moved|
        invariant disk.Logged() && old(disk.history) <= disk.history
        invariant forall q: Path :: !q.Old? ==> (q in disk.files <==> q in old(disk.files))
        invariant forall q: Path :: !q.Old? && q in disk.files ==> disk.files[q] == old(disk.files)[q]
        invariant forall k :: Old(k) in disk.files <==> Old(k) in old(disk.files) && k !in moved[..i]
        invariant disk.Took(old(disk.clock), i, Fine, disk.clock)
      {
        fault := disk.Unlink(Old(moved[i]));
        assert moved[..i + 1] == moved[..i] + [moved[i]];
        if fault != Fine {
          return;
        }
      }
      fault := Fine;
    }

    /** Which step of an attempt begun at `from` failed, what its handler did, and what it raised. */
    ghost predicate Explained(before: Files, from: nat, report: Report, raised: Fault) {
      && disk.FirstFault(from, report.at, report.struck)
      && match report.stage
         case Starting => false
         case Preparing => report.at < from + 4 && !report.rolledBack && raised == report.struck
         case Quarantining(k) =>
           && k < COUNT && from + 4 + MoveSteps(before, k) <= report.at < from + 4 + MoveSteps(before, k + 1)
           && disk.Handled(report.struck, report.at + 1, RollbackSteps(Present(before, k)), report.rolledBack, raised)
         case Swapping =>
           && from + 4 + MoveSteps(before, COUNT) <= report.at < from + 7 + MoveSteps(before, COUNT)
           && disk.Handled(report.struck, report.at + 1, RollbackSteps(Present(before, COUNT)), report.rolledBack,
                           raised)
         case Finishing => false
    }

    lemma ExplainedToo(before: Files, from: nat, report: Report, report': Report, raised: Fault)
      requires report' == report.(result := report'.result, cleaned := report'.cleaned, deleted := report'.deleted)
      ensures Explained(before, from, report, raised) ==> Explained(before, from, report', raised)
    {}

    /** The body of the try statement: prepare, quarantine, swap, and roll back a failed swap. */
    method Attempt(backup: Content, ghost before: Files) returns (report: Report, moved: seq<nat>)
      requires disk.Logged() && SameOriginals(before, disk.files) && AllPreserved(before, disk.history)
      modifies disk`clock, disk`files, disk`history
      ensures disk.Logged() && !report.cleaned && !report.deleted && report.stage != Starting
      ensures report.stage == Finishing <==> disk.Calm(old(disk.clock), old(disk.clock) + AttemptSteps(before) - 1)
      ensures report.stage == Finishing ==>
                && disk.clock == old(disk.clock) + AttemptSteps(before) - 1 && |moved| == Present(before, COUNT)
                && !report.rolledBack && report.struck == Fine
      ensures report.result == Fine <==> report.stage == Finishing
      ensures report.stage != Finishing ==> Explained(before, old(disk.clock), report, report.result)
      ensures Originals(before, disk.files, report)
      ensures !Unguarded(before, report) ==> AllPreserved(before, disk.history)
      ensures report.result == Fine ==>
                MovedList(before, moved) && AllMoved(before, moved) && InPlace(disk.files, disk.audited(backup))
    {
      hide AllPreserved, SameOriginals, AllSafe, MovedList, AllMoved, BackBelow, Half, Quarantined, RolledBack;
      hide MovedBelow, Disk.Handled;
      moved := [];
      var fault := Prepare(backup, before);
      if fault != Fine {
        return Report(fault, Preparing, fault, disk.clock - 1, false, false, false), [];
      }
      var k, struck, at, rolledBack;
      hide MoveSteps, Present;
      fault, moved, k, struck, at, rolledBack := disk.Quarantine(before);
      if fault != Fine {
        MoveStepsGrow(before, k, COUNT);
        BackBelowIsSame(before, disk.files, k);
        return Report(fault, Quarantining(k), struck, at, rolledBack, false, false), moved;
      }
      MovedBelowFacts(before, disk.files, moved, COUNT);
      report := SwapIn(backup, moved, before);
    }

    /** Swap the new file in; roll an ordinary failure back. */
    method SwapIn(backup: Content, moved: seq<nat>, ghost before: Files) returns (report: Report)
      requires disk.Logged() && AllSafe(before, disk.files) && AllPreserved(before, disk.history)
      requires Temp in disk.files && disk.files[Temp] == backup
      requires MovedList(before, moved) && AllMoved(before, moved) && |moved| == Present(before, COUNT)
      modifies disk`clock, disk`files, disk`history
      ensures disk.Logged() && AllPreserved(before, disk.history) && !report.cleaned && !report.deleted
      ensures report.stage == if disk.Calm(old(disk.clock), old(disk.clock) + 3) then Finishing else Swapping
      ensures report.stage == Finishing ==>
                && report.result == report.struck == Fine && !report.rolledBack
                && disk.clock == old(disk.clock) + 3 && InPlace(disk.files, disk.audited(backup))
      ensures report.stage == Swapping ==>
                && report.result != Fine
                && disk.FirstFault(old(disk.clock), report.at, report.struck) && report.at < old(disk.clock) + 3
                && disk.Handled(report.struck, report.at + 1, RollbackSteps(|moved|), report.rolledBack, report.result)
                && Originals(before, disk.files, report)
    {
      var fault := Swap(backup, before);
      var at := disk.clock - 1;
      hide Preserved, SameOriginals, Safe, MovedList, AllMoved;
      if fault == Error {
        SafeQuarantines(before, disk.files, moved);
        var f := disk.Rollback(moved, before);
        assert f != Fine ==> disk.FirstFault(at + 1, disk.clock - 1, f);
        BackInIsSame(before, disk.files, moved);
        return Report(if f == Fine then Error else f, Swapping, Error, at, f == Fine, false, false);
      }
      report := Report(fault, if fault == Fine then Finishing else Swapping, fault, at, false, false, false);
    }

    /** The temporary file is deleted first and last; a successful restore then deletes the
        quarantined originals. `committed` counts the states before that; `raised` is what the attempt
        raised, which only a fault of the clean-up can hide. */
    method Restore(backup: Content) returns (report: Report, ghost committed: nat, ghost raised: Fault)
      requires disk.Logged() && disk.history == [disk.files]
      modifies disk`clock, disk`files, disk`history
      ensures report.result == Fine <==> report.stage == Finishing && report.cleaned && report.deleted
      ensures report.result == Fine <==> disk.Calm(old(disk.clock), old(disk.clock) + RestoreSteps(old(disk.files)))
      ensures report.stage == Finishing <==> disk.Calm(old(disk.clock), old(disk.clock) + AttemptSteps(old(disk.files)))
      ensures report.stage == Starting ==>
                && disk.files == old(disk.files) && !report.rolledBack && !report.cleaned && !report.deleted
                && report.at == old(disk.clock) && report.result == report.struck == disk.faults(report.at)
      ensures report.stage != Starting && report.stage != Finishing ==>
                && Explained(old(disk.files), old(disk.clock) + 1, report, raised)
                && disk.clock > 0 && !report.deleted
                && (report.cleaned <==> disk.faults(disk.clock - 1) == Fine)
                && report.result == if report.cleaned then raised else disk.faults(disk.clock - 1)
      ensures report.stage == Finishing ==> !report.rolledBack && report.struck == Fine
      ensures report.stage == Finishing && !report.cleaned ==>
                report.result == disk.faults(old(disk.clock) + AttemptSteps(old(disk.files)))
      ensures report.stage == Finishing ==>
                (report.cleaned <==> disk.faults(old(disk.clock) + AttemptSteps(old(disk.files))) == Fine)
      ensures Originals(old(disk.files), disk.files, report)
      ensures committed <= |disk.history| && (report.stage != Finishing ==> committed == |disk.history|)
      ensures !Unguarded(old(disk.files), report) ==> AllPreserved(old(disk.files), disk.history[..committed])
      ensures report.stage == Finishing ==> InPlace(disk.files, disk.audited(backup))
      ensures report.cleaned ==> Temp !in disk.files
      ensures report.result == Fine ==>
                forall k: nat :: k < COUNT && Database(k) in old(disk.files) ==> Old(k) !in disk.files
    {
      ghost var before := disk.files;
      UnchangedPreserved(before, before);
      var fault := disk.Unlink(Temp);
      UnchangedPreserved(before, disk.files);
      if fault != Fine {
        return Report(fault, Starting, fault, disk.clock - 1, false, false, false), |disk.history|, fault;
      }
      hide Preserved, SameOriginals, AllMoved, MovedList, MoveSteps, Present, InPlace, Originals, Unguarded, Explained;
      var attempt, moved := Attempt(backup, before);
      report, committed := CleanUp(attempt, moved, before, disk.audited(backup));
      raised := attempt.result;
      ExplainedToo(before, old(disk.clock) + 1, attempt, report, raised);
    }

    /** The finally clause: delete the temporary file, then the quarantined originals of a successful
        restore. */
    method CleanUp(attempt: Report, moved: seq<nat>, ghost before: Files, ghost content: Content)
        returns (report: Report, ghost committed: nat)
      requires disk.Logged() && Originals(before, disk.files, attempt) && !attempt.cleaned && !attempt.deleted
      requires attempt.result == Fine <==> attempt.stage == Finishing
      requires attempt.stage == Finishing ==> AllMoved(before, moved) && InPlace(disk.files, content)
      modifies disk`clock, disk`files, disk`history
      ensures report == attempt.(result := report.result, cleaned := report.cleaned, deleted := report.deleted)
      ensures report.result == Fine <==>
                attempt.result == Fine && disk.Calm(old(disk.clock), old(disk.clock) + 1 + |moved|)
      ensures report.result == Fine <==> report.stage == Finishing && report.cleaned && report.deleted
      ensures report.cleaned <==> disk.faults(old(disk.clock)) == Fine
      ensures report.stage != Finishing ==> disk.clock == old(disk.clock) + 1 && !report.deleted
      ensures report.cleaned && report.stage != Finishing ==> report.result == attempt.result
      ensures !report.cleaned ==> report.result == disk.faults(old(disk.clock))
      ensures disk.Logged() && Originals(before, disk.files, report)
      ensures committed <= |disk.history| && (report.stage != Finishing ==> committed == |disk.history|)
      ensures AllPreserved(before, old(disk.history)) ==> AllPreserved(before, disk.history[..committed])
      ensures report.stage == Finishing ==> InPlace(disk.files, content)
      ensures report.cleaned ==> Temp !in disk.files
      ensures report.result == Fine ==>
                forall k: nat :: k < COUNT && Database(k) in before ==> Old(k) !in disk.files
    {
      hide Preserved, SameOriginals, AllMoved;
      committed := |disk.history|;
      var fault := disk.Unlink(Temp);
      TempOnlyFacts(before, old(disk.files), disk.files, old(disk.history), attempt);
      if attempt.stage != Finishing {
        committed := |disk.history|;
        assert disk.history[..committed] == disk.history;
        return attempt.(result := if fault != Fine then fault else attempt.result, cleaned := fault == Fine), committed;
      }
      assert disk.history[..committed] == old(disk.history);
      if fault != Fine {
        return attempt.(result := fault), committed;
      }
      ghost var cleanedStates := disk.history;
      fault := DeleteQuarantined(moved);
      assert disk.history[..|cleanedStates|] == cleanedStates;
      AllGone(before, disk.files, moved);
      report := attempt.(result := fault, cleaned := true, deleted := fault == Fine);
    }
  }

  /** Over any files, the caller can be told of an error although the restore stays: the first step
      after the attempt, removing the temporary file, raises. */
  method ErrorThoughRestored(files: Files, backup: Content, audited: Content -> Content)
      returns (disk: Disk, report: Report)
    ensures fresh(disk) && report.result == Error && report.stage == Finishing
    ensures InPlace(disk.files, audited(backup))
  {
    var last := AttemptSteps(files);
    disk := new Disk(files, c => if c == last then Error else Fine, audited);
    var restorer := new Restorer(disk);
    ghost var committed, raised;
    report, committed, raised := restorer.Restore(backup);
  }

  lemma AllGone(before: Files, now: Files, moved: seq<nat>)
    requires AllMoved(before, moved)
    ensures (forall k :: k in moved ==> Old(k) !in now) ==>
              forall k: nat :: k < COUNT && Database(k) in before ==> Old(k) !in now
  {}

  /** Deleting the temporary file changes nothing that was said of the originals. */
  lemma TempOnlyFacts(before: Files, earlier: Files, now: Files, states: seq<Files>, report: Report)
    requires forall q: Path :: q != Temp ==> (q in now <==> q in earlier) && (q in now ==> now[q] == earlier[q])
    requires states != [] && states[|states| - 1] == earlier && Originals(before, earlier, report)
    ensures forall result, cleaned :: Originals(before, now, report.(result := result, cleaned := cleaned))
    ensures AllPreserved(before, states) ==> AllPreserved(before, states + [now])
  {
    hide Preserved, SameOriginals, BackBelow;
    OnlyTempDiffers(before, earlier, now);
    OnlyTempSafe(before, earlier, now);
    hide Half, AllSafe;
  }

  /** The new database is in place and the temporary file is gone. */
  ghost predicate InPlace(now: Files, content: Content) {
    Temp !in now && Database(0) in now && now[Database(0)] == content
  }

  /** What the database files are after a failure. Before quarantine, and after it once the rollback
      has run, they are what they were. A rollback after a failed quarantine step restores the files
      moved so far and deletes the rest. An interrupt is not rolled back: the files moved so far are
      still in quarantine. */
  ghost predicate Originals(before: Files, now: Files, report: Report) {
    match report.stage
    case Starting => SameOriginals(before, now)
    case Preparing => SameOriginals(before, now)
    case Quarantining(k) =>
      && k < COUNT
      && (report.rolledBack ==>
            && BackBelow(before, now, k)
            && (SameOriginals(before, now) <==> forall j: nat :: k <= j < COUNT ==> Database(j) !in before))
      && (report.struck == Interrupt ==> Half(before, now, k))
    case Swapping =>
      && (report.rolledBack ==> SameOriginals(before, now))
      && (report.struck == Interrupt ==> AllSafe(before, now))
    case Finishing => true
  }

  /** An exception struck the quarantine loop while originals were still to be moved. */
  ghost predicate Unguarded(before: Files, report: Report) {
    report.stage.Quarantining? && report.struck == Error
    && exists j: nat :: report.stage.k <= j < COUNT && Database(j) in before
  }

  lemma BackBelowIsSame(before: Files, now: Files, k: nat)
    requires k < COUNT
    ensures BackBelow(before, now, k) ==>
              (SameOriginals(before, now) <==> forall j: nat :: k <= j < COUNT ==> Database(j) !in before)
  {}

  lemma BackInIsSame(before: Files, now: Files, moved: seq<nat>)
    requires MovedList(before, moved) && AllMoved(before, moved)
    ensures BackIn(before, now, moved) ==> SameOriginals(before, now)
  {}

  lemma SafeQuarantines(before: Files, now: Files, moved: seq<nat>)
    requires MovedList(before, moved) && AllSafe(before, now)
    ensures Quarantines(before, now, moved)
  {
    forall k | k in moved
      ensures Old(k) in now && now[Old(k)] == before[Database(k)]
    {
      assert Safe(before, now, k);
    }
  }

  lemma OnlyTempDiffers(before: Files, earlier: Files, now: Files)
    requires forall q: Path :: q != Temp ==> (q in now <==> q in earlier) && (q in now ==> now[q] == earlier[q])
    ensures Preserved(before, earlier) ==> Preserved(before, now)
    ensures SameOriginals(before, earlier) <==> SameOriginals(before, now)
    ensures forall k :: BackBelow(before, earlier, k) ==> BackBelow(before, now, k)
  {
    if Preserved(before, earlier) {
      forall k: nat | k < COUNT
        ensures Kept(before, now, k)
      {
        assert Kept(before, earlier, k);
      }
    }
  }

  lemma OnlyTempSafe(before: Files, earlier: Files, now: Files)
    requires forall q: Path :: q != Temp ==> (q in now <==> q in earlier) && (q in now ==> now[q] == earlier[q])
    ensures forall k: nat :: Half(before, earlier, k) ==> Half(before, now, k)
    ensures AllSafe(before, earlier) ==> AllSafe(before, now)
  {
    forall k: nat
      ensures Safe(before, earlier, k) <==> Safe(before, now, k)
    {}
    hide Safe;
  }

  lemma UnchangedPreserved(before: Files, now: Files)
    requires SameOriginals(before, now)
    ensures Preserved(before, now)
  {}

  lemma SafeIsPreserved'(before: Files, earlier: Files, now: Files)
    requires AllSafe(before, earlier)
    requires forall q: Path :: q.Old? && q in earlier ==> q in now && now[q] == earlier[q]
    ensures Preserved(before, now) && AllSafe(before, now)
  {
    forall k: nat | k < COUNT
      ensures Kept(before, now, k) && Safe(before, now, k)
    {
      assert Safe(before, earlier, k);
    }
  }
}
