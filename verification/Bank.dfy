/**
 The baseline bank: one run's in-memory bank merges the file it finds with its own deposits and rewrites it, evicting
 the oldest baselines above the ceiling; many processes do so against one file.
 */
module Bank {
  import opened Wrappers
  import opened Sorting

  datatype Baseline = Baseline(measuredAt: int, passedTests: seq<string>, payload: string)

  type Coverage = string

  datatype BankFile = BankFile(baselines: map<string, Baseline>, coverage: map<string, Coverage>)

  /** What a read of the bank's path finds. */
  datatype Disk = Absent | OverCeiling | Unreadable | Versioned(version: nat, file: BankFile)

  const BANK_VERSION := 3
  const BANK_FILE_CEILING: nat := 0x80_0000
  const EMPTY := BankFile(map[], map[])

  /** A version-2 file cannot name its passing tests. */
  function Usable(disk: Disk): Option<BankFile> {
    if disk.Versioned? && disk.version == BANK_VERSION then Some(disk.file)
    else if disk.Versioned? && disk.version == 2 then
      Some(disk.file.(baselines := map key | key in disk.file.baselines :: disk.file.baselines[key].(passedTests := [])))
    else None
  }

  // ---- the merge ----

  /** The run's own deposits win; otherwise the later measurement does. */
  function MergedAt(mine: map<string, Baseline>, dirty: set<string>, theirs: map<string, Baseline>,
          key: string): Option<Baseline> {
    if key !in mine then (if key in theirs then Some(theirs[key]) else None)
    else if key in theirs && key !in dirty && theirs[key].measuredAt > mine[key].measuredAt then Some(theirs[key])
    else Some(mine[key])
  }

  function Merged(mine: BankFile, dirty: set<string>, theirs: BankFile): BankFile {
    BankFile(map key | key in mine.baselines.Keys + theirs.baselines.Keys :: MergedAt(mine.baselines, dirty, theirs.baselines, key).value,
             theirs.coverage + mine.coverage)
  }

  method MergeBaselines(mine: map<string, Baseline>, dirty: set<string>,
          theirs: map<string, Baseline>) returns (out: map<string, Baseline>)
    ensures forall key :: key in out <==> key in mine || key in theirs
    ensures forall key :: key in out ==> MergedAt(mine, dirty, theirs, key) == Some(out[key])
  {
    out := mine;
    var pending := theirs.Keys;
    while pending != {}
      invariant pending <= theirs.Keys
      invariant forall key :: key in out <==> key in mine || (key in theirs && key !in pending)
      invariant forall key :: key in out && key !in pending ==> MergedAt(mine, dirty, theirs, key) == Some(out[key])
      invariant forall key :: key in out && key in pending ==> out[key] == mine[key]
      decreases pending
    {
      var key :| key in pending;
      if key !in out || (key !in dirty && theirs[key].measuredAt > out[key].measuredAt) {
        out := out[key := theirs[key]];
      }
      pending := pending - {key};
    }
  }

  method MergeCoverage(mine: map<string, Coverage>, theirs: map<string, Coverage>) returns (out: map<string, Coverage>)
    ensures out == theirs + mine
  {
    out := mine;
    var pending := theirs.Keys;
    while pending != {}
      invariant pending <= theirs.Keys
      invariant forall key :: key in out <==> key in mine || (key in theirs && key !in pending)
      invariant forall key :: key in out ==> out[key] == if key in mine then mine[key] else theirs[key]
      decreases pending
    {
      var key :| key in pending;
      if key !in out {
        out := out[key := theirs[key]];
      }
      pending := pending - {key};
    }
  }

  // ---- eviction ----

  predicate Precedes(bs: map<string, Baseline>, a: string, b: string)
    requires a in bs && b in bs
  {
    bs[a].measuredAt < bs[b].measuredAt || (bs[a].measuredAt == bs[b].measuredAt && Less(a, b))
  }

  method Oldest(bs: map<string, Baseline>) returns (key: string)
    requires bs != map[]
    ensures key in bs && forall k :: k in bs && k != key ==> Precedes(bs, key, k)
  {
    var pending := bs.Keys;
    var first := true;
    key := "";
    while pending != {}
      invariant pending <= bs.Keys && (first <==> pending == bs.Keys)
      invariant !first ==> key in bs && key !in pending && forall k :: k in bs && k !in pending && k != key ==> Precedes(bs, key, k)
      decreases pending
    {
      var k :| k in pending;
      if first || bs[k].measuredAt < bs[key].measuredAt || (bs[k].measuredAt == bs[key].measuredAt && Less(k, key)) {
        if !first {
          PrecedesAll(bs, k, key, pending);
        }
        key, first := k, false;
      } else {
        LessTotal(k, key);
      }
      pending := pending - {k};
    }
  }

  lemma {:induction false} PrecedesAll(bs: map<string, Baseline>, k: string, key: string, pending: set<string>)
    requires k in bs && key in bs && Precedes(bs, k, key)
    requires forall j :: j in bs && j !in pending && j != key ==> Precedes(bs, key, j)
    ensures forall j :: j in bs && j !in pending ==> Precedes(bs, k, j)
  {
    forall j | j in bs && j !in pending ensures Precedes(bs, k, j) {
      if j != key && bs[k].measuredAt == bs[key].measuredAt == bs[j].measuredAt {
        LessTransitive(k, key, j);
      }
    }
  }

  /** What an eviction leaves of the baselines: the later part of them, in (time, key) order. */
  ghost predicate EvictedFrom(all: map<string, Baseline>, kept: map<string, Baseline>) {
    && kept.Keys <= all.Keys && (forall k :: k in kept ==> kept[k] == all[k])
    && forall e, k :: e in all && e !in kept && k in kept ==> Precedes(all, e, k)
  }

  /** Terminating, oldest first, and no more than needed. */
  method Evict(file: BankFile, size: BankFile -> nat) returns (out: BankFile)
    ensures out.coverage == file.coverage && EvictedFrom(file.baselines, out.baselines)
    ensures size(out) <= BANK_FILE_CEILING || |out.baselines| <= 1
    ensures out != file ==>
              exists key :: key in file.baselines && key !in out.baselines
                            && size(out.(baselines := out.baselines[key := file.baselines[key]])) > BANK_FILE_CEILING
  {
    out := file;
    while size(out) > BANK_FILE_CEILING && |out.baselines| > 1
      invariant out.coverage == file.coverage && EvictedFrom(file.baselines, out.baselines)
      invariant out != file ==>
                  exists key :: key in file.baselines && key !in out.baselines
                                && size(out.(baselines := out.baselines[key := file.baselines[key]])) > BANK_FILE_CEILING
      decreases |out.baselines|
    {
      ghost var was := out;
      var key := Oldest(out.baselines);
      out := out.(baselines := out.baselines - {key});
      EvictNext(file.baselines, was.baselines, key);
      assert out.(baselines := out.baselines[key := file.baselines[key]]) == was;
      assert out.baselines.Keys == was.baselines.Keys - {key};
    }
  }

  lemma {:induction false} EvictNext(all: map<string, Baseline>, kept: map<string, Baseline>, key: string)
    requires EvictedFrom(all, kept) && key in kept && forall k :: k in kept && k != key ==> Precedes(kept, key, k)
    ensures EvictedFrom(all, kept - {key})
  {
  }

  // ---- the bank ----

  /** What a rewrite would hold before eviction. */
  function OnDisk(file: BankFile, dirty: set<string>, disk: Disk): BankFile {
    if Usable(disk).Some? then Merged(file, dirty, Usable(disk).value) else file
  }

  method MergeDisk(file: BankFile, dirty: set<string>, disk: Disk) returns (out: BankFile)
    ensures out == OnDisk(file, dirty, disk)
  {
    if Usable(disk).None? {
      return file;
    }
    var theirs := Usable(disk).value;
    var baselines := MergeBaselines(file.baselines, dirty, theirs.baselines);
    var coverage := MergeCoverage(file.coverage, theirs.coverage);
    assert baselines == OnDisk(file, dirty, disk).baselines;
    out := BankFile(baselines, coverage);
  }

  /** How a rewrite ends: in place, lost after the merge, or failed before it read the file. */
  datatype Write = Landed | Lost | Unmerged

  /** One process's bank; pending names the keys it deposited and has not persisted. */
  datatype Process = Process(file: BankFile, pending: set<string>)

  /** What one persist leaves of the process. */
  function Persisted(mine: Process, disk: BankFile, write: Write): Process {
    if mine.pending == {} || write.Unmerged? then mine
    else Process(Merged(mine.file, mine.pending, disk), if write.Landed? then {} else mine.pending)
  }

  /** What one persist leaves of the file. */
  function Rewritten(mine: Process, disk: BankFile, write: Write): BankFile {
    if mine.pending == {} || !write.Landed? then disk else Merged(mine.file, mine.pending, disk)
  }

  function WithDeposit(mine: Process, key: string, e: Baseline): Process {
    Process(mine.file.(baselines := mine.file.baselines[key := e]), mine.pending + {key})
  }

  class BaselineBank {
    const rooted: bool
    var file: BankFile
    var dirty: bool
    var dirtyKeys: set<string>

    ghost predicate Valid()
      reads this
    {
      dirty <==> dirtyKeys != {}
    }

    function Memory(): Process
      reads this
    {
      Process(file, dirtyKeys)
    }

    /** An absent, oversized, unreadable or foreign file opens as an empty bank. */
    constructor (rooted: bool, disk: Disk)
      ensures Valid() && this.rooted == rooted && dirtyKeys == {}
      ensures file == if rooted && Usable(disk).Some? then Usable(disk).value else EMPTY
    {
      this.rooted, dirty, dirtyKeys := rooted, false, {};
      file := if rooted && Usable(disk).Some? then Usable(disk).value else EMPTY;
    }

    /** One rewrite of the file, merged with what it held and evicted below the ceiling. */
    method Persist(disk: Disk, size: BankFile -> nat, write: Write) returns (disk': Disk)
      requires Valid()
      modifies this
      ensures Valid()
      ensures !old(dirty) || !rooted || write.Unmerged? ==> disk' == disk && Memory() == old(Memory())
      ensures old(dirty) && rooted && !write.Unmerged? ==>
                var target := OnDisk(old(file), old(dirtyKeys), disk);
                && file.coverage == target.coverage && EvictedFrom(target.baselines, file.baselines)
                && (size(file) <= BANK_FILE_CEILING || |file.baselines| <= 1)
                && (size(target) <= BANK_FILE_CEILING ==> file == target)
                && if write.Landed? then disk' == Versioned(BANK_VERSION, file) && dirtyKeys == {}
                   else disk' == disk && dirtyKeys == old(dirtyKeys)
    {
      disk' := disk;
      if !dirty || !rooted || write.Unmerged? {
        return;
      }
      var merged := MergeDisk(file, dirtyKeys, disk);
      var evicted := EvictIfOver(merged, size);
      file := evicted;
      if write.Landed? {
        disk', dirty, dirtyKeys := Versioned(BANK_VERSION, file), false, {};
      }
    }

    /** Over a file in use and below the ceiling, a flush is one persist of the process. */
    method Save(disk: Disk, size: BankFile -> nat, write: Write) returns (disk': Disk)
      requires Valid()
      modifies this
      ensures Valid()
      ensures rooted && Usable(disk).Some? && size(OnDisk(old(file), old(dirtyKeys), disk)) <= BANK_FILE_CEILING ==>
                && Memory() == Persisted(old(Memory()), Usable(disk).value, write)
                && Usable(disk') == Some(Rewritten(old(Memory()), Usable(disk).value, write))
                && disk' == if write.Landed? && old(dirty) then Versioned(BANK_VERSION, file) else disk
    {
      disk' := Persist(disk, size, write);
    }

    /** A deposit persists at once; until a persist lands it, its key stays dirty. */
    method PutBaseline(key: string, e: Baseline, disk: Disk, size: BankFile -> nat, write: Write) returns (disk': Disk)
      requires Valid()
      modifies this
      ensures Valid()
      ensures var mine := WithDeposit(old(Memory()), key, e);
              var target := OnDisk(mine.file, mine.pending, disk);
              rooted && size(target) <= BANK_FILE_CEILING ==>
                && (Usable(disk).Some? ==>
                      Memory() == Persisted(mine, Usable(disk).value, write)
                      && Usable(disk') == Some(Rewritten(mine, Usable(disk).value, write)))
                && disk' == (if write.Landed? then Versioned(BANK_VERSION, target) else disk)
                && file == (if write.Unmerged? then mine.file else target)
                && dirtyKeys == if write.Landed? then {} else mine.pending
    {
      file := file.(baselines := file.baselines[key := e]);
      dirtyKeys := dirtyKeys + {key};
      dirty := true;
      disk' := Persist(disk, size, write);
    }
  }

  /** The eviction loop does nothing below the ceiling. */
  method EvictIfOver(file: BankFile, size: BankFile -> nat) returns (out: BankFile)
    ensures out.coverage == file.coverage && EvictedFrom(file.baselines, out.baselines)
    ensures size(out) <= BANK_FILE_CEILING || |out.baselines| <= 1
    ensures size(file) <= BANK_FILE_CEILING ==> out == file
  {
    if size(file) <= BANK_FILE_CEILING {
      return file;
    }
    out := Evict(file, size);
  }

  // ---- many processes ----

  datatype Step =
    | Open(process: nat)
    | Deposit(process: nat, key: string, entry: Baseline, write: Write)
    | Save(process: nat, write: Write)

  /**
   The file, the processes, the last deposit of every key, and the newest baseline of every key that a landed persist
   ever brought to the file: of equal times, the one that landed last.
   */
  datatype World = World(disk: BankFile, processes: map<nat, Process>, latest: map<string, Baseline>, newest: map<string, Baseline>)

  function Start(disk: BankFile): World {
    World(disk, map[], disk.baselines, disk.baselines)
  }

  predicate Brings(mine: Process, newest: map<string, Baseline>, key: string) {
    key in mine.pending && key in mine.file.baselines
    && (key in newest ==> newest[key].measuredAt <= mine.file.baselines[key].measuredAt)
  }

  function NewestAfter(newest: map<string, Baseline>, mine: Process, write: Write): map<string, Baseline> {
    if !write.Landed? then newest
    else
      map key | key in newest.Keys + mine.file.baselines.Keys && (key in newest || Brings(mine, newest, key)) ::
        if Brings(mine, newest, key) then mine.file.baselines[key] else newest[key]
  }

  function PersistIn(w: World, p: nat, mine: Process, write: Write): World {
    World(Rewritten(mine, w.disk, write), w.processes[p := Persisted(mine, w.disk, write)], w.latest, NewestAfter(w.newest, mine, write))
  }

  /** Locked persists below the ceiling, each ending as its write says. */
  function Next(w: World, s: Step): World {
    match s
    case Open(p) => w.(processes := w.processes[p := Process(w.disk, {})])
    case Deposit(p, key, e, write) =>
      if p !in w.processes then w
      else PersistIn(w.(latest := w.latest[key := e]), p, WithDeposit(w.processes[p], key, e), write)
    case Save(p, write) =>
      if p !in w.processes then w else PersistIn(w, p, w.processes[p], write)
  }

  function Play(w: World, steps: seq<Step>): World {
    if steps == [] then w else Next(Play(w, steps[..|steps| - 1]), steps[|steps| - 1])
  }

  /** The process as a step persists it. */
  function Persisting(w: World, s: Step): Option<Process> {
    if s.Open? || s.process !in w.processes then None
    else if s.Deposit? then Some(WithDeposit(w.processes[s.process], s.key, s.entry))
    else Some(w.processes[s.process])
  }

  /** The step lands a deposit. */
  predicate Lands(w: World, s: Step, key: string, e: Baseline) {
    var mine := Persisting(w, s);
    && mine.Some? && s.write.Landed?
    && key in mine.value.pending && key in mine.value.file.baselines && mine.value.file.baselines[key] == e
  }

  ghost predicate EverHeld(disk: BankFile, steps: seq<Step>, key: string, e: Baseline) {
    (key in disk.baselines && disk.baselines[key] == e)
    || exists i :: 0 <= i < |steps| && Lands(Play(Start(disk), steps[..i]), steps[i], key, e)
  }

  /** The newest baseline of a key is one that was there or landed, and none such is newer. */
  lemma {:induction false} NewestIsNewest(disk: BankFile, steps: seq<Step>, key: string)
    ensures var newest := Play(Start(disk), steps).newest;
            && (key in newest ==> EverHeld(disk, steps, key, newest[key]))
            && forall e :: EverHeld(disk, steps, key, e) ==> key in newest && e.measuredAt <= newest[key].measuredAt
  {
    if steps != [] {
      var n := |steps| - 1;
      var w, s := Play(Start(disk), steps[..n]), steps[n];
      NewestIsNewest(disk, steps[..n], key);
      var newest := Next(w, s).newest;
      forall e ensures EverHeld(disk, steps, key, e) <==> EverHeld(disk, steps[..n], key, e) || Lands(w, s, key, e) {
        HeldSoFar(disk, steps, key, e);
      }
      NewestStep(w, s, key);
    }
  }

  lemma {:induction false} HeldSoFar(disk: BankFile, steps: seq<Step>, key: string, e: Baseline)
    requires steps != []
    ensures EverHeld(disk, steps, key, e) <==>
            var n := |steps| - 1;
            EverHeld(disk, steps[..n], key, e) || Lands(Play(Start(disk), steps[..n]), steps[n], key, e)
  {
    var n := |steps| - 1;
    forall i | 0 <= i < n
      ensures Lands(Play(Start(disk), steps[..i]), steps[i], key, e) <==> Lands(Play(Start(disk), steps[..n][..i]), steps[..n][i], key, e)
    {
      assert steps[..n][..i] == steps[..i];
    }
  }

  lemma {:induction false} NewestStep(w: World, s: Step, key: string)
    ensures var newest := Next(w, s).newest;
            && (key in newest ==> (key in w.newest && newest[key] == w.newest[key]) || Lands(w, s, key, newest[key]))
            && (key in w.newest ==> key in newest && w.newest[key].measuredAt <= newest[key].measuredAt)
            && forall e :: Lands(w, s, key, e) ==> key in newest && e.measuredAt <= newest[key].measuredAt
  {
  }

  // ---- when the file keeps the newest baselines ----

  /**
   What a landed persist can see beforehand: it carries a pending key the file holds newer, or holds a differing
   baseline of the file's own time for a key it did not deposit.
   */
  ghost predicate Regresses(mine: Process, disk: BankFile) {
    exists key :: RegressesAt(mine, disk.baselines, key)
  }

  predicate RegressesAt(mine: Process, theirs: map<string, Baseline>, key: string) {
    key in mine.file.baselines && key in theirs
    && if key in mine.pending then theirs[key].measuredAt > mine.file.baselines[key].measuredAt
       else theirs[key].measuredAt == mine.file.baselines[key].measuredAt && theirs[key] != mine.file.baselines[key]
  }

  ghost predicate Overwrites(w: World, s: Step) {
    var mine := Persisting(w, s);
    mine.Some? && s.write.Landed? && mine.value.pending != {} && Regresses(mine.value, w.disk)
  }

  /** A process holds what it deposited, and of every other key nothing newer than the file. */
  ghost predicate Trails(mine: Process, disk: map<string, Baseline>) {
    && mine.pending <= mine.file.baselines.Keys
    && forall key :: key in mine.file.baselines && key !in mine.pending ==>
                       key in disk && mine.file.baselines[key].measuredAt <= disk[key].measuredAt
  }

  ghost predicate HoldsNewest(w: World) {
    w.disk.baselines == w.newest
  }

  ghost predicate Orderly(w: World) {
    HoldsNewest(w) && forall p :: p in w.processes ==> Trails(w.processes[p], w.disk.baselines)
  }

  /** A landed persist keeps the newest baselines exactly when it does not regress. */
  lemma {:induction false} LandingHolds(mine: Process, disk: BankFile)
    requires Trails(mine, disk.baselines) && mine.pending != {}
    ensures Merged(mine.file, mine.pending, disk).baselines == NewestAfter(disk.baselines, mine, Landed) <==> !Regresses(mine, disk)
  {
    var out, newest := Merged(mine.file, mine.pending, disk).baselines, NewestAfter(disk.baselines, mine, Landed);
    forall key ensures key in out <==> key in newest {
    }
    forall key | key in out ensures out[key] == newest[key] <==> !RegressesAt(mine, disk.baselines, key) {
    }
    if !Regresses(mine, disk) {
      assert out == newest;
    } else {
      var key :| RegressesAt(mine, disk.baselines, key);
      assert key in out && out[key] != newest[key];
    }
  }

  /** The file's times only grow, so every process goes on trailing it. */
  lemma {:induction false} StillTrails(mine: Process, other: Process, disk: BankFile, write: Write)
    requires Trails(mine, disk.baselines) && Trails(other, disk.baselines)
    requires write.Landed? && mine.pending != {} ==> !Regresses(mine, disk)
    ensures Trails(other, Rewritten(mine, disk, write).baselines)
  {
    var out := Rewritten(mine, disk, write).baselines;
    forall key | key in other.file.baselines && key !in other.pending
      ensures key in out && other.file.baselines[key].measuredAt <= out[key].measuredAt
    {
      if write.Landed? && mine.pending != {} {
        assert !RegressesAt(mine, disk.baselines, key);
      }
    }
  }

  lemma {:induction false} PersistTrails(mine: Process, disk: BankFile, write: Write)
    requires Trails(mine, disk.baselines)
    ensures Trails(Persisted(mine, disk, write), Rewritten(mine, disk, write).baselines)
  {
  }

  lemma {:induction false} PersistOrderly(w: World, p: nat, mine: Process, write: Write)
    requires Orderly(w) && Trails(mine, w.disk.baselines)
    ensures HoldsNewest(PersistIn(w, p, mine, write)) <==> !(write.Landed? && mine.pending != {} && Regresses(mine, w.disk))
    ensures HoldsNewest(PersistIn(w, p, mine, write)) ==> Orderly(PersistIn(w, p, mine, write))
  {
    var next := PersistIn(w, p, mine, write);
    if mine.pending != {} && write.Landed? {
      LandingHolds(mine, w.disk);
    } else {
      assert NewestAfter(w.newest, mine, write) == w.newest;
    }
    if HoldsNewest(next) {
      forall q | q in next.processes ensures Trails(next.processes[q], next.disk.baselines) {
        if q == p {
          PersistTrails(mine, w.disk, write);
        } else {
          StillTrails(mine, w.processes[q], w.disk, write);
        }
      }
    }
  }

  lemma {:induction false} StepHolds(w: World, s: Step)
    requires Orderly(w)
    ensures HoldsNewest(Next(w, s)) <==> !Overwrites(w, s)
    ensures HoldsNewest(Next(w, s)) ==> Orderly(Next(w, s))
  {
    if s.Deposit? && s.process in w.processes {
      PersistOrderly(w.(latest := w.latest[s.key := s.entry]), s.process, WithDeposit(w.processes[s.process], s.key, s.entry), s.write);
    } else if s.Save? && s.process in w.processes {
      PersistOrderly(w, s.process, w.processes[s.process], s.write);
    }
  }

  /**
   Over every run of locked persists below the ceiling, failed ones included: the file holds the newest landed baseline
   of every key all along, if and only if no landed persist regresses.
   */
  lemma {:induction false} NewestHeldIffNoOverwrite(disk: BankFile, steps: seq<Step>)
    ensures (forall i :: 0 <= i <= |steps| ==> HoldsNewest(Play(Start(disk), steps[..i])))
       <==> forall i :: 0 <= i < |steps| ==> !Overwrites(Play(Start(disk), steps[..i]), steps[i])
  {
    forall n | 0 <= n <= |steps| ensures HeldUpTo(disk, steps, n) <==> QuietUpTo(disk, steps, n) {
      HeldIffQuiet(disk, steps, n);
    }
    assert HeldUpTo(disk, steps, |steps|) <==> QuietUpTo(disk, steps, |steps|);
  }

  ghost predicate HeldUpTo(disk: BankFile, steps: seq<Step>, n: nat)
    requires n <= |steps|
  {
    forall i :: 0 <= i <= n ==> HoldsNewest(Play(Start(disk), steps[..i]))
  }

  ghost predicate QuietUpTo(disk: BankFile, steps: seq<Step>, n: nat)
    requires n <= |steps|
  {
    forall i :: 0 <= i < n ==> !Overwrites(Play(Start(disk), steps[..i]), steps[i])
  }

  lemma {:induction false} HeldIffQuiet(disk: BankFile, steps: seq<Step>, n: nat)
    requires n <= |steps|
    ensures HeldUpTo(disk, steps, n) <==> QuietUpTo(disk, steps, n)
    ensures HeldUpTo(disk, steps, n) ==> Orderly(Play(Start(disk), steps[..n]))
  {
    if n == 0 {
      assert steps[..0] == [];
    } else {
      HeldIffQuiet(disk, steps, n - 1);
      PlayNext(Start(disk), steps, n);
      if HeldUpTo(disk, steps, n - 1) {
        StepHolds(Play(Start(disk), steps[..n - 1]), steps[n - 1]);
      }
    }
  }

  lemma {:induction false} PlayNext(w: World, steps: seq<Step>, n: nat)
    requires 0 < n <= |steps|
    ensures Play(w, steps[..n]) == Next(Play(w, steps[..n - 1]), steps[n - 1])
  {
    assert steps[..n][..n - 1] == steps[..n - 1];
  }

  /** What a merge keeps of a process that holds every key, nothing of it older unless pending. */
  lemma {:induction false} MergeKeepsMine(mine: Process, disk: BankFile)
    requires disk.coverage == mine.file.coverage && disk.baselines.Keys <= mine.file.baselines.Keys
    requires forall key :: key in disk.baselines && key !in mine.pending ==> disk.baselines[key].measuredAt <= mine.file.baselines[key].measuredAt
    ensures Merged(mine.file, mine.pending, disk) == mine.file
  {
    assert Merged(mine.file, mine.pending, disk).baselines == mine.file.baselines;
  }

  lemma {:induction false} LandsWhole(w: World, p: nat, mine: Process)
    requires w.disk.coverage == mine.file.coverage && w.disk.baselines.Keys <= mine.file.baselines.Keys && mine.pending != {}
    requires forall key :: key in w.disk.baselines && key !in mine.pending ==> w.disk.baselines[key].measuredAt <= mine.file.baselines[key].measuredAt
    ensures PersistIn(w, p, mine, Landed)
         == World(mine.file, w.processes[p := Process(mine.file, {})], w.latest, NewestAfter(w.newest, mine, Landed))
  {
    MergeKeepsMine(mine, w.disk);
  }

  function Only(key: string, e: Baseline): BankFile {
    BankFile(map[key := e], map[])
  }

  function OnlyPending(key: string, e: Baseline): Process {
    Process(Only(key, e), {key})
  }

  lemma {:induction false} FirstDeposit(disk: BankFile, key: string, e: Baseline)
    requires disk.coverage == map[] && disk.baselines.Keys <= {key}
    ensures WithDeposit(Process(disk, {}), key, e) == OnlyPending(key, e)
  {
    assert disk.baselines[key := e] == map[key := e];
  }

  lemma {:induction false} TwoOpen(disk: BankFile)
    ensures Next(Next(Start(disk), Open(0)), Open(1)) == Start(disk).(processes := map[0 := Process(disk, {}), 1 := Process(disk, {})])
  {
    assert map[0 := Process(disk, {})][1 := Process(disk, {})] == map[0 := Process(disk, {}), 1 := Process(disk, {})];
  }

  /** One deposit lost, then another process's later one landed. */
  lemma {:induction false} LostThenLanded(key: string, older: Baseline, newer: Baseline)
    requires older.measuredAt < newer.measuredAt
    ensures var both := Start(EMPTY).(processes := map[0 := Process(EMPTY, {}), 1 := Process(EMPTY, {})]);
            var w := Next(Next(both, Deposit(0, key, older, Lost)), Deposit(1, key, newer, Landed));
            && w.disk == Only(key, newer) && 0 in w.processes && w.processes[0] == OnlyPending(key, older)
            && w.latest == map[key := newer] && w.newest == map[key := newer]
  {
    FirstDeposit(EMPTY, key, older);
    FirstDeposit(EMPTY, key, newer);
    MergeKeepsMine(OnlyPending(key, older), EMPTY);
    MergeKeepsMine(OnlyPending(key, newer), EMPTY);
    assert NewestAfter(map[], OnlyPending(key, newer), Landed) == map[key := newer];
    assert map[key := older][key := newer] == map[key := newer];
  }

  lemma {:induction false} LostLandsLate(w: World, key: string, older: Baseline, newer: Baseline)
    requires older.measuredAt < newer.measuredAt && w.disk == Only(key, newer) && w.newest == map[key := newer]
    requires 0 in w.processes && w.processes[0] == OnlyPending(key, older)
    ensures Next(w, Save(0, Landed)).disk == Only(key, older) && Next(w, Save(0, Landed)).newest == w.newest
    ensures Next(w, Save(0, Landed)).latest == w.latest && Overwrites(w, Save(0, Landed))
  {
    LandsWhole(w, 0, OnlyPending(key, older));
    assert RegressesAt(OnlyPending(key, older), w.disk.baselines, key);
    assert NewestAfter(w.newest, OnlyPending(key, older), Landed) == w.newest;
  }

  /** A deposit whose write is lost lands later over another process's newer one. */
  lemma {:induction false} LateLandingOverwrites(key: string, older: Baseline, newer: Baseline)
    requires older.measuredAt < newer.measuredAt
    ensures var steps := [Open(0), Open(1), Deposit(0, key, older, Lost), Deposit(1, key, newer, Landed), Save(0, Landed)];
            var w := Play(Start(EMPTY), steps);
            && w.disk == Only(key, older) && w.newest == map[key := newer] && w.latest == map[key := newer]
            && Overwrites(Play(Start(EMPTY), steps[..4]), steps[4])
  {
    var steps := [Open(0), Open(1), Deposit(0, key, older, Lost), Deposit(1, key, newer, Landed), Save(0, Landed)];
    PlayFour(Start(EMPTY), steps);
    PlayNext(Start(EMPTY), steps, 5);
    assert steps[..5] == steps;
    TwoOpen(EMPTY);
    LostThenLanded(key, older, newer);
    LostLandsLate(Play(Start(EMPTY), steps[..4]), key, older, newer);
  }

  lemma {:induction false} PlayFour(w: World, steps: seq<Step>)
    requires |steps| >= 4
    ensures Play(w, steps[..3]) == Next(Next(Next(w, steps[0]), steps[1]), steps[2])
    ensures Play(w, steps[..4]) == Next(Next(Next(Next(w, steps[0]), steps[1]), steps[2]), steps[3])
  {
    assert steps[..0] == [];
    PlayNext(w, steps, 1);
    PlayNext(w, steps, 2);
    PlayNext(w, steps, 3);
    PlayNext(w, steps, 4);
  }

  /** A deposit of the same second, by a process that opened at the same file. */
  lemma {:induction false} SameSecondLanded(key: string, mine: Baseline, other: Baseline)
    ensures var disk := Only(key, mine);
            var both := Start(disk).(processes := map[0 := Process(disk, {}), 1 := Process(disk, {})]);
            var w := Next(both, Deposit(1, key, other, Landed));
            mine.measuredAt == other.measuredAt ==>
              && w.disk == Only(key, other) && 0 in w.processes && w.processes[0] == Process(disk, {}) && w.newest == map[key := other]
  {
    var disk := Only(key, mine);
    FirstDeposit(disk, key, other);
    MergeKeepsMine(OnlyPending(key, other), disk);
    if mine.measuredAt == other.measuredAt {
      assert NewestAfter(disk.baselines, OnlyPending(key, other), Landed) == map[key := other];
    }
  }

  lemma {:induction false} SecondRewrites(w: World, key: string, mine: Baseline, other: Baseline, deposit: string,
          e: Baseline)
    requires key != deposit && mine != other && mine.measuredAt == other.measuredAt
    requires w.disk == Only(key, other) && w.newest == map[key := other]
    requires 0 in w.processes && w.processes[0] == Process(Only(key, mine), {})
    ensures var next := Next(w, Deposit(0, deposit, e, Landed));
            && next.disk.baselines == map[key := mine, deposit := e] && next.newest == map[key := other, deposit := e]
            && Overwrites(w, Deposit(0, deposit, e, Landed))
  {
    var second := WithDeposit(w.processes[0], deposit, e);
    assert second == Process(BankFile(map[key := mine, deposit := e], map[]), {deposit});
    assert RegressesAt(second, w.disk.baselines, key);
    LandsWhole(w.(latest := w.latest[deposit := e]), 0, second);
    assert NewestAfter(w.newest, second, Landed) == map[key := other, deposit := e];
  }

  /** A process that opened before a deposit of the same second rewrites the baseline it had read. */
  lemma {:induction false} SameSecondOverwrites(key: string, mine: Baseline, other: Baseline, deposit: string,
          e: Baseline)
    requires key != deposit && mine != other && mine.measuredAt == other.measuredAt
    ensures var steps := [Open(0), Open(1), Deposit(1, key, other, Landed), Deposit(0, deposit, e, Landed)];
            var w := Play(Start(Only(key, mine)), steps);
            && w.disk.baselines == map[key := mine, deposit := e] && w.newest == map[key := other, deposit := e]
            && Overwrites(Play(Start(Only(key, mine)), steps[..3]), steps[3])
  {
    var disk := Only(key, mine);
    var steps := [Open(0), Open(1), Deposit(1, key, other, Landed), Deposit(0, deposit, e, Landed)];
    PlayFour(Start(disk), steps);
    assert steps[..4] == steps;
    TwoOpen(disk);
    SameSecondLanded(key, mine, other);
    SecondRewrites(Play(Start(disk), steps[..3]), key, mine, other, deposit, e);
  }

  /** Nothing ever loses coverage, whatever fails. */
  lemma {:induction false} CoverageKept(disk: BankFile, steps: seq<Step>)
    ensures Covered(Play(Start(disk), steps), disk.coverage)
  {
    if steps != [] {
      var n := |steps| - 1;
      CoverageKept(disk, steps[..n]);
      StepKeepsCoverage(Play(Start(disk), steps[..n]), steps[n], disk.coverage);
    }
  }

  ghost predicate Covered(w: World, coverage: map<string, Coverage>) {
    w.disk.coverage == coverage && forall p :: p in w.processes ==> w.processes[p].file.coverage == coverage
  }

  lemma {:induction false} StepKeepsCoverage(w: World, s: Step, coverage: map<string, Coverage>)
    requires Covered(w, coverage)
    ensures Covered(Next(w, s), coverage)
  {
    assert coverage + coverage == coverage;
  }

  // ---- when every persist lands ----

  ghost predicate Later(w: World, s: Step) {
    s.Deposit? ==> forall key :: key in w.latest ==> w.latest[key].measuredAt < s.entry.measuredAt
  }

  /** A landed write, at a time later than every deposit's before it. */
  ghost predicate Timely(w: World, s: Step) {
    Later(w, s) && (!s.Open? ==> s.write.Landed?)
  }

  /** No process holds a baseline newer than the file's, nor another of the same time. */
  ghost predicate Behind(mine: map<string, Baseline>, disk: map<string, Baseline>) {
    forall key :: key in mine ==> key in disk && (mine[key] == disk[key] || mine[key].measuredAt < disk[key].measuredAt)
  }

  ghost predicate Converged(w: World) {
    && w.disk.baselines == w.latest
    && forall p :: p in w.processes ==> w.processes[p].pending == {} && Behind(w.processes[p].file.baselines, w.disk.baselines)
  }

  /** A merge over a file that is ahead leaves the file, with the deposit. */
  lemma {:induction false} MergeOntoAhead(mine: BankFile, disk: BankFile, key: string, e: Baseline)
    requires Behind(mine.baselines, disk.baselines)
    ensures Merged(mine.(baselines := mine.baselines[key := e]), {key}, disk).baselines == disk.baselines[key := e]
  {
    var out := Merged(mine.(baselines := mine.baselines[key := e]), {key}, disk);
    assert out.baselines.Keys == disk.baselines.Keys + {key};
  }

  lemma {:induction false} StepConverges(w: World, s: Step)
    requires Converged(w) && Timely(w, s)
    ensures Converged(Next(w, s))
  {
    if s.Deposit? && s.process in w.processes {
      MergeOntoAhead(w.processes[s.process].file, w.disk, s.key, s.entry);
      assert {} + {s.key} == {s.key};
      forall p | p in w.processes ensures Behind(w.processes[p].file.baselines, w.disk.baselines[s.key := s.entry]) {
        StaysBehind(w.processes[p].file.baselines, w.disk.baselines, s.key, s.entry);
      }
    }
  }

  lemma {:induction false} StaysBehind(mine: map<string, Baseline>, disk: map<string, Baseline>, key: string,
          e: Baseline)
    requires Behind(mine, disk) && forall k :: k in disk ==> disk[k].measuredAt < e.measuredAt
    ensures Behind(mine, disk[key := e])
  {
  }

  ghost predicate TimesAdvance(w: World, steps: seq<Step>) {
    forall i :: 0 <= i < |steps| ==> Timely(Play(w, steps[..i]), steps[i])
  }

  /**
   Any interleaving of locked persists that land below the ceiling, at advancing times: the file holds the last
   deposit of every key ever deposited, and no coverage entry is ever lost.
   */
  lemma {:induction false} BankConverges(disk: BankFile, steps: seq<Step>)
    requires TimesAdvance(Start(disk), steps)
    ensures var w := Play(Start(disk), steps);
            w.disk.baselines == w.latest && w.disk.coverage == disk.coverage
  {
    ConvergesFrom(Start(disk), steps);
    CoverageKept(disk, steps);
  }

  lemma {:induction false} ConvergesFrom(w: World, steps: seq<Step>)
    requires Converged(w) && TimesAdvance(w, steps)
    ensures Converged(Play(w, steps))
  {
    if steps != [] {
      var n := |steps| - 1;
      assert forall i :: 0 <= i < n ==> steps[..n][..i] == steps[..i];
      ConvergesFrom(w, steps[..n]);
      StepConverges(Play(w, steps[..n]), steps[n]);
    }
  }
}
