/**
 * The pin and its generation on disk, shared by the CLI and any number of
 * account managers (lib/accounts.ts, lib/storage/snapshot-merge.ts). A step is
 * one critical section under the storage lock; steps of different processes
 * interleave freely. The pin is an index into the rows of a storage, but a save
 * merges it by the identity of the account it names.
 *
 * A CLI command chooses its generation before it takes the lock
 * (lib/codex-manager/persist-selected-account.ts), so that two commands can
 * commit the same one: the second replaces the pin and the generation stays.
 */
module PinProtocol {
  import opened Prelude
  import opened RateLimits

  /** The identity of a stored row. */
  type Id = nat

  datatype Storage = Storage(rows: seq<Id>, selection: Meta)

  const EMPTY := Storage([], Meta(None, 0))

  function Named(rows: seq<Id>, pin: Option<int>): Option<Id> {
    if InRange(pin, |rows|) then Some(rows[pin.value]) else None
  }

  /** The account a storage pins. */
  function Pinned(s: Storage): Option<Id> { Named(s.rows, s.selection.pin) }

  function IndexOf(rows: seq<Id>, id: Id): (i: nat)
    ensures i <= |rows| && (i < |rows| ==> rows[i] == id) && (i == |rows| ==> id !in rows)
  {
    if rows == [] || rows[0] == id then 0 else 1 + IndexOf(rows[1..], id)
  }

  function Position(rows: seq<Id>, id: Option<Id>): Option<int> {
    if id.Some? && id.value in rows then Some(IndexOf(rows, id.value)) else None
  }

  lemma PositionNames(rows: seq<Id>, id: Option<Id>)
    ensures Named(rows, Position(rows, id)) == if id.Some? && id.value in rows then id else None
  {
  }

  // ---- mergeAccountSnapshot ----

  predicate Distinct(rows: seq<Id>) { forall i, j :: 0 <= i < j < |rows| ==> rows[i] != rows[j] }

  /** Disk rows the manager did not remove. */
  function KeptRows(base: seq<Id>, disk: seq<Id>, local: seq<Id>): (kept: seq<Id>)
    ensures forall id :: id in kept <==> id in disk && (id in base ==> id in local)
  {
    if disk == [] then []
    else
      var n := |disk| - 1;
      KeptRows(base, disk[..n], local) + (if disk[n] in base && disk[n] !in local then [] else [disk[n]])
  }

  /** Local rows neither the manager's baseline nor the disk knows. */
  function NewRows(base: seq<Id>, disk: seq<Id>, local: seq<Id>): (added: seq<Id>)
    ensures forall id :: id in added <==> id in local && id !in base && id !in disk
  {
    if local == [] then []
    else
      var n := |local| - 1;
      NewRows(base, disk, local[..n]) + (if local[n] in base || local[n] in disk then [] else [local[n]])
  }

  function MergedRows(base: seq<Id>, disk: seq<Id>, local: seq<Id>): seq<Id> { KeptRows(base, disk, local) + NewRows(base, disk, local) }

  /** The three-way rule for a plain field; two different changes conflict. */
  function MergedGeneration(base: nat, disk: nat, local: nat): Option<nat> {
    if base == local || disk == local then Some(disk) else if base == disk then Some(local) else None
  }

  /** Which account the merge wants pinned: the manager's own change, else the disk's. */
  function Picked(base: Storage, disk: Storage, local: Storage): Option<Id> {
    if Pinned(local) != Pinned(base) then Pinned(local) else Pinned(disk)
  }

  /** None is the conflict error; `contents` says whether the rows' other fields merge. */
  function MergeSnapshot(base: Option<Storage>, disk: Storage, local: Storage, contents: bool): Option<Storage> {
    var b := if base.Some? then base.value else EMPTY;
    var gen := MergedGeneration(b.selection.gen, disk.selection.gen, local.selection.gen);
    if !contents || gen.None? || !Distinct(b.rows) || !Distinct(disk.rows) || !Distinct(local.rows) then None
    else
      var rows := MergedRows(b.rows, disk.rows, local.rows);
      Some(Storage(rows, Meta(Position(rows, Picked(b, disk, local)), gen.value)))
  }

  // ---- Processes ----

  /** `base` is the storage the manager last loaded or proposed. */
  datatype Manager = Manager(rows: seq<Id>, selection: Meta, base: Option<Storage>)

  datatype System = System(disk: Storage, managers: seq<Manager>)

  /** What a save does when the merge conflicts. */
  datatype Rescue = GiveUp | SaveObservations(contents: bool) | SaveCredential

  datatype Step =
    | Cli(pin: Option<int>, gen: nat)                    // switch, unpin, best: commits unless the disk is ahead
    | Load                                               // a new manager hydrates
    | Save(m: nat, contents: bool, rescue: Rescue)       // routine save or refresh commit
    | SaveUnreadable(m: nat)                             // the strict read throws: nothing is written
    | Observed(m: nat)                                   // a 429 reads the selection
    | Removed(m: nat, row: nat)                          // in memory, until the next save
    | Added(m: nat, id: Id)

  function InPool(selection: Meta, count: nat): Meta {
    if InRange(selection.pin, count) then selection else Meta(None, selection.gen)
  }

  /** The selection part of applyManualSelection: a newer selection is taken over if its pin is in range. */
  function Heard(selection: Meta, disk: Meta, count: nat): Meta {
    if disk.gen > selection.gen then InPool(disk, count) else selection
  }

  /** The selection part of a reconciliation. */
  function Adopted(selection: Meta, disk: Meta, count: nat): Meta { InPool(Heard(selection, disk, count), count) }

  /** These are what the account pool does to its selection; its accounts play no part beyond their number. */
  lemma AdoptedIsReconciled(p: Pool, disk: Meta, now: nat)
    ensures ApplyManualSelection(p, disk, now).selection == Heard(p.selection, disk, |p.accounts|)
    ensures Reconciled(p, disk, now).selection == Adopted(p.selection, disk, |p.accounts|)
  {
  }

  /** What a manager proposes to write. */
  function Proposal(m: Manager, disk: Storage): Storage { Storage(m.rows, Adopted(m.selection, disk.selection, |m.rows|)) }

  function Baseline(m: Manager): Storage { if m.base.Some? then m.base.value else EMPTY }

  function Saved(s: System, k: nat, contents: bool, rescue: Rescue): System
    requires k < |s.managers|
  {
    var m := s.managers[k];
    var local := Proposal(m, s.disk);
    var merged := MergeSnapshot(m.base, s.disk, local, contents);
    var reconciled := m.(selection := local.selection);
    if merged.Some? then System(merged.value, s.managers[k := reconciled.(base := Some(local))])
    else
      var rescued := if rescue.SaveObservations? && m.base.Some? then MergeSnapshot(m.base, s.disk, m.base.value, rescue.contents) else None;
      System(if rescued.Some? then rescued.value else s.disk, s.managers[k := reconciled])
  }

  function Next(s: System, step: Step): System {
    match step
    case Cli(pin, gen) => if gen >= s.disk.selection.gen then s.(disk := s.disk.(selection := Meta(pin, gen))) else s
    case Load => s.(managers := s.managers + [Manager(s.disk.rows, InPool(s.disk.selection, |s.disk.rows|), Some(s.disk))])
    case Save(m, contents, rescue) => if m < |s.managers| then Saved(s, m, contents, rescue) else s
    case SaveUnreadable(_) => s
    case Observed(k) =>
      if k >= |s.managers| then s
      else s.(managers := s.managers[k := s.managers[k].(selection := Heard(s.managers[k].selection, s.disk.selection, |s.managers[k].rows|))])
    case Removed(k, row) =>
      if k >= |s.managers| || row >= |s.managers[k].rows| then s
      else s.(managers := s.managers[k := s.managers[k].(rows := s.managers[k].rows[..row] + s.managers[k].rows[row + 1..])])
    case Added(k, id) =>
      if k >= |s.managers| then s
      else s.(managers := s.managers[k := s.managers[k].(rows := s.managers[k].rows + [id])])
  }

  function Run(s: System, steps: seq<Step>): System {
    if steps == [] then s else Next(Run(s, steps[..|steps| - 1]), steps[|steps| - 1])
  }

  // ---- The generation, in every run ----

  /** No manager is ahead of the disk. */
  ghost predicate Behind(s: System) { forall m :: 0 <= m < |s.managers| ==> s.managers[m].selection.gen <= s.disk.selection.gen }

  /** The newest generation the CLI wrote. */
  function LastGeneration(gen: nat, steps: seq<Step>): nat {
    if steps == [] then gen
    else
      var before := LastGeneration(gen, steps[..|steps| - 1]);
      if steps[|steps| - 1].Cli? then Max(before, steps[|steps| - 1].gen) else before
  }

  lemma StepBehind(s: System, step: Step)
    requires Behind(s)
    ensures Behind(Next(s, step))
    ensures Next(s, step).disk.selection.gen == if step.Cli? then Max(s.disk.selection.gen, step.gen) else s.disk.selection.gen
  {
  }

  /** Only the CLI moves the generation on disk, and only up, whatever interleaves. */
  lemma {:induction false} GenerationFollowsCli(s: System, steps: seq<Step>)
    requires Behind(s)
    ensures Behind(Run(s, steps))
    ensures Run(s, steps).disk.selection.gen == LastGeneration(s.disk.selection.gen, steps) >= s.disk.selection.gen
    decreases |steps|
  {
    if steps != [] {
      GenerationFollowsCli(s, steps[..|steps| - 1]);
      StepBehind(Run(s, steps[..|steps| - 1]), steps[|steps| - 1]);
    }
  }

  // ---- No older selection, in every run ----

  /** The pins the disk has shown since the CLI last changed the selection. */
  function Shown(s: System, steps: seq<Step>): set<Option<int>> {
    if steps == [] then {s.disk.selection.pin}
    else
      var n := |steps| - 1;
      var before, after := Run(s, steps[..n]).disk, Run(s, steps).disk;
      if steps[n].Cli? && steps[n].gen > before.selection.gen then {after.selection.pin}
      else Shown(s, steps[..n]) + {after.selection.pin}
  }

  /** A manager at the disk's generation holds no pin, or one of `pins`. */
  ghost predicate Current(s: System, pins: set<Option<int>>) {
    forall m :: 0 <= m < |s.managers| && s.managers[m].selection.gen == s.disk.selection.gen ==>
      s.managers[m].selection.pin == None || s.managers[m].selection.pin in pins
  }

  lemma StepCurrent(s: System, step: Step, pins: set<Option<int>>, after: set<Option<int>>)
    requires Behind(s) && Current(s, pins) && s.disk.selection.pin in pins
    requires after == if step.Cli? && step.gen > s.disk.selection.gen then {Next(s, step).disk.selection.pin}
                      else pins + {Next(s, step).disk.selection.pin}
    ensures Current(Next(s, step), after)
  {
    StepBehind(s, step);
  }

  /**
   * In every run, with pools of any size: what a manager at the disk's
   * generation would save is no pin or one the disk has shown since the last
   * switch. A selection made before that switch is never written again.
   */
  lemma {:induction false} NothingOlder(s: System, steps: seq<Step>)
    requires Behind(s) && Current(s, {s.disk.selection.pin})
    ensures Current(Run(s, steps), Shown(s, steps)) && Run(s, steps).disk.selection.pin in Shown(s, steps)
    decreases |steps|
  {
    if steps != [] {
      var n := |steps| - 1;
      NothingOlder(s, steps[..n]);
      GenerationFollowsCli(s, steps[..n]);
      StepCurrent(Run(s, steps[..n]), steps[n], Shown(s, steps[..n]), Shown(s, steps));
    }
  }

  /** A manager that missed a switch saves the same whatever pin it held before. */
  lemma StalePinIsIrrelevant(s: System, k: nat, pin: Option<int>, contents: bool, rescue: Rescue)
    requires k < |s.managers| && s.managers[k].selection.gen < s.disk.selection.gen
    ensures var stale := s.(managers := s.managers[k := s.managers[k].(selection := Meta(pin, s.managers[k].selection.gen))]);
            Saved(stale, k, contents, rescue) == Saved(s, k, contents, rescue)
  {
  }

  // ---- When a save keeps the pinned account ----

  predicate Survives(m: Manager, disk: Storage, id: Option<Id>) {
    id.Some? ==> id.value in MergedRows(Baseline(m).rows, disk.rows, m.rows)
  }

  /**
   * The three ways a save leaves the pinned account alone: the manager has made
   * no choice of its own, it chose the same account, or nothing is pinned and
   * its choice is no longer stored.
   */
  predicate Keeps(m: Manager, disk: Storage) {
    var local := Pinned(Proposal(m, disk));
    || (local == Pinned(Baseline(m)) && Survives(m, disk, Pinned(disk)))
    || (local == Pinned(disk) && Survives(m, disk, Pinned(disk)))
    || (Pinned(disk) == None && !Survives(m, disk, local))
  }

  /** Whether a save gets its merge through. */
  predicate Merges(m: Manager, disk: Storage, contents: bool) { MergeSnapshot(m.base, disk, Proposal(m, disk), contents).Some? }

  /**
   * The exact condition: a save leaves the pinned account as it is if and only
   * if its merge conflicts or the manager keeps it. What it writes otherwise is
   * its own choice, or no pin.
   */
  lemma SaveVerdict(s: System, k: nat, contents: bool, rescue: Rescue)
    requires k < |s.managers|
    ensures var m := s.managers[k];
            var after := Pinned(Saved(s, k, contents, rescue).disk);
            && (after == Pinned(s.disk) <==> !Merges(m, s.disk, contents) || Keeps(m, s.disk))
            && after in {Pinned(s.disk), Pinned(Proposal(m, s.disk)), None}
  {
    var m := s.managers[k];
    var local, base := Proposal(m, s.disk), Baseline(m);
    if Merges(m, s.disk, contents) {
      PositionNames(MergedRows(base.rows, s.disk.rows, m.rows), Picked(base, s.disk, local));
    } else if m.base.Some? {
      AllDiskRows(base.rows, s.disk.rows);
      PositionNames(MergedRows(base.rows, s.disk.rows, base.rows), Pinned(s.disk));
    }
  }

  /** A merge of the baseline itself keeps every row of the disk. */
  lemma AllDiskRows(base: seq<Id>, disk: seq<Id>)
    ensures forall id :: id in disk <==> id in MergedRows(base, disk, base)
  {
  }

  // ---- The pinned account over runs ----

  /** The account the CLI's last effective command named, in the rows it saw. */
  function Intended(s: System, steps: seq<Step>): Option<Id> {
    if steps == [] then Pinned(s.disk)
    else
      var n := |steps| - 1;
      var before := Run(s, steps[..n]).disk;
      if steps[n].Cli? && steps[n].gen >= before.selection.gen then Named(before.rows, steps[n].pin) else Intended(s, steps[..n])
  }

  predicate Harmless(s: System, step: Step) {
    step.Save? && step.m < |s.managers| && Merges(s.managers[step.m], s.disk, step.contents) ==> Keeps(s.managers[step.m], s.disk)
  }

  ghost predicate Tracks(s: System, steps: seq<Step>, n: nat)
    requires n <= |steps|
  {
    Pinned(Run(s, steps[..n]).disk) == Intended(s, steps[..n])
  }

  lemma StepTracks(s: System, steps: seq<Step>, n: nat)
    requires n < |steps| && Tracks(s, steps, n)
    ensures Tracks(s, steps, n + 1) <==> Harmless(Run(s, steps[..n]), steps[n])
  {
    assert steps[..n + 1][..n] == steps[..n];
    var before, step := Run(s, steps[..n]), steps[n];
    assert Run(s, steps[..n + 1]) == Next(before, step);
    if step.Save? && step.m < |before.managers| { SaveVerdict(before, step.m, step.contents, step.rescue); }
  }

  /**
   * In every run, the disk pins the CLI's last choice at every moment if and
   * only if every save met the condition above when it was made.
   */
  lemma {:induction false} NoLossCondition(s: System, steps: seq<Step>)
    ensures (forall n :: 0 <= n <= |steps| ==> Tracks(s, steps, n)) <==>
            (forall n :: 0 <= n < |steps| ==> Harmless(Run(s, steps[..n]), steps[n]))
  {
    assert Tracks(s, steps, 0);
    if forall n :: 0 <= n <= |steps| ==> Tracks(s, steps, n) {
      forall n | 0 <= n < |steps| ensures Harmless(Run(s, steps[..n]), steps[n]) {
        assert Tracks(s, steps, n) && Tracks(s, steps, n + 1);
        StepTracks(s, steps, n);
      }
    }
    if forall n :: 0 <= n < |steps| ==> Harmless(Run(s, steps[..n]), steps[n]) {
      forall n | 0 <= n <= |steps| ensures Tracks(s, steps, n) { TracksUpTo(s, steps, n); }
    }
  }

  lemma {:induction false} TracksUpTo(s: System, steps: seq<Step>, n: nat)
    requires n <= |steps| && forall k :: 0 <= k < |steps| ==> Harmless(Run(s, steps[..k]), steps[k])
    ensures Tracks(s, steps, n)
  {
    if n > 0 {
      TracksUpTo(s, steps, n - 1);
      StepTracks(s, steps, n - 1);
    }
  }

  // ---- While the inventory stands still, nothing is lost ----

  /** Everybody knows the same rows, and who knows the generation knows the account. */
  ghost predicate Uniform(s: System) {
    && Behind(s) && Distinct(s.disk.rows)
    && forall k :: 0 <= k < |s.managers| ==>
         && s.managers[k].rows == s.disk.rows
         && (s.managers[k].base.Some? ==> s.managers[k].base.value.rows == s.disk.rows)
         && (s.managers[k].selection.gen == s.disk.selection.gen ==> Named(s.disk.rows, s.managers[k].selection.pin) == Pinned(s.disk))
  }

  predicate Still(step: Step) { !step.Removed? && !step.Added? }

  /** A command does not commit the generation the disk already holds. */
  predicate Raises(s: System, step: Step) { step.Cli? ==> step.gen != s.disk.selection.gen }

  /** No account is added or removed, and no two commands commit one generation. */
  ghost predicate Quiet(s: System, steps: seq<Step>) {
    forall n :: 0 <= n < |steps| ==> Still(steps[n]) && Raises(Run(s, steps[..n]), steps[n])
  }

  lemma {:induction false} SameRows(base: seq<Id>, rows: seq<Id>)
    requires base == [] || base == rows
    ensures MergedRows(base, rows, rows) == rows
  {
    KeptAll(base, rows, rows);
    NoneNew(base, rows, rows);
  }

  lemma {:induction false} KeptAll(base: seq<Id>, disk: seq<Id>, local: seq<Id>)
    requires forall id :: id in disk && id in base ==> id in local
    ensures KeptRows(base, disk, local) == disk
    decreases |disk|
  {
    if disk != [] {
      var n := |disk| - 1;
      assert disk[n] in disk && disk == disk[..n] + [disk[n]];
      KeptAll(base, disk[..n], local);
    }
  }

  lemma {:induction false} NoneNew(base: seq<Id>, disk: seq<Id>, local: seq<Id>)
    requires forall id :: id in local ==> id in base || id in disk
    ensures NewRows(base, disk, local) == []
    decreases |local|
  {
    if local != [] { NoneNew(base, disk, local[..|local| - 1]); }
  }

  lemma UniformSave(s: System, k: nat, contents: bool, rescue: Rescue)
    requires Uniform(s) && k < |s.managers|
    ensures Uniform(Saved(s, k, contents, rescue)) && Keeps(s.managers[k], s.disk)
  {
    UniformKeeps(s, k);
    UniformRows(s, k, contents, rescue);
    SaveVerdict(s, k, contents, rescue);
    StepBehind(s, Save(k, contents, rescue));
  }

  lemma UniformKeeps(s: System, k: nat)
    requires Uniform(s) && k < |s.managers|
    ensures Keeps(s.managers[k], s.disk)
  {
    SameRows(Baseline(s.managers[k]).rows, s.disk.rows);
  }

  lemma UniformRows(s: System, k: nat, contents: bool, rescue: Rescue)
    requires Uniform(s) && k < |s.managers|
    ensures Saved(s, k, contents, rescue).disk.rows == s.disk.rows
  {
    SameRows(Baseline(s.managers[k]).rows, s.disk.rows);
  }

  lemma UniformStep(s: System, step: Step)
    requires Uniform(s) && Still(step) && Raises(s, step)
    ensures Uniform(Next(s, step)) && Harmless(s, step)
  {
    if step.Save? && step.m < |s.managers| {
      UniformSave(s, step.m, step.contents, step.rescue);
    } else {
      StepBehind(s, step);
    }
  }

  lemma {:induction false} UniformRun(s: System, steps: seq<Step>, n: nat)
    requires Uniform(s) && n <= |steps| && Quiet(s, steps)
    ensures Uniform(Run(s, steps[..n]))
  {
    if n > 0 {
      UniformRun(s, steps, n - 1);
      assert steps[..n][..n - 1] == steps[..n - 1];
      UniformStep(Run(s, steps[..n - 1]), steps[n - 1]);
    }
  }

  /**
   * With no account added or removed and every effective command raising the
   * generation, every interleaving of switches, loads, saves and failures leaves
   * the CLI's last choice pinned, with no condition on the pins.
   */
  lemma NoRollback(s: System, steps: seq<Step>)
    requires Uniform(s) && Quiet(s, steps)
    ensures Pinned(Run(s, steps).disk) == Intended(s, steps)
  {
    forall n | 0 <= n < |steps| ensures Harmless(Run(s, steps[..n]), steps[n]) {
      UniformRun(s, steps, n);
      UniformStep(Run(s, steps[..n]), steps[n]);
    }
    NoLossCondition(s, steps);
    assert Tracks(s, steps, |steps|) && steps[..|steps|] == steps;
  }

  // ---- What two commands with one generation do ----

  /**
   * Two commands that read the same generation before taking the lock. A manager
   * that heard the first saves its pin over the second, and nothing tells it that
   * the disk has changed its mind.
   */
  lemma TiedCommandIsLost()
    ensures var s := System(Storage([10, 11], Meta(None, 1)), []);
            var chosen := [Load, Cli(Some(0), 2), Observed(0), Cli(Some(1), 2)];
            var saved := chosen + [Save(0, true, GiveUp)];
            && Intended(s, chosen) == Pinned(Run(s, chosen).disk) == Some(11)
            && Intended(s, saved) == Some(11) && Pinned(Run(s, saved).disk) == Some(10)
  {
    var rows := [10, 11];
    var stored := Storage(rows, Meta(None, 1));
    var s := System(stored, []);
    var first := [Load] + [Cli(Some(0), 2)];
    RunStep(s, [], Load);
    RunStep(s, [Load], Cli(Some(0), 2));
    RunStep(s, first, Observed(0));
    RunStep(s, first + [Observed(0)], Cli(Some(1), 2));
    var chosen := [Load, Cli(Some(0), 2), Observed(0), Cli(Some(1), 2)];
    assert [] + [Load] == [Load] && first + [Observed(0)] + [Cli(Some(1), 2)] == chosen;
    assert Run(s, chosen) == System(Storage(rows, Meta(Some(1), 2)), [Manager(rows, Meta(Some(0), 2), Some(stored))]);
    RunStep(s, chosen, Save(0, true, GiveUp));
    TiedSave(Run(s, chosen));
  }

  /** A save whose merge goes through pins the manager's own choice if that account is stored. */
  lemma SavePins(s: System, k: nat, rescue: Rescue, id: Id)
    requires k < |s.managers| && Merges(s.managers[k], s.disk, true)
    requires Pinned(Proposal(s.managers[k], s.disk)) == Some(id) != Pinned(Baseline(s.managers[k]))
    requires id in s.managers[k].rows && id in s.disk.rows
    ensures Pinned(Saved(s, k, true, rescue).disk) == Some(id)
  {
    var m := s.managers[k];
    PositionNames(MergedRows(Baseline(m).rows, s.disk.rows, m.rows), Some(id));
  }

  lemma TiedSave(s: System)
    requires s == System(Storage([10, 11], Meta(Some(1), 2)),
                         [Manager([10, 11], Meta(Some(0), 2), Some(Storage([10, 11], Meta(None, 1))))])
    ensures Pinned(Saved(s, 0, true, GiveUp).disk) == Some(10)
  {
    assert Proposal(s.managers[0], s.disk) == Storage([10, 11], Meta(Some(0), 2));
    SavePins(s, 0, GiveUp, 10);
  }

  // ---- What removals and additions do ----

  /**
   * A manager in step with the disk removes one account and saves: the pinned
   * account stays pinned if and only if nothing is pinned or the removed account
   * stood behind it. The manager's index does not follow its account.
   */
  lemma RemovalVerdict(rows: seq<Id>, selection: Meta, row: nat)
    requires Distinct(rows) && row < |rows| && (selection.pin.Some? ==> InRange(selection.pin, |rows|))
    ensures var stored := Storage(rows, selection);
            var s := System(stored, [Manager(rows, selection, Some(stored))]);
            Pinned(Run(s, [Removed(0, row), Save(0, true, GiveUp)]).disk) == Pinned(stored) <==>
              selection.pin.None? || row > selection.pin.value
  {
    var stored := Storage(rows, selection);
    var s := System(stored, [Manager(rows, selection, Some(stored))]);
    var steps := [Removed(0, row), Save(0, true, GiveUp)];
    assert steps[..1] == [Removed(0, row)] && steps[..1][..0] == [];
    var removed := Next(s, Removed(0, row));
    assert Run(s, []) == s && Run(s, steps[..1]) == removed && Run(s, steps) == Next(removed, steps[1]);
    SaveVerdict(removed, 0, true, GiveUp);
    RemovedManager(rows, selection, row);
  }

  lemma RemovedManager(rows: seq<Id>, selection: Meta, row: nat)
    requires Distinct(rows) && row < |rows| && (selection.pin.Some? ==> InRange(selection.pin, |rows|))
    ensures var stored := Storage(rows, selection);
            var m := Manager(rows[..row] + rows[row + 1..], selection, Some(stored));
            Merges(m, stored, true) && (Keeps(m, stored) <==> selection.pin.None? || row > selection.pin.value)
  {
    var stored := Storage(rows, selection);
    var rest := rows[..row] + rows[row + 1..];
    var m := Manager(rest, selection, Some(stored));
    assert Distinct(rest);
    if selection.pin.Some? {
      var p := selection.pin.value;
      assert p < |rest| ==> rest[p] == if p < row then rows[p] else rows[p + 1];
      assert Pinned(stored) == Some(rows[p]);
      assert p != row ==> rows[p] in rest by { assert p < row ==> rest[p] == rows[p]; assert p > row ==> rest[p - 1] == rows[p]; }
    }
  }

  /** One row added to an inventory the disk still contains goes to the end of the disk's rows. */
  lemma AddOne(base: seq<Id>, disk: seq<Id>, id: Id)
    requires id !in base && id !in disk && forall r :: r in base ==> r in disk
    ensures MergedRows(base, disk, base + [id]) == disk + [id]
  {
    KeptAll(base, disk, base + [id]);
    NoneNew(base, disk, base);
    assert (base + [id])[..|base|] == base;
  }

  /** A manager that only added one account, with nothing pinned, saves it behind the disk's rows. */
  lemma SaveAdds(s: System, k: nat, base: seq<Id>, id: Id, gen: nat)
    requires k < |s.managers| && s.managers[k] == Manager(base + [id], Meta(None, gen), Some(Storage(base, Meta(None, gen))))
    requires s.disk.selection == Meta(None, gen) && Distinct(s.disk.rows) && Distinct(base)
    requires id !in base && id !in s.disk.rows && forall r :: r in base ==> r in s.disk.rows
    ensures var proposed := Storage(base + [id], Meta(None, gen));
            Saved(s, k, true, GiveUp)
            == System(Storage(s.disk.rows + [id], Meta(None, gen)), s.managers[k := Manager(base + [id], Meta(None, gen), Some(proposed))])
  {
    AddOne(base, s.disk.rows, id);
    assert Distinct(base + [id]);
  }

  lemma RunStep(s: System, steps: seq<Step>, step: Step)
    ensures Run(s, steps + [step]) == Next(Run(s, steps), step)
    ensures Intended(s, steps + [step]) ==
      if step.Cli? && step.gen >= Run(s, steps).disk.selection.gen then Named(Run(s, steps).disk.rows, step.pin) else Intended(s, steps)
  {
    assert (steps + [step])[..|steps|] == steps;
  }

  lemma NextTwice(before: System, k: nat, base: seq<Id>, id: Id, gen: nat)
    requires k < |before.managers| && before.managers[k] == Manager(base, Meta(None, gen), Some(Storage(base, Meta(None, gen))))
    requires before.disk.selection == Meta(None, gen) && Distinct(before.disk.rows) && Distinct(base)
    requires id !in base && id !in before.disk.rows && forall r :: r in base ==> r in before.disk.rows
    ensures var proposed := Storage(base + [id], Meta(None, gen));
            Next(Next(before, Added(k, id)), Save(k, true, GiveUp))
            == System(Storage(before.disk.rows + [id], Meta(None, gen)), before.managers[k := Manager(base + [id], Meta(None, gen), Some(proposed))])
  {
    var added := Next(before, Added(k, id));
    SaveAdds(added, k, base, id, gen);
    var last := Manager(base + [id], Meta(None, gen), Some(Storage(base + [id], Meta(None, gen))));
    assert added.managers[k := last] == before.managers[k := last];
  }

  /** A manager adds one account and saves it, as two steps of a run. */
  lemma AddThenSave(s: System, steps: seq<Step>, before: System, k: nat, base: seq<Id>, id: Id, gen: nat)
    requires before == Run(s, steps)
    requires k < |before.managers| && before.managers[k] == Manager(base, Meta(None, gen), Some(Storage(base, Meta(None, gen))))
    requires before.disk.selection == Meta(None, gen) && Distinct(before.disk.rows) && Distinct(base)
    requires id !in base && id !in before.disk.rows && forall r :: r in base ==> r in before.disk.rows
    ensures var proposed := Storage(base + [id], Meta(None, gen));
            Run(s, steps + [Added(k, id)] + [Save(k, true, GiveUp)])
            == System(Storage(before.disk.rows + [id], Meta(None, gen)), before.managers[k := Manager(base + [id], Meta(None, gen), Some(proposed))])
  {
    NextTwice(before, k, base, id, gen);
    RunStep(s, steps, Added(k, id));
    RunStep(s, steps + [Added(k, id)], Save(k, true, GiveUp));
  }

  lemma LoadTwice(disk: Storage) returns (steps: seq<Step>)
    requires disk.selection.pin == None
    ensures Run(System(disk, []), steps) == System(disk, [Manager(disk.rows, disk.selection, Some(disk)), Manager(disk.rows, disk.selection, Some(disk))])
  {
    steps := [] + [Load] + [Load];
    RunStep(System(disk, []), [], Load);
    RunStep(System(disk, []), [] + [Load], Load);
  }

  /** Two managers load the same two accounts, and each adds and saves one. */
  lemma BothAdded() returns (steps: seq<Step>)
    ensures var both := Run(System(Storage([10, 11], Meta(None, 1)), []), steps);
            && both.disk == Storage([10, 11, 12, 13], Meta(None, 1)) && |both.managers| == 2
            && both.managers[0] == Manager([10, 11, 13], Meta(None, 1), Some(Storage([10, 11, 13], Meta(None, 1))))
  {
    var s := System(Storage([10, 11], Meta(None, 1)), []);
    steps := LoadTwice(s.disk);
    AddThenSave(s, steps, Run(s, steps), 1, [10, 11], 12, 1);
    steps := steps + [Added(1, 12)] + [Save(1, true, GiveUp)];
    assert [10, 11] + [12] == [10, 11, 12];
    AddThenSave(s, steps, Run(s, steps), 0, [10, 11], 13, 1);
    steps := steps + [Added(0, 13)] + [Save(0, true, GiveUp)];
    assert [10, 11, 12] + [13] == [10, 11, 12, 13] && [10, 11] + [13] == [10, 11, 13];
  }

  /**
   * From there, a switch to the one account and then to the other: the last one
   * is misread by the first manager, whose list ends earlier, and its save pins
   * the account of the switch before.
   */
  lemma OlderAccountCanReturn() returns (steps: seq<Step>)
    ensures var s := System(Storage([10, 11], Meta(None, 1)), []);
            var switched := steps + [Cli(Some(3), 2)];
            var again := switched + [Cli(Some(2), 3)];
            && Intended(s, switched) == Pinned(Run(s, switched).disk) == Some(13)
            && Intended(s, again) == Pinned(Run(s, again).disk) == Some(12)
            && Intended(s, again + [Save(0, true, GiveUp)]) == Some(12)
            && Pinned(Run(s, again + [Save(0, true, GiveUp)]).disk) == Some(13)
  {
    steps := BothAdded();
    var s := System(Storage([10, 11], Meta(None, 1)), []);
    var switched := steps + [Cli(Some(3), 2)];
    var again := switched + [Cli(Some(2), 3)];
    RunStep(s, steps, Cli(Some(3), 2));
    RunStep(s, switched, Cli(Some(2), 3));
    RunStep(s, again, Save(0, true, GiveUp));
    MisreadSave(Run(s, again));
  }

  lemma MisreadSave(s: System)
    requires |s.managers| > 0 && s.disk == Storage([10, 11, 12, 13], Meta(Some(2), 3))
    requires s.managers[0] == Manager([10, 11, 13], Meta(None, 1), Some(Storage([10, 11, 13], Meta(None, 1))))
    ensures Pinned(Saved(s, 0, true, GiveUp).disk) == Some(13)
  {
    var m := s.managers[0];
    assert Proposal(m, s.disk) == Storage([10, 11, 13], Meta(Some(2), 3));
    assert s.disk.rows[3] == 13 && m.rows[2] == 13;
    SavePins(s, 0, GiveUp, 13);
  }

  /** Freshly loaded managers agree with the disk, so the results above apply from the start. */
  lemma {:induction false} StartsUniform(disk: Storage, loads: nat)
    requires Distinct(disk.rows)
    ensures var s := Run(System(disk, []), seq(loads, _ => Load));
            Uniform(s) && s.disk == disk && |s.managers| == loads && Current(s, {disk.selection.pin})
  {
    if loads > 0 {
      StartsUniform(disk, loads - 1);
      assert seq(loads, _ => Load)[..loads - 1] == seq(loads - 1, _ => Load);
    }
  }
}
