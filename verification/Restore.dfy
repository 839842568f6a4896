/** The restore protocol of scripts/restore.py: stage, swap, commit, and the rollback ladder. */
module Restore {
  import opened Wrappers
  import opened Trees
  import opened ManagedPaths
  import opened BackupSets
  import opened StagedTrees
  import opened Disk

  /** `_RestoreLock`: an exclusively created file beside the destination. */
  class RestoreLock {
    const volume: Volume
    var fd: int

    constructor (volume: Volume)
      ensures this.volume == volume && fd == -1
    {
      this.volume := volume;
      fd := -1;
    }

    /** Fails when the file exists; a fault while writing the pid leaves the file behind. */
    method Acquire() returns (ok: bool)
      modifies this, volume
      ensures ok <==> !old(volume.now).lock && !volume.Fails(CreateLock, 0) && !volume.Fails(WritePid, 0)
      ensures old(volume.trail) <= volume.trail
      ensures forall k | |old(volume.trail)| <= k < |volume.trail| ::
                volume.trail[k] == old(volume.now).(lock := volume.trail[k].lock)
      ensures volume.now == old(volume.now).(lock := old(volume.now).lock || !volume.Fails(CreateLock, 0))
    {
      if volume.now.lock || volume.Fails(CreateLock, 0) {
        return false;
      }
      volume.Record(volume.now.(lock := true));
      fd := 3;
      ok := !volume.Fails(WritePid, 0);
    }

    method Release(again: bool)
      modifies this, volume
      ensures fd == -1
      ensures volume.trail == old(volume.trail) + [volume.now]
      ensures volume.now == if volume.Fails(RemoveLock, if again then 1 else 0) then old(volume.now)
                            else old(volume.now).(lock := false)
    {
      fd := -1;
      volume.Record(if volume.Fails(RemoveLock, if again then 1 else 0) then volume.now else volume.now.(lock := false));
    }

    method Retain()
      modifies this
      ensures fd == -1
    {
      fd := -1;
    }
  }

  /** What one run starts from and aims at. */
  datatype Run = Run(pre: Option<Root>, staged: Root, tables: seq<TableTag>)

  /** The destination of a run that returns normally. */
  function Target(run: Run): Root {
    ServeAll(run.staged, run.tables)
  }

  /** No journal, and the destination as the run found it. */
  predicate Untouched(image: Image, pre: Option<Root>) {
    image.journal.None? && image.dest == pre
  }

  /** Some of the tables, in order, have been served. */
  predicate PartlyServed(root: Root, run: Run) {
    exists n | 0 <= n <= |run.tables| :: root.served == ServeAll(run.staged, run.tables[..n]).served
  }

  /** The original is out of the way: aside, or there never was one. */
  predicate Cleared(image: Image, run: Run) {
    image.aside.Some? || run.pre.None?
  }

  /** What every disk image of a run satisfies once the set is staged. Beside a journal the original
      is at the destination or aside; a staging directory is whole once the original is out of the
      way; what has taken the original's place is the staged tree with some tables served, unless the
      ladder of a failed commit has begun to delete it. */
  predicate CrashSafe(image: Image, run: Run) {
    match image.journal
    case None => image.dest == run.pre || image.dest == Some(Target(run))
    case Some(journal) =>
      && image.lock
      && journal.destExisted == run.pre.Some?
      && (image.aside.Some? ==> run.pre.Some? && image.aside == run.pre)
      && Shrunk(Some(run.staged), image.staging)
      && (!Cleared(image, run) ==> image.dest == run.pre)
      && (Cleared(image, run) && image.staging.Some? ==>
            image.staging == Some(run.staged) && image.dest.None? && !journal.phase.Commit?)
      && (Cleared(image, run) && image.staging.None? && image.dest.Some? ==>
            && PartlyServed(image.dest.value, run)
            && (!journal.phase.Commit? || run.tables == [] ==> image.dest == Some(run.staged)))
  }

  predicate AllSafe(trail: seq<Image>, from: nat, run: Run) {
    forall k | from <= k < |trail| :: CrashSafe(trail[k], run)
  }

  predicate AllUntouched(trail: seq<Image>, from: nat, pre: Option<Root>) {
    forall k | from <= k < |trail| :: Untouched(trail[k], pre)
  }

  /** The image once the journal is written. */
  function Journaled(run: Run): Image {
    Image(run.pre, Some(run.staged), None, None, Some(Journal(JournalWritten, run.pre.Some?)), true)
  }

  /** The image once both renames are done. */
  function Swapped(run: Run): Image {
    var phase := if run.pre.Some? then AsideCreated else JournalWritten;
    Image(Some(run.staged), None, run.pre, None, Some(Journal(phase, run.pre.Some?)), true)
  }

  /** The image once the commit is recorded. */
  function Committing(run: Run): Image {
    Image(Some(run.staged), None, run.pre, None, Some(Journal(Commit, run.pre.Some?)), true)
  }

  // ---- When a run is stuck ----

  /** The swap fails. */
  predicate SwapFails(volume: Volume, run: Run) {
    volume.Fails(MoveIn, 0) || (run.pre.Some? && (volume.Fails(MoveAside, 0) || volume.Fails(RecordAside, 0)))
  }

  /** A failed swap leaves the original aside: it got there and does not come back. */
  predicate LeavesAside(volume: Volume, run: Run) {
    && run.pre.Some? && !volume.Fails(MoveAside, 0)
    && if volume.Fails(RecordAside, 0) then volume.Fails(UndoMoveAside, 0) else volume.Fails(UndoMoveIn, 0)
  }

  /** A move that could not be recorded is undone, and the journal dropped at once. */
  predicate UndoneAtOnce(volume: Volume, run: Run) {
    && run.pre.Some? && !volume.Fails(MoveAside, 0) && volume.Fails(RecordAside, 0)
    && !volume.Fails(UndoMoveAside, 0) && !volume.Fails(DropUnrecorded, 0)
  }

  /** A failed swap keeps its journal. */
  predicate SwapStuck(volume: Volume, run: Run) {
    LeavesAside(volume, run) || (!UndoneAtOnce(volume, run) && volume.Fails(DropUnswapped, 0))
  }

  predicate PersistFails(volume: Volume, run: Run) {
    exists n | 0 <= n < |run.tables| :: volume.Fails(PersistTable, n)
  }

  /** The ladder keeps the journal: the restored tree is not cleared, the original does not go back, or
      the journal does not go away. */
  predicate LadderStuck(volume: Volume, run: Run) {
    || (volume.Fails(SetFailed, 0) && !volume.Removes(ClearDest, |run.staged.tree|))
    || (run.pre.Some? && volume.Fails(PutBack, 0))
    || volume.Fails(DropRolledBack, 0)
  }

  /** The commit window keeps the journal. */
  predicate CommitStuck(volume: Volume, run: Run) {
    || volume.Fails(RecordCommit, 0)
    || if PersistFails(volume, run) then LadderStuck(volume, run) else volume.Fails(DropCommitted, 0)
  }

  /** A run whose journal is written ends with it. */
  predicate Stuck(volume: Volume, run: Run) {
    if SwapFails(volume, run) then SwapStuck(volume, run) else CommitStuck(volume, run)
  }

  // ---- The swap ----

  /** The original moves aside, and back again when that cannot be recorded. */
  method SetAside(volume: Volume, ghost run: Run, ghost from: nat) returns (failed: bool, held: bool)
    requires volume.now == Journaled(run) && run.pre.Some?
    requires from <= |volume.trail| && AllSafe(volume.trail, from, run)
    modifies volume
    ensures old(volume.trail) <= volume.trail && AllSafe(volume.trail, from, run)
    ensures CrashSafe(volume.now, run) && volume.now.lock && volume.now.failed.None?
    ensures held == volume.now.journal.Some?
    ensures !failed ==> held && volume.now == OriginalAside(run, AsideCreated)
    ensures failed && volume.now.aside.None? ==> volume.now.dest == run.pre
    ensures failed <==> volume.Fails(MoveAside, 0) || volume.Fails(RecordAside, 0)
    ensures failed ==> (volume.now.aside.Some? <==> LeavesAside(volume, run)) && (held <==> !UndoneAtOnce(volume, run))
    ensures volume.Fails(MoveAside, 0) && !volume.Fails(ClearUnmoved, 0) && run.staged.tree != map[] ==>
              SomeEntryGone(volume.trail, Journaled(run), Staging)
  {
    var moved := volume.Rename(Dest, Aside, MoveAside);
    if !moved {
      volume.RemoveTree(Staging, ClearUnmoved);
      return true, true;
    }
    var recorded := volume.UpdatePhase(AsideCreated, RecordAside);
    if recorded {
      return false, true;
    }
    held := UndoSetAside(volume, run, from);
    return true, held;
  }

  /** The original as it stands aside, with the journal in the given phase. */
  function OriginalAside(run: Run, phase: Phase): Image {
    Journaled(run).(dest := None, aside := run.pre, journal := Some(Journal(phase, true)))
  }

  /** The original goes back, and with it staging and the journal away. */
  method UndoSetAside(volume: Volume, ghost run: Run, ghost from: nat) returns (held: bool)
    requires run.pre.Some? && volume.now == OriginalAside(run, JournalWritten)
    requires from <= |volume.trail| && AllSafe(volume.trail, from, run)
    modifies volume
    ensures old(volume.trail) <= volume.trail && AllSafe(volume.trail, from, run)
    ensures CrashSafe(volume.now, run) && volume.now.lock && volume.now.failed.None?
    ensures held == volume.now.journal.Some?
    ensures volume.now.aside.None? ==> volume.now.dest == run.pre
    ensures volume.now.aside.Some? <==> volume.Fails(UndoMoveAside, 0)
    ensures held <==> volume.Fails(UndoMoveAside, 0) || volume.Fails(DropUnrecorded, 0)
  {
    var back := volume.Rename(Aside, Dest, UndoMoveAside);
    if !back {
      return true;
    }
    volume.RemoveTree(Staging, ClearUnrecorded);
    var unlinked := volume.UnlinkJournal(DropUnrecorded);
    return !unlinked;
  }

  /** The inner try of the swap: both renames, with the first one rolled back when what follows it
      fails. */
  method SwapIn(volume: Volume, ghost run: Run, ghost from: nat) returns (failed: bool, held: bool)
    requires volume.now == Journaled(run)
    requires from <= |volume.trail| && AllSafe(volume.trail, from, run)
    modifies volume
    ensures old(volume.trail) <= volume.trail && AllSafe(volume.trail, from, run)
    ensures CrashSafe(volume.now, run) && volume.now.lock && volume.now.failed.None?
    ensures held == volume.now.journal.Some?
    ensures !failed ==> held && volume.now == Swapped(run) && Swapped(run) in volume.trail
    ensures failed && volume.now.aside.None? ==> volume.now.dest == run.pre
    ensures failed <==> SwapFails(volume, run)
    ensures failed ==> (volume.now.aside.Some? <==> LeavesAside(volume, run)) && (held <==> !UndoneAtOnce(volume, run))
    ensures run.pre.Some? && volume.Fails(MoveAside, 0) && !volume.Fails(ClearUnmoved, 0) && run.staged.tree != map[] ==>
              SomeEntryGone(volume.trail, Journaled(run), Staging)
  {
    var destExisted := volume.now.dest.Some?;
    held := true;
    if destExisted {
      failed, held := SetAside(volume, run, from);
      if failed {
        return;
      }
    }
    PartlyServedAtFirst(run);
    var swapped := volume.Rename(Staging, Dest, MoveIn);
    if !swapped && destExisted {
      var back := volume.Rename(Aside, Dest, UndoMoveIn);
    }
    failed := !swapped;
  }

  lemma PartlyServedAtFirst(run: Run)
    ensures PartlyServed(run.staged, run)
  {
    assert run.tables[..0] == [];
    assert ServeAll(run.staged, run.tables[..0]) == run.staged;
  }

  /** The swap with its outer handler: a failure that left nothing aside clears the journal. */
  method Swap(volume: Volume, ghost run: Run, ghost from: nat) returns (failed: bool, held: bool)
    requires volume.now == Journaled(run)
    requires from <= |volume.trail| && AllSafe(volume.trail, from, run)
    modifies volume
    ensures old(volume.trail) <= volume.trail && AllSafe(volume.trail, from, run)
    ensures CrashSafe(volume.now, run) && volume.now.lock
    ensures held == volume.now.journal.Some?
    ensures !failed ==> held && volume.now == Swapped(run) && Swapped(run) in volume.trail
    ensures failed && !held ==> volume.now.dest == run.pre && volume.now.aside.None?
    ensures failed <==> SwapFails(volume, run)
    ensures failed ==> (held <==> SwapStuck(volume, run))
    ensures failed && !held && volume.Clear(ClearUnswapped) ==> volume.now.staging.None?
    ensures run.pre.Some? && volume.Fails(MoveAside, 0) && !volume.Fails(ClearUnmoved, 0) && run.staged.tree != map[] ==>
              SomeEntryGone(volume.trail, Journaled(run), Staging)
  {
    failed, held := SwapIn(volume, run, from);
    if failed && volume.now.aside.None? {
      held := ClearAfterSwap(volume, run, from, held);
    }
  }

  method ClearAfterSwap(volume: Volume, ghost run: Run, ghost from: nat, journalHeld: bool) returns (held: bool)
    requires CrashSafe(volume.now, run) && volume.now.lock && volume.now.aside.None? && volume.now.dest == run.pre
    requires journalHeld == volume.now.journal.Some?
    requires from <= |volume.trail| && AllSafe(volume.trail, from, run)
    modifies volume
    ensures old(volume.trail) <= volume.trail && AllSafe(volume.trail, from, run)
    ensures CrashSafe(volume.now, run) && volume.now.lock && volume.now.dest == run.pre
    ensures held == volume.now.journal.Some? && volume.now.aside.None?
    ensures held <==> journalHeld && volume.Fails(DropUnswapped, 0)
    ensures !held && volume.Clear(ClearUnswapped) ==> volume.now.staging.None?
  {
    held := journalHeld;
    if held {
      var unlinked := volume.UnlinkJournal(DropUnswapped);
      if !unlinked {
        return;
      }
      held := false;
    }
    volume.RemoveTree(Staging, ClearUnswapped);
  }

  // ---- The commit window ----

  /** A destination being served, table by table. */
  predicate Serving(image: Image, run: Run) {
    && image == Committing(run).(dest := image.dest)
    && image.dest.Some? && PartlyServed(image.dest.value, run) && image.dest.value.tree == run.staged.tree
    && (run.tables == [] ==> image.dest == Some(run.staged))
  }

  /** The first rung: the restored tree is renamed away or deleted. */
  method ClearRestored(volume: Volume, ghost run: Run, ghost from: nat)
    requires Serving(volume.now, run) && run.tables != []
    requires from <= |volume.trail| && AllSafe(volume.trail, from, run)
    modifies volume
    ensures old(volume.trail) <= volume.trail && AllSafe(volume.trail, from, run)
    ensures CrashSafe(volume.now, run)
    ensures volume.now == Committing(run).(dest := volume.now.dest, failed := volume.now.failed)
    ensures volume.now.dest.Some? <==> volume.Fails(SetFailed, 0) && !volume.Removes(ClearDest, |run.staged.tree|)
    ensures volume.now.failed == if volume.Fails(SetFailed, 0) then None else old(volume.now).dest
    ensures volume.Fails(SetFailed, 0) && !volume.Fails(ClearDest, 0) && old(volume.now).dest.value.tree != map[] ==>
              SomeEntryGone(volume.trail, old(volume.now), Dest)
  {
    var moved := volume.Rename(Dest, Failed, SetFailed);
    if !moved {
      volume.RemoveTree(Dest, ClearDest);
    }
  }

  /** The rollback ladder after a persistence failure. */
  method RollBackCommit(volume: Volume, ghost run: Run, ghost from: nat) returns (held: bool)
    requires Serving(volume.now, run) && run.tables != []
    requires from <= |volume.trail| && AllSafe(volume.trail, from, run)
    modifies volume
    ensures old(volume.trail) <= volume.trail && AllSafe(volume.trail, from, run)
    ensures CrashSafe(volume.now, run) && volume.now.lock
    ensures held == volume.now.journal.Some?
    ensures !held ==> volume.now.dest == run.pre && volume.now.aside.None? && volume.now.staging.None?
    ensures held <==> LadderStuck(volume, run)
    ensures volume.now.failed == if volume.Fails(SetFailed, 0) then None else old(volume.now).dest
    ensures volume.Fails(SetFailed, 0) && !volume.Fails(ClearDest, 0) && old(volume.now).dest.value.tree != map[] ==>
              SomeEntryGone(volume.trail, old(volume.now), Dest)
  {
    ClearRestored(volume, run, from);
    ghost var seen := volume.trail;
    held := PutBackOriginal(volume, run, from);
    GoneExtends(seen, volume.trail, old(volume.now), Dest);
  }

  /** The other rungs: the original goes back, and the journal away. */
  method PutBackOriginal(volume: Volume, ghost run: Run, ghost from: nat) returns (held: bool)
    requires CrashSafe(volume.now, run)
    requires volume.now == Committing(run).(dest := volume.now.dest, failed := volume.now.failed)
    requires from <= |volume.trail| && AllSafe(volume.trail, from, run)
    modifies volume
    ensures old(volume.trail) <= volume.trail && AllSafe(volume.trail, from, run)
    ensures CrashSafe(volume.now, run) && volume.now.lock
    ensures held == volume.now.journal.Some?
    ensures !held ==> volume.now.dest == run.pre && volume.now.aside.None? && volume.now.staging.None?
    ensures volume.now.failed == old(volume.now).failed
    ensures held <==> || old(volume.now).dest.Some? || (run.pre.Some? && volume.Fails(PutBack, 0))
                      || volume.Fails(DropRolledBack, 0)
  {
    held := true;
    if volume.now.dest.Some? {
      return;
    }
    if volume.now.journal.value.destExisted {
      var back := volume.Rename(Aside, Dest, PutBack);
      if !back {
        return;
      }
    }
    var unlinked := volume.UnlinkJournal(DropRolledBack);
    held := !unlinked;
  }

  /** The image with the first `n` tables served. */
  function ServedImage(run: Run, n: nat): Image
    requires n <= |run.tables|
  {
    Committing(run).(dest := Some(ServeAll(run.staged, run.tables[..n])))
  }

  /** One more table. */
  method PersistNext(volume: Volume, n: nat, entry: TableTag, ghost run: Run, ghost from: nat) returns (ok: bool)
    requires n < |run.tables| && run.tables[n] == entry && volume.now == ServedImage(run, n)
    requires from <= |volume.trail| && AllSafe(volume.trail, from, run)
    modifies volume
    ensures old(volume.trail) <= volume.trail && AllSafe(volume.trail, from, run)
    ensures ok <==> !volume.Fails(PersistTable, n)
    ensures volume.now == ServedImage(run, if ok then n + 1 else n)
  {
    ServedSafe(run, n);
    ServedSafe(run, n + 1);
    assert run.tables[..n + 1][..n] == run.tables[..n];
    ok := volume.Persist(entry, n);
  }

  /** Persist the tables one after the other, up to the first fault. */
  method PersistTables(volume: Volume, tables: seq<TableTag>, hasFactory: bool, ghost run: Run, ghost from: nat)
    returns (ok: bool)
    requires volume.now == Committing(run)
    requires run.tables == if hasFactory then tables else []
    requires from <= |volume.trail| && AllSafe(volume.trail, from, run)
    modifies volume
    ensures old(volume.trail) <= volume.trail && AllSafe(volume.trail, from, run)
    ensures Serving(volume.now, run)
    ensures ok ==> volume.now == Committing(run).(dest := Some(Target(run)))
    ensures ok <==> !PersistFails(volume, run)
    ensures run.tables != [] && volume.Fails(PersistTable, 0) ==> volume.now == Committing(run)
  {
    ok := true;
    var n := 0;
    while hasFactory && n < |tables| && ok
      invariant 0 <= n <= |run.tables|
      invariant old(volume.trail) <= volume.trail && AllSafe(volume.trail, from, run)
      invariant volume.now == ServedImage(run, n)
      invariant forall m | 0 <= m < n :: !volume.Fails(PersistTable, m)
      invariant !ok ==> n < |run.tables| && volume.Fails(PersistTable, n)
      decreases |run.tables| - n, ok
    {
      ok := PersistNext(volume, n, tables[n], run, from);
      if ok {
        n := n + 1;
      }
    }
    ServedSafe(run, n);
    if ok {
      assert run.tables[..|run.tables|] == run.tables;
    }
  }

  lemma ServedSafe(run: Run, n: nat)
    requires n <= |run.tables|
    ensures CrashSafe(ServedImage(run, n), run) && Serving(ServedImage(run, n), run)
    ensures n == 0 ==> ServedImage(run, n) == Committing(run)
  {
    assert run.tables[..0] == [];
    var root := ServeAll(run.staged, run.tables[..n]);
    ServeAllServes(run.staged, run.tables[..n]);
    assert PartlyServed(root, run);
  }

  /** From the commit phase on: persist every tagged table, then commit or climb down. */
  method CommitWindow(volume: Volume, tables: seq<TableTag>, hasFactory: bool, ghost run: Run, ghost from: nat)
    returns (raised: bool, held: bool)
    requires volume.now == Swapped(run)
    requires run.tables == if hasFactory then tables else []
    requires from <= |volume.trail| && AllSafe(volume.trail, from, run)
    modifies volume
    ensures old(volume.trail) <= volume.trail && AllSafe(volume.trail, from, run)
    ensures CrashSafe(volume.now, run) && volume.now.lock
    ensures held == volume.now.journal.Some?
    ensures !raised ==> !held && volume.now.dest == Some(Target(run))
    ensures raised && !held ==> volume.now.dest == run.pre
    ensures raised <==> volume.Fails(RecordCommit, 0) || PersistFails(volume, run) || volume.Fails(DropCommitted, 0)
    ensures held <==> CommitStuck(volume, run)
    ensures !held ==> volume.now.staging.None? && (volume.Clear(ClearAside) ==> volume.now.aside.None?)
    ensures && !volume.Fails(RecordCommit, 0) && run.tables != [] && volume.Fails(PersistTable, 0)
            && volume.Fails(SetFailed, 0) && !volume.Fails(ClearDest, 0) && run.staged.tree != map[]
            ==> SomeEntryGone(volume.trail, Committing(run), Dest)
  {
    PartlyServedAtFirst(run);
    var destExisted := volume.now.journal.value.destExisted;
    var recorded := volume.UpdatePhase(Commit, RecordCommit);
    if !recorded {
      return true, true;
    }
    var persisted := PersistTables(volume, tables, hasFactory, run, from);
    if !persisted {
      held := RollBackCommit(volume, run, from);
      return true, held;
    }
    var unlinked := volume.UnlinkJournal(DropCommitted);
    if !unlinked {
      return true, true;
    }
    if destExisted {
      volume.RemoveTree(Aside, ClearAside);
    }
    return false, false;
  }

  // ---- Staging ----

  /** The writes of staging: its root, the items, and what an existing destination keeps. */
  function StagingWrites(items: seq<Item>, destExists: bool): nat {
    |items| + (if destExists then 2 else 1)
  }

  /** The first `n` writes of staging get through. */
  predicate Writes(volume: Volume, n: nat) {
    forall k | 0 <= k < n :: !volume.Fails(WriteStaging, k)
  }

  /** Every image since `from` differs from `start` in staging alone. */
  predicate OnlyStaging(start: Image, trail: seq<Image>, from: nat) {
    forall k | from <= k < |trail| :: start.SameBut(Staging, trail[k])
  }

  lemma OnlyStagingOn(start: Image, trail: seq<Image>, from: nat, mid: Image, more: seq<Image>)
    requires from <= |trail| && trail <= more && OnlyStaging(start, trail, from) && start.SameBut(Staging, mid)
    requires OnlyStaging(mid, more, |trail|)
    ensures OnlyStaging(start, more, from)
  {
    forall k | from <= k < |more| ensures start.SameBut(Staging, more[k]) {
      if k < |trail| {
        assert more[k] == trail[k];
      } else {
        assert mid.SameBut(Staging, more[k]);
      }
    }
  }

  /** Verify and stage the set, copy what the destination must keep, and delete staging on failure. */
  method Stage(volume: Volume, set_: Tree, items: seq<Item>, key: nat) returns (ok: bool)
    requires volume.now.dest.Some? ==> WellFormed(volume.now.dest.value.tree)
    modifies volume
    ensures old(volume.trail) <= volume.trail && OnlyStaging(old(volume.now), volume.trail, |old(volume.trail)|)
    ensures old(volume.now).SameBut(Staging, volume.now)
    ensures var final := FinalTree(set_, items, key, OptionTree(old(volume.now).dest));
            && (ok ==> final.Ok? && volume.now.staging == Some(Root(final.value, map[])))
            && (ok <==> final.Ok? && Writes(volume, StagingWrites(items, old(volume.now).dest.Some?)))
    ensures !ok && volume.Clear(ClearUnstaged) ==> volume.now.staging.None?
  {
    ok := StageUp(volume, set_, items, key);
    if !ok {
      ghost var mid, seen := volume.now, volume.trail;
      volume.RemoveTree(Staging, ClearUnstaged);
      OnlyStagingOn(old(volume.now), seen, |old(volume.trail)|, mid, volume.trail);
    }
  }

  lemma WritesMore(volume: Volume, n: nat)
    ensures Writes(volume, n + 1) <==> Writes(volume, n) && !volume.Fails(WriteStaging, n)
  {
  }

  method StageUp(volume: Volume, set_: Tree, items: seq<Item>, key: nat) returns (ok: bool)
    requires volume.now.dest.Some? ==> WellFormed(volume.now.dest.value.tree)
    modifies volume
    ensures old(volume.trail) <= volume.trail && OnlyStaging(old(volume.now), volume.trail, |old(volume.trail)|)
    ensures old(volume.now).SameBut(Staging, volume.now)
    ensures var final := FinalTree(set_, items, key, OptionTree(old(volume.now).dest));
            && (ok ==> final.Ok? && volume.now.staging == Some(Root(final.value, map[])))
            && (ok <==> final.Ok? && Writes(volume, StagingWrites(items, old(volume.now).dest.Some?)))
  {
    ghost var start, from := volume.now, |volume.trail|;
    WritesMore(volume, |items| + 1);
    var staged: Tree;
    ok, staged := StageRootAndAll(volume, set_, items, key);
    if ok && volume.now.dest.Some? {
      ghost var mid, seen := volume.now, volume.trail;
      ok := StageKept(volume, staged, items);
      OnlyStagingOn(start, seen, from, mid, volume.trail);
    }
  }

  method StageRootAndAll(volume: Volume, set_: Tree, items: seq<Item>, key: nat) returns (ok: bool, staged: Tree)
    modifies volume
    ensures old(volume.trail) <= volume.trail && OnlyStaging(old(volume.now), volume.trail, |old(volume.trail)|)
    ensures old(volume.now).SameBut(Staging, volume.now)
    ensures ok ==> StageSet(set_, items, key) == Ok(staged) && volume.now.staging == Some(Root(staged, map[]))
    ensures ok <==> StageSet(set_, items, key).Ok? && Writes(volume, |items| + 1)
  {
    ghost var start, from := volume.now, |volume.trail|;
    staged := map[];
    ok := volume.Write(Staging, Root(map[], map[]), WriteStaging, 0);
    if ok {
      ghost var mid, seen := volume.now, volume.trail;
      ok, staged := StageAll(volume, set_, items, key);
      OnlyStagingOn(start, seen, from, mid, volume.trail);
    }
  }

  /** What the destination must keep is copied into the staged tree. */
  method StageKept(volume: Volume, staged: Tree, items: seq<Item>) returns (ok: bool)
    requires volume.now.dest.Some? && WellFormed(volume.now.dest.value.tree)
    modifies volume
    ensures old(volume.trail) <= volume.trail && OnlyStaging(old(volume.now), volume.trail, |old(volume.trail)|)
    ensures old(volume.now).SameBut(Staging, volume.now)
    ensures var final := CopyOver(staged, Unmanaged(old(volume.now).dest.value.tree, ManagedRoots(items)));
            && (ok ==> final.Ok? && volume.now.staging == Some(Root(final.value, map[])))
            && (ok <==> final.Ok? && !volume.Fails(WriteStaging, |items| + 1))
  {
    var kept := CopyUnmanaged(volume.now.dest.value.tree, ManagedRoots(items));
    var final := CopyOver(staged, kept);
    ok := final.Ok?;
    if ok {
      ok := volume.Write(Staging, Root(final.value, map[]), WriteStaging, |items| + 1);
    }
  }

  /** One item of the loop. */
  method StageNext(volume: Volume, staged: Tree, set_: Tree, items: seq<Item>, key: nat, at: nat)
    returns (ok: bool, next: Tree)
    requires items != [] && volume.now.staging == Some(Root(staged, map[]))
    modifies volume
    ensures old(volume.trail) <= volume.trail && OnlyStaging(old(volume.now), volume.trail, |old(volume.trail)|)
    ensures old(volume.now).SameBut(Staging, volume.now)
    ensures ok ==> && volume.now.staging == Some(Root(next, map[]))
                   && StageItems(staged, set_, items, key) == StageItems(next, set_, items[1..], key)
    ensures !ok ==> StageItems(staged, set_, items, key).Err? || volume.Fails(WriteStaging, at)
    ensures ok ==> !volume.Fails(WriteStaging, at)
  {
    var result := StageItem(staged, set_, items[0], key);
    next := staged;
    ok := result.Ok?;
    if ok {
      next := result.value;
      ok := volume.Write(Staging, Root(next, map[]), WriteStaging, at);
    }
  }

  /** The item loop. */
  method StageEach(volume: Volume, set_: Tree, items: seq<Item>, key: nat) returns (ok: bool, staged: Tree)
    requires volume.now.staging == Some(Root(map[], map[])) && !volume.Fails(WriteStaging, 0)
    modifies volume
    ensures old(volume.trail) <= volume.trail && OnlyStaging(old(volume.now), volume.trail, |old(volume.trail)|)
    ensures old(volume.now).SameBut(Staging, volume.now)
    ensures ok ==> StageItems(map[], set_, items, key) == Ok(staged) && volume.now.staging == Some(Root(staged, map[]))
    ensures ok ==> Writes(volume, |items| + 1)
    ensures !ok ==> StageItems(map[], set_, items, key).Err? || !Writes(volume, |items| + 1)
  {
    ghost var start, from, all := volume.now, |volume.trail|, StageItems(map[], set_, items, key);
    ok, staged := true, map[];
    var i := 0;
    while ok && i < |items|
      invariant 0 <= i <= |items|
      invariant old(volume.trail) <= volume.trail && OnlyStaging(start, volume.trail, from)
      invariant start.SameBut(Staging, volume.now)
      invariant ok ==> volume.now.staging == Some(Root(staged, map[])) && Writes(volume, i + 1)
      invariant ok ==> StageItems(staged, set_, items[i..], key) == all
      invariant !ok ==> all.Err? || !Writes(volume, |items| + 1)
      decreases |items| - i
    {
      assert items[i..][1..] == items[i + 1..];
      WritesMore(volume, i + 1);
      ok, staged := StageNext(volume, staged, set_, items[i..], key, i + 1);
      i := i + 1;
    }
  }

  /** The item loop, and what is checked on the staged tree after it. */
  method StageAll(volume: Volume, set_: Tree, items: seq<Item>, key: nat) returns (ok: bool, staged: Tree)
    requires volume.now.staging == Some(Root(map[], map[])) && !volume.Fails(WriteStaging, 0)
    modifies volume
    ensures old(volume.trail) <= volume.trail && OnlyStaging(old(volume.now), volume.trail, |old(volume.trail)|)
    ensures old(volume.now).SameBut(Staging, volume.now)
    ensures ok ==> StageSet(set_, items, key) == Ok(staged) && volume.now.staging == Some(Root(staged, map[]))
    ensures ok <==> StageSet(set_, items, key).Ok? && Writes(volume, |items| + 1)
  {
    ok, staged := StageEach(volume, set_, items, key);
    if ok {
      ok := items != [] && (HasSqlite(items) ==> GenerationAccepted(items, staged));
    }
  }

  function OptionTree(root: Option<Root>): Option<Tree> {
    if root.None? then None else Some(root.value.tree)
  }

  /** The run a set and a destination determine. */
  function RunOf(pre: Option<Root>, set_: Tree, items: seq<Item>, key: nat, hasFactory: bool): Option<Run> {
    var final := FinalTree(set_, items, key, OptionTree(pre));
    if final.Err? then None
    else Some(Run(pre, Root(final.value, map[]), if hasFactory then ManifestTables(items) else []))
  }

  /** The images of a run up to the point where the set is staged leave the destination alone; from
      then on they are crash safe. */
  predicate ImageSafe(image: Image, pre: Option<Root>, run: Option<Run>) {
    Untouched(image, pre) || (run.Some? && CrashSafe(image, run.value))
  }

  predicate AllImagesSafe(trail: seq<Image>, from: nat, pre: Option<Root>, run: Option<Run>) {
    forall k | from <= k < |trail| :: ImageSafe(trail[k], pre, run)
  }

  // ---- One restore ----

  /** Nothing fails between the written journal and its removal. */
  predicate Completes(volume: Volume, run: Run) {
    && !SwapFails(volume, run)
    && !volume.Fails(RecordCommit, 0) && !PersistFails(volume, run) && !volume.Fails(DropCommitted, 0)
  }

  /** Moving the original aside fails, and deleting staging then gets past its first entry. */
  predicate FailsToMoveAside(volume: Volume, run: Run) {
    && run.pre.Some? && run.staged.tree != map[]
    && volume.Fails(MoveAside, 0) && !volume.Fails(ClearUnmoved, 0)
  }

  /** Persisting the first table fails, and so does renaming the destination; deleting it gets past its
      first entry. */
  predicate FailsToPersist(volume: Volume, run: Run) {
    && !SwapFails(volume, run) && !volume.Fails(RecordCommit, 0)
    && run.tables != [] && run.staged.tree != map[]
    && volume.Fails(PersistTable, 0) && volume.Fails(SetFailed, 0) && !volume.Fails(ClearDest, 0)
  }

  /** Neither staging nor the original is left beside the destination. */
  predicate Tidy(image: Image) {
    image.staging.None? && image.aside.None?
  }

  /** From the written journal to the end of the inner try. */
  method SwapAndCommit(
    volume: Volume, lock: RestoreLock, tables: seq<TableTag>, hasFactory: bool, ghost run: Run, ghost from: nat
  ) returns (raised: bool, held: bool)
    requires volume.now == Journaled(run) && lock.volume == volume
    requires run.tables == if hasFactory then tables else []
    requires from <= |volume.trail| && AllSafe(volume.trail, from, run)
    modifies volume, lock
    ensures old(volume.trail) <= volume.trail && AllSafe(volume.trail, from, run)
    ensures CrashSafe(volume.now, run) && (held ==> volume.now.lock)
    ensures held == volume.now.journal.Some?
    ensures !raised ==> !held && volume.now.dest == Some(Target(run))
    ensures raised && !held ==> volume.now.dest == run.pre
    ensures raised <==> !Completes(volume, run)
    ensures held <==> Stuck(volume, run)
    ensures !held && volume.Clear(ClearUnswapped) && volume.Clear(ClearAside) ==> Tidy(volume.now)
    ensures !raised ==> Swapped(run) in volume.trail
    ensures FailsToMoveAside(volume, run) ==> SomeEntryGone(volume.trail, Journaled(run), Staging)
    ensures FailsToPersist(volume, run) ==> SomeEntryGone(volume.trail, Committing(run), Dest)
  {
    raised, held := Swap(volume, run, from);
    if raised {
      return;
    }
    raised, held := CommitWindow(volume, tables, hasFactory, run, from);
    ghost var seen := volume.trail;
    // The inner finally.
    if held {
      lock.Retain();
    } else {
      lock.Release(false);
      GoneExtends(seen, volume.trail, Committing(run), Dest);
    }
  }

  /** Up to the written journal. */
  method StageAndJournal(volume: Volume, set_: Tree, items: seq<Item>, key: nat, ghost run: Option<Run>)
    returns (ok: bool)
    requires volume.now.staging.None? && volume.now.aside.None? && volume.now.failed.None?
    requires volume.now.dest.Some? ==> WellFormed(volume.now.dest.value.tree)
    requires volume.now.lock && volume.now.journal.None?
    requires var final := FinalTree(set_, items, key, OptionTree(volume.now.dest));
             && (run.Some? <==> final.Ok?)
             && (run.Some? ==> run.value.pre == volume.now.dest && run.value.staged == Root(final.value, map[]))
    modifies volume
    ensures old(volume.trail) <= volume.trail
    ensures ok ==> run.Some? && volume.now == Journaled(run.value) && AllSafe(volume.trail, |old(volume.trail)|, run.value)
    ensures !ok ==> Untouched(volume.now, old(volume.now).dest)
                    && AllUntouched(volume.trail, |old(volume.trail)|, old(volume.now).dest)
    ensures ok <==> run.Some? && Writes(volume, StagingWrites(items, old(volume.now).dest.Some?))
                    && !volume.Fails(WriteJournal, 0)
    ensures !ok ==> volume.now.aside.None?
    ensures !ok && volume.Clear(ClearUnstaged) ==>
              volume.now.staging ==
              if run.Some? && Writes(volume, StagingWrites(items, old(volume.now).dest.Some?)) then Some(run.value.staged) else None
  {
    ghost var pre, from := volume.now.dest, |volume.trail|;
    var destExisted := volume.now.dest.Some?;
    ok := Stage(volume, set_, items, key);
    assert AllUntouched(volume.trail, from, pre) && Untouched(volume.now, pre);
    if ok {
      assert AllSafe(volume.trail, from, run.value);
      ok := volume.WriteJournalFile(Journal(JournalWritten, destExisted));
    }
  }

  /** The run once the lock is held and no journal was found: stage, journal, swap and commit. */
  method RestoreLocked(
    volume: Volume, lock: RestoreLock, set_: Tree, items: seq<Item>, key: nat, hasFactory: bool, ghost run: Option<Run>
  ) returns (raised: bool)
    requires volume.now.staging.None? && volume.now.aside.None? && volume.now.failed.None?
    requires volume.now.dest.Some? ==> WellFormed(volume.now.dest.value.tree)
    requires volume.now.lock && volume.now.journal.None? && lock.volume == volume
    requires run == RunOf(volume.now.dest, set_, items, key, hasFactory)
    modifies volume, lock
    ensures old(volume.trail) <= volume.trail
    ensures Concluded(volume.now, raised, old(volume.now).dest, run)
    ensures AllImagesSafe(volume.trail, |old(volume.trail)|, old(volume.now).dest, run)
    ensures volume.now.journal.None? && volume.Clear(RemoveLock) ==> !volume.now.lock
    ensures Decided(volume, items, run, volume.now, raised)
    ensures ClearsAll(volume) ==> TidyUnlessUnjournaled(volume, items, run, volume.now)
    ensures !raised ==> Swapped(run.value) in volume.trail
    ensures run.Some? && Staged(volume, items, run.value) ==> Reached(volume, volume.trail, run.value)
  {
    ghost var from := |volume.trail|;
    var ready := StageAndJournal(volume, set_, items, key, run);
    if !ready {
      lock.Release(true);
      return true;
    }
    raised := FinishRun(volume, lock, ManifestTables(items), hasFactory, run.value, from);
  }

  /** From the written journal to the end, with the outer finally. */
  method FinishRun(
    volume: Volume, lock: RestoreLock, tables: seq<TableTag>, hasFactory: bool, ghost run: Run, ghost from: nat
  ) returns (raised: bool)
    requires volume.now == Journaled(run) && lock.volume == volume
    requires run.tables == if hasFactory then tables else []
    requires from <= |volume.trail| && AllSafe(volume.trail, from, run)
    modifies volume, lock
    ensures old(volume.trail) <= volume.trail && AllSafe(volume.trail, from, run)
    ensures Concluded(volume.now, raised, run.pre, Some(run))
    ensures volume.now.journal.None? && volume.Clear(RemoveLock) ==> !volume.now.lock
    ensures !raised <==> Completes(volume, run)
    ensures volume.now.journal.Some? <==> Stuck(volume, run)
    ensures volume.now.journal.None? && ClearsAll(volume) ==> Tidy(volume.now)
    ensures !raised ==> Swapped(run) in volume.trail
    ensures Reached(volume, volume.trail, run)
  {
    var held;
    raised, held := SwapAndCommit(volume, lock, tables, hasFactory, run, from);
    ghost var seen := volume.trail;
    if held {
      lock.Retain();
    } else {
      lock.Release(true);
      GoneExtends(seen, volume.trail, Committing(run), Dest);
      GoneExtends(seen, volume.trail, Journaled(run), Staging);
    }
  }

  /** `restore_backup_set` after its read-only guards. The staging, aside and failed names carry
      fresh tokens, so nothing stands under them yet. */
  method RestoreBackupSet(
    volume: Volume, set_: Tree, items: seq<Item>, key: nat, hasFactory: bool
  ) returns (raised: bool)
    requires volume.now.staging.None? && volume.now.aside.None? && volume.now.failed.None?
    requires volume.now.dest.Some? ==> WellFormed(volume.now.dest.value.tree)
    modifies volume
    ensures old(volume.trail) <= volume.trail
    // An uncertain outcome blocks every later run.
    ensures old(volume.now).lock ==> raised && volume.now == old(volume.now)
    ensures old(volume.now).journal.Some? ==>
              raised && volume.now == old(volume.now).(lock := volume.now.lock)
    ensures !old(volume.now).lock && old(volume.now).journal.Some? ==>
              !volume.Fails(RemoveLock, 1) && !volume.Fails(WritePid, 0) ==> !volume.now.lock
    ensures !old(volume.now).lock && old(volume.now).journal.None? ==>
              var run := RunOf(old(volume.now).dest, set_, items, key, hasFactory);
              // The outcome, and the same at every disk image on the way.
              && Concluded(volume.now, raised, old(volume.now).dest, run)
              && AllImagesSafe(volume.trail, |old(volume.trail)|, old(volume.now).dest, run)
              && (volume.now.journal.None? && volume.Clear(RemoveLock) && !volume.Fails(WritePid, 0) ==> !volume.now.lock)
              && (LockTaken(volume) ==>
                    // Exactly which faults make a run raise, and which leave its journal.
                    && Decided(volume, items, run, volume.now, raised)
                    // What is left beside the destination.
                    && (ClearsAll(volume) ==> TidyUnlessUnjournaled(volume, items, run, volume.now))
                    // Images that are really reached.
                    && (run.Some? && Staged(volume, items, run.value) ==> Reached(volume, volume.trail, run.value)))
              && (!LockTaken(volume) ==> raised)
              && (!raised ==> Swapped(run.value) in volume.trail)
  {
    var lock := new RestoreLock(volume);
    var acquired := lock.Acquire();
    if !acquired {
      return true;
    }
    if volume.now.journal.Some? {
      lock.Release(true);
      return true;
    }
    raised := RestoreLocked(volume, lock, set_, items, key, hasFactory,
                            RunOf(volume.now.dest, set_, items, key, hasFactory));
  }

  /** How a run may end. */
  predicate Concluded(image: Image, raised: bool, pre: Option<Root>, run: Option<Run>) {
    && (run.None? ==> raised && image.journal.None?)
    && (!raised ==> image.journal.None? && image.dest == Some(Target(run.value)))
    && (raised && image.journal.None? ==> image.dest == pre)
    && (image.journal.Some? ==>
          && image.lock
          && (pre.Some? ==> image.aside == pre || (image.aside.None? && image.dest == pre)))
  }

  predicate LockTaken(volume: Volume) {
    !volume.Fails(CreateLock, 0) && !volume.Fails(WritePid, 0)
  }

  /** Nothing fails from the taken lock to the written journal. */
  predicate Staged(volume: Volume, items: seq<Item>, run: Run) {
    Writes(volume, StagingWrites(items, run.pre.Some?)) && !volume.Fails(WriteJournal, 0)
  }

  /** A run returns exactly when its set is accepted and no step fails that the outcome depends on; it
      ends with its journal exactly when the journal was written and the run is stuck. */
  predicate Decided(volume: Volume, items: seq<Item>, run: Option<Run>, image: Image, raised: bool) {
    && (!raised <==> run.Some? && Staged(volume, items, run.value) && Completes(volume, run.value))
    && (image.journal.Some? <==> run.Some? && Staged(volume, items, run.value) && Stuck(volume, run.value))
  }

  /** Every clean-up that ends a run gets through. */
  ghost predicate ClearsAll(volume: Volume) {
    volume.Clear(ClearUnstaged) && volume.Clear(ClearUnswapped) && volume.Clear(ClearAside)
  }

  /** Without a journal nothing is left beside the destination, except that a run whose journal cannot
      be written leaves the whole staged tree. */
  predicate TidyUnlessUnjournaled(volume: Volume, items: seq<Item>, run: Option<Run>, image: Image) {
    image.journal.None? ==>
      && image.aside.None?
      && image.staging ==
         if run.Some? && Writes(volume, StagingWrites(items, run.value.pre.Some?)) && volume.Fails(WriteJournal, 0)
         then Some(run.value.staged) else None
  }

  predicate Reached(volume: Volume, trail: seq<Image>, run: Run) {
    && (FailsToMoveAside(volume, run) ==> SomeEntryGone(trail, Journaled(run), Staging))
    && (FailsToPersist(volume, run) ==> SomeEntryGone(trail, Committing(run), Dest))
  }
}
