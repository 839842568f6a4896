/** Whole restores of a fresh backup set: what they serve, and faults that lead to the crash images and
    the destination on which the documented steps or the copy fall short. */
module Scenarios {
  import opened Wrappers
  import opened Trees
  import opened ManagedPaths
  import opened BackupSets
  import opened RoundTrip
  import opened StagedTrees
  import opened Disk
  import opened Restore
  import opened Recovery

  const EMPTY := Root(map[], map[])

  /** Into an absent or an empty destination a fresh set is always accepted, and all its tables are
      served. */
  lemma FreshRun(live: Live, key: nat, nonce: nat, pre: Option<Root>)
    requires LiveGood(live) && (pre.None? || pre == Some(EMPTY))
    ensures var run := RunOf(pre, SetOf(live, key, nonce), ManifestOf(live, key, nonce), key, true);
            && run.Some? && run.value.staged.tree != map[]
            && run.value.tables == if live.lancedb.Some? then live.tables else []
  {
    var set_, items := SetOf(live, key, nonce), ManifestOf(live, key, nonce);
    BackupRestores(live, key, nonce);
    ManifestTablesExact(live, key, nonce);
    if pre.Some? {
      var kept := Unmanaged(map[], ManagedRoots(items));
      assert kept == map[];
      NothingMoves(StageSet(set_, items, key).value, kept);
    }
    StagesSomething(set_, items, key, OptionTree(pre));
  }

  /** A restored deployment serves every table at the tag its backup gave it. */
  lemma RestoredTablesServed(live: Live, key: nat, nonce: nat, i: nat)
    requires LiveGood(live) && live.lancedb.Some? && DistinctTables(live.tables) && i < |live.tables|
    ensures var run := RunOf(None, SetOf(live, key, nonce), ManifestOf(live, key, nonce), key, true);
            run.Some? && ServedTag(Target(run.value), live.tables[i].table) == Some(live.tables[i].tag)
  {
    FreshRun(live, key, nonce, None);
    var run := RunOf(None, SetOf(live, key, nonce), ManifestOf(live, key, nonce), key, true).value;
    DistinctTablesServed(run.staged, live.tables, i);
  }

  lemma RunStagesSomething(pre: Option<Root>, set_: Tree, items: seq<Item>, key: nat)
    requires RunOf(pre, set_, items, key, true).Some?
    ensures RunOf(pre, set_, items, key, true).value.staged.tree != map[]
    ensures RunOf(pre, set_, items, key, true).value.tables == ManifestTables(items)
    ensures RunOf(pre, set_, items, key, true).value.pre == pre
  {
    StagesSomething(set_, items, key, OptionTree(pre));
  }

  /** Without any fault every accepted set is restored into an absent destination. On the way stands an
      image from which the roll-back of the message does not recover the absent destination. */
  method RestoreNewDestination(set_: Tree, items: seq<Item>, key: nat) returns (volume: Volume, ghost crash: Image)
    requires RunOf(None, set_, items, key, true).Some?
    ensures volume.now.dest == Some(Target(RunOf(None, set_, items, key, true).value))
    ensures volume.now.journal.None? && !volume.now.lock
    ensures crash in volume.trail && crash.journal.Some?
    ensures RollBackByMessage(crash).dest.Some? && RollBack(crash).dest == None
  {
    ghost var run := RunOf(None, set_, items, key, true).value;
    volume := new Volume(Image(None, None, None, None, None, false), {});
    var raised := RestoreBackupSet(volume, set_, items, key, true);
    crash := Swapped(run);
  }

  /** An existing destination cannot be moved aside. On the way stands an image with a journal and a
      staging directory from which rolling back recovers the original and rolling forward does not give
      the restored destination. */
  method FailToMoveAside(set_: Tree, items: seq<Item>, key: nat, pre: Root)
    returns (volume: Volume, ghost crash: Image)
    requires WellFormed(pre.tree) && RunOf(Some(pre), set_, items, key, true).Some?
    ensures crash in volume.trail && crash.journal.Some? && crash.staging.Some?
    ensures !Forwards(crash, RunOf(Some(pre), set_, items, key, true).value)
    ensures RollBack(crash).dest == Some(pre)
  {
    RunStagesSomething(Some(pre), set_, items, key);
    volume := new Volume(Image(Some(pre), None, None, None, None, false), {Fault(MoveAside, 0)});
    crash := RunUnmoved(volume, set_, items, key, RunOf(Some(pre), set_, items, key, true).value);
  }

  method RunUnmoved(volume: Volume, set_: Tree, items: seq<Item>, key: nat, ghost run: Run)
    returns (ghost crash: Image)
    requires volume.now == Image(run.pre, None, None, None, None, false) && volume.script == {Fault(MoveAside, 0)}
    requires run.pre.Some? && WellFormed(run.pre.value.tree) && run.staged.tree != map[]
    requires RunOf(run.pre, set_, items, key, true) == Some(run)
    modifies volume
    ensures crash in volume.trail && crash.journal.Some? && crash.staging.Some?
    ensures !Forwards(crash, run) && RollBack(crash).dest == run.pre
  {
    MoveFaults(volume, items, run);
    var raised := RestoreBackupSet(volume, set_, items, key, true);
    assert Reached(volume, volume.trail, run);
    crash := UnmovedCrash(volume.trail, run);
  }

  lemma MoveFaults(volume: Volume, items: seq<Item>, run: Run)
    requires volume.script == {Fault(MoveAside, 0)} && run.pre.Some? && run.staged.tree != map[]
    ensures Staged(volume, items, run) && LockTaken(volume) && FailsToMoveAside(volume, run)
  {
  }

  lemma UnmovedCrash(trail: seq<Image>, run: Run) returns (crash: Image)
    requires run.pre.Some? && SomeEntryGone(trail, Journaled(run), Staging)
    ensures crash in trail && crash.journal.Some? && crash.staging.Some?
    ensures !Forwards(crash, run) && RollBack(crash).dest == run.pre
  {
    var p :| p in run.staged.tree && EntryGone(Journaled(run), Staging, p) in trail;
    crash := EntryGone(Journaled(run), Staging, p);
    EntryGoneSafe(run, p);
    StagingForwards(crash, run);
  }

  /** The first table cannot be persisted, and the destination cannot be renamed. On the way stands an
      image of the commit phase from which rolling back recovers the original and serving the tables
      again does not give the restored destination. */
  method FailToPersist(set_: Tree, items: seq<Item>, key: nat, pre: Option<Root>)
    returns (volume: Volume, ghost crash: Image)
    requires pre.Some? ==> WellFormed(pre.value.tree)
    requires RunOf(pre, set_, items, key, true).Some? && ManifestTables(items) != []
    ensures crash in volume.trail && crash.journal.Some? && crash.journal.value.phase.Commit?
    ensures crash.staging.None? && crash.dest.Some?
    ensures !Forwards(crash, RunOf(pre, set_, items, key, true).value)
    ensures RollBack(crash).dest == pre
  {
    RunStagesSomething(pre, set_, items, key);
    volume := new Volume(Image(pre, None, None, None, None, false), {Fault(PersistTable, 0), Fault(SetFailed, 0)});
    crash := RunUnpersisted(volume, set_, items, key, RunOf(pre, set_, items, key, true).value);
  }

  method RunUnpersisted(volume: Volume, set_: Tree, items: seq<Item>, key: nat, ghost run: Run)
    returns (ghost crash: Image)
    requires volume.now == Image(run.pre, None, None, None, None, false)
    requires volume.script == {Fault(PersistTable, 0), Fault(SetFailed, 0)}
    requires run.pre.Some? ==> WellFormed(run.pre.value.tree)
    requires run.staged.tree != map[] && run.tables != []
    requires RunOf(run.pre, set_, items, key, true) == Some(run)
    modifies volume
    ensures crash in volume.trail && crash.journal.Some? && crash.journal.value.phase.Commit?
    ensures crash.staging.None? && crash.dest.Some?
    ensures !Forwards(crash, run) && RollBack(crash).dest == run.pre
  {
    PersistFaults(volume, items, run);
    var raised := RestoreBackupSet(volume, set_, items, key, true);
    assert Reached(volume, volume.trail, run);
    crash := UnpersistedCrash(volume.trail, run);
  }

  lemma PersistFaults(volume: Volume, items: seq<Item>, run: Run)
    requires volume.script == {Fault(PersistTable, 0), Fault(SetFailed, 0)}
    requires run.staged.tree != map[] && run.tables != []
    ensures Staged(volume, items, run) && LockTaken(volume) && FailsToPersist(volume, run)
  {
  }

  lemma UnpersistedCrash(trail: seq<Image>, run: Run) returns (crash: Image)
    requires run.tables != [] && SomeEntryGone(trail, Committing(run), Dest)
    ensures crash in trail && crash.journal.Some? && crash.journal.value.phase.Commit?
    ensures crash.staging.None? && crash.dest.Some?
    ensures !Forwards(crash, run) && RollBack(crash).dest == run.pre
  {
    var p :| p in run.staged.tree && EntryGone(Committing(run), Dest, p) in trail;
    crash := EntryGone(Committing(run), Dest, p);
    EntryGoneSafe(run, p);
    ServingForwards(crash, run);
  }

  /** A deployment with one vault. */
  function OneVault(name: string, tree: Tree): Live {
    Live("", map[], None, [], [(name, Some(tree))], None)
  }

  const VAULTS: Path := ["vaults"]

  lemma VaultsAbove(name: string)
    ensures |VAULTS| == 1 && VAULTS < VaultPath(name) && VAULTS != APP_DB && VAULTS[0] !in SIDECARS
  {
    assert APP_DB[0] != VAULTS[0];
  }

  /** A plain file named `vaults` in the destination does not survive the restore of a vault, although
      the set is accepted. */
  lemma FileNamedVaults(name: string, tree: Tree, key: nat, nonce: nat, content: Content)
    requires WellFormed(tree)
    ensures var live := OneVault(name, tree);
            var set_, items := SetOf(live, key, nonce), ManifestOf(live, key, nonce);
            var dest: Tree := map[VAULTS := File(content)];
            && WellFormed(dest) && StageSet(set_, items, key).Ok?
            && !NoFileInTheWay(items, dest) && !AllSurvives(set_, items, key, dest)
  {
    var live := OneVault(name, tree);
    OneVaultAccepted(name, tree, key, nonce);
    VaultsAbove(name);
    FileLost(SetOf(live, key, nonce), ManifestOf(live, key, nonce), key, VAULTS, VaultPath(name), content);
  }

  lemma FileLost(set_: Tree, items: seq<Item>, key: nat, p: Path, root: Path, content: Content)
    requires StageSet(set_, items, key).Ok? && ManagedRoots(items) == [APP_DB, root]
    requires |p| == 1 && p < root && p != APP_DB && p[0] !in SIDECARS
    ensures var dest: Tree := map[p := File(content)];
            WellFormed(dest) && !NoFileInTheWay(items, dest) && !AllSurvives(set_, items, key, dest)
  {
    OneFile(items, p, root, content);
    UnmanagedSurvivesExactly(set_, items, key, map[p := File(content)]);
  }

  lemma OneFile(items: seq<Item>, p: Path, root: Path, content: Content)
    requires ManagedRoots(items) == [APP_DB, root] && |p| == 1 && p < root && p != APP_DB && p[0] !in SIDECARS
    ensures WellFormed(map[p := File(content)]) && !NoFileInTheWay(items, map[p := File(content)])
  {
    FileInTheWay(items, map[p := File(content)], p, root);
  }

  lemma FileInTheWay(items: seq<Item>, dest: Tree, p: Path, root: Path)
    requires ManagedRoots(items) == [APP_DB, root] && p < root && !(APP_DB <= p)
    requires IsFile(dest, p) && !UnderSidecar(p)
    ensures !NoFileInTheWay(items, dest)
  {
    assert ManagedRoots(items)[1] == root;
    assert Partial(p, ManagedRoots(items));
  }

  lemma OneVaultAccepted(name: string, tree: Tree, key: nat, nonce: nat)
    requires WellFormed(tree)
    ensures var live := OneVault(name, tree);
            && StageSet(SetOf(live, key, nonce), ManifestOf(live, key, nonce), key).Ok?
            && ManagedRoots(ManifestOf(live, key, nonce)) == [APP_DB, VaultPath(name)]
  {
    var live := OneVault(name, tree);
    assert LiveGood(live);
    BackupRestores(live, key, nonce);
    OneVaultParts(name, tree);
    OnePartRoots(ManifestOf(live, key, nonce)[0], Part(Vault, VaultPath(name), tree), [], LatestGeneration(live.journal));
  }

  lemma OneVaultParts(name: string, tree: Tree)
    ensures Parts(OneVault(name, tree)) == [Part(Vault, VaultPath(name), tree)]
  {
    var vaults := OneVault(name, tree).vaults;
    assert vaults[1..] == [];
    assert VaultParts(vaults) == [Part(Vault, VaultPath(name), tree)] + [];
  }

  lemma OnePartRoots(sqlite: Item, part: Part, tables: seq<TableTag>, generation: Option<nat>)
    requires sqlite.SqliteItem? && part.path != []
    ensures ManagedRoots([sqlite] + PartItems([part], tables, generation)) == [APP_DB, part.path]
  {
    var item := PartItem(part, tables, generation);
    assert [part][1..] == [];
    assert PartItems([part], tables, generation) == [item];
    var items := [sqlite] + [item];
    assert items[1..] == [item] && [item][1..] == [];
    assert ManagedRoots([item]) == [part.path] + [];
  }
}
