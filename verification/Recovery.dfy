/** What an operator does after a crash (docs/operations.md), and what that leads to. */
module Recovery {
  import opened Wrappers
  import opened Trees
  import opened BackupSets
  import opened StagedTrees
  import opened Disk
  import opened Restore

  // ---- Rolling back ----

  /** The documented roll-back, deciding by what is on disk: an aside tree goes back; without one, a
      destination that did not exist is deleted once staging has been consumed; otherwise the
      destination is left alone. */
  function RollBack(image: Image): Image
    requires image.journal.Some?
  {
    var dest :=
      if image.aside.Some? then image.aside
      else if !image.journal.value.destExisted && image.staging.None? then None
      else image.dest;
    Image(dest, None, None, image.failed, None, false)
  }

  /** The roll-back as the refusal message of the next run words it. */
  function RollBackByMessage(image: Image): Image
    requires image.journal.Some?
  {
    Image(if image.aside.Some? then image.aside else image.dest, None, None, image.failed, None, false)
  }

  /** Rolling back by the documentation recovers the original from every crash. */
  lemma RollBackRecovers(image: Image, pre: Option<Root>, run: Option<Run>)
    requires ImageSafe(image, pre, run) && (run.Some? ==> run.value.pre == pre) && image.journal.Some?
    ensures RollBack(image).dest == pre && Untouched(RollBack(image), pre) && !RollBack(image).lock
  {
  }

  /** Rolling back by the message recovers the original except when the destination was new and has
      already been put in place. */
  lemma MessageRecoversExactly(image: Image, run: Run)
    requires CrashSafe(image, run) && image.journal.Some?
    ensures RollBackByMessage(image).dest == run.pre <==>
            image.journal.value.destExisted || image.dest.None?
  {
  }

  // ---- Rolling forward ----

  /** The documented roll-forward: a staging tree takes the place of the destination; every table of
      the manifest is then served again; what is left beside the destination is deleted. */
  function RollForward(image: Image, tables: seq<TableTag>): Image
    requires image.journal.Some? && (image.staging.Some? || image.dest.Some?)
  {
    var root := if image.staging.Some? then image.staging.value else image.dest.value;
    Image(Some(ServeAll(root, tables)), None, None, image.failed, None, false)
  }

  predicate Forwards(image: Image, run: Run)
    requires image.journal.Some? && (image.staging.Some? || image.dest.Some?)
  {
    RollForward(image, run.tables).dest == Some(Target(run))
  }

  /** Rolling a staging tree forward gives the restored destination exactly when the tree is whole. */
  lemma StagingForwards(image: Image, run: Run)
    requires CrashSafe(image, run) && image.journal.Some? && image.staging.Some?
    ensures Forwards(image, run) <==> image.staging == Some(run.staged)
    ensures Cleared(image, run) ==> Forwards(image, run)
  {
    ServeAllServes(image.staging.value, run.tables);
    ServeAllServes(run.staged, run.tables);
  }

  /** Serving the tables again gives the restored destination exactly when no file is missing. */
  lemma ServingForwards(image: Image, run: Run)
    requires CrashSafe(image, run) && image.journal.Some? && image.staging.None? && image.dest.Some?
    requires Cleared(image, run)
    ensures Forwards(image, run) <==> image.dest.value.tree == run.staged.tree
    ensures !image.journal.value.phase.Commit? || run.tables == [] ==> Forwards(image, run)
  {
    var root := image.dest.value;
    ServeAllServes(root, run.tables);
    ServeAllServes(run.staged, run.tables);
    var n :| 0 <= n <= |run.tables| && root.served == ServeAll(run.staged, run.tables[..n]).served;
    ServeAllServes(run.staged, run.tables[..n]);
    if root.tree == run.staged.tree {
      assert root == ServeAll(run.staged, run.tables[..n]);
      ServeAllFinishes(run.staged, run.tables, n);
    }
  }

  lemma EntryGoneSafe(run: Run, p: Path)
    requires p in run.staged.tree
    ensures run.pre.Some? ==> CrashSafe(EntryGone(Journaled(run), Staging, p), run)
    ensures run.tables != [] ==> CrashSafe(EntryGone(Committing(run), Dest, p), run)
    ensures EntryGone(Journaled(run), Staging, p).staging != Some(run.staged)
    ensures EntryGone(Committing(run), Dest, p).dest.value.tree != run.staged.tree
  {
    assert p !in EntryGone(Journaled(run), Staging, p).staging.value.tree;
    assert p !in EntryGone(Committing(run), Dest, p).dest.value.tree;
    PartlyServedAtFirst(run);
  }

  /** The images with a journal and a staging directory that an operator cannot tell apart. */
  predicate ShowsStaging(image: Image, run: Run, asideThere: bool) {
    CrashSafe(image, run) && image.journal.Some? && image.staging.Some? && image.aside.Some? == asideThere
  }

  /** With a staging directory on disk, rolling forward is right after every crash that shows the same
      exactly when the original is seen aside or did not exist. */
  lemma StagedRollForwardExact(
    pre: Option<Root>, set_: Tree, items: seq<Item>, key: nat, hasFactory: bool, asideThere: bool
  )
    requires RunOf(pre, set_, items, key, hasFactory).Some?
    ensures var run := RunOf(pre, set_, items, key, hasFactory).value;
            (forall image | ShowsStaging(image, run, asideThere) :: Forwards(image, run))
            <==> asideThere || pre.None?
  {
    var run := RunOf(pre, set_, items, key, hasFactory).value;
    if asideThere || pre.None? {
      forall image | ShowsStaging(image, run, asideThere) ensures Forwards(image, run) {
        StagingForwards(image, run);
      }
    } else {
      StagesSomething(set_, items, key, OptionTree(pre));
      var p :| p in run.staged.tree;
      var image := EntryGone(Journaled(run), Staging, p);
      EntryGoneSafe(run, p);
      StagingForwards(image, run);
      assert ShowsStaging(image, run, asideThere);
    }
  }

  /** The images with a journal and a new destination in place that an operator cannot tell apart. */
  predicate ShowsSwap(image: Image, run: Run, committing: bool) {
    && CrashSafe(image, run) && image.journal.Some? && image.staging.None? && image.dest.Some?
    && Cleared(image, run) && image.journal.value.phase.Commit? == committing
  }

  /** With the swap done, serving the tables again is right after every crash that shows the same
      exactly when the commit had not begun or there is no table to serve: a ladder that has begun to
      delete the destination shows nothing different. */
  lemma SwappedRollForwardExact(
    pre: Option<Root>, set_: Tree, items: seq<Item>, key: nat, hasFactory: bool, committing: bool
  )
    requires RunOf(pre, set_, items, key, hasFactory).Some?
    ensures var run := RunOf(pre, set_, items, key, hasFactory).value;
            (forall image | ShowsSwap(image, run, committing) :: Forwards(image, run))
            <==> !committing || run.tables == []
  {
    var run := RunOf(pre, set_, items, key, hasFactory).value;
    if !committing || run.tables == [] {
      forall image | ShowsSwap(image, run, committing) ensures Forwards(image, run) {
        ServingForwards(image, run);
      }
    } else {
      StagesSomething(set_, items, key, OptionTree(pre));
      var p :| p in run.staged.tree;
      var image := EntryGone(Committing(run), Dest, p);
      EntryGoneSafe(run, p);
      ServingForwards(image, run);
      assert ShowsSwap(image, run, committing);
    }
  }

  // ---- Errors that need no recovery ----

  /** No step fails by which a failed run undoes what it did. */
  ghost predicate UndoesAll(volume: Volume, run: Run) {
    && !volume.Fails(UndoMoveAside, 0) && !volume.Fails(UndoMoveIn, 0) && !volume.Fails(DropUnswapped, 0)
    && (!volume.Fails(SetFailed, 0) || volume.Removes(ClearDest, |run.staged.tree|))
    && !volume.Fails(PutBack, 0) && !volume.Fails(DropRolledBack, 0)
  }

  /** A failed run of which no undoing step fails, and whose commit could be recorded and closed, has put
      everything back: no journal, and the destination as it was. */
  lemma FailedRunUndone(volume: Volume, items: seq<Item>, run: Run, image: Image, raised: bool)
    requires Decided(volume, items, Some(run), image, raised) && Concluded(image, raised, run.pre, Some(run))
    requires raised && UndoesAll(volume, run)
    requires !volume.Fails(RecordCommit, 0) && !volume.Fails(DropCommitted, 0)
    ensures image.journal.None? && image.dest == run.pre
  {
  }

  // ---- Any number of restores ----

  /** A restore that ended, or that the process did not survive, at the given disk image. */
  datatype Attempt = Attempt(set_: Tree, items: seq<Item>, key: nat, hasFactory: bool, image: Image)

  function AttemptRun(before: Option<Root>, a: Attempt): Option<Run> {
    RunOf(before, a.set_, a.items, a.key, a.hasFactory)
  }

  /** The destination once the attempt is over and any journal it left has been rolled back. */
  predicate Outcome(before: Option<Root>, a: Attempt, after: Option<Root>) {
    && ImageSafe(a.image, before, AttemptRun(before, a))
    && after == if a.image.journal.Some? then RollBack(a.image).dest else a.image.dest
  }

  /** Over any number of restores, cut short anywhere and rolled back as documented, the destination is
      always the original one or what some restore of the sequence had fully installed. */
  lemma {:induction false} DestinationNeverLost(dests: seq<Option<Root>>, attempts: seq<Attempt>, i: nat)
    requires |dests| == |attempts| + 1 && i < |dests|
    requires forall j | 0 <= j < |attempts| :: Outcome(dests[j], attempts[j], dests[j + 1])
    ensures dests[i] == dests[0] || exists j | 0 <= j < i :: InstalledBy(dests[j], attempts[j], dests[i])
  {
    if i > 0 {
      DestinationNeverLost(dests, attempts, i - 1);
      assert Outcome(dests[i - 1], attempts[i - 1], dests[i]);
      if dests[i] != dests[i - 1] {
        assert InstalledBy(dests[i - 1], attempts[i - 1], dests[i]);
      }
    }
  }

  predicate InstalledBy(before: Option<Root>, a: Attempt, after: Option<Root>) {
    AttemptRun(before, a).Some? && after == Some(Target(AttemptRun(before, a).value))
  }
}
