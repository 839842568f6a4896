/** Backup table tags: who creates them, who releases them, and what stays pinned
    (scripts/backup_set.py, scripts/cleanup_backups.py). */
module TagLedger {
  import opened BackupSets

  const TAG_PREFIX := "backup-"

  datatype Manifest = Unusable | Usable(tags: seq<TableTag>)

  predicate IsBackupTag(tag: string) {
    TAG_PREFIX <= tag
  }

  /** `_manifest_tags`. */
  function Pairs(manifest: Manifest): set<TableTag> {
    if manifest.Unusable? then {} else set p | p in manifest.tags && IsBackupTag(p.tag)
  }

  /** The live store's tags, the finished sets in the backup directory, and the sets that some sweep
      has found expired. */
  datatype Ledger = Ledger(live: set<TableTag>, sets: map<string, Manifest>, expired: set<string>)

  // ---- What one run may do ----

  /** Random tokens make the tags of a run new everywhere. */
  ghost predicate Fresh(a: Ledger, tags: seq<TableTag>) {
    && (forall i | 0 <= i < |tags| ::
          IsBackupTag(tags[i].tag) && tags[i] !in a.live
          && forall s | s in a.sets :: tags[i] !in Pairs(a.sets[s]))
    && (forall i, j | 0 <= i < j < |tags| :: tags[i] != tags[j])
  }

  function Members(tags: seq<TableTag>): set<TableTag> {
    set t | t in tags
  }

  /** A backup that succeeds pins exactly its tags and lists its set; one that fails leaves the prior
      tags and those its rollback reports. */
  ghost predicate BackupStep(a: Ledger, b: Ledger, name: string, tags: seq<TableTag>, failed: bool, reported: set<TableTag>) {
    if failed then
      reported <= Members(tags) && b == a.(live := a.live + reported)
    else
      && name !in a.sets && reported == {}
      && b == Ledger(a.live + Members(tags), a.sets[name := Usable(tags)], a.expired - {name})
  }

  /** A sweep touches only expired sets: it releases tags of theirs alone, and lists a set no longer
      only once every tag of it is gone. */
  ghost predicate SweepStep(a: Ledger, b: Ledger, expired: set<string>) {
    && b.expired == a.expired + expired
    && b.live <= a.live
    && (forall t | t in a.live && t !in b.live :: exists s | s in expired && s in a.sets :: t in Pairs(a.sets[s]))
    && (forall s | s in b.sets :: s in a.sets && b.sets[s] == a.sets[s])
    && (forall s | s in a.sets && s !in b.sets :: s in expired && Pairs(a.sets[s]) !! b.live)
  }

  /** An orphan release takes away only backup tags that no listed set names. */
  ghost predicate ReleaseStep(a: Ledger, b: Ledger) {
    && b.sets == a.sets && b.expired == a.expired && b.live <= a.live
    && forall t | t in a.live && t !in b.live :: IsBackupTag(t.tag) && !Referenced(a.sets, t)
  }

  ghost predicate Step(a: Ledger, b: Ledger) {
    || (exists name, tags, failed, reported :: Fresh(a, tags) && BackupStep(a, b, name, tags, failed, reported))
    || (exists expired :: SweepStep(a, b, expired))
    || ReleaseStep(a, b)
  }

  /** A set names exactly those of its manifest's tags that begin with the prefix of backups. */
  lemma PairsExactly(tags: seq<TableTag>, t: TableTag)
    ensures t in Pairs(Usable(tags)) <==> t in tags && "backup-" <= t.tag
  {
  }

  /** A set of a run names every tag the run created. */
  lemma RunTagsNamed(token: string, tableNames: seq<string>)
    ensures Pairs(Usable(RunTags(token, tableNames))) == Members(RunTags(token, tableNames))
    ensures forall i | 0 <= i < |tableNames| ::
              RunTags(token, tableNames)[i] == TableTag(tableNames[i], "backup-" + token + "-" + tableNames[i])
  {
    forall t | t in RunTags(token, tableNames) ensures IsBackupTag(t.tag) {
      var i :| 0 <= i < |tableNames| && t == RunTags(token, tableNames)[i];
      assert t.tag == "backup-" + (token + "-" + tableNames[i]);
    }
  }

  // ---- What every run keeps ----

  /** Sets never found expired are usable and fully pinned, and no two sets share a tag. */
  ghost predicate Pinned(l: Ledger) {
    && (forall s | s in l.sets && s !in l.expired :: l.sets[s].Usable? && Pairs(l.sets[s]) <= l.live)
    && (forall s, r | s in l.sets && r in l.sets && s != r :: Pairs(l.sets[s]) !! Pairs(l.sets[r]))
  }

  lemma BackupKeepsPinned(a: Ledger, b: Ledger, name: string, tags: seq<TableTag>, failed: bool, reported: set<TableTag>)
    requires Pinned(a) && Fresh(a, tags) && BackupStep(a, b, name, tags, failed, reported)
    ensures Pinned(b)
  {
    if !failed {
      assert Pairs(b.sets[name]) <= Members(tags);
      forall s, r | s in b.sets && r in b.sets && s != r
        ensures Pairs(b.sets[s]) !! Pairs(b.sets[r])
      {
        if s == name {
          assert b.sets[r] == a.sets[r];
        } else if r == name {
          assert b.sets[s] == a.sets[s];
        }
      }
    }
  }

  lemma SweepKeepsPinned(a: Ledger, b: Ledger, expired: set<string>)
    requires Pinned(a) && SweepStep(a, b, expired)
    ensures Pinned(b)
  {
    forall s | s in b.sets && s !in b.expired
      ensures Pairs(b.sets[s]) <= b.live
    {
      forall r | r in expired && r in a.sets
        ensures Pairs(a.sets[r]) !! Pairs(b.sets[s])
      {
      }
      assert Pairs(b.sets[s]) <= a.live;
    }
  }

  lemma ReleaseKeepsPinned(a: Ledger, b: Ledger)
    requires Pinned(a) && ReleaseStep(a, b)
    ensures Pinned(b)
  {
    forall s | s in b.sets && s !in b.expired ensures Pairs(b.sets[s]) <= b.live {
      forall t | t in Pairs(b.sets[s]) ensures t in b.live {
        assert t in a.live && Referenced(a.sets, t);
      }
    }
  }

  lemma StepKeepsPinned(a: Ledger, b: Ledger)
    requires Pinned(a) && Step(a, b)
    ensures Pinned(b)
  {
    if exists name, tags, failed, reported :: Fresh(a, tags) && BackupStep(a, b, name, tags, failed, reported) {
      var name, tags, failed, reported :| Fresh(a, tags) && BackupStep(a, b, name, tags, failed, reported);
      BackupKeepsPinned(a, b, name, tags, failed, reported);
    } else if exists expired :: SweepStep(a, b, expired) {
      var expired :| SweepStep(a, b, expired);
      SweepKeepsPinned(a, b, expired);
    } else {
      ReleaseKeepsPinned(a, b);
    }
  }

  ghost predicate IsRun(run: seq<Ledger>) {
    run != [] && forall i | 0 <= i < |run| - 1 :: Step(run[i], run[i + 1])
  }

  lemma {:induction false} RunKeepsPinned(run: seq<Ledger>, i: nat)
    requires IsRun(run) && Pinned(run[0]) && i < |run|
    ensures Pinned(run[i])
  {
    if i > 0 {
      RunKeepsPinned(run, i - 1);
      StepKeepsPinned(run[i - 1], run[i]);
    }
  }

  /** Until some sweep finds a set expired, it stays listed, unchanged, with every tag live: through
      any number of further backups, failed backups, sweeps and orphan releases. */
  lemma {:induction false} UnexpiredSetStaysPinned(run: seq<Ledger>, i: nat, j: nat, s: string)
    requires IsRun(run) && Pinned(run[0]) && i <= j < |run|
    requires s in run[i].sets && forall k | i <= k <= j :: s !in run[k].expired
    ensures s in run[j].sets && run[j].sets[s] == run[i].sets[s]
    ensures Pairs(run[i].sets[s]) <= run[j].live
    decreases j - i
  {
    RunKeepsPinned(run, j);
    if i < j {
      UnexpiredSetStaysPinned(run, i, j - 1, s);
      var a, b := run[j - 1], run[j];
      assert Step(a, b);
    }
  }

  /** A set only ever leaves the directory with none of its tags left live. */
  lemma SetLeavesUnpinned(run: seq<Ledger>, i: nat, s: string)
    requires IsRun(run) && i + 1 < |run| && s in run[i].sets && s !in run[i + 1].sets
    ensures Pairs(run[i].sets[s]) !! run[i + 1].live && s in run[i + 1].expired
  {
    assert Step(run[i], run[i + 1]);
  }

  // ---- The programs ----

  /** The steps of a backup run that may fail: creating the i-th tag, anything from then to the rename
      into place, deleting the i-th created tag again, and deleting staging. */
  datatype BackupFault = CreateTag(i: nat) | FinishSet | RollBackTag(i: nat) | ClearStaging

  /** The steps of a sweep that may fail: releasing the i-th tag of a set, and deleting the set. */
  datatype SweepFault = Release(name: string, i: nat) | Remove(name: string)

  /** The releases of a set that matter all succeed. */
  predicate Releases(s: string, pairs: seq<TableTag>, tables: set<string>, faults: set<SweepFault>) {
    forall i | 0 <= i < |pairs| :: pairs[i].table in tables ==> Release(s, i) !in faults
  }

  /** An expired set that a sweep under these faults removes. */
  predicate Removable(s: string, manifest: Manifest, tables: set<string>, faults: set<SweepFault>) {
    manifest.Usable? && Releases(s, BackupPairs(manifest.tags), tables, faults) && Remove(s) !in faults
  }

  class BackupHost {
    var tables: set<string>
    var live: set<TableTag>
    var sets: map<string, Manifest>
    var staging: set<string>
    ghost var expired: set<string>

    ghost function State(): Ledger
      reads this
    {
      Ledger(live, sets, expired)
    }

    /** Tags live on tables that exist. */
    ghost predicate Valid()
      reads this
    {
      forall t | t in live :: t.table in tables
    }

    constructor ()
      ensures Valid() && State() == Ledger({}, map[], {}) && staging == {}
    {
      tables, live, sets, staging, expired := {}, {}, map[], {}, {};
    }

    /** `_rollback_tags`: best effort; the tags that survive are reported. */
    method RollBackTags(created: seq<TableTag>, faults: set<BackupFault>) returns (remaining: seq<TableTag>)
      requires Valid() && forall i, j | 0 <= i < j < |created| :: created[i] != created[j]
      modifies this`live
      ensures Valid()
      ensures Members(remaining) <= Members(created)
      ensures live == (old(live) - Members(created)) + (Members(remaining) * old(live))
      ensures forall i | 0 <= i < |created| :: created[i] in remaining <==> RollBackTag(i) in faults
    {
      remaining := [];
      for i := 0 to |created|
        invariant Valid()
        invariant Members(remaining) <= Members(created[..i])
        invariant live == (old(live) - Members(created[..i])) + (Members(remaining) * old(live))
        invariant forall k | 0 <= k < i :: created[k] in remaining <==> RollBackTag(k) in faults
      {
        assert Members(created[..i + 1]) == Members(created[..i]) + {created[i]};
        NotYet(created, i);
        assert created[i] !in Members(remaining);
        if RollBackTag(i) in faults {
          assert Members(remaining + [created[i]]) == Members(remaining) + {created[i]};
          remaining := remaining + [created[i]];
        } else {
          live := live - {created[i]};
        }
      }
      assert created[..|created|] == created;
    }

    /** `create_backup_set`: tag each table, copy, write the manifest, commit; any failure after the
        first tag rolls the tags back, and staging is kept as evidence when that fails too. */
    method CreateBackupSet(name: string, token: string, tableNames: seq<string>, faults: set<BackupFault>)
      returns (failed: bool, ghost tags: seq<TableTag>, reported: set<TableTag>)
      requires Valid() && forall i | 0 <= i < |tableNames| :: tableNames[i] in tables
      requires Fresh(State(), RunTags(token, tableNames)) && token !in staging
      modifies this`live, this`sets, this`staging, this`expired
      ensures Valid()
      ensures tags == RunTags(token, tableNames)
      ensures old(name in sets) ==> failed && reported == {} && State() == old(State())
      ensures BackupStep(old(State()), State(), name, tags, failed, reported)
      ensures staging ==
              if failed && name !in old(sets) && (reported != {} || ClearStaging in faults)
              then old(staging) + {token} else old(staging)
      ensures failed <==> name in old(sets) || FinishSet in faults || exists i | 0 <= i < |tableNames| :: CreateTag(i) in faults
      ensures forall i | 0 <= i < |tableNames| ::
                tags[i] in reported <==>
                && failed && name !in old(sets) && RollBackTag(i) in faults
                && forall k | 0 <= k <= i :: CreateTag(k) !in faults
    {
      tags := RunTags(token, tableNames);
      reported := {};
      if name in sets {
        return true, tags, reported;
      }
      staging := staging + {token};
      ghost var start := live;
      var created: seq<TableTag> := [];
      failed := false;
      var i := 0;
      while i < |tableNames| && !failed
        invariant 0 <= i <= |tableNames| && Valid()
        invariant created == tags[..i]
        invariant sets == old(sets) && expired == old(expired) && staging == old(staging) + {token}
        invariant live == start + Members(created)
        invariant forall k | 0 <= k < i :: CreateTag(k) !in faults
        invariant failed ==> i < |tableNames| && CreateTag(i) in faults
        decreases |tableNames| - i, !failed
      {
        if CreateTag(i) in faults {
          failed := true;
        } else {
          var tag := TableTag(tableNames[i], TagName(token, tableNames[i]));
          assert tags[..i + 1] == tags[..i] + [tag];
          assert Members(created + [tag]) == Members(created) + {tag};
          live := live + {tag};
          created := created + [tag];
          i := i + 1;
        }
      }
      // The copies, the manifest, and the rename into place.
      failed := failed || FinishSet in faults;
      if failed {
        FreshDisjoint(old(State()), tags, |created|);
        reported := FailBackup(token, created, faults, start);
        assert Members(created) <= Members(tags);
        forall k | 0 <= k < |tableNames|
          ensures tags[k] in reported <==> RollBackTag(k) in faults && forall m | 0 <= m <= k :: CreateTag(m) !in faults
        {
          if k < i {
            assert created[k] == tags[k];
          } else {
            NotCreated(tags, i, k);
          }
        }
      } else {
        assert created == tags;
        sets := sets[name := Usable(created)];
        expired := expired - {name};
        staging := staging - {token};
      }
    }

    /** `_fail_after_created_tags`. */
    method FailBackup(token: string, created: seq<TableTag>, faults: set<BackupFault>, ghost start: set<TableTag>)
      returns (reported: set<TableTag>)
      requires Valid() && live == start + Members(created) && Members(created) !! start && token in staging
      requires forall i, j | 0 <= i < j < |created| :: created[i] != created[j]
      modifies this`live, this`staging
      ensures Valid()
      ensures live == start + reported && reported <= Members(created)
      ensures reported != {} ==> staging == old(staging)
      ensures reported == {} ==> staging == if ClearStaging in faults then old(staging) else old(staging) - {token}
      ensures forall i | 0 <= i < |created| :: created[i] in reported <==> RollBackTag(i) in faults
    {
      var remaining := RollBackTags(created, faults);
      reported := set t | t in remaining;
      assert reported == Members(remaining);
      if remaining == [] && ClearStaging !in faults {
        staging := staging - {token};
      }
      assert remaining != [] ==> remaining[0] in reported;
    }

    /** `_release_tags`: stop at the first error that is not plain absence. */
    method ReleaseTags(s: string, pairs: seq<TableTag>, faults: set<SweepFault>) returns (ok: bool)
      requires Valid()
      modifies this`live
      ensures Valid()
      ensures old(live) - Members(pairs) <= live <= old(live)
      ensures ok ==> live == old(live) - Members(pairs)
      ensures ok <==> Releases(s, pairs, tables, faults)
    {
      ok := true;
      var i := 0;
      while i < |pairs| && ok
        invariant 0 <= i <= |pairs| && Valid()
        invariant old(live) - Members(pairs[..i]) <= live <= old(live)
        invariant ok ==> live == old(live) - Members(pairs[..i])
        invariant forall k | 0 <= k < i :: pairs[k].table in tables ==> Release(s, k) !in faults
        invariant !ok ==> !Releases(s, pairs, tables, faults)
        decreases |pairs| - i, ok
      {
        assert Members(pairs[..i + 1]) == Members(pairs[..i]) + {pairs[i]};
        assert Members(pairs[..i]) <= Members(pairs);
        if pairs[i].table !in tables {
          i := i + 1;
        } else if Release(s, i) in faults {
          ok := false;
        } else {
          // Absent tags are tolerated; present ones are deleted.
          live := live - {pairs[i]};
          i := i + 1;
        }
      }
      assert ok ==> pairs[..|pairs|] == pairs;
      assert Members(pairs[..i]) <= Members(pairs);
    }

    /** One expired set: release its tags, then remove it. */
    method SweepOne(s: string, faults: set<SweepFault>) returns (removed: bool)
      requires Valid() && s in sets
      modifies this`live, this`sets
      ensures Valid()
      ensures old(live) - Pairs(old(sets)[s]) <= live <= old(live)
      ensures sets == if removed then old(sets) - {s} else old(sets)
      ensures removed ==> Pairs(old(sets)[s]) !! live
      ensures removed <==> Removable(s, old(sets)[s], tables, faults)
    {
      removed := false;
      if sets[s].Unusable? {
        return;
      }
      var pairs := BackupPairs(sets[s].tags);
      var released := ReleaseTags(s, pairs, faults);
      if !released {
        return;
      }
      // The removal itself may fail; the set then stays, no longer pinned.
      if Remove(s) !in faults {
        sets := sets - {s};
        removed := true;
      }
    }

    /** The set part of `cleanup_backups`: of the expired sets exactly those are removed that are usable
        and whose release and removal do not fail. */
    method Sweep(old_: set<string>, faults: set<SweepFault>) returns (removed: set<string>)
      requires Valid()
      modifies this`live, this`sets, this`expired
      ensures Valid()
      ensures SweepStep(old(State()), State(), old_ * old(sets).Keys)
      ensures sets == old(sets) - removed
      ensures removed == set s | s in old_ && s in old(sets) && Removable(s, old(sets)[s], tables, faults)
    {
      removed := {};
      ghost var found := old_ * sets.Keys;
      ghost var a := State();
      expired := expired + found;
      var todo := set s | s in sets && s in old_;
      assert todo == found;
      while todo != {}
        invariant Valid() && todo <= found && removed <= found && todo !! removed
        invariant sets == old(sets) - removed
        invariant removed == set s | s in found && s !in todo && Removable(s, old(sets)[s], tables, faults)
        invariant SweepStep(a, State(), found)
        decreases todo
      {
        var s :| s in todo;
        ghost var before := State();
        var gone := SweepOne(s, faults);
        SweepAdvances(a, before, State(), found, s);
        if gone {
          removed := removed + {s};
        }
        todo := todo - {s};
      }
    }

    /** `_release_unreferenced_tags`: with every remaining manifest usable and no link skipped, delete
        the live backup tags no remaining set names, save those whose deletion fails. */
    method ReleaseUnreferencedTags(skippedLinks: bool, faults: set<TableTag>) returns (undeleted: set<TableTag>)
      requires Valid()
      modifies this`live
      ensures Valid()
      ensures skippedLinks || (exists s | s in sets :: sets[s].Unusable?) ==> live == old(live) && undeleted == {}
      ensures !skippedLinks && (forall s | s in sets :: sets[s].Usable?) ==>
                var orphans := set t | t in old(live) && IsBackupTag(t.tag) && !Referenced(sets, t);
                undeleted == orphans * faults && live == old(live) - (orphans - faults)
      ensures ReleaseStep(old(State()), State())
      ensures forall t | t in old(live) ::
                t in live <==>
                || skippedLinks || (exists s | s in sets :: sets[s].Unusable?)
                || !("backup-" <= t.tag) || (exists s | s in sets :: sets[s].Usable? && t in sets[s].tags)
                || t in faults
    {
      undeleted := {};
      if skippedLinks {
        return;
      }
      var referenced: set<TableTag> := {};
      var todo := sets.Keys;
      while todo != {}
        invariant todo <= sets.Keys
        invariant forall s | s in sets && s !in todo :: sets[s].Usable?
        invariant referenced == set s, t | s in sets && s !in todo && t in Pairs(sets[s]) :: t
        decreases todo
      {
        var s :| s in todo;
        if sets[s].Unusable? {
          return;
        }
        referenced := referenced + Pairs(sets[s]);
        todo := todo - {s};
      }
      var orphans := set t | t in live && IsBackupTag(t.tag) && t !in referenced;
      assert forall t :: t in referenced <==> Referenced(sets, t);
      ghost var all := orphans;
      while orphans != {}
        invariant orphans <= all && undeleted == (all - orphans) * faults && Valid()
        invariant live == old(live) - (all - orphans - faults)
        decreases orphans
      {
        var t :| t in orphans;
        if t in faults {
          undeleted := undeleted + {t};
        } else {
          live := live - {t};
        }
        orphans := orphans - {t};
      }
    }
  }

  predicate Referenced(sets: map<string, Manifest>, t: TableTag) {
    exists s | s in sets :: t in Pairs(sets[s])
  }

  function TagName(token: string, table: string): string {
    TAG_PREFIX + token + "-" + table
  }

  function RunTags(token: string, tableNames: seq<string>): seq<TableTag> {
    seq(|tableNames|, i requires 0 <= i < |tableNames| =>
          TableTag(tableNames[i], TagName(token, tableNames[i])))
  }

  function BackupPairs(tags: seq<TableTag>): (pairs: seq<TableTag>)
    ensures Members(pairs) == Pairs(Usable(tags))
  {
    if tags == [] then []
    else
      var rest := BackupPairs(tags[1..]);
      var head := if IsBackupTag(tags[0].tag) then [tags[0]] else [];
      assert forall t :: t in head + rest <==> t in head || t in rest;
      assert forall t :: t in tags <==> t == tags[0] || t in tags[1..];
      assert forall t :: t in rest <==> t in Pairs(Usable(tags[1..]));
      head + rest
  }

  lemma NotCreated(tags: seq<TableTag>, i: nat, k: nat)
    requires i <= k < |tags| && forall m, n | 0 <= m < n < |tags| :: tags[m] != tags[n]
    ensures tags[k] !in Members(tags[..i])
  {
    forall m | 0 <= m < i ensures tags[..i][m] != tags[k] {
      assert tags[..i][m] == tags[m];
    }
  }

  lemma NotYet(created: seq<TableTag>, i: nat)
    requires i < |created| && forall j, k | 0 <= j < k < |created| :: created[j] != created[k]
    ensures created[i] !in Members(created[..i])
  {
    forall k | 0 <= k < i ensures created[..i][k] != created[i] {
      assert created[..i][k] == created[k];
    }
  }

  lemma FreshDisjoint(a: Ledger, tags: seq<TableTag>, n: nat)
    requires Fresh(a, tags) && n <= |tags|
    ensures Members(tags[..n]) !! a.live
  {
  }

  lemma SweepAdvances(a: Ledger, b: Ledger, c: Ledger, found: set<string>, s: string)
    requires SweepStep(a, b, found) && s in found && s in b.sets && c.expired == b.expired
    requires b.live - Pairs(b.sets[s]) <= c.live <= b.live
    requires c.sets == b.sets || (c.sets == b.sets - {s} && Pairs(b.sets[s]) !! c.live)
    ensures SweepStep(a, c, found)
  {
    forall t | t in a.live && t !in c.live
      ensures exists r | r in found && r in a.sets :: t in Pairs(a.sets[r])
    {
      if t in b.live {
        assert t in Pairs(a.sets[s]);
      }
    }
  }
}
