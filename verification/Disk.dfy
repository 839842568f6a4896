/** The paths beside a restore destination, as one disk image, and the fallible steps on it.
    A step either happens whole or not at all; removing a tree is many steps. Every image a process
    death could leave behind is recorded in `trail`. */
module Disk {
  import opened Wrappers
  import opened Trees
  import opened BackupSets

  /** A directory: its files, and the generation each LanceDB table in it serves by a persisted
      checkout. */
  datatype Root = Root(tree: Tree, served: map<string, string>)

  datatype Phase = JournalWritten | AsideCreated | Commit

  datatype Journal = Journal(phase: Phase, destExisted: bool)

  datatype Slot = Dest | Staging | Aside | Failed

  datatype Image = Image(
    dest: Option<Root>,
    staging: Option<Root>,
    aside: Option<Root>,
    failed: Option<Root>,
    journal: Option<Journal>,
    lock: bool
  ) {
    function Get(slot: Slot): Option<Root> {
      match slot
      case Dest => dest
      case Staging => staging
      case Aside => aside
      case Failed => failed
    }

    function Put(slot: Slot, root: Option<Root>): Image {
      match slot
      case Dest => this.(dest := root)
      case Staging => this.(staging := root)
      case Aside => this.(aside := root)
      case Failed => this.(failed := root)
    }

    /** `other` differs at most in one slot. */
    predicate SameBut(slot: Slot, other: Image) {
      other == Put(slot, other.Get(slot))
    }

    /** `other` differs at most in having lost something in one slot. */
    predicate Shrinks(slot: Slot, other: Image) {
      SameBut(slot, other) && Shrunk(Get(slot), other.Get(slot))
    }
  }

  /** `part` is what a deletion of `whole` may have left. */
  predicate Shrunk(whole: Option<Root>, part: Option<Root>) {
    part.Some? ==>
      && whole.Some? && part.value.served == whole.value.served
      && forall p | p in part.value.tree :: p in whole.value.tree && part.value.tree[p] == whole.value.tree[p]
  }

  /** The image after the deletion of a slot has taken one entry. */
  function EntryGone(image: Image, slot: Slot, p: Path): Image
    requires image.Get(slot).Some?
  {
    var root := image.Get(slot).value;
    image.Put(slot, Some(root.(tree := root.tree - {p})))
  }

  predicate SomeEntryGone(trail: seq<Image>, image: Image, slot: Slot) {
    image.Get(slot).Some? && exists p | p in image.Get(slot).value.tree :: EntryGone(image, slot, p) in trail
  }

  predicate AllShrink(start: Image, slot: Slot, trail: seq<Image>, from: nat) {
    forall k | from <= k < |trail| :: start.Shrinks(slot, trail[k])
  }

  /** A deletion that began at `start` has come to `now`. */
  predicate Removing(start: Image, slot: Slot, trail: seq<Image>, from: nat, now: Image) {
    && AllShrink(start, slot, trail, from)
    && start.Shrinks(slot, now)
    && (now == start || (start.Get(slot).Some? && start.Get(slot).value.tree == map[])
        || SomeEntryGone(trail, start, slot))
  }

  /** A deletion that got past its first entry has shown that. */
  lemma RemovingEnds(start: Image, slot: Slot, trail: seq<Image>, from: nat, now: Image)
    requires Removing(start, slot, trail, from, now) && start.Get(slot).Some?
    requires now.Get(slot).None? || |now.Get(slot).value.tree| < |start.Get(slot).value.tree|
             || start.Get(slot).value.tree == map[]
    ensures AllShrink(start, slot, trail, from) && start.Shrinks(slot, now)
    ensures start.Get(slot).value.tree != map[] ==> SomeEntryGone(trail, start, slot)
  {
  }

  lemma ShrinksOn(start: Image, image: Image, slot: Slot, p: Path)
    requires start.Shrinks(slot, image) && image.Get(slot).Some? && p in image.Get(slot).value.tree
    ensures start.Shrinks(slot, EntryGone(image, slot, p))
    ensures |EntryGone(image, slot, p).Get(slot).value.tree| == |image.Get(slot).value.tree| - 1
  {
    var t := image.Get(slot).value.tree;
    assert (t - {p}).Keys == t.Keys - {p};
  }

  lemma EntryDropped(start: Image, slot: Slot, trail: seq<Image>, from: nat, image: Image, p: Path)
    requires from <= |trail| && Removing(start, slot, trail, from, image)
    requires image.Get(slot).Some? && p in image.Get(slot).value.tree
    requires start.Shrinks(slot, EntryGone(image, slot, p))
    ensures Removing(start, slot, trail + [EntryGone(image, slot, p)], from, EntryGone(image, slot, p))
  {
    var more := trail + [EntryGone(image, slot, p)];
    if image == start {
      assert more[|trail|] == EntryGone(start, slot, p);
    } else {
      GoneExtends(trail, more, start, slot);
    }
  }

  lemma RootDropped(start: Image, slot: Slot, trail: seq<Image>, from: nat, image: Image)
    requires from <= |trail| && Removing(start, slot, trail, from, image)
    requires image.Get(slot).Some? && image.Get(slot).value.tree == map[]
    ensures Removing(start, slot, trail + [image.Put(slot, None)], from, image.Put(slot, None))
  {
    GoneExtends(trail, trail + [image.Put(slot, None)], start, slot);
  }

  lemma GoneExtends(trail: seq<Image>, more: seq<Image>, image: Image, slot: Slot)
    requires trail <= more
    ensures SomeEntryGone(trail, image, slot) ==> SomeEntryGone(more, image, slot)
  {
    if SomeEntryGone(trail, image, slot) {
      var p :| p in image.Get(slot).value.tree && EntryGone(image, slot, p) in trail;
      var k :| 0 <= k < |trail| && trail[k] == EntryGone(image, slot, p);
      assert more[k] == EntryGone(image, slot, p);
    }
  }

  // ---- Faults ----

  /** The fallible calls of one restore. */
  datatype Place =
    | CreateLock | WritePid | RemoveLock
    | WriteStaging | ClearUnstaged | WriteJournal
    | MoveAside | ClearUnmoved | RecordAside | UndoMoveAside | ClearUnrecorded | DropUnrecorded
    | MoveIn | UndoMoveIn | DropUnswapped | ClearUnswapped
    | RecordCommit | PersistTable | SetFailed | ClearDest | PutBack | DropRolledBack
    | DropCommitted | ClearAside

  /** The `at`-th step at a place fails. */
  datatype Fault = Fault(place: Place, at: nat)

  class Volume {
    const script: set<Fault>
    var now: Image
    ghost var trail: seq<Image>

    constructor (image: Image, script: set<Fault>)
      ensures now == image && trail == [] && this.script == script
    {
      now := image;
      trail := [];
      this.script := script;
    }

    predicate Fails(place: Place, at: nat) {
      Fault(place, at) in script
    }

    /** No step at the place fails. */
    ghost predicate Clear(place: Place) {
      forall fault | fault in script :: fault.place != place
    }

    /** A deletion of a directory with `n` entries gets through. */
    predicate Removes(place: Place, n: nat) {
      forall k | 0 <= k <= n :: !Fails(place, k)
    }

    lemma RemovesAt(place: Place, k: nat, n: nat)
      requires k <= n && (forall m | 0 <= m < k :: !Fails(place, m)) && (Fails(place, k) || k == n)
      ensures Removes(place, n) <==> !Fails(place, k)
    {
    }

    method Record(next: Image)
      modifies this
      ensures now == next && trail == old(trail) + [next]
    {
      now := next;
      trail := trail + [next];
    }

    /** `os.rename` of a directory. */
    method Rename(from: Slot, to: Slot, place: Place) returns (ok: bool)
      modifies this
      ensures trail == old(trail) + [now]
      ensures ok <==> old(now).Get(from).Some? && old(now).Get(to).None? && !Fails(place, 0)
      ensures now == if ok then old(now).Put(to, old(now).Get(from)).Put(from, None) else old(now)
    {
      ok := now.Get(from).Some? && now.Get(to).None? && !Fails(place, 0);
      Record(if ok then now.Put(to, now.Get(from)).Put(from, None) else now);
    }

    /** `shutil.rmtree`: entry by entry, stopping at a fault. */
    method RemoveTree(slot: Slot, place: Place)
      modifies this
      ensures old(trail) <= trail && AllShrink(old(now), slot, trail, |old(trail)|)
      ensures old(now).Shrinks(slot, now)
      ensures old(now).Get(slot).None? ==> now == old(now)
      ensures old(now).Get(slot).Some? ==>
                (now.Get(slot).None? <==> Removes(place, |old(now).Get(slot).value.tree|))
      ensures old(now).Get(slot).Some? && old(now).Get(slot).value.tree != map[] && !Fails(place, 0) ==>
                SomeEntryGone(trail, old(now), slot)
    {
      if now.Get(slot).None? || Fails(place, 0) {
        return;
      }
      RemoveEntries(slot, place);
    }

    /** The deletion gets past its first step. */
    method RemoveEntries(slot: Slot, place: Place)
      requires now.Get(slot).Some? && !Fails(place, 0)
      modifies this
      ensures old(trail) <= trail && AllShrink(old(now), slot, trail, |old(trail)|)
      ensures old(now).Shrinks(slot, now)
      ensures now.Get(slot).None? <==> Removes(place, |old(now).Get(slot).value.tree|)
      ensures old(now).Get(slot).value.tree != map[] ==> SomeEntryGone(trail, old(now), slot)
    {
      ghost var start, from := now, |trail|;
      var k := DropEntries(slot, place, start, from);
      RemovesAt(place, k, |start.Get(slot).value.tree|);
      if !Fails(place, k) {
        DropRoot(slot, start, from);
      }
      RemovingEnds(start, slot, trail, from, now);
    }

    /** The entries go one by one, up to a fault at step `k`. */
    method DropEntries(slot: Slot, place: Place, ghost start: Image, ghost from: nat) returns (k: nat)
      requires now == start && now.Get(slot).Some? && from == |trail| && !Fails(place, 0)
      modifies this
      ensures old(trail) <= trail && from <= |trail| && now.Get(slot).Some? && Removing(start, slot, trail, from, now)
      ensures k + |now.Get(slot).value.tree| == |start.Get(slot).value.tree|
      ensures forall m | 0 <= m < k :: !Fails(place, m)
      ensures Fails(place, k) || now.Get(slot).value.tree == map[]
      ensures k > 0 || now.Get(slot).value.tree == map[]
    {
      k := 0;
      while now.Get(slot).value.tree != map[] && !Fails(place, k)
        invariant from <= |trail| && old(trail) <= trail
        invariant now.Get(slot).Some? && Removing(start, slot, trail, from, now)
        invariant k + |now.Get(slot).value.tree| == |start.Get(slot).value.tree|
        invariant forall m | 0 <= m < k :: !Fails(place, m)
        decreases |now.Get(slot).value.tree|
      {
        DropEntry(slot, start, from);
        k := k + 1;
      }
    }

    /** One entry of a directory is deleted. */
    method DropEntry(slot: Slot, ghost start: Image, ghost from: nat)
      requires now.Get(slot).Some? && now.Get(slot).value.tree != map[]
      requires from <= |trail| && Removing(start, slot, trail, from, now)
      modifies this
      ensures |trail| == |old(trail)| + 1 && old(trail) <= trail
      ensures now.Get(slot).Some? && Removing(start, slot, trail, from, now)
      ensures |now.Get(slot).value.tree| == |old(now).Get(slot).value.tree| - 1
    {
      var root := now.Get(slot).value;
      var p :| p in root.tree;
      ghost var before, seen := now, trail;
      Record(now.Put(slot, Some(root.(tree := root.tree - {p}))));
      ShrinksOn(start, before, slot, p);
      EntryDropped(start, slot, seen, from, before, p);
    }

    /** The emptied directory itself is deleted. */
    method DropRoot(slot: Slot, ghost start: Image, ghost from: nat)
      requires from <= |trail| && Removing(start, slot, trail, from, now)
      requires now.Get(slot).Some? && now.Get(slot).value.tree == map[]
      modifies this
      ensures |trail| == |old(trail)| + 1 && old(trail) <= trail
      ensures now.Get(slot).None? && Removing(start, slot, trail, from, now)
    {
      ghost var before, seen := now, trail;
      Record(now.Put(slot, None));
      RootDropped(start, slot, seen, from, before);
    }

    /** Whatever a write step leaves under a slot. */
    method Write(slot: Slot, root: Root, place: Place, at: nat) returns (ok: bool)
      modifies this
      ensures old(trail) <= trail
      ensures forall k | |old(trail)| <= k < |trail| :: old(now).SameBut(slot, trail[k])
      ensures old(now).SameBut(slot, now)
      ensures ok <==> !Fails(place, at)
      ensures ok ==> now == old(now).Put(slot, Some(root))
    {
      ok := !Fails(place, at);
      var partial: Tree := *;
      Record(now.Put(slot, Some(Root(partial, map[]))));
      if ok {
        Record(now.Put(slot, Some(root)));
      }
    }

    /** `_write_journal`: a temporary file renamed into place. */
    method WriteJournalFile(journal: Journal) returns (ok: bool)
      modifies this
      ensures trail == old(trail) + [now]
      ensures ok <==> !Fails(WriteJournal, 0)
      ensures now == if ok then old(now).(journal := Some(journal)) else old(now)
    {
      ok := !Fails(WriteJournal, 0);
      Record(if ok then now.(journal := Some(journal)) else now);
    }

    /** `_update_journal_phase`. */
    method UpdatePhase(phase: Phase, place: Place) returns (ok: bool)
      requires now.journal.Some?
      modifies this
      ensures trail == old(trail) + [now]
      ensures ok <==> !Fails(place, 0)
      ensures now == if ok then old(now).(journal := Some(old(now).journal.value.(phase := phase))) else old(now)
    {
      ok := !Fails(place, 0);
      Record(if ok then now.(journal := Some(now.journal.value.(phase := phase))) else now);
    }

    /** `journal.unlink(missing_ok=True)`. */
    method UnlinkJournal(place: Place) returns (ok: bool)
      modifies this
      ensures trail == old(trail) + [now]
      ensures ok <==> !Fails(place, 0)
      ensures now == if ok then old(now).(journal := None) else old(now)
    {
      ok := !Fails(place, 0);
      Record(if ok then now.(journal := None) else now);
    }

    /** `table.checkout(tag)` and `table.restore()` on a table under the destination. */
    method Persist(entry: TableTag, at: nat) returns (ok: bool)
      requires now.dest.Some?
      modifies this
      ensures trail == old(trail) + [now]
      ensures ok <==> !Fails(PersistTable, at)
      ensures now == if ok then old(now).(dest := Some(Serve(old(now).dest.value, entry))) else old(now)
    {
      ok := !Fails(PersistTable, at);
      Record(if ok then now.(dest := Some(Serve(now.dest.value, entry))) else now);
    }
  }

  // ---- What serving a sequence of tables amounts to ----

  function Serve(root: Root, entry: TableTag): Root {
    root.(served := root.served[entry.table := entry.tag])
  }

  function ServeAll(root: Root, entries: seq<TableTag>): Root
    decreases |entries|
  {
    if entries == [] then root
    else Serve(ServeAll(root, entries[..|entries| - 1]), entries[|entries| - 1])
  }

  /** The tag of the last entry for a table. */
  function LastTag(entries: seq<TableTag>, table: string): Option<string>
    decreases |entries|
  {
    if entries == [] then None
    else
      var last := entries[|entries| - 1];
      if last.table == table then Some(last.tag) else LastTag(entries[..|entries| - 1], table)
  }

  function ServedTag(root: Root, table: string): Option<string> {
    if table in root.served then Some(root.served[table]) else None
  }

  /** Every table serves the tag of its last entry, and without one what it served before; the files
      do not change. */
  lemma {:induction false} ServeAllServes(root: Root, entries: seq<TableTag>)
    ensures ServeAll(root, entries).tree == root.tree
    ensures forall table :: ServedTag(ServeAll(root, entries), table) ==
              if LastTag(entries, table).Some? then LastTag(entries, table) else ServedTag(root, table)
    decreases |entries|
  {
    if entries != [] {
      ServeAllServes(root, entries[..|entries| - 1]);
    }
  }

  predicate DistinctTables(entries: seq<TableTag>) {
    forall i, j | 0 <= i < j < |entries| :: entries[i].table != entries[j].table
  }

  /** With one entry a table, every entry is served. */
  lemma {:induction false} DistinctTablesServed(root: Root, entries: seq<TableTag>, i: nat)
    requires DistinctTables(entries) && i < |entries|
    ensures ServedTag(ServeAll(root, entries), entries[i].table) == Some(entries[i].tag)
    decreases |entries|
  {
    if i < |entries| - 1 {
      var init := entries[..|entries| - 1];
      assert init[i] == entries[i];
      DistinctTablesServed(root, init, i);
    }
  }

  lemma {:induction false} LastTagOfPrefix(entries: seq<TableTag>, n: nat, table: string)
    requires n <= |entries| && LastTag(entries[..n], table).Some?
    ensures LastTag(entries, table).Some?
    decreases |entries|
  {
    if n == |entries| {
      assert entries[..n] == entries;
    } else {
      assert entries[..|entries| - 1][..n] == entries[..n];
      LastTagOfPrefix(entries[..|entries| - 1], n, table);
    }
  }

  lemma SameServed(a: Root, b: Root)
    requires a.tree == b.tree && forall table :: ServedTag(a, table) == ServedTag(b, table)
    ensures a == b
  {
    forall table
      ensures table in a.served <==> table in b.served
      ensures table in a.served ==> a.served[table] == b.served[table]
    {
      assert ServedTag(a, table) == ServedTag(b, table);
    }
    assert a.served == b.served;
  }

  /** Serving all tables again finishes what a cut-short serving began. */
  lemma ServeAllFinishes(root: Root, entries: seq<TableTag>, n: nat)
    requires n <= |entries|
    ensures ServeAll(ServeAll(root, entries[..n]), entries) == ServeAll(root, entries)
  {
    var part := ServeAll(root, entries[..n]);
    ServeAllServes(root, entries[..n]);
    ServeAllServes(part, entries);
    ServeAllServes(root, entries);
    forall table ensures ServedTag(ServeAll(part, entries), table) == ServedTag(ServeAll(root, entries), table) {
      if LastTag(entries[..n], table).Some? {
        LastTagOfPrefix(entries, n, table);
      }
    }
    SameServed(ServeAll(part, entries), ServeAll(root, entries));
  }
}
