/** The tree a restore swaps in: the verified set plus the destination content it does not own. */
module StagedTrees {
  import opened Wrappers
  import opened Trees
  import opened ManagedPaths
  import opened BackupSets

  /** Where `copy2` puts a file aimed at `p`: inside, when `p` is already a staged directory. */
  function Landing(staged: Tree, p: Path): Path
    requires p != []
  {
    if IsDir(staged, p) then p + [p[|p| - 1]] else p
  }

  /** A surviving file stands where the set has a directory. */
  predicate Clashes(staged: Tree, kept: Tree, p: Path) {
    IsFile(kept, p) && IsDir(staged, p)
  }

  /** The kept entries that are copied to their own place. */
  function InPlace(staged: Tree, kept: Tree): Tree {
    map p | p in kept && !Clashes(staged, kept, p) :: kept[p]
  }

  /** The kept files that land inside a staged directory instead. */
  function Moved(staged: Tree, kept: Tree): Tree {
    var places := set p | p in kept && p != [] && Clashes(staged, kept, p) :: Landing(staged, p);
    map q | q in places && q != [] && q[..|q| - 1] in kept :: kept[q[..|q| - 1]]
  }

  /** `kept` copied over `staged`. */
  function CopyOver(staged: Tree, kept: Tree): Result<Tree, Refusal> {
    if exists q | q in Moved(staged, kept) :: q in staged then Err(Collision)
    else Ok(staged + InPlace(staged, kept) + Moved(staged, kept))
  }

  /** Verification, staging and the copy of unmanaged content. */
  function FinalTree(set_: Tree, items: seq<Item>, key: nat, dest: Option<Tree>): Result<Tree, Refusal> {
    var staged := StageSet(set_, items, key);
    if staged.Err? || dest.None? then staged
    else CopyOver(staged.value, Unmanaged(dest.value, ManagedRoots(items)))
  }

  // ---- The set stays inside its managed roots ----

  /** Every staged entry is covered by a root or is a directory above one. */
  ghost predicate InsideRoots(t: Tree, roots: seq<Path>) {
    forall q | q in t :: Covered(q, roots) || (t[q].Dir? && Partial(q, roots))
  }

  lemma {:induction false} RootListed(items: seq<Item>, i: nat)
    requires i < |items| && items[i].path != []
    ensures (if items[i].SqliteItem? then APP_DB else items[i].path) in ManagedRoots(items)
    decreases |items|
  {
    if i > 0 {
      RootListed(items[1..], i - 1);
    }
  }

  lemma GraftInside(t: Tree, at: Path, s: Tree, roots: seq<Path>)
    requires InsideRoots(t, roots) && at in roots
    ensures InsideRoots(Graft(t, at, s), roots)
  {
    var i :| 0 <= i < |roots| && roots[i] == at;
    var g := Graft(t, at, s);
    forall q | q in g ensures Covered(q, roots) || (g[q].Dir? && Partial(q, roots)) {
      if q in Shifted(at, s) {
        assert roots[i] <= q;
      } else if q in Chain(at) {
        assert roots[i] <= q || q < roots[i];
      }
    }
  }

  lemma StageItemInside(staged: Tree, set_: Tree, item: Item, key: nat, roots: seq<Path>)
    requires InsideRoots(staged, roots) && StageItem(staged, set_, item, key).Ok?
    requires (if item.SqliteItem? then APP_DB else item.path) in roots
    ensures InsideRoots(StageItem(staged, set_, item, key).value, roots)
  {
    match item
    case SqliteItem(_, _) =>
      var i :| 0 <= i < |roots| && roots[i] == APP_DB;
      assert roots[i] <= APP_DB;
    case TreeItem(_, path, files, _, dirs, _, _) =>
      if files == map[] {
        GraftInside(staged, path, Skeleton(dirs), roots);
      } else {
        GraftInside(staged, path, Sub(set_, path), roots);
      }
    case UnknownItem(_) =>
  }

  lemma {:induction false} StageItemsInside(staged: Tree, set_: Tree, items: seq<Item>, key: nat, roots: seq<Path>)
    requires InsideRoots(staged, roots) && StageItems(staged, set_, items, key).Ok?
    requires forall i | 0 <= i < |items| ::
               items[i].path != [] ==> (if items[i].SqliteItem? then APP_DB else items[i].path) in roots
    ensures InsideRoots(StageItems(staged, set_, items, key).value, roots)
    decreases |items|
  {
    if items != [] {
      var next := StageItem(staged, set_, items[0], key);
      StageItemInside(staged, set_, items[0], key, roots);
      assert forall i | 0 <= i < |items| - 1 :: items[1..][i] == items[i + 1];
      StageItemsInside(next.value, set_, items[1..], key, roots);
    }
  }

  /** A set only ever stages what lies in or above its managed roots. */
  lemma StageSetInside(set_: Tree, items: seq<Item>, key: nat)
    requires StageSet(set_, items, key).Ok?
    ensures InsideRoots(StageSet(set_, items, key).value, ManagedRoots(items))
  {
    forall i | 0 <= i < |items| && items[i].path != []
      ensures (if items[i].SqliteItem? then APP_DB else items[i].path) in ManagedRoots(items)
    {
      RootListed(items, i);
    }
    StageItemsInside(map[], set_, items, key, ManagedRoots(items));
  }

  /** Owned and surviving content meet only where a surviving file stands above a managed root. */
  lemma MeetOnlyInClashes(staged: Tree, dest: Tree, roots: seq<Path>, p: Path)
    requires InsideRoots(staged, roots) && p in staged && p in Unmanaged(dest, roots)
    ensures Clashes(staged, Unmanaged(dest, roots), p) && Partial(p, roots)
  {
  }

  // ---- Every directory above a managed root is staged ----

  /** The directory `path` and those above it are in `t`. */
  predicate ChainStaged(t: Tree, path: Path) {
    forall q | q in Chain(path) :: IsDir(t, q)
  }

  lemma StageItemKeepsChain(t: Tree, set_: Tree, item: Item, key: nat, path: Path)
    requires StageItem(t, set_, item, key).Ok?
    requires ChainStaged(t, path) || (item.TreeItem? && item.path == path)
    ensures ChainStaged(StageItem(t, set_, item, key).value, path)
  {
    if item.TreeItem? {
      var s := if item.files == map[] then Skeleton(item.dirs) else Sub(set_, item.path);
      var g := Graft(t, item.path, s);
      forall q | q in Chain(path) ensures IsDir(g, q) {
        if q in Shifted(item.path, s) {
          assert q[|item.path|..] != [] && item.path < q;
          assert item.path in Chain(path);
        }
      }
    }
  }

  lemma {:induction false} ChainsStaged(t: Tree, set_: Tree, items: seq<Item>, key: nat, path: Path)
    requires StageItems(t, set_, items, key).Ok?
    requires ChainStaged(t, path) || exists i | 0 <= i < |items| :: items[i].TreeItem? && items[i].path == path
    ensures ChainStaged(StageItems(t, set_, items, key).value, path)
    decreases |items|
  {
    if items != [] {
      var next := StageItem(t, set_, items[0], key).value;
      if ChainStaged(t, path) || (items[0].TreeItem? && items[0].path == path) {
        StageItemKeepsChain(t, set_, items[0], key, path);
      } else {
        var i :| 0 <= i < |items| && items[i].TreeItem? && items[i].path == path;
        assert items[1..][i - 1] == items[i];
      }
      ChainsStaged(next, set_, items[1..], key, path);
    }
  }

  lemma {:induction false} RootHasItem(items: seq<Item>, root: Path) returns (i: nat)
    requires root in ManagedRoots(items) && root != APP_DB
    requires forall k | 0 <= k < |items| :: !items[k].UnknownItem?
    ensures i < |items| && items[i].TreeItem? && items[i].path == root
    decreases |items|
  {
    if items[0].TreeItem? && items[0].path == root {
      i := 0;
    } else {
      i := RootHasItem(items[1..], root);
      i := i + 1;
    }
  }

  lemma {:induction false} NoUnknownItems(t: Tree, set_: Tree, items: seq<Item>, key: nat)
    requires StageItems(t, set_, items, key).Ok?
    ensures forall k | 0 <= k < |items| :: !items[k].UnknownItem?
    decreases |items|
  {
    if items != [] {
      NoUnknownItems(StageItem(t, set_, items[0], key).value, set_, items[1..], key);
      assert forall k | 0 < k < |items| :: items[k] == items[1..][k - 1];
    }
  }

  lemma AncestorsStaged(set_: Tree, items: seq<Item>, key: nat, p: Path)
    requires StageSet(set_, items, key).Ok? && p != [] && Partial(p, ManagedRoots(items))
    ensures IsDir(StageSet(set_, items, key).value, p)
  {
    var roots := ManagedRoots(items);
    var k :| 0 <= k < |roots| && p < roots[k];
    NoUnknownItems(map[], set_, items, key);
    var i := RootHasItem(items, roots[k]);
    ChainsStaged(map[], set_, items, key, roots[k]);
    assert p in Chain(roots[k]);
  }

  // ---- What survives ----

  /** No unmanaged file of the destination stands above a managed root. */
  predicate NoFileInTheWay(items: seq<Item>, dest: Tree) {
    forall p | p in dest && dest[p].File? && Kept(p, ManagedRoots(items)) :: !Partial(p, ManagedRoots(items))
  }

  /** The final tree holds everything staged as verified, and everything unmanaged as it was. */
  ghost predicate AllSurvives(set_: Tree, items: seq<Item>, key: nat, dest: Tree)
    requires StageSet(set_, items, key).Ok?
  {
    var staged, kept := StageSet(set_, items, key).value, Unmanaged(dest, ManagedRoots(items));
    var final := FinalTree(set_, items, key, Some(dest));
    && final.Ok?
    && (forall p | p in staged :: p in final.value && final.value[p] == staged[p])
    && (forall p | p in kept :: p in final.value && final.value[p] == kept[p])
  }

  /** All of the set and all unmanaged content survive exactly when no unmanaged file stands above a
      managed root; the final tree is then the two together and nothing else. */
  lemma UnmanagedSurvivesExactly(set_: Tree, items: seq<Item>, key: nat, dest: Tree)
    requires StageSet(set_, items, key).Ok? && WellFormed(dest)
    ensures AllSurvives(set_, items, key, dest) <==> NoFileInTheWay(items, dest)
    ensures NoFileInTheWay(items, dest) ==>
              FinalTree(set_, items, key, Some(dest))
              == Ok(StageSet(set_, items, key).value + Unmanaged(dest, ManagedRoots(items)))
  {
    var roots := ManagedRoots(items);
    var staged, kept := StageSet(set_, items, key).value, Unmanaged(dest, roots);
    StageSetInside(set_, items, key);
    if NoFileInTheWay(items, dest) {
      forall p | p in kept ensures p !in staged {
        if p in staged {
          MeetOnlyInClashes(staged, dest, roots, p);
        }
      }
      NothingMoves(staged, kept);
    } else {
      var p :| p in dest && dest[p].File? && Kept(p, roots) && Partial(p, roots);
      AncestorsStaged(set_, items, key, p);
      if CopyOver(staged, kept).Ok? {
        ClashingFileMoves(staged, kept, p);
      }
    }
  }

  /** An accepted set stages something. */
  lemma StagesSomething(set_: Tree, items: seq<Item>, key: nat, dest: Option<Tree>)
    requires FinalTree(set_, items, key, dest).Ok?
    ensures FinalTree(set_, items, key, dest).value != map[]
  {
    var staged := StageSet(set_, items, key).value;
    var next := StageItem(map[], set_, items[0], key).value;
    var p := if items[0].SqliteItem? then APP_DB else items[0].path;
    assert p in next;
    StagedStays(next, set_, items[1..], key, p);
    assert p in FinalTree(set_, items, key, dest).value;
  }

  lemma {:induction false} StagedStays(t: Tree, set_: Tree, items: seq<Item>, key: nat, p: Path)
    requires StageItems(t, set_, items, key).Ok? && p in t
    ensures p in StageItems(t, set_, items, key).value
    decreases |items|
  {
    if items != [] {
      StagedStays(StageItem(t, set_, items[0], key).value, set_, items[1..], key, p);
    }
  }

  lemma NothingMoves(staged: Tree, kept: Tree)
    requires forall p | p in kept :: !Clashes(staged, kept, p)
    ensures CopyOver(staged, kept) == Ok(staged + kept)
  {
    assert InPlace(staged, kept) == kept;
    assert Moved(staged, kept) == map[];
    assert staged + kept + map[] == staged + kept;
  }

  lemma ClashingFileMoves(staged: Tree, kept: Tree, p: Path)
    requires Clashes(staged, kept, p) && CopyOver(staged, kept).Ok?
    ensures p in CopyOver(staged, kept).value && CopyOver(staged, kept).value[p] != kept[p]
  {
    assert p !in InPlace(staged, kept) && p !in Moved(staged, kept);
    assert CopyOver(staged, kept).value[p] == staged[p];
  }

  /** A clashing file that does not stop the copy lands inside the directory, under its own name. */
  lemma ClashingFileLands(staged: Tree, kept: Tree, p: Path)
    requires p != [] && Clashes(staged, kept, p) && CopyOver(staged, kept).Ok?
    ensures var q := p + [p[|p| - 1]];
            q in CopyOver(staged, kept).value && CopyOver(staged, kept).value[q] == kept[p]
  {
    var q := p + [p[|p| - 1]];
    assert q == Landing(staged, p) && q[..|q| - 1] == p;
    assert q in Moved(staged, kept);
  }
}
