/** Which sets a restore accepts, item by item, and what a deployment gets back, place by place. */
module Acceptance {
  import opened Wrappers
  import opened Trees
  import opened ManagedPaths
  import opened BackupSets
  import opened RoundTrip

  // ---- Any manifest ----

  /** One item passes every check: it has a path and a known kind, its artifact is there, what it
      digests is unchanged, a database opens under the key, and a tree neither takes a name of the
      database nor leaves its files unlisted. */
  ghost predicate ItemVerified(set_: Tree, item: Item, key: nat) {
    && item.path != []
    && match item
       case SqliteItem(path, sha) =>
         && IsFile(set_, path) && Sha256(set_[path].content) == sha
         && set_[path].content.Sealed? && set_[path].content.key == key
       case TreeItem(_, path, files, empty, _, _, _) =>
         && path !in {["app.db"], ["app.db-wal"], ["app.db-shm"], ["app.db-journal"]}
         && path in set_
         && (files == map[] ==> empty)
         && (forall rel | rel in files ::
               IsFile(set_, path + rel) && Sha256(set_[path + rel].content) == files[rel])
       case UnknownItem(_) => false
  }

  /** A tree item that is staged under its own path. */
  predicate Places(item: Item) {
    item.TreeItem? && item.path != [] && !Reserved(item.path)
  }

  /** The places of the trees do not meet each other, those of `done`, or the database. */
  ghost predicate ItemsApart(done: seq<Path>, items: seq<Item>)
    decreases |items|
  {
    items == [] ||
    if Places(items[0]) then
      && Apart(items[0].path, APP_DB) && (forall j | 0 <= j < |done| :: Apart(done[j], items[0].path))
      && ItemsApart(done + [items[0].path], items[1..])
    else ItemsApart(done, items[1..])
  }

  lemma ReservedExactly(path: Path)
    ensures Reserved(path) <==> path in {["app.db"], ["app.db-wal"], ["app.db-shm"], ["app.db-journal"]}
  {
    if |path| == 1 {
      assert path == [path[0]];
    }
  }

  lemma TreeVerified(set_: Tree, item: Item, key: nat)
    requires Places(item)
    ensures ItemVerified(set_, item, key) <==>
            item.path in set_ && (item.files == map[] ==> item.empty) && ListedFilesGood(set_, item.path, item.files)
  {
    ReservedExactly(item.path);
  }

  /** What a tree item adds. */
  function Added(set_: Tree, item: Item): (s: Tree)
    requires item.TreeItem?
    ensures [] !in s
  {
    if item.files == map[] then Skeleton(item.dirs) else Sub(set_, item.path)
  }

  lemma TreeItemOk(staged: Tree, set_: Tree, item: Item, key: nat)
    requires Places(item) && forall p | item.path <= p :: p !in staged && !Blocked(staged, p)
    ensures var r := StageItem(staged, set_, item, key);
            && (r.Ok? <==> item.path in set_ && (item.files == map[] ==> item.empty)
                           && ListedFilesGood(set_, item.path, item.files))
            && (r.Ok? ==> r.value == Graft(staged, item.path, Added(set_, item)))
  {
    if item.files != map[] {
      FullItemStages(staged, set_, item, key);
    } else if item.empty {
      EmptyItemStages(staged, set_, item, key);
    }
  }

  /** Staging one tree item beside what is staged. */
  lemma TreeItemStages(staged: Tree, set_: Tree, done: seq<Path>, item: Item, key: nat)
    requires Confined(staged, APP_DB, done) && Places(item) && Apart(item.path, APP_DB)
    requires forall j | 0 <= j < |done| :: Apart(done[j], item.path)
    ensures var r := StageItem(staged, set_, item, key);
            && (r.Ok? <==> ItemVerified(set_, item, key))
            && (r.Ok? ==> Confined(r.value, APP_DB, done + [item.path]))
  {
    RoomForNext(staged, APP_DB, done, item.path);
    TreeItemOk(staged, set_, item, key);
    TreeVerified(set_, item, key);
    ConfinedGraft(staged, APP_DB, done, item.path, Added(set_, item));
  }

  lemma OtherItemStages(staged: Tree, set_: Tree, done: seq<Path>, item: Item, key: nat)
    requires Confined(staged, APP_DB, done) && !Places(item)
    requires forall j | 0 <= j < |done| :: Apart(done[j], APP_DB)
    ensures var r := StageItem(staged, set_, item, key);
            && (r.Ok? <==> ItemVerified(set_, item, key))
            && (r.Ok? ==> Confined(r.value, APP_DB, done))
  {
    ReservedExactly(item.path);
    DatabaseNotDir(staged, done);
    if item.SqliteItem? && StageItem(staged, set_, item, key).Ok? {
      var next := StageItem(staged, set_, item, key).value;
      assert forall q | q in next && q != APP_DB :: q in staged && next[q] == staged[q];
    }
  }

  lemma DatabaseNotDir(staged: Tree, done: seq<Path>)
    requires Confined(staged, APP_DB, done) && forall j | 0 <= j < |done| :: Apart(done[j], APP_DB)
    ensures !IsDir(staged, APP_DB)
  {
  }

  ghost predicate AllVerified(set_: Tree, items: seq<Item>, key: nat) {
    forall i | 0 <= i < |items| :: ItemVerified(set_, items[i], key)
  }

  lemma AllVerifiedHead(set_: Tree, items: seq<Item>, key: nat)
    requires items != []
    ensures AllVerified(set_, items, key) <==> ItemVerified(set_, items[0], key) && AllVerified(set_, items[1..], key)
  {
    if ItemVerified(set_, items[0], key) && AllVerified(set_, items[1..], key) {
      forall i | 0 <= i < |items| ensures ItemVerified(set_, items[i], key) {
        assert i > 0 ==> items[i] == items[1..][i - 1];
      }
    }
    if AllVerified(set_, items, key) {
      forall i | 0 <= i < |items[1..]| ensures ItemVerified(set_, items[1..][i], key) {
        assert items[1..][i] == items[i + 1];
      }
    }
  }

  /** Items whose places do not meet are staged exactly when every one of them is verified. */
  lemma {:induction false} ItemsStage(staged: Tree, set_: Tree, done: seq<Path>, items: seq<Item>, key: nat)
    requires Confined(staged, APP_DB, done) && ItemsApart(done, items)
    requires forall j | 0 <= j < |done| :: Apart(done[j], APP_DB)
    ensures StageItems(staged, set_, items, key).Ok? <==> AllVerified(set_, items, key)
    decreases |items|
  {
    if items != [] {
      AllVerifiedHead(set_, items, key);
      StageItemsHead(staged, set_, items, key);
      var item := items[0];
      var next := StageItem(staged, set_, item, key);
      var more := if Places(item) then done + [item.path] else done;
      if Places(item) {
        TreeItemStages(staged, set_, done, item, key);
      } else {
        OtherItemStages(staged, set_, done, item, key);
      }
      if next.Ok? {
        ItemsStage(next.value, set_, more, items[1..], key);
      }
    }
  }

  /** The first vector item of the manifest binds generation `g`. */
  predicate Binds(items: seq<Item>, g: nat) {
    exists i | 0 <= i < |items| ::
      && items[i].TreeItem? && items[i].kind.Lancedb? && items[i].generation == Some(g)
      && forall j | 0 <= j < i :: !(items[j].TreeItem? && items[j].kind.Lancedb?)
  }

  lemma {:induction false} BindingExact(items: seq<Item>, g: nat)
    ensures Binding(items) == Some(g) <==> Binds(items, g)
    decreases |items|
  {
    if items != [] && !(items[0].TreeItem? && items[0].kind.Lancedb?) {
      var rest := items[1..];
      BindingExact(rest, g);
      if Binds(rest, g) {
        var i :| 0 <= i < |rest| && rest[i].TreeItem? && rest[i].kind.Lancedb? && rest[i].generation == Some(g)
                 && forall j | 0 <= j < i :: !(rest[j].TreeItem? && rest[j].kind.Lancedb?);
        assert items[i + 1] == rest[i];
        forall j | 0 <= j < i + 1 ensures !(items[j].TreeItem? && items[j].kind.Lancedb?) {
          assert j > 0 ==> items[j] == rest[j - 1];
        }
      }
      if Binds(items, g) {
        var i :| 0 <= i < |items| && items[i].TreeItem? && items[i].kind.Lancedb? && items[i].generation == Some(g)
                 && forall j | 0 <= j < i :: !(items[j].TreeItem? && items[j].kind.Lancedb?);
        assert rest[i - 1] == items[i];
        forall j | 0 <= j < i - 1 ensures !(rest[j].TreeItem? && rest[j].kind.Lancedb?) {
          assert rest[j] == items[j + 1];
        }
      }
    }
  }

  /** The staged database has the generation the manifest binds as a row, and no newer index
      generation. */
  ghost predicate DatabaseMatches(items: seq<Item>, staged: Tree) {
    forall g: nat | Binds(items, g) ::
      && IsFile(staged, ["app.db"]) && staged[["app.db"]].content.Database?
      && var journal := staged[["app.db"]].content.journal;
         g in journal && forall id | id in journal && journal[id] :: id <= g
  }

  /** A set whose places do not meet is accepted exactly when it has items, every one is verified, and
      the database, if it has one, matches the generation bound by its vectors. */
  lemma AcceptedExactly(set_: Tree, items: seq<Item>, key: nat)
    requires ItemsApart([], items)
    ensures var staged := StageItems(map[], set_, items, key);
            StageSet(set_, items, key).Ok? <==>
              && items != [] && AllVerified(set_, items, key)
              && ((exists i | 0 <= i < |items| :: items[i].SqliteItem?) ==>
                    staged.Ok? && DatabaseMatches(items, staged.value))
  {
    ItemsStage(map[], set_, [], items, key);
    var staged := StageItems(map[], set_, items, key);
    if staged.Ok? {
      MatchesExactly(items, staged.value);
    }
  }

  lemma MatchesExactly(items: seq<Item>, staged: Tree)
    ensures GenerationAccepted(items, staged) <==> DatabaseMatches(items, staged)
  {
    if Binding(items).Some? {
      BindingExact(items, Binding(items).value);
    }
    forall g: nat | Binds(items, g) ensures Binding(items) == Some(g) {
      BindingExact(items, g);
    }
  }

  /** Even where places meet, an accepted set has nothing unverified in it. */
  lemma {:induction false} StagedMeansVerified(staged: Tree, set_: Tree, items: seq<Item>, key: nat)
    requires StageItems(staged, set_, items, key).Ok?
    ensures AllVerified(set_, items, key)
    decreases |items|
  {
    if items != [] {
      AllVerifiedHead(set_, items, key);
      StageItemsHead(staged, set_, items, key);
      ReservedExactly(items[0].path);
      StagedMeansVerified(StageItem(staged, set_, items[0], key).value, set_, items[1..], key);
    }
  }

  // ---- Any database in a set of a live deployment ----

  /** A set of a live deployment whose database has been replaced, digest and all, is accepted exactly
      when its trees are intact and the database has the bound generation as its latest. */
  lemma DatabaseAcceptedExactly(
    set_: Tree, live: Live, rows: string, journal: map<nat, bool>, key: nat, nonce: nat, restoreKey: nat
  )
    requires LiveGood(live) && WellFormed(set_)
    ensures var sealed_ := Sealed(key, nonce, Database(rows, journal));
            var items := [SqliteItem(SQLITE_ARTIFACT, Sha256(sealed_))]
                         + PartItems(Parts(live), live.tables, LatestGeneration(live.journal));
            StageSet(set_, items, restoreKey).Ok? <==>
              && IsFile(set_, ["app.db.enc"]) && set_[["app.db.enc"]].content == sealed_ && restoreKey == key
              && AllIntact(set_, Parts(live))
              && (live.lancedb.Some? && LatestGeneration(live.journal).Some? ==>
                    var g := LatestGeneration(live.journal).value;
                    g in journal && forall id | id in journal && journal[id] :: id <= g)
  {
    var db, generation := Database(rows, journal), LatestGeneration(live.journal);
    var sqlite := SqliteItem(SQLITE_ARTIFACT, Sha256(Sealed(key, nonce, db)));
    var items := [sqlite] + PartItems(Parts(live), live.tables, generation);
    DatabaseThenParts(set_, live, db, key, nonce, restoreKey);
    ManifestBinding(live, sqlite);
    var staged := StageItems(map[], set_, items, restoreKey);
    if staged.Ok? {
      LatestIn(items, staged.value, rows, journal, if live.lancedb.Some? then generation else None);
    }
  }

  lemma LatestIn(items: seq<Item>, staged: Tree, rows: string, journal: map<nat, bool>, bound: Option<nat>)
    requires Binding(items) == bound && APP_DB in staged && staged[APP_DB] == File(Database(rows, journal))
    ensures GenerationAccepted(items, staged) <==>
            (bound.Some? ==> bound.value in journal && forall id | id in journal && journal[id] :: id <= bound.value)
  {
  }

  /** Without a database there is no generation to check. */
  lemma VectorsAloneAccepted(set_: Tree, live: Live, generation: Option<nat>, key: nat)
    requires LiveGood(live) && WellFormed(set_) && Parts(live) != []
    ensures StageSet(set_, PartItems(Parts(live), live.tables, generation), key).Ok? <==> AllIntact(set_, Parts(live))
  {
    var items := PartItems(Parts(live), live.tables, generation);
    LivePartsFit(live);
    PartsStage(map[], set_, [], Parts(live), live.tables, generation, key);
    NoDatabaseItem(Parts(live), live.tables, generation);
  }

  lemma {:induction false} NoDatabaseItem(parts: seq<Part>, tables: seq<TableTag>, generation: Option<nat>)
    ensures !HasSqlite(PartItems(parts, tables, generation))
    decreases |parts|
  {
    if parts != [] {
      NoDatabaseItem(parts[1..], tables, generation);
      PartItemsHead(parts, tables, generation);
      var items := PartItems(parts, tables, generation);
      forall i | 0 <= i < |items| ensures !items[i].SqliteItem? {
        assert i > 0 ==> items[i] == items[1..][i - 1];
      }
    }
  }

  // ---- A deployment, place by place ----

  /** The deployment has the tree at the given place of its data directory. */
  predicate TreeAt(live: Live, path: Path, tree: Tree) {
    || (path == ["lancedb"] && live.lancedb == Some(tree))
    || (path == ["draft-room"] && live.draftRoom == Some(tree))
    || (exists i | 0 <= i < |live.vaults| :: path == ["vaults", live.vaults[i].0] && live.vaults[i].1 == Some(tree))
  }

  lemma {:induction false} VaultListed(vaults: seq<(string, Option<Tree>)>, i: nat) returns (k: nat)
    requires i < |vaults| && vaults[i].1.Some?
    ensures k < |VaultParts(vaults)|
    ensures VaultParts(vaults)[k] == Part(Vault, ["vaults", vaults[i].0], vaults[i].1.value)
  {
    if i == 0 {
      k := 0;
    } else {
      k := VaultListed(vaults[1..], i - 1);
      if vaults[0].1.Some? {
        k := k + 1;
      }
    }
  }

  lemma {:induction false} ListedVault(vaults: seq<(string, Option<Tree>)>, k: nat) returns (i: nat)
    requires k < |VaultParts(vaults)|
    ensures i < |vaults| && vaults[i].1.Some?
    ensures VaultParts(vaults)[k] == Part(Vault, ["vaults", vaults[i].0], vaults[i].1.value)
  {
    if vaults[0].1.None? {
      i := ListedVault(vaults[1..], k);
      i := i + 1;
    } else if k == 0 {
      i := 0;
    } else {
      i := ListedVault(vaults[1..], k - 1);
      i := i + 1;
    }
  }

  /** The parts are exactly the trees of the deployment. */
  lemma PartListed(live: Live, path: Path, tree: Tree) returns (k: nat)
    requires TreeAt(live, path, tree)
    ensures k < |Parts(live)| && Parts(live)[k].path == path && Parts(live)[k].tree == tree
    ensures Parts(live)[k].kind.Lancedb? ==> path == ["lancedb"]
  {
    var first := if live.lancedb.None? then 0 else 1;
    if path == ["lancedb"] && live.lancedb == Some(tree) {
      k := 0;
    } else if path == ["draft-room"] && live.draftRoom == Some(tree) {
      k := first + |VaultParts(live.vaults)|;
    } else {
      var i :| 0 <= i < |live.vaults| && path == ["vaults", live.vaults[i].0] && live.vaults[i].1 == Some(tree);
      k := VaultListed(live.vaults, i);
      k := first + k;
    }
  }

  lemma ListedPart(live: Live, k: nat)
    requires k < |Parts(live)|
    ensures TreeAt(live, Parts(live)[k].path, Parts(live)[k].tree)
  {
    var first := if live.lancedb.None? then 0 else 1;
    if first <= k < first + |VaultParts(live.vaults)| {
      var i := ListedVault(live.vaults, k - first);
      assert Parts(live)[k] == VaultParts(live.vaults)[k - first];
    }
  }

  /** A fresh set brings back the database and every tree of the deployment at its place, empty
      directories included, and nothing else; only a vector tree without a file loses its
      directories. */
  lemma DeploymentRestores(live: Live, key: nat, nonce: nat)
    requires LiveGood(live)
    ensures var r := StageSet(SetOf(live, key, nonce), ManifestOf(live, key, nonce), key);
            && r.Ok?
            && ["app.db"] in r.value && r.value[["app.db"]] == File(Database(live.rows, live.journal))
            && (forall path, tree | TreeAt(live, path, tree) && (path != ["lancedb"] || exists p :: IsFile(tree, p)) ::
                  Sub(r.value, path) == tree)
            && (forall q | q in r.value && q != ["app.db"] ::
                  exists path, tree :: TreeAt(live, path, tree) && Belongs(path, q, r.value[q]))
  {
    BackupRestores(live, key, nonce);
    var r := StageSet(SetOf(live, key, nonce), ManifestOf(live, key, nonce), key).value;
    forall path, tree | TreeAt(live, path, tree) && (path != ["lancedb"] || exists p :: IsFile(tree, p))
      ensures Sub(r, path) == tree
    {
      var k := PartListed(live, path, tree);
      WithFile(Parts(live)[k]);
    }
    forall q | q in r && q != ["app.db"]
      ensures exists path, tree :: TreeAt(live, path, tree) && Belongs(path, q, r[q])
    {
      var paths := PathsOf(Parts(live));
      var k :| 0 <= k < |paths| && Belongs(paths[k], q, r[q]);
      ListedPart(live, k);
    }
  }

  lemma WithFile(part: Part)
    requires part.kind.Lancedb? ==> exists p :: IsFile(part.tree, p)
    ensures Recovered(part) == part.tree
  {
    if part.kind.Lancedb? {
      var p :| IsFile(part.tree, p);
      assert p in DigestTree(part.tree);
    }
  }

  /** A set in which any file of any tree of the deployment is missing or changed is refused. */
  lemma ChangedFileRefused(
    set_: Tree, live: Live, key: nat, nonce: nat, restoreKey: nat, path: Path, tree: Tree, p: Path
  )
    requires LiveGood(live) && WellFormed(set_) && TreeAt(live, path, tree) && IsFile(tree, p)
    requires !(path + p in set_ && set_[path + p] == tree[p])
    ensures StageSet(set_, ManifestOf(live, key, nonce), restoreKey).Err?
  {
    var k := PartListed(live, path, tree);
    assert !PartIntact(set_, Parts(live)[k]);
    AcceptedExactlyWhenIntact(set_, live, key, nonce, restoreKey);
  }

  // ---- What a manifest owns ----

  /** The managed roots are the database, if there is one, and the path of every other item. */
  lemma {:induction false} ManagedRootsExactly(items: seq<Item>, root: Path)
    ensures root in ManagedRoots(items) <==>
            exists i | 0 <= i < |items| ::
              if items[i].SqliteItem? then root == ["app.db"] else root == items[i].path && root != []
    decreases |items|
  {
    if items != [] {
      var rest := items[1..];
      ManagedRootsExactly(rest, root);
      if i :| 0 <= i < |rest| && if rest[i].SqliteItem? then root == ["app.db"] else root == rest[i].path && root != [] {
        assert items[i + 1] == rest[i];
      }
      if i :| 0 <= i < |items| && if items[i].SqliteItem? then root == ["app.db"] else root == items[i].path && root != [] {
        assert i > 0 ==> items[i] == rest[i - 1];
      }
    }
  }

  /** What a restore copies over from the destination. */
  lemma UnmanagedExactly(t: Tree, roots: seq<Path>, p: Path)
    ensures p in Unmanaged(t, roots) <==>
            && p in t
            && (forall root | root in roots :: !(root <= p))
            && !(["app.db"] in roots && p != [] && p[0] in {"app.db-wal", "app.db-shm", "app.db-journal"})
            && !(t[p].Dir? && exists root | root in roots :: p < root)
    ensures p in Unmanaged(t, roots) ==> Unmanaged(t, roots)[p] == t[p]
  {
    if Covered(p, roots) {
      var i :| 0 <= i < |roots| && roots[i] <= p;
      assert roots[i] in roots;
    }
    if Partial(p, roots) {
      var i :| 0 <= i < |roots| && p < roots[i];
      assert roots[i] in roots;
    }
  }
}
