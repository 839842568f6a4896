/** A backup set restores to what was backed up, and a damaged one is refused. */
module RoundTrip {
  import opened Wrappers
  import opened Trees
  import opened ManagedPaths
  import opened BackupSets

  // ---- Copies to places that do not meet ----

  /** A part that can be copied beside the parts at the places `done`. */
  ghost predicate Fits(part: Part, done: seq<Path>) {
    && WellFormed(part.tree) && part.path != [] && !Reserved(part.path)
    && Apart(part.path, APP_DB) && Apart(part.path, SQLITE_ARTIFACT)
    && forall j | 0 <= j < |done| :: Apart(done[j], part.path)
  }

  /** The parts can be copied one after the other beside those at `done`. */
  ghost predicate AllFit(done: seq<Path>, parts: seq<Part>)
    decreases |parts|
  {
    parts == [] || (Fits(parts[0], done) && AllFit(done + [parts[0].path], parts[1..]))
  }

  lemma {:induction false} LaterPartsFit(done: seq<Path>, parts: seq<Part>, j: nat)
    requires AllFit(done, parts) && j < |done|
    ensures forall i | 0 <= i < |parts| :: Apart(parts[i].path, done[j])
    decreases |parts|
  {
    if parts != [] {
      var more := done + [parts[0].path];
      assert more[j] == done[j];
      LaterPartsFit(more, parts[1..], j);
      forall i | 0 <= i < |parts| ensures Apart(parts[i].path, done[j]) {
        assert i > 0 ==> parts[i] == parts[1..][i - 1];
      }
    }
  }

  /** The entry `e` at `q` is a directory above `path`, or lies below `path`. */
  predicate Belongs(path: Path, q: Path, e: Entry) {
    (q <= path && e.Dir?) || path < q
  }

  predicate BelongsToSome(paths: seq<Path>, q: Path, e: Entry) {
    exists i | 0 <= i < |paths| :: Belongs(paths[i], q, e)
  }

  /** Each entry is the file `base`, a directory above one of the paths, or lies below one. */
  ghost predicate Confined(t: Tree, base: Path, paths: seq<Path>) {
    forall q | q in t :: (q == base && t[q].File?) || BelongsToSome(paths, q, t[q])
  }

  predicate IsBase(base: Path) {
    base == APP_DB || base == SQLITE_ARTIFACT
  }

  lemma FitsBesideBase(part: Part, done: seq<Path>, base: Path)
    requires IsBase(base) && Fits(part, done)
    ensures Apart(part.path, base)
  {
  }

  lemma BelongsToMore(paths: seq<Path>, path: Path, q: Path, e: Entry)
    ensures BelongsToSome(paths, q, e) || Belongs(path, q, e) ==> BelongsToSome(paths + [path], q, e)
  {
    var more := paths + [path];
    assert more[|paths|] == path;
    if i :| 0 <= i < |paths| && Belongs(paths[i], q, e) {
      assert more[i] == paths[i];
    }
  }

  lemma ConfinedGraft(t: Tree, base: Path, done: seq<Path>, at: Path, s: Tree)
    requires Confined(t, base, done) && [] !in s && Apart(at, base)
    ensures Confined(Graft(t, at, s), base, done + [at])
    ensures base in t ==> base in Graft(t, at, s) && Graft(t, at, s)[base] == t[base]
  {
    var g := Graft(t, at, s);
    forall q | q in g
      ensures (q == base && g[q].File?) || BelongsToSome(done + [at], q, g[q])
    {
      BelongsToMore(done, at, q, g[q]);
      if q in Shifted(at, s) {
        assert q[|at|..] != [] && at < q;
      }
    }
  }

  lemma ApartBelongs(path: Path, other: Path, q: Path, e: Entry)
    requires Apart(other, path) && Belongs(other, q, e)
    ensures !(path <= q)
    ensures q <= path ==> e.Dir?
  {
    if path <= q && other < q {
      ApartAbove(other, path, q);
    }
  }

  /** Nothing confined to the earlier places stands in the way of the next one. */
  lemma RoomForNext(t: Tree, base: Path, done: seq<Path>, path: Path)
    requires Confined(t, base, done) && path != [] && Apart(path, base)
    requires forall i | 0 <= i < |done| :: Apart(done[i], path)
    ensures forall p | path <= p :: p !in t && !Blocked(t, p)
  {
    forall q | q in t
      ensures !(path <= q)
      ensures q <= path ==> t[q].Dir?
    {
      if !(q == base && t[q].File?) {
        var i :| 0 <= i < |done| && Belongs(done[i], q, t[q]);
        ApartBelongs(path, done[i], q, t[q]);
      }
    }
    forall p, k | path <= p && 0 < k <= |p| ensures !IsFile(t, p[..k]) {
      assert path <= p[..k] || p[..k] <= path;
    }
  }

  lemma {:induction false} LaterCopiesApart(t: Tree, parts: seq<Part>, other: Path)
    requires forall i | 0 <= i < |parts| :: Apart(parts[i].path, other)
    ensures Sub(CopyParts(t, parts), other) == Sub(t, other)
    decreases |parts|
  {
    if parts != [] {
      var part, rest := parts[0], parts[1..];
      SubApart(t, part.path, part.tree, other);
      forall i | 0 <= i < |rest| ensures Apart(rest[i].path, other) {
        assert rest[i] == parts[i + 1];
      }
      LaterCopiesApart(Graft(t, part.path, part.tree), rest, other);
    }
  }

  /** What lies at the part's place is the part. */
  ghost predicate Found(t: Tree, part: Part) {
    Sub(t, part.path) == part.tree
  }

  lemma FirstCopyFound(t: Tree, base: Path, done: seq<Path>, part: Part, rest: seq<Part>)
    requires Confined(t, base, done) && Apart(part.path, base)
    requires part.path != [] && WellFormed(part.tree)
    requires forall i | 0 <= i < |done| :: Apart(done[i], part.path)
    requires forall i | 0 <= i < |rest| :: Apart(rest[i].path, part.path)
    ensures Found(CopyParts(Graft(t, part.path, part.tree), rest), part)
  {
    RoomForNext(t, base, done, part.path);
    SubOfGraft(t, part.path, part.tree);
    LaterCopiesApart(Graft(t, part.path, part.tree), rest, part.path);
  }

  lemma CopyHead(t: Tree, parts: seq<Part>)
    requires parts != []
    ensures CopyParts(t, parts) == CopyParts(Graft(t, parts[0].path, parts[0].tree), parts[1..])
  {
  }

  lemma FoundLater(t: Tree, parts: seq<Part>, i: nat)
    requires 0 < i < |parts|
    requires Found(CopyParts(Graft(t, parts[0].path, parts[0].tree), parts[1..]), parts[1..][i - 1])
    ensures Found(CopyParts(t, parts), parts[i])
  {
    CopyHead(t, parts);
  }

  /** The head of a fitting sequence, apart from the base, from what is done and from the rest. */
  lemma HeadFits(done: seq<Path>, parts: seq<Part>, base: Path)
    requires IsBase(base) && parts != [] && AllFit(done, parts)
    ensures Fits(parts[0], done) && Apart(parts[0].path, base)
    ensures AllFit(done + [parts[0].path], parts[1..])
    ensures forall i | 0 <= i < |parts[1..]| :: Apart(parts[1..][i].path, parts[0].path)
  {
    var more := done + [parts[0].path];
    assert more[|done|] == parts[0].path;
    LaterPartsFit(more, parts[1..], |done|);
    FitsBesideBase(parts[0], done, base);
  }

  lemma HeadFound(t: Tree, base: Path, done: seq<Path>, parts: seq<Part>)
    requires IsBase(base) && Confined(t, base, done) && AllFit(done, parts) && parts != []
    ensures Found(CopyParts(t, parts), parts[0])
  {
    HeadFits(done, parts, base);
    FirstCopyFound(t, base, done, parts[0], parts[1..]);
    CopyHead(t, parts);
  }

  lemma HeadCopied(t: Tree, base: Path, done: seq<Path>, parts: seq<Part>)
    requires IsBase(base) && Confined(t, base, done) && AllFit(done, parts) && parts != []
    ensures Confined(Graft(t, parts[0].path, parts[0].tree), base, done + [parts[0].path])
    ensures AllFit(done + [parts[0].path], parts[1..])
  {
    HeadFits(done, parts, base);
    ConfinedGraft(t, base, done, parts[0].path, parts[0].tree);
  }

  lemma {:induction false} CopiesFound(t: Tree, base: Path, done: seq<Path>, parts: seq<Part>, i: nat)
    requires IsBase(base) && Confined(t, base, done) && AllFit(done, parts) && i < |parts|
    ensures Found(CopyParts(t, parts), parts[i])
    decreases |parts|
  {
    if i == 0 {
      HeadFound(t, base, done, parts);
    } else {
      HeadCopied(t, base, done, parts);
      CopiesFound(Graft(t, parts[0].path, parts[0].tree), base, done + [parts[0].path], parts[1..], i - 1);
      FoundLater(t, parts, i);
    }
  }

  function PathsOf(parts: seq<Part>): seq<Path> {
    seq(|parts|, i requires 0 <= i < |parts| => parts[i].path)
  }

  lemma PathsOfHead(done: seq<Path>, parts: seq<Part>)
    requires parts != []
    ensures done + PathsOf(parts) == done + [parts[0].path] + PathsOf(parts[1..])
  {
  }

  lemma {:induction false} CopiesConfined(t: Tree, base: Path, done: seq<Path>, parts: seq<Part>)
    requires IsBase(base) && Confined(t, base, done) && AllFit(done, parts)
    ensures Confined(CopyParts(t, parts), base, done + PathsOf(parts))
    ensures base in t ==> base in CopyParts(t, parts) && CopyParts(t, parts)[base] == t[base]
    decreases |parts|
  {
    if parts == [] {
      assert done + PathsOf(parts) == done;
    } else {
      var part := parts[0];
      FitsBesideBase(part, done, base);
      ConfinedGraft(t, base, done, part.path, part.tree);
      PathsOfHead(done, parts);
      CopiesConfined(Graft(t, part.path, part.tree), base, done + [part.path], parts[1..]);
    }
  }

  lemma GraftWellFormed(t: Tree, at: Path, s: Tree)
    requires WellFormed(t) && WellFormed(s) && forall p | at <= p :: p !in t
    ensures WellFormed(Graft(t, at, s))
  {
    var g := Graft(t, at, s);
    forall p, k | p in g && 0 < k < |p| ensures IsDir(g, p[..k]) {
      var q := p[..k];
      if at <= p && p[|at|..] in s {
        if k <= |at| {
          assert q <= at;
          assert q !in Shifted(at, s);
        } else {
          assert at <= q && q[|at|..] == p[|at|..][..k - |at|];
          assert IsDir(s, q[|at|..]);
        }
      } else if p in Chain(at) {
        assert q <= at;
        assert q !in Shifted(at, s);
      } else {
        assert IsDir(t, q);
        assert !(at <= q);
      }
    }
  }

  lemma {:induction false} CopiesWellFormed(t: Tree, parts: seq<Part>, base: Path, done: seq<Path>)
    requires IsBase(base) && WellFormed(t) && Confined(t, base, done) && AllFit(done, parts)
    ensures WellFormed(CopyParts(t, parts))
    decreases |parts|
  {
    if parts != [] {
      var part := parts[0];
      FitsBesideBase(part, done, base);
      RoomForNext(t, base, done, part.path);
      GraftWellFormed(t, part.path, part.tree);
      ConfinedGraft(t, base, done, part.path, part.tree);
      CopiesWellFormed(Graft(t, part.path, part.tree), parts[1..], base, done + [part.path]);
    }
  }

  // ---- Staging against any set ----

  /** The set still holds the part, with every file of the live tree unchanged. */
  ghost predicate PartIntact(set_: Tree, part: Part) {
    && part.path in set_
    && forall p | IsFile(part.tree, p) ::
         IsFile(set_, part.path + p) && set_[part.path + p] == part.tree[p]
  }

  /** What staging makes of a part: a tree with files comes whole from the set; a fileless one is
      rebuilt from its recorded skeleton, which vector trees do not have. */
  function Restored(set_: Tree, part: Part): Part {
    part.(tree := if DigestTree(part.tree) != map[] then Sub(set_, part.path)
                  else if part.kind.Lancedb? then map[]
                  else part.tree)
  }

  function RestoredParts(set_: Tree, parts: seq<Part>): (r: seq<Part>)
    ensures |r| == |parts|
    ensures forall i | 0 <= i < |parts| :: r[i] == Restored(set_, parts[i])
  {
    seq(|parts|, i requires 0 <= i < |parts| => Restored(set_, parts[i]))
  }

  lemma ListedFilesExact(set_: Tree, part: Part)
    ensures ListedFilesGood(set_, part.path, DigestTree(part.tree)) <==>
            forall p | IsFile(part.tree, p) ::
              IsFile(set_, part.path + p) && set_[part.path + p] == part.tree[p]
  {
    var files := DigestTree(part.tree);
    assert forall p :: p in files <==> IsFile(part.tree, p);
    assert forall p | p in files :: files[p] == Sha256(part.tree[p].content);
    if ListedFilesGood(set_, part.path, files) {
      forall p | IsFile(part.tree, p)
        ensures IsFile(set_, part.path + p) && set_[part.path + p] == part.tree[p]
      {
        assert p in files;
        assert Sha256(set_[part.path + p].content) == Sha256(part.tree[p].content);
      }
    }
  }

  lemma DigestsOfFileless(t: Tree)
    requires DigestTree(t) == map[]
    ensures forall p | p in t :: t[p] == Dir
  {
    forall p | p in t ensures t[p].Dir? {
      assert t[p].File? ==> p in DigestTree(t);
    }
  }

  lemma SkeletonEntry(t: Tree, q: Path)
    requires WellFormed(t) && DigestTree(t) == map[]
    ensures q in Skeleton(DirsOf(t)) <==> q in t
  {
    DigestsOfFileless(t);
    if q in t {
      assert q in DirsOf(t) && q <= q;
    }
    if q in Skeleton(DirsOf(t)) {
      var d :| d in DirsOf(t) && q <= d;
      assert d in t && d[..|q|] == q;
      if |q| < |d| {
        assert IsDir(t, d[..|q|]);
      } else {
        assert q == d;
      }
    }
  }

  predicate AllDirs(t: Tree) {
    forall p | p in t :: t[p] == Dir
  }

  lemma SkeletonAllDirs(dirs: set<Path>)
    ensures AllDirs(Skeleton(dirs))
  {
  }

  lemma SameDirs(a: Tree, b: Tree)
    requires AllDirs(a) && AllDirs(b) && forall q :: q in a <==> q in b
    ensures a == b
  {
  }

  /** A fileless tree is its own skeleton. */
  lemma SkeletonOfFileless(t: Tree)
    requires WellFormed(t) && DigestTree(t) == map[]
    ensures Skeleton(DirsOf(t)) == t
  {
    var dirs := DirsOf(t);
    assert AllDirs(t) by { DigestsOfFileless(t); }
    assert forall q :: q in Skeleton(dirs) <==> q in t by {
      forall q ensures q in Skeleton(dirs) <==> q in t {
        SkeletonEntry(t, q);
      }
    }
    SkeletonAllDirs(dirs);
    SameDirs(Skeleton(dirs), t);
  }

  /** Staging an item that lists no files and says so. */
  lemma EmptyItemStages(staged: Tree, set_: Tree, item: Item, key: nat)
    requires item.TreeItem? && item.path != [] && !Reserved(item.path)
    requires item.files == map[] && item.empty
    requires forall p | item.path <= p :: !Blocked(staged, p)
    ensures StageItem(staged, set_, item, key) ==
            if item.path in set_ then Ok(Graft(staged, item.path, Skeleton(item.dirs))) else Err(ArtifactMissing)
  {
    forall d | d in item.dirs ensures !Blocked(staged, item.path + d) {
      assert item.path <= item.path + d;
    }
    assert !Blocked(staged, item.path);
  }

  lemma FilelessRestored(set_: Tree, part: Part, tables: seq<TableTag>, generation: Option<nat>)
    requires WellFormed(part.tree) && DigestTree(part.tree) == map[]
    ensures Restored(set_, part).tree == Skeleton(PartItem(part, tables, generation).dirs)
  {
    if part.kind.Lancedb? {
      assert Skeleton({}) == map[];
    } else {
      SkeletonOfFileless(part.tree);
    }
  }

  lemma FilelessIntact(set_: Tree, part: Part)
    requires DigestTree(part.tree) == map[]
    ensures PartIntact(set_, part) <==> part.path in set_
  {
    DigestsOfFileless(part.tree);
  }

  lemma FilelessPartStages(
    staged: Tree, set_: Tree, part: Part, tables: seq<TableTag>, generation: Option<nat>, key: nat
  )
    requires part.path != [] && !Reserved(part.path) && WellFormed(part.tree)
    requires forall p | part.path <= p :: !Blocked(staged, p)
    requires DigestTree(part.tree) == map[]
    ensures StageItem(staged, set_, PartItem(part, tables, generation), key) ==
            if PartIntact(set_, part) then Ok(Graft(staged, part.path, Restored(set_, part).tree))
            else Err(ArtifactMissing)
  {
    FilelessRestored(set_, part, tables, generation);
    FilelessIntact(set_, part);
    EmptyItemStages(staged, set_, PartItem(part, tables, generation), key);
  }

  /** Staging an item that lists files. */
  lemma FullItemStages(staged: Tree, set_: Tree, item: Item, key: nat)
    requires item.TreeItem? && item.path != [] && !Reserved(item.path) && item.files != map[]
    requires item.path !in staged && !Blocked(staged, item.path)
    ensures var r := StageItem(staged, set_, item, key);
            && (r.Ok? <==> item.path in set_ && ListedFilesGood(set_, item.path, item.files))
            && (r.Ok? ==> r.value == Graft(staged, item.path, Sub(set_, item.path)))
  {
  }

  lemma FullPartStages(
    staged: Tree, set_: Tree, part: Part, tables: seq<TableTag>, generation: Option<nat>, key: nat
  )
    requires part.path != [] && !Reserved(part.path) && DigestTree(part.tree) != map[]
    requires part.path !in staged && !Blocked(staged, part.path)
    ensures var r := StageItem(staged, set_, PartItem(part, tables, generation), key);
            && (r.Ok? <==> PartIntact(set_, part))
            && (r.Ok? ==> r.value == Graft(staged, part.path, Restored(set_, part).tree))
  {
    ListedFilesExact(set_, part);
    FullItemStages(staged, set_, PartItem(part, tables, generation), key);
  }

  lemma PartStages(
    staged: Tree, set_: Tree, done: seq<Path>, part: Part,
    tables: seq<TableTag>, generation: Option<nat>, key: nat
  )
    requires Confined(staged, APP_DB, done) && Fits(part, done)
    ensures var r := StageItem(staged, set_, PartItem(part, tables, generation), key);
            && (r.Ok? <==> PartIntact(set_, part))
            && (r.Ok? ==> r.value == Graft(staged, part.path, Restored(set_, part).tree))
  {
    RoomForNext(staged, APP_DB, done, part.path);
    if DigestTree(part.tree) == map[] {
      FilelessPartStages(staged, set_, part, tables, generation, key);
    } else {
      assert part.path <= part.path;
      FullPartStages(staged, set_, part, tables, generation, key);
    }
  }

  lemma RestoredWellFormed(set_: Tree, part: Part)
    requires WellFormed(set_) && WellFormed(part.tree)
    ensures WellFormed(Restored(set_, part).tree)
  {
    var s := Sub(set_, part.path);
    forall p, k | p in s && 0 < k < |p| ensures IsDir(s, p[..k]) {
      var whole := part.path + p;
      assert whole[..|part.path| + k] == part.path + p[..k];
      assert IsDir(set_, whole[..|part.path| + k]);
    }
  }

  lemma RestoredHead(set_: Tree, parts: seq<Part>)
    requires parts != []
    ensures var back := RestoredParts(set_, parts);
            back != [] && back[0] == Restored(set_, parts[0]) && back[1..] == RestoredParts(set_, parts[1..])
  {
  }

  lemma {:induction false} RestoredFit(set_: Tree, done: seq<Path>, parts: seq<Part>)
    requires WellFormed(set_) && AllFit(done, parts)
    ensures AllFit(done, RestoredParts(set_, parts))
    decreases |parts|
  {
    if parts != [] {
      RestoredHead(set_, parts);
      RestoredWellFormed(set_, parts[0]);
      RestoredFit(set_, done + [parts[0].path], parts[1..]);
    }
  }

  ghost predicate AllIntact(set_: Tree, parts: seq<Part>) {
    forall i | 0 <= i < |parts| :: PartIntact(set_, parts[i])
  }

  lemma AllIntactHead(set_: Tree, parts: seq<Part>)
    requires parts != []
    ensures AllIntact(set_, parts) <==> PartIntact(set_, parts[0]) && AllIntact(set_, parts[1..])
  {
    if PartIntact(set_, parts[0]) && AllIntact(set_, parts[1..]) {
      forall i | 0 <= i < |parts| ensures PartIntact(set_, parts[i]) {
        assert i > 0 ==> parts[i] == parts[1..][i - 1];
      }
    }
  }

  lemma StageItemsHead(staged: Tree, set_: Tree, items: seq<Item>, key: nat)
    requires items != []
    ensures var next := StageItem(staged, set_, items[0], key);
            StageItems(staged, set_, items, key) ==
            if next.Err? then next else StageItems(next.value, set_, items[1..], key)
  {
  }

  lemma PartItemsHead(parts: seq<Part>, tables: seq<TableTag>, generation: Option<nat>)
    requires parts != []
    ensures var items := PartItems(parts, tables, generation);
            && items != [] && items[0] == PartItem(parts[0], tables, generation)
            && items[1..] == PartItems(parts[1..], tables, generation)
  {
  }

  /** Staging the tree items accepts a set exactly when every part is intact. */
  lemma {:induction false} PartsStage(
    staged: Tree, set_: Tree, done: seq<Path>, parts: seq<Part>,
    tables: seq<TableTag>, generation: Option<nat>, key: nat
  )
    requires WellFormed(set_) && Confined(staged, APP_DB, done) && AllFit(done, parts)
    ensures var r := StageItems(staged, set_, PartItems(parts, tables, generation), key);
            && (r.Ok? <==> AllIntact(set_, parts))
            && (r.Ok? ==> r.value == CopyParts(staged, RestoredParts(set_, parts)))
    decreases |parts|
  {
    if parts == [] {
      assert RestoredParts(set_, parts) == [];
    } else {
      var part, rest := parts[0], parts[1..];
      PartStages(staged, set_, done, part, tables, generation, key);
      PartItemsHead(parts, tables, generation);
      StageItemsHead(staged, set_, PartItems(parts, tables, generation), key);
      AllIntactHead(set_, parts);
      if PartIntact(set_, part) {
        var next := Graft(staged, part.path, Restored(set_, part).tree);
        RestoredWellFormed(set_, part);
        ConfinedGraft(staged, APP_DB, done, part.path, Restored(set_, part).tree);
        PartsStage(next, set_, done + [part.path], rest, tables, generation, key);
        RestoredHead(set_, parts);
      }
    }
  }

  // ---- Sets of a live deployment ----

  ghost predicate LiveGood(live: Live) {
    && (live.lancedb.Some? ==> WellFormed(live.lancedb.value))
    && (live.draftRoom.Some? ==> WellFormed(live.draftRoom.value))
    && VaultsGood(live.vaults)
  }

  /** Well-formed vault trees under distinct names. */
  ghost predicate VaultsGood(vaults: seq<(string, Option<Tree>)>) {
    && (forall i | 0 <= i < |vaults| :: vaults[i].1.Some? ==> WellFormed(vaults[i].1.value))
    && (forall i, j | 0 <= i < j < |vaults| :: vaults[i].0 != vaults[j].0)
  }

  const LANCEDB: Path := ["lancedb"]

  const DRAFT_ROOM: Path := ["draft-room"]

  function VaultPath(name: string): Path {
    ["vaults", name]
  }

  lemma FixedPathsApart(name: string)
    ensures !Reserved(LANCEDB) && Apart(LANCEDB, APP_DB) && Apart(LANCEDB, SQLITE_ARTIFACT)
    ensures !Reserved(DRAFT_ROOM) && Apart(DRAFT_ROOM, APP_DB) && Apart(DRAFT_ROOM, SQLITE_ARTIFACT)
    ensures !Reserved(VaultPath(name)) && Apart(VaultPath(name), APP_DB) && Apart(VaultPath(name), SQLITE_ARTIFACT)
    ensures Apart(LANCEDB, DRAFT_ROOM) && Apart(LANCEDB, VaultPath(name)) && Apart(VaultPath(name), DRAFT_ROOM)
  {
    assert VaultPath(name)[0] == "vaults" && LANCEDB[0] == "lancedb" && DRAFT_ROOM[0] == "draft-room";
    assert "vaults"[0] != "app.db"[0] && "lancedb"[0] != "app.db"[0] && "draft-room"[0] != "app.db"[0];
    assert "vaults"[0] != "app.db.enc"[0] && "lancedb"[0] != "app.db.enc"[0] && "draft-room"[0] != "app.db.enc"[0];
    assert "vaults"[0] != "lancedb"[0] && "vaults"[0] != "draft-room"[0] && "lancedb"[0] != "draft-room"[0];
    assert forall side | side in SIDECARS :: side[0] == 'a';
  }

  /** A place taken before the vaults `vaults` are copied. */
  predicate TakenBefore(path: Path, vaults: seq<(string, Option<Tree>)>) {
    path == LANCEDB ||
    (|path| == 2 && path == VaultPath(path[1]) && forall i | 0 <= i < |vaults| :: vaults[i].0 != path[1])
  }

  lemma TakenApart(path: Path, vaults: seq<(string, Option<Tree>)>)
    requires TakenBefore(path, vaults)
    ensures Apart(path, DRAFT_ROOM)
    ensures vaults != [] ==> Apart(path, VaultPath(vaults[0].0)) && TakenBefore(path, vaults[1..])
  {
    var name := if |path| == 2 then path[1] else "";
    FixedPathsApart(name);
    if vaults != [] {
      FixedPathsApart(vaults[0].0);
      assert |path| == 2 ==> path[1] != VaultPath(vaults[0].0)[1];
    }
  }

  lemma VaultPartsHead(vaults: seq<(string, Option<Tree>)>, draft: seq<Part>)
    requires vaults != [] && vaults[0].1.Some?
    ensures VaultParts(vaults) + draft
         == [Part(Vault, VaultPath(vaults[0].0), vaults[0].1.value)] + (VaultParts(vaults[1..]) + draft)
  {
    assert VaultParts(vaults) == [Part(Vault, VaultPath(vaults[0].0), vaults[0].1.value)] + VaultParts(vaults[1..]);
  }

  lemma AllFitCons(part: Part, done: seq<Path>, rest: seq<Part>)
    requires Fits(part, done) && AllFit(done + [part.path], rest)
    ensures AllFit(done, [part] + rest)
  {
    assert ([part] + rest)[1..] == rest;
  }

  lemma {:induction false} VaultsThenDraftRoomFit(
    done: seq<Path>, vaults: seq<(string, Option<Tree>)>, draft: seq<Part>
  )
    requires VaultsGood(vaults) && forall j | 0 <= j < |done| :: TakenBefore(done[j], vaults)
    requires |draft| <= 1
    requires draft != [] ==> draft[0].path == DRAFT_ROOM && WellFormed(draft[0].tree)
    ensures AllFit(done, VaultParts(vaults) + draft)
    decreases |vaults|
  {
    if vaults == [] {
      assert VaultParts(vaults) + draft == draft;
      DraftRoomFits(done, draft);
    } else {
      var rest := vaults[1..];
      TakenAfter(done, vaults);
      if vaults[0].1.None? {
        assert VaultParts(vaults) == VaultParts(rest);
        VaultsThenDraftRoomFit(done, rest, draft);
      } else {
        var part := Part(Vault, VaultPath(vaults[0].0), vaults[0].1.value);
        VaultFits(done, vaults);
        VaultsThenDraftRoomFit(done + [VaultPath(vaults[0].0)], rest, draft);
        VaultPartsHead(vaults, draft);
        AllFitCons(part, done, VaultParts(rest) + draft);
      }
    }
  }

  lemma DraftRoomFits(done: seq<Path>, draft: seq<Part>)
    requires forall j | 0 <= j < |done| :: TakenBefore(done[j], [])
    requires |draft| <= 1
    requires draft != [] ==> draft[0].path == DRAFT_ROOM && WellFormed(draft[0].tree)
    ensures AllFit(done, draft)
  {
    if draft != [] {
      FixedPathsApart("");
      forall j | 0 <= j < |done| ensures Apart(done[j], DRAFT_ROOM) {
        TakenApart(done[j], []);
      }
      assert draft[1..] == [];
    }
  }

  lemma VaultFits(done: seq<Path>, vaults: seq<(string, Option<Tree>)>)
    requires VaultsGood(vaults) && vaults != [] && vaults[0].1.Some?
    requires forall j | 0 <= j < |done| :: TakenBefore(done[j], vaults)
    ensures Fits(Part(Vault, VaultPath(vaults[0].0), vaults[0].1.value), done)
  {
    FixedPathsApart(vaults[0].0);
    forall j | 0 <= j < |done| ensures Apart(done[j], VaultPath(vaults[0].0)) {
      TakenApart(done[j], vaults);
    }
  }

  lemma TakenAfter(done: seq<Path>, vaults: seq<(string, Option<Tree>)>)
    requires VaultsGood(vaults) && vaults != []
    requires forall j | 0 <= j < |done| :: TakenBefore(done[j], vaults)
    ensures var more := done + [VaultPath(vaults[0].0)];
            forall j | 0 <= j < |more| :: TakenBefore(more[j], vaults[1..])
    ensures forall j | 0 <= j < |done| :: TakenBefore(done[j], vaults[1..])
  {
    var name, rest := vaults[0].0, vaults[1..];
    var more := done + [VaultPath(name)];
    forall j | 0 <= j < |done| ensures TakenBefore(done[j], rest) {
      TakenApart(done[j], vaults);
    }
    forall j | 0 <= j < |more| ensures TakenBefore(more[j], rest) {
      if j < |done| {
        assert more[j] == done[j];
      } else {
        assert forall i | 0 <= i < |rest| :: rest[i] == vaults[i + 1];
      }
    }
  }

  lemma LivePartsFit(live: Live)
    requires LiveGood(live)
    ensures AllFit([], Parts(live))
  {
    var draft := if live.draftRoom.None? then [] else [Part(DraftRoom, DRAFT_ROOM, live.draftRoom.value)];
    FixedPathsApart("");
    if live.lancedb.None? {
      VaultsThenDraftRoomFit([], live.vaults, draft);
      assert Parts(live) == VaultParts(live.vaults) + draft;
    } else {
      VaultsThenDraftRoomFit([LANCEDB], live.vaults, draft);
      var part := Part(Lancedb, LANCEDB, live.lancedb.value);
      assert Parts(live)[0] == part && Parts(live)[1..] == VaultParts(live.vaults) + draft;
      assert [] + [part.path] == [LANCEDB];
    }
  }

  lemma {:induction false} VaultPartsKind(vaults: seq<(string, Option<Tree>)>)
    ensures forall i | 0 <= i < |VaultParts(vaults)| :: VaultParts(vaults)[i].kind.Vault?
    decreases |vaults|
  {
    if vaults != [] {
      VaultPartsKind(vaults[1..]);
    }
  }

  lemma {:induction false} BindingOfTail(parts: seq<Part>, tables: seq<TableTag>, generation: Option<nat>)
    requires forall i | 0 <= i < |parts| :: !parts[i].kind.Lancedb?
    ensures Binding(PartItems(parts, tables, generation)) == None
    decreases |parts|
  {
    if parts != [] {
      PartItemsHead(parts, tables, generation);
      BindingOfTail(parts[1..], tables, generation);
    }
  }

  /** The manifest binds the snapshot's latest generation whenever it carries vectors. */
  lemma ManifestBinding(live: Live, sqlite: Item)
    requires sqlite.SqliteItem?
    ensures var items := [sqlite] + PartItems(Parts(live), live.tables, LatestGeneration(live.journal));
            && HasSqlite(items) && items != []
            && Binding(items) == if live.lancedb.Some? then LatestGeneration(live.journal) else None
  {
    var parts, generation := Parts(live), LatestGeneration(live.journal);
    var tail := PartItems(parts, live.tables, generation);
    var items := [sqlite] + tail;
    assert items[0] == sqlite && items[1..] == tail;
    VaultPartsKind(live.vaults);
    if live.lancedb.Some? {
      PartItemsHead(parts, live.tables, generation);
    } else {
      BindingOfTail(parts, live.tables, generation);
    }
  }

  lemma {:induction false} TablesOfTail(parts: seq<Part>, tables: seq<TableTag>, generation: Option<nat>)
    requires forall i | 0 <= i < |parts| :: !parts[i].kind.Lancedb?
    ensures ManifestTables(PartItems(parts, tables, generation)) == []
    decreases |parts|
  {
    if parts != [] {
      PartItemsHead(parts, tables, generation);
      TablesOfTail(parts[1..], tables, generation);
    }
  }

  /** The manifest of a live deployment yields exactly the tables that were tagged. */
  lemma ManifestTablesExact(live: Live, key: nat, nonce: nat)
    ensures ManifestTables(ManifestOf(live, key, nonce)) == if live.lancedb.Some? then live.tables else []
  {
    var items := ManifestOf(live, key, nonce);
    TablesOfParts(live, LatestGeneration(live.journal));
    assert items[1..] == PartItems(Parts(live), live.tables, LatestGeneration(live.journal));
    assert ManifestTables(items) == [] + ManifestTables(items[1..]);
  }

  lemma TablesOfParts(live: Live, generation: Option<nat>)
    ensures ManifestTables(PartItems(Parts(live), live.tables, generation))
         == if live.lancedb.Some? then live.tables else []
  {
    var parts := Parts(live);
    VaultPartsKind(live.vaults);
    if live.lancedb.Some? {
      PartItemsHead(parts, live.tables, generation);
      TablesOfTail(parts[1..], live.tables, generation);
    } else {
      TablesOfTail(parts, live.tables, generation);
    }
  }

  /** The set is as the backup run left it, as far as the manifest binds it. */
  ghost predicate SetIntact(set_: Tree, live: Live, key: nat, nonce: nat) {
    && IsFile(set_, SQLITE_ARTIFACT) && set_[SQLITE_ARTIFACT].content == Sealing(live, key, nonce)
    && AllIntact(set_, Parts(live))
  }

  lemma RestoredDatabaseStays(set_: Tree, live: Live, base: Tree)
    requires LiveGood(live) && WellFormed(set_) && base.Keys == {APP_DB} && base[APP_DB].File?
    ensures AllFit([], Parts(live)) && Confined(base, APP_DB, [])
    ensures var r := CopyParts(base, RestoredParts(set_, Parts(live)));
            APP_DB in r && r[APP_DB] == base[APP_DB]
  {
    LivePartsFit(live);
    RestoredFit(set_, [], Parts(live));
    CopiesConfined(base, APP_DB, [], RestoredParts(set_, Parts(live)));
  }

  /** Staging a set whose database item comes first, up to the generation check. */
  lemma DatabaseThenParts(set_: Tree, live: Live, db: Content, key: nat, nonce: nat, restoreKey: nat)
    requires LiveGood(live) && WellFormed(set_)
    ensures var sqlite := SqliteItem(SQLITE_ARTIFACT, Sha256(Sealed(key, nonce, db)));
            var r := StageItems(map[], set_, [sqlite] + PartItems(Parts(live), live.tables, LatestGeneration(live.journal)),
                                restoreKey);
            && (r.Ok? <==> && IsFile(set_, SQLITE_ARTIFACT)
                           && set_[SQLITE_ARTIFACT].content == Sealed(key, nonce, db) && restoreKey == key
                           && AllIntact(set_, Parts(live)))
            && (r.Ok? ==> && r.value == CopyParts(map[APP_DB := File(db)], RestoredParts(set_, Parts(live)))
                          && APP_DB in r.value && r.value[APP_DB] == File(db))
  {
    var parts, generation := Parts(live), LatestGeneration(live.journal);
    var sqlite := SqliteItem(SQLITE_ARTIFACT, Sha256(Sealed(key, nonce, db)));
    var items := [sqlite] + PartItems(parts, live.tables, generation);
    assert items[0] == sqlite && items[1..] == PartItems(parts, live.tables, generation);
    var first := StageItem(map[], set_, sqlite, restoreKey);
    if first.Ok? {
      assert first.value == map[APP_DB := File(db)];
      RestoredDatabaseStays(set_, live, first.value);
      PartsStage(first.value, set_, [], parts, live.tables, generation, restoreKey);
    }
  }

  /** Whatever has happened to a set since, restore accepts it exactly when the sealed database and
      every file of every tree are unchanged and the key is the sealing one. */
  lemma AcceptedExactlyWhenIntact(set_: Tree, live: Live, key: nat, nonce: nat, restoreKey: nat)
    requires LiveGood(live) && WellFormed(set_)
    ensures var r := StageSet(set_, ManifestOf(live, key, nonce), restoreKey);
            && (r.Ok? <==> SetIntact(set_, live, key, nonce) && restoreKey == key)
            && (r.Ok? ==> r.value == CopyParts(map[APP_DB := File(Database(live.rows, live.journal))],
                                               RestoredParts(set_, Parts(live))))
  {
    var db, items := Database(live.rows, live.journal), ManifestOf(live, key, nonce);
    DatabaseThenParts(set_, live, db, key, nonce, restoreKey);
    ManifestBinding(live, items[0]);
    var staged := StageItems(map[], set_, items, restoreKey);
    if staged.Ok? {
      assert staged.value[APP_DB] == File(db);
      assert GenerationAccepted(items, staged.value);
    }
  }

  lemma SetOfShape(live: Live, key: nat, nonce: nat)
    requires LiveGood(live)
    ensures WellFormed(SetOf(live, key, nonce)) && SetIntact(SetOf(live, key, nonce), live, key, nonce)
    ensures forall i | 0 <= i < |Parts(live)| ::
              Sub(SetOf(live, key, nonce), Parts(live)[i].path) == Parts(live)[i].tree
  {
    LivePartsFit(live);
    var base: Tree := map[SQLITE_ARTIFACT := File(Sealing(live, key, nonce))];
    var parts, s := Parts(live), SetOf(live, key, nonce);
    CopiesConfined(base, SQLITE_ARTIFACT, [], parts);
    CopiesWellFormed(base, parts, SQLITE_ARTIFACT, []);
    forall i | 0 <= i < |parts|
      ensures Sub(s, parts[i].path) == parts[i].tree && PartIntact(s, parts[i])
    {
      CopiesFound(base, SQLITE_ARTIFACT, [], parts, i);
      FittingPaths([], parts, i);
      CopiesPresent(base, parts, i);
      FoundIntact(s, parts[i]);
    }
  }

  lemma FoundIntact(s: Tree, part: Part)
    requires part.path in s && Sub(s, part.path) == part.tree
    ensures PartIntact(s, part)
  {
    forall p | IsFile(part.tree, p)
      ensures IsFile(s, part.path + p) && s[part.path + p] == part.tree[p]
    {
      assert p in Sub(s, part.path);
    }
  }

  lemma {:induction false} FittingPaths(done: seq<Path>, parts: seq<Part>, i: nat)
    requires AllFit(done, parts) && i < |parts|
    ensures parts[i].path != []
    decreases |parts|
  {
    if i > 0 {
      FittingPaths(done + [parts[0].path], parts[1..], i - 1);
    }
  }

  lemma {:induction false} CopiesPresent(t: Tree, parts: seq<Part>, i: nat)
    requires i < |parts| && parts[i].path != []
    ensures parts[i].path in CopyParts(t, parts)
    decreases |parts|
  {
    var part, rest := parts[0], parts[1..];
    var next := Graft(t, part.path, part.tree);
    CopyHead(t, parts);
    if i == 0 {
      assert part.path in Chain(part.path);
      CopiesKeep(next, rest, part.path);
    } else {
      CopiesPresent(next, rest, i - 1);
    }
  }

  lemma {:induction false} CopiesKeep(t: Tree, parts: seq<Part>, p: Path)
    requires p in t
    ensures p in CopyParts(t, parts)
    decreases |parts|
  {
    if parts != [] {
      CopiesKeep(Graft(t, parts[0].path, parts[0].tree), parts[1..], p);
    }
  }

  /** What a fresh set stages for a part: the part itself, except that the directories of a
      fileless vector tree are not recorded. */
  function Recovered(part: Part): Tree {
    if part.kind.Lancedb? && DigestTree(part.tree) == map[] then map[] else part.tree
  }

  /** A fresh set is accepted and stages the database snapshot and every tree, skeletons of
      fileless vault and draft-room trees included, and nothing else. */
  lemma BackupRestores(live: Live, key: nat, nonce: nat)
    requires LiveGood(live)
    ensures var r := StageSet(SetOf(live, key, nonce), ManifestOf(live, key, nonce), key);
            && r.Ok?
            && APP_DB in r.value && r.value[APP_DB] == File(Database(live.rows, live.journal))
            && Confined(r.value, APP_DB, PathsOf(Parts(live)))
            && forall i | 0 <= i < |Parts(live)| ::
                 Sub(r.value, Parts(live)[i].path) == Recovered(Parts(live)[i])
  {
    var set_, parts := SetOf(live, key, nonce), Parts(live);
    SetOfShape(live, key, nonce);
    AcceptedExactlyWhenIntact(set_, live, key, nonce, key);
    LivePartsFit(live);
    var base: Tree := map[APP_DB := File(Database(live.rows, live.journal))];
    RecoveredEverywhere(set_, base, parts);
  }

  lemma RecoveredAt(set_: Tree, base: Tree, parts: seq<Part>, i: nat)
    requires Confined(base, APP_DB, []) && i < |parts| && AllFit([], RestoredParts(set_, parts))
    requires Sub(set_, parts[i].path) == parts[i].tree
    ensures Sub(CopyParts(base, RestoredParts(set_, parts)), parts[i].path) == Recovered(parts[i])
  {
    var back := RestoredParts(set_, parts);
    assert back[i] == Restored(set_, parts[i]);
    CopiesFound(base, APP_DB, [], back, i);
    RestoredIsRecovered(set_, parts[i]);
  }

  lemma RestoredIsRecovered(set_: Tree, part: Part)
    requires Sub(set_, part.path) == part.tree
    ensures Restored(set_, part).tree == Recovered(part)
  {
  }

  lemma RecoveredEverywhere(set_: Tree, base: Tree, parts: seq<Part>)
    requires WellFormed(set_) && AllFit([], parts) && Confined(base, APP_DB, []) && APP_DB in base
    requires forall i | 0 <= i < |parts| :: Sub(set_, parts[i].path) == parts[i].tree
    ensures var r := CopyParts(base, RestoredParts(set_, parts));
            && APP_DB in r && r[APP_DB] == base[APP_DB]
            && Confined(r, APP_DB, PathsOf(parts))
            && forall i | 0 <= i < |parts| :: Sub(r, parts[i].path) == Recovered(parts[i])
  {
    var back := RestoredParts(set_, parts);
    RestoredFit(set_, [], parts);
    CopiesConfined(base, APP_DB, [], back);
    assert [] + PathsOf(back) == PathsOf(parts);
    forall i | 0 <= i < |parts|
      ensures Sub(CopyParts(base, back), parts[i].path) == Recovered(parts[i])
    {
      RecoveredAt(set_, base, parts, i);
    }
  }

  /** An interleaved set, whose database is newer than the generation its vector tree was bound to,
      is refused however its digests were refreshed. */
  lemma NewerDatabaseRefused(set_: Tree, live: Live, newer: Content, key: nat, nonce: nat, id: nat)
    requires LiveGood(live) && live.lancedb.Some? && LatestGeneration(live.journal).Some?
    requires newer.Database? && id in newer.journal && newer.journal[id]
    requires id > LatestGeneration(live.journal).value
    requires WellFormed(set_)
    ensures var sealed_ := Sealed(key, nonce, newer);
            StageSet(set_, [SqliteItem(SQLITE_ARTIFACT, Sha256(sealed_))]
                           + PartItems(Parts(live), live.tables, LatestGeneration(live.journal)), key).Err?
  {
    DatabaseThenParts(set_, live, newer, key, nonce, key);
    ManifestBinding(live, SqliteItem(SQLITE_ARTIFACT, Sha256(Sealed(key, nonce, newer))));
  }
}
