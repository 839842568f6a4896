/** Backup sets: what scripts/backup_set.py writes and what scripts/restore.py accepts and stages. */
module BackupSets {
  import opened Wrappers
  import opened Trees
  import opened ManagedPaths

  datatype Kind = Lancedb | Vault | DraftRoom

  datatype TableTag = TableTag(table: string, tag: string)

  /** One item of backup_manifest.json. */
  datatype Item =
    | SqliteItem(path: Path, sha: Digest)
    | TreeItem(kind: Kind, path: Path, files: map<Path, Digest>, empty: bool, dirs: set<Path>,
               tables: seq<TableTag>, generation: Option<nat>)
    | UnknownItem(path: Path)

  datatype Refusal =
    | NoPath | ReservedName | ArtifactMissing | DigestMismatch | DecryptFailed | Unverifiable
    | Collision | UnknownKind | NoItems | GenerationMismatch

  const SQLITE_ARTIFACT: Path := ["app.db.enc"]

  /** `_managed_roots`: the database under its destination name, every tree under its path. */
  function ManagedRoots(items: seq<Item>): seq<Path> {
    if items == [] then []
    else
      var root := if items[0].SqliteItem? then APP_DB else items[0].path;
      (if root == [] then [] else [root]) + ManagedRoots(items[1..])
  }

  // ---- Staging ----

  /** A file stands where a directory would have to be. */
  predicate Blocked(t: Tree, at: Path) {
    exists k | 0 < k <= |at| :: IsFile(t, at[..k])
  }

  predicate AtOrAbove(q: Path, dirs: set<Path>) {
    exists d | d in dirs :: q <= d
  }

  /** The directories of `dirs` with their parents. */
  function Skeleton(dirs: set<Path>): (r: Tree)
    ensures forall q :: q in r <==> q != [] && AtOrAbove(q, dirs)
    ensures forall q | q in r :: r[q] == Dir
  {
    var keys := set d, k | d in dirs && 0 < k <= |d| :: d[..k];
    assert forall q :: q != [] && AtOrAbove(q, dirs) ==> q in keys by {
      forall q: Path | q != [] && AtOrAbove(q, dirs) ensures q in keys {
        var d :| d in dirs && q <= d;
        assert d[..|q|] == q;
      }
    }
    map q | q in keys :: Dir
  }

  predicate ListedFilesGood(set_: Tree, path: Path, files: map<Path, Digest>) {
    forall rel | rel in files ::
      IsFile(set_, path + rel) && Sha256(set_[path + rel].content) == files[rel]
  }

  predicate Reserved(path: Path) {
    |path| == 1 && (path[0] in SIDECARS || path == APP_DB)
  }

  /** Verify one item of the set and add it to the staged tree. */
  function StageItem(staged: Tree, set_: Tree, item: Item, key: nat): Result<Tree, Refusal> {
    if item.path == [] then Err(NoPath)
    else match item
      case SqliteItem(path, sha) =>
        if !IsFile(set_, path) then Err(ArtifactMissing)
        else
          var blob := set_[path].content;
          if Sha256(blob) != sha then Err(DigestMismatch)
          else if !blob.Sealed? || blob.key != key then Err(DecryptFailed)
          else if IsDir(staged, APP_DB) then Err(Collision)
          else Ok(staged[APP_DB := File(blob.plain)])
      case TreeItem(_, path, files, empty, dirs, _, _) =>
        if Reserved(path) then Err(ReservedName)
        else if path !in set_ then Err(ArtifactMissing)
        else if files == map[] then
          if !empty then Err(Unverifiable)
          else if Blocked(staged, path) || exists d | d in dirs :: Blocked(staged, path + d) then Err(Collision)
          else Ok(Graft(staged, path, Skeleton(dirs)))
        else if !ListedFilesGood(set_, path, files) then Err(DigestMismatch)
        else if path in staged || Blocked(staged, path) then Err(Collision)
        else Ok(Graft(staged, path, Sub(set_, path)))
      case UnknownItem(_) => Err(UnknownKind)
  }

  function StageItems(staged: Tree, set_: Tree, items: seq<Item>, key: nat): Result<Tree, Refusal>
    decreases |items|
  {
    if items == [] then Ok(staged)
    else
      var next := StageItem(staged, set_, items[0], key);
      if next.Err? then next else StageItems(next.value, set_, items[1..], key)
  }

  /** The tables a manifest binds, in order. */
  function ManifestTables(items: seq<Item>): seq<TableTag> {
    if items == [] then []
    else (if items[0].TreeItem? && items[0].kind.Lancedb? then items[0].tables else [])
         + ManifestTables(items[1..])
  }

  /** The generation the first vector item binds. */
  function Binding(items: seq<Item>): Option<nat> {
    if items == [] then None
    else if items[0].TreeItem? && items[0].kind.Lancedb? then items[0].generation
    else Binding(items[1..])
  }

  /** `_verify_generation_binding` on a staged tree. */
  predicate GenerationAccepted(items: seq<Item>, staged: Tree) {
    Binding(items).None? ||
    (&& IsFile(staged, APP_DB) && staged[APP_DB].content.Database?
     && var journal := staged[APP_DB].content.journal;
     && Binding(items).value in journal
     && forall id | id in journal && journal[id] :: id <= Binding(items).value)
  }

  predicate HasSqlite(items: seq<Item>) {
    exists i | 0 <= i < |items| :: items[i].SqliteItem?
  }

  /** Everything that is verified and staged before the destination is read or touched. */
  function StageSet(set_: Tree, items: seq<Item>, key: nat): Result<Tree, Refusal> {
    var staged := StageItems(map[], set_, items, key);
    if staged.Err? then staged
    else if items == [] then Err(NoItems)
    else if HasSqlite(items) && !GenerationAccepted(items, staged.value) then Err(GenerationMismatch)
    else staged
  }

  // ---- Writing a set ----

  /** One live tree and the place it takes in the set. */
  datatype Part = Part(kind: Kind, path: Path, tree: Tree)

  /** What a backup run reads. Absent trees are `None`. */
  datatype Live = Live(
    rows: string,
    journal: map<nat, bool>,
    lancedb: Option<Tree>,
    tables: seq<TableTag>,
    vaults: seq<(string, Option<Tree>)>,
    draftRoom: Option<Tree>
  )

  function VaultParts(vaults: seq<(string, Option<Tree>)>): seq<Part> {
    if vaults == [] then []
    else
      (if vaults[0].1.None? then [] else [Part(Vault, ["vaults", vaults[0].0], vaults[0].1.value)])
      + VaultParts(vaults[1..])
  }

  function Parts(live: Live): seq<Part> {
    (if live.lancedb.None? then [] else [Part(Lancedb, ["lancedb"], live.lancedb.value)])
    + VaultParts(live.vaults)
    + (if live.draftRoom.None? then [] else [Part(DraftRoom, ["draft-room"], live.draftRoom.value)])
  }

  function DigestTree(t: Tree): map<Path, Digest> {
    map p | p in t && t[p].File? :: Sha256(t[p].content)
  }

  function DirsOf(t: Tree): set<Path> {
    set p | p in t && t[p].Dir?
  }

  /** The newest index generation in a journal. */
  function LatestGeneration(journal: map<nat, bool>): (latest: Option<nat>)
    ensures latest.Some? ==> latest.value in journal && journal[latest.value]
    ensures forall id | id in journal && journal[id] :: latest.Some? && id <= latest.value
  {
    var ids := set id | id in journal && journal[id];
    assert forall id | id in journal && journal[id] :: id in ids;
    if ids == {} then None
    else
      GreatestExists(ids);
      var top :| top in ids && forall id | id in ids :: id <= top;
      Some(top)
  }

  lemma {:induction false} GreatestExists(ids: set<nat>)
    requires ids != {}
    ensures exists top :: top in ids && forall id | id in ids :: id <= top
  {
    var a :| a in ids;
    var rest := ids - {a};
    if rest == {} {
      assert ids == {a};
    } else {
      GreatestExists(rest);
      var b :| b in rest && forall id | id in rest :: id <= b;
      var top := if a < b then b else a;
      assert forall id | id in ids :: id == a || id in rest;
      assert top in ids && forall id | id in ids :: id <= top;
    }
  }

  /** `_tree_item`; only the vault and draft-room items record the skeleton of a fileless tree. */
  function PartItem(part: Part, tables: seq<TableTag>, generation: Option<nat>): Item {
    var files := DigestTree(part.tree);
    var vectors := part.kind.Lancedb?;
    TreeItem(part.kind, part.path, files, files == map[],
             if files == map[] && !vectors then DirsOf(part.tree) else {},
             if vectors then tables else [],
             if vectors then generation else None)
  }

  function PartItems(parts: seq<Part>, tables: seq<TableTag>, generation: Option<nat>): (items: seq<Item>)
    ensures |items| == |parts|
  {
    if parts == [] then []
    else [PartItem(parts[0], tables, generation)] + PartItems(parts[1..], tables, generation)
  }

  function CopyParts(t: Tree, parts: seq<Part>): Tree
    decreases |parts|
  {
    if parts == [] then t else CopyParts(Graft(t, parts[0].path, parts[0].tree), parts[1..])
  }

  function Sealing(live: Live, key: nat, nonce: nat): Content {
    Sealed(key, nonce, Database(live.rows, live.journal))
  }

  function ManifestOf(live: Live, key: nat, nonce: nat): seq<Item> {
    [SqliteItem(SQLITE_ARTIFACT, Sha256(Sealing(live, key, nonce)))]
    + PartItems(Parts(live), live.tables, LatestGeneration(live.journal))
  }

  function SetOf(live: Live, key: nat, nonce: nat): Tree {
    CopyParts(map[SQLITE_ARTIFACT := File(Sealing(live, key, nonce))], Parts(live))
  }
}
