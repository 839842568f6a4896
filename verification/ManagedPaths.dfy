/** Which destination content a restore owns, and the walks over what it does not
    (scripts/restore.py). */
module ManagedPaths {
  import opened Trees

  const APP_DB: Path := ["app.db"]

  const SIDECARS: set<string> := {"app.db-wal", "app.db-shm", "app.db-journal"}

  /** `rel` equals or lies inside a managed root. */
  predicate Covered(rel: Path, roots: seq<Path>) {
    exists i | 0 <= i < |roots| :: roots[i] <= rel
  }

  /** `rel` is a proper ancestor of a managed root. */
  predicate Partial(rel: Path, roots: seq<Path>) {
    exists i | 0 <= i < |roots| :: rel < roots[i]
  }

  predicate DropsSidecars(roots: seq<Path>) {
    APP_DB in roots
  }

  predicate UnderSidecar(p: Path) {
    p != [] && p[0] in SIDECARS
  }

  /** The flat filter: content that must survive the swap. */
  predicate Kept(p: Path, roots: seq<Path>) {
    !Covered(p, roots) && !(DropsSidecars(roots) && UnderSidecar(p))
  }

  /** Every kept entry; a directory above a managed root comes with the root itself. */
  function Unmanaged(t: Tree, roots: seq<Path>): Tree {
    map p | p in t && Kept(p, roots) && !(t[p].Dir? && Partial(p, roots)) :: t[p]
  }

  /** Below a directory that is neither covered nor above a root, nothing is covered. */
  lemma NothingCoveredBelow(rel: Path, p: Path, roots: seq<Path>)
    requires rel <= p && !Covered(rel, roots) && !Partial(rel, roots)
    ensures !Covered(p, roots) && !Partial(p, roots)
  {
    forall i | 0 <= i < |roots|
      ensures !(roots[i] <= p) && !(p < roots[i])
    {
    }
  }

  /** Everything below a covered directory is covered. */
  lemma CoveredBelow(rel: Path, p: Path, roots: seq<Path>)
    requires rel <= p && Covered(rel, roots)
    ensures Covered(p, roots)
  {
    var i :| 0 <= i < |roots| && roots[i] <= rel;
    assert roots[i] <= p;
  }

  // ---- The pruned walk ----

  /** The entry at or above `p` in the listing of `prefix`. */
  predicate Below(prefix: Path, names: set<string>, p: Path) {
    prefix < p && p[|prefix|] in names
  }

  function Names(t: Tree, prefix: Path): set<string> {
    set p | p in t && |p| == |prefix| + 1 && prefix < p :: p[|prefix|]
  }

  lemma NamesCover(t: Tree, prefix: Path, p: Path)
    requires WellFormed(t) && p in t && prefix < p
    ensures p[|prefix|] in Names(t, prefix)
  {
    var e := p[..|prefix| + 1];
    assert |p| == |prefix| + 1 ==> e == p;
    assert e in t && prefix < e && e[|prefix|] == p[|prefix|];
  }

  /** What the walk of `prefix` has to deliver for the listed `names`. */
  function Selected(t: Tree, prefix: Path, names: set<string>, roots: seq<Path>): Tree {
    map p | p in Unmanaged(t, roots) && Below(prefix, names, p) :: t[p]
  }

  function Subtree(t: Tree, rel: Path): Tree {
    map p | p in t && rel <= p :: t[p]
  }

  /** Some bound on the length of every path of `t`. */
  lemma {:induction false} Bounded(t: Tree) returns (bound: nat)
    ensures forall p | p in t :: |p| <= bound
    decreases |t|
  {
    bound := 0;
    if p :| p in t {
      var rest := t - {p};
      var b := Bounded(rest);
      bound := if b < |p| then |p| else b;
      forall q | q in t ensures |q| <= bound {
        assert q != p ==> q in rest;
      }
    }
  }

  /** What the walk does with one listed name: skip it, descend, or copy it whole. */
  function Addition(t: Tree, prefix: Path, n: string, roots: seq<Path>): Tree {
    var rel := prefix + [n];
    if (DropsSidecars(roots) && prefix == [] && n in SIDECARS) || Covered(rel, roots) then map[]
    else if IsDir(t, rel) && Partial(rel, roots) then Selected(t, rel, Names(t, rel), roots)
    else Subtree(t, rel)
  }

  predicate WalksInto(prefix: Path, roots: seq<Path>) {
    !Covered(prefix, roots) && !(DropsSidecars(roots) && UnderSidecar(prefix))
  }

  lemma NameExists(t: Tree, prefix: Path, n: string)
    requires n in Names(t, prefix)
    ensures prefix + [n] in t
  {
    var p :| p in t && |p| == |prefix| + 1 && prefix < p && p[|prefix|] == n;
    assert p == prefix + [n];
  }

  /** An entry listed under `n` is the entry `prefix + [n]` or lies below it. */
  lemma EntryUnderName(t: Tree, prefix: Path, n: string, p: Path)
    requires WellFormed(t) && p in t && Below(prefix, {n}, p)
    ensures prefix + [n] <= p
    ensures p != prefix + [n] ==> IsDir(t, prefix + [n]) && Below(prefix + [n], Names(t, prefix + [n]), p)
  {
    var rel := prefix + [n];
    assert p[..|rel|] == rel;
    if p != rel {
      NamesCover(t, rel, p);
    }
  }

  lemma AdditionExact(t: Tree, prefix: Path, n: string, roots: seq<Path>, p: Path)
    requires WellFormed(t) && WalksInto(prefix, roots) && n in Names(t, prefix) && p in t
    ensures p in Addition(t, prefix, n, roots) <==> p in Unmanaged(t, roots) && Below(prefix, {n}, p)
  {
    var rel := prefix + [n];
    NameExists(t, prefix, n);
    assert rel <= p ==> Below(prefix, {n}, p);
    if Below(prefix, {n}, p) {
      EntryUnderName(t, prefix, n, p);
      assert p[0] == rel[0];
      if Covered(rel, roots) {
        CoveredBelow(rel, p, roots);
      } else if !Partial(rel, roots) {
        NothingCoveredBelow(rel, p, roots);
      }
    }
  }

  lemma SelectedName(t: Tree, prefix: Path, names: set<string>, n: string, roots: seq<Path>)
    requires WellFormed(t) && WalksInto(prefix, roots) && n in Names(t, prefix)
    ensures Selected(t, prefix, names + {n}, roots)
         == Selected(t, prefix, names, roots) + Addition(t, prefix, n, roots)
  {
    forall p | p in t
      ensures p in Addition(t, prefix, n, roots) <==> p in Unmanaged(t, roots) && Below(prefix, {n}, p)
    {
      AdditionExact(t, prefix, n, roots, p);
    }
    assert forall p | p in Addition(t, prefix, n, roots) :: p in t && Addition(t, prefix, n, roots)[p] == t[p];
  }

  lemma DescendsInto(t: Tree, prefix: Path, n: string, roots: seq<Path>)
    requires WalksInto(prefix, roots) && !Covered(prefix + [n], roots)
    requires !(DropsSidecars(roots) && prefix == [] && n in SIDECARS)
    ensures WalksInto(prefix + [n], roots)
  {
    assert prefix != [] ==> (prefix + [n])[0] == prefix[0];
  }

  /** The walk that copies unmanaged content into staging; `copied` is what it has written. */
  class UnmanagedCopy {
    const roots: seq<Path>
    var copied: Tree

    constructor (roots: seq<Path>)
      ensures this.roots == roots && copied == map[]
    {
      this.roots := roots;
      copied := map[];
    }

    method Walk(t: Tree, prefix: Path, ghost bound: nat)
      requires WellFormed(t) && forall p | p in t :: |p| <= bound
      requires |prefix| <= bound && WalksInto(prefix, roots)
      modifies this
      ensures copied == old(copied) + Selected(t, prefix, Names(t, prefix), roots)
      decreases bound - |prefix|
    {
      var todo := Names(t, prefix);
      ghost var done: set<string> := {};
      ghost var start := copied;
      while todo != {}
        invariant done + todo == Names(t, prefix) && done !! todo
        invariant copied == start + Selected(t, prefix, done, roots)
        decreases todo
      {
        var n :| n in todo;
        var rel := prefix + [n];
        NameExists(t, prefix, n);
        ghost var before := copied;
        if DropsSidecars(roots) && prefix == [] && n in SIDECARS {
        } else if Covered(rel, roots) {
        } else if IsDir(t, rel) && Partial(rel, roots) {
          DescendsInto(t, prefix, n, roots);
          Walk(t, rel, bound);
        } else {
          copied := copied + Subtree(t, rel);
        }
        assert copied == before + Addition(t, prefix, n, roots);
        CopiedStep(start, before, t, prefix, done, n, roots);
        todo, done := todo - {n}, done + {n};
      }
      assert done == Names(t, prefix);
    }
  }

  lemma CopiedStep(
    start: Tree, before: Tree, t: Tree, prefix: Path, done: set<string>, n: string, roots: seq<Path>
  )
    requires WellFormed(t) && WalksInto(prefix, roots) && n in Names(t, prefix)
    requires before == start + Selected(t, prefix, done, roots)
    ensures before + Addition(t, prefix, n, roots) == start + Selected(t, prefix, done + {n}, roots)
  {
    SelectedName(t, prefix, done, n, roots);
    MergeAssociative(start, Selected(t, prefix, done, roots), Addition(t, prefix, n, roots));
  }

  lemma MergeAssociative(a: Tree, b: Tree, c: Tree)
    ensures (a + b) + c == a + (b + c)
  {
  }

  lemma EmptyRootCoversAll(roots: seq<Path>)
    requires [] in roots
    ensures forall p :: Covered(p, roots)
  {
    forall p ensures Covered(p, roots) {
      var i :| 0 <= i < |roots| && roots[i] == [];
      assert roots[i] <= p;
    }
  }

  /** `_copy_unmanaged_into_staging`: the pruned walk delivers exactly the flat filter. */
  method CopyUnmanaged(t: Tree, roots: seq<Path>) returns (copied: Tree)
    requires WellFormed(t)
    ensures copied == Unmanaged(t, roots)
  {
    if [] in roots {
      EmptyRootCoversAll(roots);
      return map[];
    }
    ghost var bound := Bounded(t);
    var copier := new UnmanagedCopy(roots);
    copier.Walk(t, [], bound);
    forall p | p in t ensures Below([], Names(t, []), p) {
      NamesCover(t, [], p);
    }
    copied := copier.copied;
  }

  // ---- The space estimate ----

  function Size(c: Content): nat {
    match c
    case Bytes(data) => |data|
    case Database(rows, journal) => |rows| + |journal|
    case Sealed(_, _, plain) => 12 + Size(plain)
  }

  function EntrySize(e: Entry): nat {
    if e.File? then Size(e.content) else 0
  }

  /** Bytes held by the files of `t`. */
  ghost function TotalSize(t: Tree): nat
    decreases |t|
  {
    if t == map[] then 0
    else
      var p :| p in t;
      EntrySize(t[p]) + TotalSize(t - {p})
  }

  lemma {:induction false} TotalSizeWithout(t: Tree, p: Path)
    requires p in t
    ensures TotalSize(t) == EntrySize(t[p]) + TotalSize(t - {p})
    decreases |t|
  {
    var q :| q in t && TotalSize(t) == EntrySize(t[q]) + TotalSize(t - {q});
    if q != p {
      TotalSizeWithout(t - {q}, p);
      TotalSizeWithout(t - {p}, q);
      assert t - {q} - {p} == t - {p} - {q};
    }
  }

  lemma {:induction false} TotalSizeSum(a: Tree, b: Tree)
    requires a.Keys !! b.Keys
    ensures TotalSize(a + b) == TotalSize(a) + TotalSize(b)
    decreases |b|
  {
    if b == map[] {
      assert a + b == a;
    } else {
      var p :| p in b;
      var rest := b - {p};
      WithoutFromSecond(a, b, p);
      TotalSizeWithout(a + b, p);
      TotalSizeWithout(b, p);
      KeysShrink(b, p);
      TotalSizeSum(a, rest);
    }
  }

  /** A file of plain bytes weighs its length, and a directory nothing. */
  lemma OneEntrySize(p: Path, data: string)
    ensures TotalSize(map[p := File(Bytes(data))]) == |data|
    ensures TotalSize(map[p := Dir]) == 0
  {
    var file: Tree := map[p := File(Bytes(data))];
    var dir: Tree := map[p := Dir];
    TotalSizeWithout(file, p);
    TotalSizeWithout(dir, p);
    assert file - {p} == map[] && dir - {p} == map[];
  }

  lemma WithoutFromSecond(a: Tree, b: Tree, p: Path)
    requires a.Keys !! b.Keys && p in b
    ensures (a + b) - {p} == a + (b - {p}) && a.Keys !! (b - {p}).Keys && (a + b)[p] == b[p]
  {
  }

  lemma AdditionDisjoint(t: Tree, prefix: Path, names: set<string>, n: string, roots: seq<Path>)
    requires WellFormed(t) && WalksInto(prefix, roots) && n in Names(t, prefix) && n !in names
    ensures Selected(t, prefix, names, roots).Keys !! Addition(t, prefix, n, roots).Keys
  {
    forall p | p in t
      ensures p in Addition(t, prefix, n, roots) ==> p !in Selected(t, prefix, names, roots)
    {
      AdditionExact(t, prefix, n, roots, p);
    }
    assert forall p | p in Addition(t, prefix, n, roots) :: p in t;
  }

  /** `_unmanaged_bytes`: the walk that only adds up sizes. */
  class ByteCount {
    const roots: seq<Path>
    var total: nat

    constructor (roots: seq<Path>)
      ensures this.roots == roots && total == 0
    {
      this.roots := roots;
      total := 0;
    }

    /** Add up the files of one uncovered directory, or one uncovered file. */
    method AddSubtree(t: Tree)
      modifies this
      ensures total == old(total) + TotalSize(t)
    {
      var rest := t;
      ghost var start := total;
      while rest != map[]
        invariant total + TotalSize(rest) == start + TotalSize(t)
        decreases |rest|
      {
        var p :| p in rest;
        TotalSizeWithout(rest, p);
        KeysShrink(rest, p);
        total := total + EntrySize(rest[p]);
        rest := rest - {p};
      }
    }

    method Walk(t: Tree, prefix: Path, ghost bound: nat)
      requires WellFormed(t) && forall p | p in t :: |p| <= bound
      requires |prefix| <= bound && WalksInto(prefix, roots)
      modifies this
      ensures total == old(total) + TotalSize(Selected(t, prefix, Names(t, prefix), roots))
      decreases bound - |prefix|
    {
      var todo := Names(t, prefix);
      ghost var done: set<string> := {};
      ghost var start := total;
      assert Selected(t, prefix, done, roots) == map[];
      while todo != {}
        invariant done + todo == Names(t, prefix) && done !! todo
        invariant total == start + TotalSize(Selected(t, prefix, done, roots))
        decreases todo
      {
        var n :| n in todo;
        var rel := prefix + [n];
        NameExists(t, prefix, n);
        SelectedName(t, prefix, done, n, roots);
        AdditionDisjoint(t, prefix, done, n, roots);
        TotalSizeSum(Selected(t, prefix, done, roots), Addition(t, prefix, n, roots));
        ghost var before := total;
        if DropsSidecars(roots) && prefix == [] && n in SIDECARS {
        } else if Covered(rel, roots) {
        } else if IsDir(t, rel) && Partial(rel, roots) {
          DescendsInto(t, prefix, n, roots);
          Walk(t, rel, bound);
        } else {
          AddSubtree(Subtree(t, rel));
        }
        assert total == before + TotalSize(Addition(t, prefix, n, roots));
        todo, done := todo - {n}, done + {n};
      }
      assert done == Names(t, prefix);
    }
  }

  lemma KeysShrink(t: Tree, p: Path)
    requires p in t
    ensures |t - {p}| == |t| - 1
  {
    assert (t - {p}).Keys == t.Keys - {p};
  }

  /** The estimate counts exactly the bytes the copy will write. */
  method UnmanagedBytes(t: Tree, roots: seq<Path>) returns (total: nat)
    requires WellFormed(t)
    ensures total == TotalSize(Unmanaged(t, roots))
  {
    if [] in roots {
      EmptyRootCoversAll(roots);
      assert Unmanaged(t, roots) == map[];
      return 0;
    }
    ghost var bound := Bounded(t);
    var counter := new ByteCount(roots);
    counter.Walk(t, [], bound);
    forall p | p in t ensures Below([], Names(t, []), p) {
      NamesCover(t, [], p);
    }
    assert Selected(t, [], Names(t, []), roots) == Unmanaged(t, roots);
    total := counter.total;
  }
}
