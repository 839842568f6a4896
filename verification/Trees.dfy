/** Directory trees, flat: every entry below a root, by relative path. */
module Trees {
  type Path = seq<string>

  /** File contents. Encryption and databases are kept symbolic: only the sealing key opens a
      sealed snapshot, and a database is its rows plus its migration journal (id -> whether the
      row names an index generation). */
  datatype Content =
    | Bytes(data: string)
    | Database(rows: string, journal: map<nat, bool>)
    | Sealed(key: nat, nonce: nat, plain: Content)

  /** A collision-free digest. */
  datatype Digest = Sha256(content: Content)

  datatype Entry = Dir | File(content: Content)

  type Tree = map<Path, Entry>

  predicate IsDir(t: Tree, p: Path) {
    p in t && t[p].Dir?
  }

  predicate IsFile(t: Tree, p: Path) {
    p in t && t[p].File?
  }

  /** The root itself is not an entry, and every parent is a directory. */
  ghost predicate WellFormed(t: Tree) {
    && [] !in t
    && forall p, k | p in t && 0 < k < |p| :: IsDir(t, p[..k])
  }

  function Shifted(at: Path, s: Tree): (r: Tree)
    ensures forall q :: q in r <==> at <= q && q[|at|..] in s
    ensures forall q | q in r :: r[q] == s[q[|at|..]]
  {
    var keys := set p | p in s :: at + p;
    assert forall q | at <= q && q[|at|..] in s :: q in keys by {
      forall q: Path | at <= q && q[|at|..] in s ensures q in keys {
        assert q == at + q[|at|..];
      }
    }
    map q | q in keys :: s[q[|at|..]]
  }

  /** The tree below the directory `at`. */
  function Sub(t: Tree, at: Path): (r: Tree)
    ensures forall q :: q in r <==> q != [] && at + q in t
    ensures forall q | q in r :: r[q] == t[at + q]
  {
    var keys := set p | p in t && at < p :: p[|at|..];
    assert forall q | q != [] && at + q in t :: q in keys by {
      forall q: Path | q != [] && at + q in t ensures q in keys {
        assert at < at + q && (at + q)[|at|..] == q;
      }
    }
    assert forall p | p in t && at < p :: at + p[|at|..] == p;
    map q | q in keys :: t[at + q]
  }

  /** `at` and its parents, as directories. */
  function Chain(at: Path): (r: Tree)
    ensures forall q :: q in r <==> q != [] && q <= at
    ensures forall q | q in r :: r[q] == Dir
  {
    var keys := set k | 0 < k <= |at| :: at[..k];
    assert forall q | q != [] && q <= at :: q in keys by {
      forall q: Path | q != [] && q <= at ensures q in keys {
        assert at[..|q|] == q;
      }
    }
    map q | q in keys :: Dir
  }

  /** `t` with the tree `s` copied to the directory `at`, parents created. */
  function Graft(t: Tree, at: Path, s: Tree): Tree {
    t + Chain(at) + Shifted(at, s)
  }

  predicate Apart(a: Path, b: Path) {
    !(a <= b) && !(b <= a)
  }

  /** Two prefixes of one path are comparable. */
  lemma ApartAbove(a: Path, b: Path, p: Path)
    requires Apart(a, b) && b <= p
    ensures !(a <= p)
  {
  }

  /** What is copied to `at` is what is found at `at`. */
  lemma SubOfGraft(t: Tree, at: Path, s: Tree)
    requires [] !in s
    requires forall p | p in t :: !(at < p)
    ensures Sub(Graft(t, at, s), at) == s
  {
    forall q | q != []
      ensures at + q in Graft(t, at, s) <==> q in s
      ensures q in s ==> Graft(t, at, s)[at + q] == s[q]
    {
      assert (at + q)[|at|..] == q && at < at + q;
    }
  }

  /** A copy elsewhere changes no entry at or below `other`. */
  lemma EntryApart(t: Tree, at: Path, s: Tree, other: Path, p: Path)
    requires Apart(at, other) && other <= p
    ensures p in Graft(t, at, s) <==> p in t
    ensures p in t ==> Graft(t, at, s)[p] == t[p]
  {
    ApartAbove(at, other, p);
    assert p <= at ==> other <= at;
    assert p !in Chain(at) && p !in Shifted(at, s);
  }

  /** A copy elsewhere is not seen at `other`. */
  lemma SubApart(t: Tree, at: Path, s: Tree, other: Path)
    requires Apart(at, other)
    ensures Sub(Graft(t, at, s), other) == Sub(t, other)
  {
    var g := Graft(t, at, s);
    forall q
      ensures q in Sub(g, other) <==> q in Sub(t, other)
      ensures q in Sub(t, other) ==> Sub(g, other)[q] == Sub(t, other)[q]
    {
      EntryApart(t, at, s, other, other + q);
    }
  }
}
