/** `glob_to_regex` of scripts/check_secretscan.py and the proof that it preserves meaning. */
module GlobCompiler {
  import opened Paths
  import opened Regex
  import opened Globs
  import opened Wrappers

  /** Index of the first `c` in `p` at or after `i`, or |p|: `str.find`. */
  function Find(p: string, c: char, i: nat): (j: nat)
    requires i <= |p|
    ensures i <= j <= |p| && (j < |p| ==> p[j] == c)
    ensures forall k | i <= k < j :: p[k] != c
    decreases |p| - i
  {
    if i == |p| || p[i] == c then i else Find(p, c, i + 1)
  }

  predicate DelimitedDoubleStar(q: string, atSegmentStart: bool) {
    && atSegmentStart
    && |q| >= 2 && q[..2] == "**"
    && (|q| == 2 || q[2] == '/')
  }

  function ClassPiece(body: string): Regex {
    if body != "" && body[0] == '!' then Class(true, body[1..]) else Class(false, body)
  }

  /** The fragments for the rest `q` of the pattern body. */
  function BodyPieces(q: string, atSegmentStart: bool): seq<Regex>
    decreases |q|
  {
    if q == "" then []
    else if q[0] == '*' then
      if DelimitedDoubleStar(q, atSegmentStart) then
        if |q| == 2 then [ANY_RUN] else [SEGMENT_RUN] + BodyPieces(q[3..], true)
      else [STAR_RUN] + BodyPieces(q[1..], false)
    else if q[0] == '?' then [NotSlash] + BodyPieces(q[1..], false)
    else if q[0] == '[' && Find(q, ']', 1) < |q| then
      var close := Find(q, ']', 1);
      [ClassPiece(q[1..close])] + BodyPieces(q[close + 1..], false)
    else [Char(q[0])] + BodyPieces(q[1..], q[0] == '/')
  }

  predicate LeadsWithDoubleStar(p: string) {
    |p| >= 3 && p[..3] == "**/"
  }

  /** All fragments, in the order the compiler appends them. */
  function Compiled(pattern: string): seq<Regex> {
    var p := WithoutLeadingSlash(pattern);
    var q := if LeadsWithDoubleStar(p) then p[3..] else p;
    var body := WithoutTrailingSlash(q);
    var floats := LeadsWithDoubleStar(p) || (p == pattern && NoSlash(body));
    (if floats then [PREFIX_RUN] else [])
    + BodyPieces(body, true)
    + Tail(EndsInSlash(q))
  }

  function Tail(below: bool): seq<Regex> {
    if below then [DIR_TAIL] else []
  }

  // ---- Ordinary segments ----

  function SegmentPieces(g: string): seq<Regex> {
    if g == "" then [] else [Piece(g[0])] + SegmentPieces(g[1..])
  }

  function Piece(c: char): Regex {
    if c == '*' then STAR_RUN else if c == '?' then NotSlash else Char(c)
  }

  /** The fragments from a segment's end on. */
  function AfterSegment(rest: string): seq<Regex> {
    if rest == "" then [] else [Char('/')] + BodyPieces(rest[1..], true)
  }

  lemma OrdinaryCharacter(q: string, atSegmentStart: bool)
    requires q != "" && ClassFree(q) && !DelimitedDoubleStar(q, atSegmentStart)
    ensures BodyPieces(q, atSegmentStart) == [Piece(q[0])] + BodyPieces(q[1..], q[0] == '/')
  {
    var close := Find(q, ']', 1);
    assert close < |q| ==> q[close] == ']' && q[0] != '[';
  }

  lemma ClassFreeSuffix(p: string)
    requires p != "" && ClassFree(p)
    ensures ClassFree(p[1..])
  {
    forall i, j | 0 <= i < j < |p[1..]| ensures p[1..][i] == '[' ==> p[1..][j] != ']' {
      assert p[i + 1] == '[' ==> p[j + 1] != ']';
    }
  }

  lemma NotDelimited(g: string, rest: string, atSegmentStart: bool)
    requires g != "" && NoSlash(g) && (rest == "" || rest[0] == '/') && !(atSegmentStart && g == "**")
    ensures !DelimitedDoubleStar(g + rest, atSegmentStart)
  {
    var q := g + rest;
    if |g| == 1 {
      assert rest != "" ==> q[1] == '/';
      assert |q| >= 2 ==> q[..2][1] == q[1];
    } else if |g| == 2 {
      assert q[..2] == g;
    } else {
      assert q[2] == g[2] && g[2] in g;
    }
  }

  lemma {:induction false} PiecesOfSegment(g: string, rest: string, atSegmentStart: bool)
    requires NoSlash(g) && ClassFree(g + rest)
    requires rest == "" || rest[0] == '/'
    requires !(atSegmentStart && g == "**")
    ensures BodyPieces(g + rest, atSegmentStart) == SegmentPieces(g) + AfterSegment(rest)
  {
    var q := g + rest;
    if g == "" {
      assert q == rest;
      if q != "" {
        OrdinaryCharacter(q, atSegmentStart);
      }
    } else {
      assert q[1..] == g[1..] + rest;
      NotDelimited(g, rest, atSegmentStart);
      OrdinaryCharacter(q, atSegmentStart);
      assert q[0] == g[0] && g[0] in g;
      ClassFreeSuffix(q);
      PiecesOfSegment(g[1..], rest, false);
    }
  }

  lemma PieceStaysInside(c: char, t: string)
    requires c != '/' && Matches(Piece(c), t)
    ensures NoSlash(t)
  {
    StarRunMeaning(t);
  }

  lemma SegmentStep(g: string, t: string, j: nat)
    requires g != "" && j <= |t| && g[0] != '/'
    requires Matches(Piece(g[0]), t[..j]) && SegmentMatch(g[1..], t[j..])
    ensures SegmentMatch(g, t)
  {
    if g[0] != '*' {
      assert j == 1 && t[..1][0] == t[0];
    }
  }

  lemma SegmentUnstep(g: string, t: string) returns (j: nat)
    requires g != "" && SegmentMatch(g, t) && NoSlash(t)
    ensures j <= |t| && Matches(Piece(g[0]), t[..j]) && SegmentMatch(g[1..], t[j..])
  {
    if g[0] == '*' {
      j :| 0 <= j <= |t| && SegmentMatch(g[1..], t[j..]);
      StarRunMeaning(t[..j]);
    } else {
      j := 1;
      assert t[..1] == [t[0]] && t[0] in t;
    }
  }

  lemma SliceTwice(s: string, j: nat, k: nat)
    requires j <= k <= |s|
    ensures s[..k][..j] == s[..j] && s[..k][j..] == s[j..][..k - j] && s[j..][k - j..] == s[k..]
  {
  }

  lemma SegmentSoundStep(g: string, t: string, j: nat)
    requires g != "" && NoSlash(g) && j <= |t|
    requires Matches(Piece(g[0]), t[..j]) && SegmentMatch(g[1..], t[j..]) && NoSlash(t[j..])
    ensures SegmentMatch(g, t) && NoSlash(t)
  {
    SegmentStep(g, t, j);
    PieceStaysInside(g[0], t[..j]);
    assert t == t[..j] + t[j..];
  }

  lemma SegmentPiecesHead(g: string, rest: seq<Regex>)
    requires g != ""
    ensures var all := SegmentPieces(g) + rest;
            all != [] && all[0] == Piece(g[0]) && all[1..] == SegmentPieces(g[1..]) + rest
  {
    HeadThenRest(Piece(g[0]), SegmentPieces(g[1..]), rest);
  }

  lemma HeadThenRest(head: Regex, a: seq<Regex>, b: seq<Regex>)
    ensures var all := ([head] + a) + b;
            all != [] && all[0] == head && all[1..] == a + b
  {
  }

  lemma SegmentCompleteStep(g: string, s: string, k: nat) returns (j: nat)
    requires g != "" && NoSlash(g) && k <= |s| && NoSlash(s[..k]) && SegmentMatch(g, s[..k])
    ensures j <= k && Matches(Piece(g[0]), s[..j]) && NoSlash(g[1..])
    ensures NoSlash(s[j..][..k - j]) && SegmentMatch(g[1..], s[j..][..k - j]) && s[j..][k - j..] == s[k..]
  {
    j := SegmentUnstep(g, s[..k]);
    SliceTwice(s, j, k);
    assert s[..k] == s[..j] + s[j..][..k - j];
  }

  lemma {:induction false} SegmentSound(g: string, rest: seq<Regex>, s: string) returns (k: nat)
    requires NoSlash(g) && Accepts(SegmentPieces(g) + rest, s)
    ensures k <= |s| && NoSlash(s[..k]) && SegmentMatch(g, s[..k]) && Accepts(rest, s[k..])
  {
    if g == "" {
      assert SegmentPieces(g) + rest == rest;
      k := 0;
    } else {
      var all := SegmentPieces(g) + rest;
      assert all != [];
      var j := AcceptsSplit(all, s);
      SegmentPiecesHead(g, rest);
      var m := SegmentSound(g[1..], rest, s[j..]);
      k := j + m;
      SliceTwice(s, j, k);
      SegmentSoundStep(g, s[..k], j);
    }
  }

  lemma {:induction false} SegmentComplete(g: string, rest: seq<Regex>, s: string, k: nat)
    requires NoSlash(g) && k <= |s| && NoSlash(s[..k])
    requires SegmentMatch(g, s[..k]) && Accepts(rest, s[k..])
    ensures Accepts(SegmentPieces(g) + rest, s)
  {
    var all := SegmentPieces(g) + rest;
    if g == "" {
      assert all == rest && k == 0 && s[k..] == s;
    } else {
      var j := SegmentCompleteStep(g, s, k);
      SegmentComplete(g[1..], rest, s[j..], k - j);
      SegmentPiecesHead(g, rest);
      AcceptsAt(all, s, j);
    }
  }

  // ---- Fragments that stop at a segment boundary ----

  /** Where the segments from `j` on start in the joined path. */
  function Boundary(ps: seq<string>, j: nat): nat
    requires j < |ps|
  {
    if j == 0 then 0 else |ps[0]| + 1 + Boundary(ps[1..], j - 1)
  }

  lemma {:induction false} BoundaryCuts(ps: seq<string>, j: nat)
    requires Normal(ps) && j < |ps|
    ensures Boundary(ps, j) <= |Join(ps)| && Join(ps)[Boundary(ps, j)..] == Join(ps[j..])
    ensures j > 0 ==> Boundary(ps, j) > 0 && Join(ps)[Boundary(ps, j) - 1] == '/'
  {
    if j == 0 {
      assert ps[0..] == ps;
    } else {
      var s, n := Join(ps), |ps[0]| + 1;
      var m := Boundary(ps[1..], j - 1);
      JoinShape(ps);
      BoundaryCuts(ps[1..], j - 1);
      assert ps[1..][j - 1..] == ps[j..];
      assert s[n..][m..] == s[n + m..];
      assert m > 0 ==> s[n..][m - 1] == s[n + m - 1];
    }
  }

  lemma {:induction false} SegmentRunReaches(ps: seq<string>, j: nat)
    requires Normal(ps) && j < |ps| && Boundary(ps, j) <= |Join(ps)|
    ensures Matches(SEGMENT_RUN, Join(ps)[..Boundary(ps, j)])
  {
    if j > 0 {
      var s, n, m := Join(ps), |ps[0]| + 1, Boundary(ps[1..], j - 1);
      var t := s[..n + m];
      JoinShape(ps);
      assert s[n..] == Join(ps[1..]);
      SegmentRunReaches(ps[1..], j - 1);
      SliceTwice(s, n, n + m);
      assert t[..n][..n - 1] == ps[0] && t[..n][n - 1] == '/';
      SegmentMeaning(t[..n]);
      assert Matches(SEGMENT_RUN.one, t[..n]) && Matches(SEGMENT_RUN, t[n..]);
    }
  }

  /** Every slash of a normal path ends a segment. */
  lemma {:induction false} SlashIsBoundary(ps: seq<string>, k: nat) returns (j: nat)
    requires Normal(ps) && k <= |Join(ps)| && (k == 0 || Join(ps)[k - 1] == '/')
    ensures j < |ps| && k == Boundary(ps, j)
  {
    if k == 0 {
      j := 0;
    } else {
      var s := Join(ps);
      if |ps| == 1 {
        assert false;
      } else {
        var n := |ps[0]|;
        JoinShape(ps);
        if k - 1 < n {
          assert false;
        } else {
          assert k > n + 1 ==> Join(ps[1..])[k - n - 2] == s[k - 1];
          var i := SlashIsBoundary(ps[1..], k - n - 1);
          j := i + 1;
        }
      }
    }
  }

  lemma {:induction false} SegmentRunEnds(s: string)
    requires Matches(SEGMENT_RUN, s)
    ensures s == "" || s[|s| - 1] == '/'
    decreases |s|
  {
    if s != "" {
      var k :| 0 < k <= |s| && Matches(SEGMENT_RUN.one, s[..k]) && Matches(SEGMENT_RUN, s[k..]);
      SegmentMeaning(s[..k]);
      SegmentRunEnds(s[k..]);
    }
  }

  predicate NewlineFree(ps: seq<string>) {
    '\n' !in Join(ps)
  }

  predicate SkipsLeading(run: Regex) {
    run == PREFIX_RUN || run == SEGMENT_RUN
  }

  /** Both runs that skip leading segments stop exactly at segment boundaries. */
  lemma RunStops(run: Regex, ps: seq<string>, k: nat) returns (j: nat)
    requires SkipsLeading(run) && Normal(ps) && k <= |Join(ps)| && Matches(run, Join(ps)[..k])
    ensures j < |ps| && Join(ps)[k..] == Join(ps[j..])
  {
    var t := Join(ps)[..k];
    if run == PREFIX_RUN {
      PrefixRunMeaning(t);
    } else {
      SegmentRunEnds(t);
    }
    assert k > 0 ==> t[|t| - 1] == Join(ps)[k - 1];
    j := SlashIsBoundary(ps, k);
    BoundaryCuts(ps, j);
  }

  lemma RunReaches(run: Regex, ps: seq<string>, j: nat)
    requires SkipsLeading(run) && Normal(ps) && NewlineFree(ps) && j < |ps|
    ensures Boundary(ps, j) <= |Join(ps)| && Matches(run, Join(ps)[..Boundary(ps, j)])
    ensures Join(ps)[Boundary(ps, j)..] == Join(ps[j..])
  {
    BoundaryCuts(ps, j);
    if run == PREFIX_RUN {
      PrefixRunMeaning(Join(ps)[..Boundary(ps, j)]);
    } else {
      SegmentRunReaches(ps, j);
    }
  }

  lemma SkipsSegments(run: Regex, rest: seq<Regex>, ps: seq<string>)
    requires SkipsLeading(run) && Normal(ps) && NewlineFree(ps)
    ensures Accepts([run] + rest, Join(ps)) <==> exists j | 0 <= j < |ps| :: Accepts(rest, Join(ps[j..]))
  {
    var s, all := Join(ps), [run] + rest;
    assert all[1..] == rest;
    if Accepts(all, s) {
      var k := AcceptsSplit(all, s);
      var j := RunStops(run, ps, k);
      assert Accepts(rest, Join(ps[j..]));
    }
    if j :| 0 <= j < |ps| && Accepts(rest, Join(ps[j..])) {
      RunReaches(run, ps, j);
      AcceptsAt(all, s, Boundary(ps, j));
    }
  }

  // ---- The body of the pattern ----

  lemma NormalSuffix(ps: seq<string>, j: nat)
    requires Normal(ps) && NewlineFree(ps) && j < |ps|
    ensures Normal(ps[j..]) && NewlineFree(ps[j..])
  {
    BoundaryCuts(ps, j);
  }

  ghost predicate Segmented(gs: seq<string>) {
    |gs| > 0 && (forall i | 0 <= i < |gs| :: NoSlash(gs[i])) && ClassFree(Join(gs))
  }

  lemma SegmentedSuffix(gs: seq<string>)
    requires Segmented(gs) && |gs| > 1
    ensures Segmented(gs[1..])
    ensures Join(gs) == gs[0] + "/" + Join(gs[1..])
  {
    var s, t, n := Join(gs), Join(gs[1..]), |gs[0]| + 1;
    TextAfter(gs[0], "/", t);
    ClassFreePart(s, n, |s|);
    forall i | 0 <= i < |gs[1..]| ensures NoSlash(gs[1..][i]) {
      assert gs[1..][i] == gs[i + 1];
    }
  }

  lemma TextAfter(a: string, b: string, c: string)
    ensures var s := a + b + c;
            s[|a| + |b|..|s|] == c
  {
  }

  /** The first segment of the pattern, when ordinary, consumes the first segment of the path. */
  lemma OrdinarySegment(g: string, rest: seq<Regex>, ps: seq<string>)
    requires NoSlash(g) && Normal(ps)
    ensures Accepts(SegmentPieces(g) + ([Char('/')] + rest), Join(ps)) <==>
            |ps| > 1 && SegmentMatch(g, ps[0]) && Accepts(rest, Join(ps[1..]))
  {
    var s, next := Join(ps), [Char('/')] + rest;
    if Accepts(SegmentPieces(g) + next, s) {
      var k := SegmentSound(g, next, s);
      AcceptsChar('/', rest, s[k..]);
      FirstSegment(ps, k);
      assert s[k..][1..] == s[k + 1..];
    }
    if |ps| > 1 && SegmentMatch(g, ps[0]) && Accepts(rest, Join(ps[1..])) {
      var k := |ps[0]|;
      JoinShape(ps);
      assert s[k..][1..] == s[k + 1..];
      AcceptsChar('/', rest, s[k..]);
      SegmentComplete(g, next, s, k);
    }
  }

  lemma TailAccepts(below: bool, s: string)
    requires '\n' !in s
    ensures Accepts(Tail(below), s) <==> s == "" || (below && s[0] == '/')
  {
    if below {
      AcceptsLast(DIR_TAIL, s);
      DirTailMeaning(s);
    }
  }

  lemma LastSegment(g: string, ps: seq<string>, below: bool)
    requires NoSlash(g) && ClassFree(g) && g != "**" && Normal(ps) && NewlineFree(ps)
    ensures Accepts(BodyPieces(g, true) + Tail(below), Join(ps)) <==> SegmentsMatch([g], ps, below)
  {
    var s := Join(ps);
    assert g + "" == g;
    PiecesOfSegment(g, "", true);
    assert SegmentPieces(g) + [] == SegmentPieces(g);
    if Accepts(SegmentPieces(g) + Tail(below), s) {
      var k := SegmentSound(g, Tail(below), s);
      TailAccepts(below, s[k..]);
      FirstSegment(ps, k);
      assert SegmentsMatch([g], ps, below);
    }
    if SegmentsMatch([g], ps, below) {
      var k := |ps[0]|;
      assert SegmentsMatch([], ps[1..], below);
      if |ps| == 1 {
        assert s[..k] == ps[0];
      } else {
        JoinShape(ps);
      }
      TailAccepts(below, s[k..]);
      SegmentComplete(g, Tail(below), s, k);
    }
  }

  lemma LastDoubleStar(ps: seq<string>, below: bool)
    requires NewlineFree(ps)
    ensures Accepts(BodyPieces("**", true) + Tail(below), Join(ps))
  {
    var s := Join(ps);
    var all := BodyPieces("**", true) + Tail(below);
    assert DelimitedDoubleStar("**", true);
    assert all[0] == ANY_RUN && all[1..] == Tail(below);
    AnyRunMeaning(s);
    TailAccepts(below, "");
    assert s[..|s|] == s && s[|s|..] == "";
    AcceptsAt(all, s, |s|);
  }

  lemma DoubleStarPieces(gs: seq<string>)
    requires Segmented(gs) && |gs| > 1 && gs[0] == "**"
    ensures BodyPieces(Join(gs), true) == [SEGMENT_RUN] + BodyPieces(Join(gs[1..]), true)
  {
    SegmentedSuffix(gs);
    var q := Join(gs);
    assert q[..2] == "**" && q[3..] == Join(gs[1..]);
    assert DelimitedDoubleStar(q, true);
  }

  lemma OrdinaryPieces(gs: seq<string>)
    requires Segmented(gs) && |gs| > 1 && gs[0] != "**"
    ensures BodyPieces(Join(gs), true)
         == SegmentPieces(gs[0]) + ([Char('/')] + BodyPieces(Join(gs[1..]), true))
  {
    var g, q := gs[0], Join(gs[1..]);
    var slashRest := "/" + q;
    assert Join(gs) == g + slashRest by { SegmentedSuffix(gs); }
    assert slashRest[1..] == q;
    PiecesOfSegment(g, slashRest, true);
  }

  lemma SkipStep(gs: seq<string>, ps: seq<string>, below: bool, rest: seq<Regex>)
    requires |gs| > 1 && gs[0] == "**" && Normal(ps) && NewlineFree(ps)
    requires forall j | 0 <= j < |ps| :: Accepts(rest, Join(ps[j..])) <==> SegmentsMatch(gs[1..], ps[j..], below)
    ensures Accepts([SEGMENT_RUN] + rest, Join(ps)) <==> SegmentsMatch(gs, ps, below)
  {
    SkipsSegments(SEGMENT_RUN, rest, ps);
    NothingLeftFails(gs[1..], below);
    assert ps[|ps|..] == [];
    if SegmentsMatch(gs, ps, below) {
      var j :| 0 <= j <= |ps| && SegmentsMatch(gs[1..], ps[j..], below);
      assert j < |ps| && Accepts(rest, Join(ps[j..]));
    }
  }

  lemma OrdinaryStep(gs: seq<string>, ps: seq<string>, below: bool, rest: seq<Regex>)
    requires |gs| > 1 && gs[0] != "**" && NoSlash(gs[0]) && Normal(ps)
    requires |ps| > 1 ==> (Accepts(rest, Join(ps[1..])) <==> SegmentsMatch(gs[1..], ps[1..], below))
    ensures Accepts(SegmentPieces(gs[0]) + ([Char('/')] + rest), Join(ps)) <==> SegmentsMatch(gs, ps, below)
  {
    OrdinarySegment(gs[0], rest, ps);
    NothingLeftFails(gs[1..], below);
    assert |ps| == 1 ==> ps[1..] == [];
  }

  /** The compiled body accepts exactly the paths the segment matcher does. */
  lemma {:induction false} BodyPreservesMeaning(gs: seq<string>, ps: seq<string>, below: bool)
    requires Segmented(gs) && Normal(ps) && NewlineFree(ps)
    ensures Accepts(BodyPieces(Join(gs), true) + Tail(below), Join(ps)) <==> SegmentsMatch(gs, ps, below)
    decreases |gs|
  {
    if |gs| == 1 {
      assert gs == [gs[0]];
      if gs[0] == "**" {
        LastDoubleStar(ps, below);
      } else {
        LastSegment(gs[0], ps, below);
      }
    } else {
      SegmentedSuffix(gs);
      var rest := BodyPieces(Join(gs[1..]), true) + Tail(below);
      forall j | 0 <= j < |ps|
        ensures Accepts(rest, Join(ps[j..])) <==> SegmentsMatch(gs[1..], ps[j..], below)
      {
        NormalSuffix(ps, j);
        BodyPreservesMeaning(gs[1..], ps[j..], below);
      }
      if gs[0] == "**" {
        DoubleStarPieces(gs);
        SkipStep(gs, ps, below, rest);
        assert BodyPieces(Join(gs), true) + Tail(below) == [SEGMENT_RUN] + rest;
      } else {
        OrdinaryPieces(gs);
        OrdinaryStep(gs, ps, below, rest);
        assert BodyPieces(Join(gs), true) + Tail(below) == SegmentPieces(gs[0]) + ([Char('/')] + rest);
      }
    }
  }

  // ---- Whole patterns ----

  lemma FloatingBody(gs: seq<string>, ps: seq<string>, below: bool)
    requires Segmented(gs) && Normal(ps) && NewlineFree(ps)
    ensures Accepts([PREFIX_RUN] + BodyPieces(Join(gs), true) + Tail(below), Join(ps))
            <==> SegmentsMatch(["**"] + gs, ps, below)
  {
    var rest := BodyPieces(Join(gs), true) + Tail(below);
    var spec := ["**"] + gs;
    assert spec[1..] == gs && spec != ["**"];
    forall j | 0 <= j < |ps|
      ensures Accepts(rest, Join(ps[j..])) <==> SegmentsMatch(gs, ps[j..], below)
    {
      NormalSuffix(ps, j);
      BodyPreservesMeaning(gs, ps[j..], below);
    }
    SkipsSegments(PREFIX_RUN, rest, ps);
    assert [PREFIX_RUN] + BodyPieces(Join(gs), true) + Tail(below) == [PREFIX_RUN] + rest;
    NothingLeftFails(gs, below);
    assert ps[|ps|..] == [];
    if SegmentsMatch(spec, ps, below) {
      var j :| 0 <= j <= |ps| && SegmentsMatch(gs, ps[j..], below);
      assert j < |ps| && Accepts(rest, Join(ps[j..]));
    }
  }

  lemma ClassFreePart(p: string, from: nat, to: nat)
    requires ClassFree(p) && from <= to <= |p|
    ensures ClassFree(p[from..to])
  {
    var q := p[from..to];
    forall i, j | 0 <= i < j < |q| ensures q[i] == '[' ==> q[j] != ']' {
      assert p[from + i] == '[' ==> p[from + j] != ']';
    }
  }

  lemma SplitSegmented(q: string)
    requires ClassFree(q)
    ensures Segmented(Split(q)) && (NoSlash(q) <==> |Split(q)| == 1)
  {
    var n := FirstSlash(q);
    if n < |q| {
      assert q[n] == '/';
    }
  }

  lemma SplitAfterDoubleStar(body: string)
    ensures Split("**/" + body) == ["**"] + Split(body)
  {
    var p := "**/" + body;
    var n := FirstSlash(p);
    assert p[2] == '/';
    assert p[n] == '/' && n == 2;
    assert p[..2] == "**" && p[3..] == body;
  }

  /** The two patterns that leave nothing to compile once their `**` and slash are stripped. */
  predicate OnlyDoubleStarSlash(pattern: string) {
    pattern == "**/" || pattern == "/**/"
  }

  lemma BodyClassFree(pattern: string)
    requires ClassFree(pattern) && LeadsWithDoubleStar(WithoutLeadingSlash(pattern))
    ensures ClassFree(WithoutTrailingSlash(WithoutLeadingSlash(pattern)[3..]))
  {
    var p := WithoutLeadingSlash(pattern);
    var q := p[3..];
    var k := |pattern| - |p|;
    ClassFreePart(pattern, k, |pattern|);
    assert pattern[k..|pattern|] == p;
    ClassFreePart(p, 3, |p|);
    assert p[3..|p|] == q;
    var body := WithoutTrailingSlash(q);
    ClassFreePart(q, 0, |body|);
    assert q[0..|body|] == body;
  }

  lemma DoubleStarFirst(pattern: string, ps: seq<string>)
    requires ClassFree(pattern) && !OnlyDoubleStarSlash(pattern)
    requires Normal(ps) && NewlineFree(ps) && LeadsWithDoubleStar(WithoutLeadingSlash(pattern))
    ensures Accepts(Compiled(pattern), Join(ps)) <==> GlobMatches(pattern, ps)
  {
    var p := WithoutLeadingSlash(pattern);
    var q := p[3..];
    assert p == "**/" + q;
    assert q != "" by { assert q == "" ==> p == "**/"; }
    var body := WithoutTrailingSlash(q);
    assert WithoutTrailingSlash(p) == "**/" + body;
    BodyClassFree(pattern);
    SplitSegmented(body);
    SplitAfterDoubleStar(body);
    FloatingBody(Split(body), ps, EndsInSlash(q));
    assert GlobMatches(pattern, ps) == SegmentsMatch(["**"] + Split(body), ps, EndsInSlash(q));
  }

  lemma StrippedBodySegmented(pattern: string)
    requires ClassFree(pattern)
    ensures var body := WithoutTrailingSlash(WithoutLeadingSlash(pattern));
            Segmented(Split(body)) && (NoSlash(body) <==> |Split(body)| == 1)
  {
    var p := WithoutLeadingSlash(pattern);
    var body, k := WithoutTrailingSlash(p), |pattern| - |p|;
    assert pattern[k..k + |body|] == body;
    ClassFreePart(pattern, k, k + |body|);
    SplitSegmented(body);
  }

  lemma CompiledOrdinary(pattern: string)
    requires !LeadsWithDoubleStar(WithoutLeadingSlash(pattern))
    ensures var p := WithoutLeadingSlash(pattern);
            var body, below := WithoutTrailingSlash(p), EndsInSlash(p);
            Compiled(pattern) == if p == pattern && NoSlash(body)
                                 then [PREFIX_RUN] + BodyPieces(body, true) + Tail(below)
                                 else BodyPieces(body, true) + Tail(below)
  {
  }

  lemma OrdinaryFirst(pattern: string, ps: seq<string>)
    requires ClassFree(pattern)
    requires Normal(ps) && NewlineFree(ps) && !LeadsWithDoubleStar(WithoutLeadingSlash(pattern))
    ensures Accepts(Compiled(pattern), Join(ps)) <==> GlobMatches(pattern, ps)
  {
    var p := WithoutLeadingSlash(pattern);
    var gs := Split(WithoutTrailingSlash(p));
    StrippedBodySegmented(pattern);
    CompiledOrdinary(pattern);
    if p == pattern && |gs| == 1 {
      FloatingBody(gs, ps, EndsInSlash(p));
    } else {
      BodyPreservesMeaning(gs, ps, EndsInSlash(p));
    }
  }

  lemma CompilePreservesMeaning(pattern: string, ps: seq<string>)
    requires ClassFree(pattern) && !OnlyDoubleStarSlash(pattern)
    requires Normal(ps) && NewlineFree(ps)
    ensures Accepts(Compiled(pattern), Join(ps)) <==> GlobMatches(pattern, ps)
  {
    if LeadsWithDoubleStar(WithoutLeadingSlash(pattern)) {
      DoubleStarFirst(pattern, ps);
    } else {
      OrdinaryFirst(pattern, ps);
    }
  }

  /** `**` + `/` ought to match every path and compiles to a regex that matches none. */
  lemma DoubleStarSlashMatchesNothing(pattern: string, ps: seq<string>)
    requires OnlyDoubleStarSlash(pattern) && Normal(ps) && NewlineFree(ps)
    ensures GlobMatches(pattern, ps) && !Accepts(Compiled(pattern), Join(ps))
  {
    DoubleStarSlashMeansAny(pattern, ps);
    DoubleStarSlashCompiled(pattern);
    AcceptsLast(PREFIX_RUN, Join(ps));
    PrefixRunMeaning(Join(ps));
    JoinEnds(ps);
  }

  lemma DoubleStarSlashMeansAny(pattern: string, ps: seq<string>)
    requires OnlyDoubleStarSlash(pattern) && Normal(ps)
    ensures GlobMatches(pattern, ps)
  {
    var p := WithoutLeadingSlash(pattern);
    assert p == "**/" && WithoutTrailingSlash(p) == "**";
    assert Split("**") == ["**"] by { assert FirstSlash("**") == 2; }
    var gs := if p != pattern then ["**"] else ["**"] + ["**"];
    assert SegmentsMatch(["**"], ps[0..], true) by { assert ps[0..] == ps; }
    if p == pattern {
      assert gs[1..] == ["**"];
    }
  }

  lemma DoubleStarSlashCompiled(pattern: string)
    requires OnlyDoubleStarSlash(pattern)
    ensures Compiled(pattern) == [PREFIX_RUN]
  {
    var p := WithoutLeadingSlash(pattern);
    assert p == "**/" && p[3..] == "";
  }

  /** For class-free patterns, compilation preserves meaning on every normal path except for
      exactly two patterns. */
  lemma MeaningPreservedExactly(pattern: string)
    requires ClassFree(pattern)
    ensures (forall ps | Normal(ps) && NewlineFree(ps) ::
               Accepts(Compiled(pattern), Join(ps)) <==> GlobMatches(pattern, ps))
            <==> !OnlyDoubleStarSlash(pattern)
  {
    if OnlyDoubleStarSlash(pattern) {
      var ps := ["a"];
      DoubleStarSlashMatchesNothing(pattern, ps);
      assert Normal(ps) && NewlineFree(ps);
    } else {
      forall ps | Normal(ps) && NewlineFree(ps)
        ensures Accepts(Compiled(pattern), Join(ps)) <==> GlobMatches(pattern, ps)
      {
        CompilePreservesMeaning(pattern, ps);
      }
    }
  }

  // ---- The compiler itself ----

  function AtSegmentStart(p: string, i: nat): bool
    requires i <= |p|
  {
    i == 0 || p[i - 1] == '/'
  }

  lemma FindShifts(p: string, c: char, i: nat, k: nat)
    requires i + k <= |p|
    ensures Find(p, c, i + k) == i + Find(p[i..], c, k)
    decreases |p| - i - k
  {
    if i + k < |p| && p[i + k] != c {
      FindShifts(p, c, i, k + 1);
    }
  }

  /** The fragment emitted at index `i` and the index the loop goes on from. */
  function Emitted(p: string, i: nat): (e: (Regex, nat))
    requires i < |p|
    ensures i < e.1 <= |p|
  {
    var starStar := i + 1 < |p| && p[i + 1] == '*';
    var delimited := AtSegmentStart(p, i) && (i + 2 >= |p| || p[i + 2] == '/');
    var close := Find(p, ']', i + 1);
    if p[i] == '*' then
      if starStar && delimited then
        if i + 2 >= |p| then (ANY_RUN, i + 2) else (SEGMENT_RUN, i + 3)
      else (STAR_RUN, i + 1)
    else if p[i] == '?' then (NotSlash, i + 1)
    else if p[i] == '[' && close < |p| then (ClassPiece(p[i + 1..close]), close + 1)
    else (Char(p[i]), i + 1)
  }

  lemma EmittedStar(p: string, i: nat)
    requires i < |p| && p[i] == '*'
    ensures var (piece, next) := Emitted(p, i);
            BodyPieces(p[i..], AtSegmentStart(p, i)) == [piece] + BodyPieces(p[next..], AtSegmentStart(p, next))
  {
    var q, start, next := p[i..], AtSegmentStart(p, i), Emitted(p, i).1;
    assert |q| >= 2 ==> q[..2] == [q[0], q[1]];
    assert q[next - i..] == p[next..];
    if DelimitedDoubleStar(q, start) {
      assert |q| > 2 ==> next == i + 3 && AtSegmentStart(p, next);
    } else {
      assert next == i + 1 && !AtSegmentStart(p, next);
    }
  }

  lemma EmittedClass(p: string, i: nat)
    requires i < |p| && p[i] == '[' && Find(p, ']', i + 1) < |p|
    ensures var (piece, next) := Emitted(p, i);
            BodyPieces(p[i..], AtSegmentStart(p, i)) == [piece] + BodyPieces(p[next..], AtSegmentStart(p, next))
  {
    var close := Find(p, ']', i + 1);
    ClassStep(p, i, close);
    EmittedAtClass(p, i, close);
  }

  lemma EmittedAtClass(p: string, i: nat, close: nat)
    requires i < |p| && p[i] == '[' && Find(p, ']', i + 1) == close < |p|
    ensures Emitted(p, i).0 == ClassPiece(p[i + 1..close]) && Emitted(p, i).1 == close + 1
    ensures !AtSegmentStart(p, close + 1)
  {
  }

  lemma ClassStep(p: string, i: nat, close: nat)
    requires i < |p| && p[i] == '[' && Find(p, ']', i + 1) == close < |p|
    ensures BodyPieces(p[i..], AtSegmentStart(p, i)) == [ClassPiece(p[i + 1..close])] + BodyPieces(p[close + 1..], false)
  {
    FindShifts(p, ']', i, 1);
    SuffixSlices(p, i, close);
    ClassPieces(p[i..], AtSegmentStart(p, i), close - i, p[i + 1..close], p[close + 1..]);
  }

  lemma ClassPieces(q: string, atSegmentStart: bool, close: nat, body: string, rest: string)
    requires q != "" && q[0] == '[' && Find(q, ']', 1) == close < |q|
    requires q[1..close] == body && q[close + 1..] == rest
    ensures BodyPieces(q, atSegmentStart) == [ClassPiece(body)] + BodyPieces(rest, false)
  {
  }

  /** A character class becomes one fragment: negated when its body begins with an exclamation mark,
      which is then no member; the rest of the pattern is compiled after it. */
  lemma ClassCompiled(body: string, rest: string, atSegmentStart: bool)
    requires ']' !in body
    ensures var negated := body != "" && body[0] == '!';
            BodyPieces("[" + body + "]" + rest, atSegmentStart)
            == [Class(negated, if negated then body[1..] else body)] + BodyPieces(rest, false)
  {
    var q, close := "[" + body + "]" + rest, 1 + |body|;
    assert q[close] == ']';
    assert forall k | 1 <= k < close :: q[k] == body[k - 1];
    FindIs(q, ']', 1, close);
    assert q[1..close] == body && q[close + 1..] == rest;
    ClassPieces(q, atSegmentStart, close, body, rest);
  }

  lemma FindIs(p: string, c: char, i: nat, j: nat)
    requires i <= j < |p| && p[j] == c && forall k | i <= k < j :: p[k] != c
    ensures Find(p, c, i) == j
  {
  }

  lemma SuffixSlices(p: string, i: nat, j: nat)
    requires i < j < |p|
    ensures p[i..][1..j - i] == p[i + 1..j] && p[i..][j - i + 1..] == p[j + 1..]
  {
  }

  lemma EmittedStep(p: string, i: nat)
    requires i < |p|
    ensures var (piece, next) := Emitted(p, i);
            BodyPieces(p[i..], AtSegmentStart(p, i)) == [piece] + BodyPieces(p[next..], AtSegmentStart(p, next))
  {
    FindShifts(p, ']', i, 1);
    if p[i] == '*' {
      EmittedStar(p, i);
    } else if p[i] == '[' && Find(p, ']', i + 1) < |p| {
      EmittedClass(p, i);
    } else {
      assert p[i..][1..] == p[i + 1..];
    }
  }

  lemma EmittedProgress(p: string, i: nat, out: seq<Regex>)
    requires i < |p| && BodyPieces(p, true) == out + BodyPieces(p[i..], AtSegmentStart(p, i))
    ensures var (piece, next) := Emitted(p, i);
            BodyPieces(p, true) == out + [piece] + BodyPieces(p[next..], AtSegmentStart(p, next))
  {
    EmittedStep(p, i);
  }

  /** The index loop of the compiler over the stripped pattern. */
  method CompileBody(p: string) returns (out: seq<Regex>)
    ensures out == BodyPieces(p, true)
  {
    out := [];
    assert p[0..] == p;
    var i := 0;
    while i < |p|
      invariant 0 <= i <= |p|
      invariant BodyPieces(p, true) == out + BodyPieces(p[i..], AtSegmentStart(p, i))
      decreases |p| - i
    {
      EmittedProgress(p, i, out);
      ghost var done, emitted := out, Emitted(p, i);
      var c := p[i];
      if c == '*' {
        var beforeSlash := i == 0 || p[i - 1] == '/';
        var atEnd := i + 2 >= |p|;
        if i + 1 < |p| && p[i + 1] == '*' && beforeSlash && (atEnd || p[i + 2] == '/') {
          if atEnd {
            out := out + [ANY_RUN];
            i := i + 2;
          } else {
            out := out + [SEGMENT_RUN];
            i := i + 3;
          }
        } else {
          out := out + [STAR_RUN];
          i := i + 1;
        }
      } else if c == '?' {
        out := out + [NotSlash];
        i := i + 1;
      } else if c == '[' {
        var close := Find(p, ']', i + 1);
        if close == |p| {
          out := out + [Char(c)];
          i := i + 1;
        } else {
          out := out + [ClassPiece(p[i + 1..close])];
          i := close + 1;
        }
      } else {
        out := out + [Char(c)];
        i := i + 1;
      }
      assert out == done + [emitted.0] && i == emitted.1;
    }
  }

  lemma CompiledIs(pattern: string, whole: string, stripped: string, floats: bool)
    requires whole == WithoutLeadingSlash(pattern)
    requires stripped == if LeadsWithDoubleStar(whole) then whole[3..] else whole
    requires floats == (|| LeadsWithDoubleStar(whole)
                        || (!(pattern != "" && pattern[0] == '/') && '/' !in WithoutTrailingSlash(stripped)))
    ensures Compiled(pattern) == (if floats then [PREFIX_RUN] else [])
                                 + BodyPieces(WithoutTrailingSlash(stripped), true) + Tail(EndsInSlash(stripped))
  {
  }

  method GlobToRegex(pattern: string) returns (out: seq<Regex>)
    ensures out == Compiled(pattern)
  {
    var leadingSlash := pattern != "" && pattern[0] == '/';
    var p := if leadingSlash then pattern[1..] else pattern;
    ghost var whole := p;
    var leadingDoubleStar := false;
    if LeadsWithDoubleStar(p) {
      leadingDoubleStar := true;
      p := p[3..];
    }
    ghost var stripped := p;
    var directoryPattern := false;
    if EndsInSlash(p) {
      directoryPattern := true;
      p := p[..|p| - 1];
    }
    out := [];
    if leadingDoubleStar {
      out := [PREFIX_RUN];
    } else if !leadingSlash && '/' !in p {
      out := [PREFIX_RUN];
    }
    CompiledIs(pattern, whole, stripped, out != []);
    var body := CompileBody(p);
    out := out + body;
    if directoryPattern {
      out := out + [DIR_TAIL];
    }
  }

  /** `matches_any`: the first pattern whose regex accepts the path. */
  method MatchesAny(path: string, compiled: seq<(nat, seq<Regex>)>) returns (line: Option<nat>)
    ensures line.None? ==> forall i | 0 <= i < |compiled| :: !Accepts(compiled[i].1, path)
    ensures line.Some? ==> exists i | 0 <= i < |compiled| ::
                             && line.value == compiled[i].0 && Accepts(compiled[i].1, path)
                             && forall j | 0 <= j < i :: !Accepts(compiled[j].1, path)
  {
    for i := 0 to |compiled|
      invariant forall j | 0 <= j < i :: !Accepts(compiled[j].1, path)
    {
      if Accepts(compiled[i].1, path) {
        return Some(compiled[i].0);
      }
    }
    return None;
  }
}
