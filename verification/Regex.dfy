/** The fragment of regular expressions that the glob compiler emits, with its meaning. */
module Regex {
  import opened Paths

  datatype Regex =
    | Char(c: char)
    | NotSlash                            // [^/]
    | Dot                                 // . (no newline)
    | Class(negated: bool, body: string)  // [...], body taken as plain characters
    | Cat(first: Regex, second: Regex)
    | Star(one: Regex)
    | Opt(some: Regex)

  /** `s` is in the language of `r`. */
  predicate Matches(r: Regex, s: string)
    decreases |s|, r
  {
    match r
    case Char(c) => s == [c]
    case NotSlash => |s| == 1 && s[0] != '/'
    case Dot => |s| == 1 && s[0] != '\n'
    case Class(negated, body) => |s| == 1 && (s[0] in body) != negated
    case Cat(a, b) => exists k | 0 <= k <= |s| :: Matches(a, s[..k]) && Matches(b, s[k..])
    case Star(a) => s == "" || exists k | 0 < k <= |s| :: Matches(a, s[..k]) && Matches(r, s[k..])
    case Opt(a) => s == "" || Matches(a, s)
  }

  /** The concatenation of the fragments `rs`, anchored at both ends, accepts `s`. */
  predicate Accepts(rs: seq<Regex>, s: string)
    decreases |rs|
  {
    if rs == [] then s == ""
    else exists k | 0 <= k <= |s| :: Matches(rs[0], s[..k]) && Accepts(rs[1..], s[k..])
  }

  const STAR_RUN := Star(NotSlash)                                          // [^/]*
  const ANY_RUN := Star(Dot)                                                // .*
  const PREFIX_RUN := Opt(Cat(Star(Dot), Char('/')))                        // (?:.*/)?
  const PLUS_RUN := Cat(NotSlash, Star(NotSlash))                           // [^/]+
  const SEGMENT_RUN := Star(Cat(PLUS_RUN, Char('/')))                       // (?:[^/]+/)*
  const DIR_TAIL := Opt(Cat(Char('/'), Star(Dot)))                          // (?:/.*)?

  lemma AcceptsAt(rs: seq<Regex>, s: string, k: nat)
    requires |rs| > 0 && k <= |s| && Matches(rs[0], s[..k]) && Accepts(rs[1..], s[k..])
    ensures Accepts(rs, s)
  {
  }

  lemma AcceptsSplit(rs: seq<Regex>, s: string) returns (k: nat)
    requires |rs| > 0 && Accepts(rs, s)
    ensures k <= |s| && Matches(rs[0], s[..k]) && Accepts(rs[1..], s[k..])
  {
    k :| 0 <= k <= |s| && Matches(rs[0], s[..k]) && Accepts(rs[1..], s[k..]);
  }

  lemma AcceptsChar(c: char, rs: seq<Regex>, s: string)
    ensures Accepts([Char(c)] + rs, s) <==> s != "" && s[0] == c && Accepts(rs, s[1..])
  {
    var all := [Char(c)] + rs;
    assert all[1..] == rs;
    if Accepts(all, s) {
      var k := AcceptsSplit(all, s);
      assert k == 1 && s[..1][0] == s[0];
    }
    if s != "" && s[0] == c && Accepts(rs, s[1..]) {
      assert s[..1] == [c];
      AcceptsAt(all, s, 1);
    }
  }

  lemma {:induction false} StarRunMeaning(s: string)
    ensures Matches(STAR_RUN, s) <==> NoSlash(s)
  {
    if s != "" {
      StarRunMeaning(s[1..]);
      assert s == s[..1] + s[1..];
      if NoSlash(s) {
        assert Matches(NotSlash, s[..1]);
      }
      if Matches(STAR_RUN, s) {
        var k :| 0 < k <= |s| && Matches(NotSlash, s[..k]) && Matches(STAR_RUN, s[k..]);
        assert k == 1 && s[..1][0] == s[0];
      }
    }
  }

  lemma {:induction false} AnyRunMeaning(s: string)
    ensures Matches(ANY_RUN, s) <==> '\n' !in s
  {
    if s != "" {
      AnyRunMeaning(s[1..]);
      assert s == s[..1] + s[1..];
      if '\n' !in s {
        assert Matches(Dot, s[..1]);
      }
      if Matches(ANY_RUN, s) {
        var k :| 0 < k <= |s| && Matches(Dot, s[..k]) && Matches(ANY_RUN, s[k..]);
        assert k == 1 && s[..1][0] == s[0];
      }
    }
  }

  // PREFIX_RUN takes nothing, or any newline-free text ending in a slash.
  lemma PrefixRunMeaning(s: string)
    ensures Matches(PREFIX_RUN, s) <==> s == "" || (s[|s| - 1] == '/' && '\n' !in s)
  {
    if s != "" {
      var n := |s| - 1;
      AnyRunMeaning(s[..n]);
      assert s == s[..n] + s[n..];
      var body := Cat(Star(Dot), Char('/'));
      if s[n] == '/' && '\n' !in s {
        assert s[n..] == "/";
        assert Matches(body, s);
      }
      if Matches(body, s) {
        var k :| 0 <= k <= |s| && Matches(Star(Dot), s[..k]) && Matches(Char('/'), s[k..]);
        assert k == n && s[k..][0] == s[n];
      }
    }
  }

  // DIR_TAIL takes nothing, or any newline-free text starting with a slash.
  lemma DirTailMeaning(s: string)
    ensures Matches(DIR_TAIL, s) <==> s == "" || (s[0] == '/' && '\n' !in s)
  {
    if s != "" {
      AnyRunMeaning(s[1..]);
      assert s == s[..1] + s[1..];
      var body := Cat(Char('/'), Star(Dot));
      if s[0] == '/' && '\n' !in s {
        assert s[..1] == "/";
        assert Matches(body, s);
      }
      if Matches(body, s) {
        var k :| 0 <= k <= |s| && Matches(Char('/'), s[..k]) && Matches(Star(Dot), s[k..]);
        assert k == 1 && s[..1][0] == s[0];
      }
    }
  }

  lemma PlusMeaning(s: string)
    ensures Matches(PLUS_RUN, s) <==> s != "" && NoSlash(s)
  {
    if Matches(PLUS_RUN, s) {
      var j :| 0 <= j <= |s| && Matches(NotSlash, s[..j]) && Matches(STAR_RUN, s[j..]);
      assert j == 1 && s == s[..1] + s[1..];
      StarRunMeaning(s[1..]);
      assert s[..1][0] == s[0];
    }
    if s != "" && NoSlash(s) {
      StarRunMeaning(s[1..]);
      assert Matches(NotSlash, s[..1]);
    }
  }

  // One round of SEGMENT_RUN: a non-empty slash-free run and its slash.
  lemma SegmentMeaning(s: string)
    ensures Matches(Cat(PLUS_RUN, Char('/')), s) <==>
            |s| >= 2 && NoSlash(s[..|s| - 1]) && s[|s| - 1] == '/'
  {
    if |s| > 0 {
      var n := |s| - 1;
      PlusMeaning(s[..n]);
      assert s[n..] == [s[n]];
      if Matches(PLUS_RUN, s[..n]) && Matches(Char('/'), s[n..]) {
        assert Matches(Cat(PLUS_RUN, Char('/')), s);
      }
    }
    if Matches(Cat(PLUS_RUN, Char('/')), s) {
      var k :| 0 <= k <= |s| && Matches(PLUS_RUN, s[..k]) && Matches(Char('/'), s[k..]);
      assert |s[k..]| == 1 && s[k..][0] == s[k];
      PlusMeaning(s[..k]);
    }
  }

  lemma AcceptsNone(s: string)
    ensures Accepts([], s) <==> s == ""
  {
  }

  /** A single trailing fragment must take everything. */
  lemma AcceptsLast(r: Regex, s: string)
    ensures Accepts([r], s) <==> Matches(r, s)
  {
    var rs := [r];
    assert rs[1..] == [];
    assert s[..|s|] == s && s[|s|..] == "";
    if Matches(r, s) {
      AcceptsAt(rs, s, |s|);
    }
    if Accepts(rs, s) {
      var k := AcceptsSplit(rs, s);
      AcceptsNone(s[k..]);
      assert k == |s|;
    }
  }
}
