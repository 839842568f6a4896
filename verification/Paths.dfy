/** Slash-separated paths: splitting, joining, and the positions of segment boundaries. */
module Paths {

  /** The slash does not occur in `s`. */
  predicate NoSlash(s: string) {
    '/' !in s
  }

  /** Non-empty, slash-free segments: what a path git reports is made of. */
  predicate Normal(ps: seq<string>) {
    |ps| > 0 && forall i | 0 <= i < |ps| :: ps[i] != "" && NoSlash(ps[i])
  }

  function Join(ps: seq<string>): (s: string) {
    if |ps| == 0 then ""
    else if |ps| == 1 then ps[0]
    else ps[0] + "/" + Join(ps[1..])
  }

  /** Index of the first slash of `s`, or |s|. */
  function FirstSlash(s: string): (n: nat)
    ensures n <= |s| && NoSlash(s[..n]) && (n < |s| ==> s[n] == '/')
  {
    if s == "" || s[0] == '/' then 0 else 1 + FirstSlash(s[1..])
  }

  /** `s.split("/")`. */
  function Split(s: string): (ps: seq<string>)
    ensures |ps| > 0
    ensures forall i | 0 <= i < |ps| :: NoSlash(ps[i])
    ensures Join(ps) == s
    decreases |s|
  {
    var n := FirstSlash(s);
    if n == |s| then [s]
    else
      var rest := Split(s[n + 1..]);
      assert s == s[..n] + "/" + s[n + 1..];
      var ps := [s[..n]] + rest;
      assert ps[1..] == rest;
      ps
  }

  /** The first segment boundary of a joined path is where its first segment ends. */
  lemma FirstSegment(ps: seq<string>, k: nat)
    requires Normal(ps) && k <= |Join(ps)| && NoSlash(Join(ps)[..k])
    ensures k == |Join(ps)| ==> |ps| == 1 && Join(ps)[..k] == ps[0]
    ensures k < |Join(ps)| && Join(ps)[k] == '/' ==>
              |ps| > 1 && Join(ps)[..k] == ps[0] && Join(ps)[k + 1..] == Join(ps[1..])
  {
    var s := Join(ps);
    if |ps| > 1 {
      var n := |ps[0]|;
      assert s[n] == '/';
      assert forall i | 0 <= i < n :: s[i] == ps[0][i];
      if n < k {
        assert false;
      }
    }
  }

  lemma JoinShape(ps: seq<string>)
    requires |ps| > 1
    ensures Join(ps)[..|ps[0]|] == ps[0]
    ensures |ps[0]| < |Join(ps)| && Join(ps)[|ps[0]|] == '/'
    ensures Join(ps)[|ps[0]| + 1..] == Join(ps[1..])
  {
  }

  lemma {:induction false} JoinEnds(ps: seq<string>)
    requires Normal(ps)
    ensures Join(ps) != "" && Join(ps)[0] != '/' && Join(ps)[|Join(ps)| - 1] != '/'
  {
    if |ps| == 1 {
    } else {
      JoinEnds(ps[1..]);
      JoinShape(ps);
      var t := Join(ps[1..]);
      assert Join(ps)[|Join(ps)| - 1] == t[|t| - 1];
    }
  }
}
