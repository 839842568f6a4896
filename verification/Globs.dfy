/** What a gitignore-style glob means, segment by segment, independently of any regex. */
module Globs {
  import opened Paths

  /** `*` takes any run inside one segment, `?` one character, anything else itself. */
  ghost predicate SegmentMatch(g: string, s: string) {
    if g == "" then s == ""
    else if g[0] == '*' then exists j | 0 <= j <= |s| :: SegmentMatch(g[1..], s[j..])
    else s != "" && (g[0] == '?' || g[0] == s[0]) && SegmentMatch(g[1..], s[1..])
  }

  /** A whole-segment `**` takes zero or more segments, and one or more when it comes last.
      With `below` set, any descendants of a matched path match too. */
  ghost predicate SegmentsMatch(gs: seq<string>, ps: seq<string>, below: bool) {
    if gs == [] then ps == [] || below
    else if gs == ["**"] then ps != []
    else if gs[0] == "**" then exists j | 0 <= j <= |ps| :: SegmentsMatch(gs[1..], ps[j..], below)
    else ps != [] && SegmentMatch(gs[0], ps[0]) && SegmentsMatch(gs[1..], ps[1..], below)
  }

  function WithoutLeadingSlash(pattern: string): string {
    if pattern != "" && pattern[0] == '/' then pattern[1..] else pattern
  }

  predicate EndsInSlash(p: string) {
    p != "" && p[|p| - 1] == '/'
  }

  function WithoutTrailingSlash(p: string): string {
    if EndsInSlash(p) then p[..|p| - 1] else p
  }

  /** A leading slash anchors, an inner slash anchors, and otherwise the pattern floats to any
      depth; a trailing slash admits everything below. */
  ghost predicate GlobMatches(pattern: string, ps: seq<string>) {
    var p := WithoutLeadingSlash(pattern);
    var gs := Split(WithoutTrailingSlash(p));
    var anchored := p != pattern || |gs| > 1;
    SegmentsMatch(if anchored then gs else ["**"] + gs, ps, EndsInSlash(p))
  }

  /** No `[` has a `]` after it, so the pattern holds no character class. */
  predicate ClassFree(p: string) {
    forall i, j | 0 <= i < j < |p| :: p[i] == '[' ==> p[j] != ']'
  }

  lemma NothingLeftFails(gs: seq<string>, below: bool)
    requires |gs| > 0
    ensures !SegmentsMatch(gs, [], below)
  {
    if gs != ["**"] && gs[0] == "**" {
      assert |gs| > 1;
      NothingLeftFails(gs[1..], below);
    }
  }
}
