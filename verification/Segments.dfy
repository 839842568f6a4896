/** Which base paths are accepted, and what they become, told by their segments
    (frontend/vite.paths.ts). */
module Segments {
  import opened Wrappers
  import opened Paths
  import opened BasePath

  function Slashes(n: nat): string {
    if n == 0 then "" else "/" + Slashes(n - 1)
  }

  /** A character no base path may hold, and the slash aside, every other may stand in a segment. */
  predicate SafeChar(c: char) {
    && c > ' ' && c != ';' && c != '\\' && c != '?' && c != '#' && c != '\U{007F}'
    && c != '\U{00A0}' && c != '\U{FEFF}' && c != '\U{1680}' && !('\U{2000}' <= c <= '\U{200A}')
    && c != '\U{2028}' && c != '\U{2029}' && c != '\U{202F}' && c != '\U{205F}' && c != '\U{3000}'
  }

  predicate GoodSegment(s: string) {
    s != "" && s != "." && s != ".." && NoSlash(s) && forall i | 0 <= i < |s| :: SafeChar(s[i])
  }

  predicate GoodSegments(ss: seq<string>) {
    forall i | 0 <= i < |ss| :: GoodSegment(ss[i])
  }

  function LowerAll(s: string): string {
    seq(|s|, i requires 0 <= i < |s| => Lower(s[i]))
  }

  /** A slash-padded path that reads as a URL: two leading slashes, or a lone scheme with two after. */
  predicate UrlForm(a: nat, ss: seq<string>, b: nat) {
    ss != [] && (a >= 2 || (a == 0 && b >= 2 && |ss| == 1 && (LowerAll(ss[0]) == "http:" || LowerAll(ss[0]) == "https:")))
  }

  function Padded(a: nat, ss: seq<string>, b: nat): string {
    Slashes(a) + Join(ss) + Slashes(b)
  }

  // ---- Slashes and segments ----

  lemma {:induction false} SlashesShape(n: nat)
    ensures |Slashes(n)| == n && forall i | 0 <= i < n :: Slashes(n)[i] == '/'
  {
    if n > 0 {
      SlashesShape(n - 1);
    }
  }

  lemma {:induction false} DropLeadingSlashes(n: nat, t: string)
    requires t == "" || t[0] != '/'
    ensures DropLeading(Slashes(n) + t) == t
  {
    var s := Slashes(n) + t;
    if n == 0 {
      assert s == t;
    } else {
      assert s[0] == '/' && s[1..] == Slashes(n - 1) + t;
      DropLeadingSlashes(n - 1, t);
    }
  }

  lemma {:induction false} DropTrailingSlashes(t: string, n: nat)
    requires t == "" || t[|t| - 1] != '/'
    ensures DropTrailing(t + Slashes(n)) == t
  {
    var s := t + Slashes(n);
    SlashesShape(n);
    if n == 0 {
      assert s == t;
    } else {
      SlashesShape(n - 1);
      assert s[|s| - 1] == '/';
      assert s[..|s| - 1] == t + Slashes(n - 1);
      DropTrailingSlashes(t, n - 1);
    }
  }

  /** Slashes at both ends are stripped. */
  lemma StrippedPadded(a: nat, t: string, b: nat)
    requires t == "" || (t[0] != '/' && t[|t| - 1] != '/')
    ensures Stripped(Slashes(a) + t + Slashes(b)) == t
  {
    if t == "" {
      SlashesAdd(a, b);
      assert Slashes(a) + t + Slashes(b) == Slashes(a + b) + "";
      DropLeadingSlashes(a + b, "");
    } else {
      assert Slashes(a) + t + Slashes(b) == Slashes(a) + (t + Slashes(b));
      assert (t + Slashes(b))[0] == t[0];
      DropLeadingSlashes(a, t + Slashes(b));
      DropTrailingSlashes(t, b);
    }
  }

  lemma {:induction false} SlashesAdd(a: nat, b: nat)
    ensures Slashes(a) + Slashes(b) == Slashes(a + b)
  {
    if a > 0 {
      SlashesAdd(a - 1, b);
      assert Slashes(a) + Slashes(b) == "/" + (Slashes(a - 1) + Slashes(b));
    } else {
      assert Slashes(a) + Slashes(b) == Slashes(b);
    }
  }

  lemma GoodNormal(ss: seq<string>)
    requires GoodSegments(ss) && ss != []
    ensures Normal(ss)
  {
  }

  /** Characters of a joined path. */
  lemma {:induction false} JoinChars(ss: seq<string>, i: nat)
    requires GoodSegments(ss) && i < |Join(ss)|
    ensures Join(ss)[i] == '/' || SafeChar(Join(ss)[i])
    decreases |ss|
  {
    if |ss| > 1 {
      var s, n := Join(ss), |ss[0]|;
      JoinShape(ss);
      if i < n {
        assert s[i] == s[..n][i] == ss[0][i];
      } else if i > n {
        assert s[i] == s[n + 1..][i - n - 1];
        JoinChars(ss[1..], i - n - 1);
      }
    }
  }

  lemma {:induction false} JoinNoDouble(ss: seq<string>, i: nat)
    requires GoodSegments(ss) && i + 1 < |Join(ss)|
    ensures !(Join(ss)[i] == '/' && Join(ss)[i + 1] == '/')
    decreases |ss|
  {
    if |ss| == 1 {
      assert Join(ss) == ss[0];
    } else {
      var s, n, rest := Join(ss), |ss[0]|, ss[1..];
      JoinShape(ss);
      assert forall k | 0 <= k < n :: s[k] == s[..n][k] == ss[0][k];
      assert forall k | n < k < |s| :: s[k] == s[n + 1..][k - n - 1];
      if i < n {
        assert ss[0][i] != '/';
      } else if i == n {
        GoodNormal(rest);
        JoinEnds(rest);
      } else {
        JoinNoDouble(rest, i - n - 1);
      }
    }
  }

  /** Segments without slashes are what a split of their join gives. */
  lemma {:induction false} SplitJoined(ss: seq<string>)
    requires ss != [] && forall i | 0 <= i < |ss| :: NoSlash(ss[i])
    ensures Split(Join(ss)) == ss
    decreases |ss|
  {
    var s := Join(ss);
    if |ss| == 1 {
      FirstSlashNone(s);
    } else {
      FirstSlashAt(s, ss[0], Join(ss[1..]));
      SplitJoined(ss[1..]);
    }
  }

  lemma {:induction false} FirstSlashIs(s: string, k: nat)
    requires k <= |s| && (k < |s| ==> s[k] == '/') && forall j | 0 <= j < k :: s[j] != '/'
    ensures FirstSlash(s) == k
  {
    if k > 0 {
      assert s[0] != '/';
      assert forall j | 0 <= j < k - 1 :: s[1..][j] == s[j + 1];
      FirstSlashIs(s[1..], k - 1);
    }
  }

  lemma FirstSlashNone(s: string)
    requires NoSlash(s)
    ensures FirstSlash(s) == |s| && Split(s) == [s]
  {
    FirstSlashIs(s, |s|);
  }

  lemma FirstSlashAt(s: string, head: string, rest: string)
    requires s == head + "/" + rest && NoSlash(head)
    ensures FirstSlash(s) == |head| && Split(s) == [head] + Split(rest)
  {
    assert s[|head|] == '/';
    assert forall j | 0 <= j < |head| :: s[j] == head[j];
    FirstSlashIs(s, |head|);
    assert s[..|head|] == head && s[|head| + 1..] == rest;
  }

  // ---- What is accepted ----

  lemma SafeExactly(c: char)
    ensures !Unsafe(c) <==> SafeChar(c)
  {
  }

  /** The characters of a padded path, place by place. */
  lemma PaddedAt(a: nat, ss: seq<string>, b: nat, i: nat)
    requires i < |Padded(a, ss, b)|
    ensures |Padded(a, ss, b)| == a + |Join(ss)| + b
    ensures Padded(a, ss, b)[i] == if a <= i < a + |Join(ss)| then Join(ss)[i - a] else '/'
  {
    SlashesShape(a);
    SlashesShape(b);
  }

  lemma PaddedSafe(a: nat, ss: seq<string>, b: nat)
    requires GoodSegments(ss)
    ensures forall i | 0 <= i < |Padded(a, ss, b)| :: !Unsafe(Padded(a, ss, b)[i])
  {
    forall i | 0 <= i < |Padded(a, ss, b)| ensures !Unsafe(Padded(a, ss, b)[i]) {
      PaddedAt(a, ss, b, i);
      if a <= i < a + |Join(ss)| {
        JoinChars(ss, i - a);
        SafeExactly(Join(ss)[i - a]);
      }
    }
  }

  lemma JoinBounds(ss: seq<string>)
    requires GoodSegments(ss)
    ensures Join(ss) == "" <==> ss == []
    ensures ss != [] ==> Join(ss)[0] != '/' && Join(ss)[|Join(ss)| - 1] != '/'
    ensures !HasDoubleSlash(Join(ss))
  {
    if ss != [] {
      GoodNormal(ss);
      JoinEnds(ss);
    }
    forall i | 0 <= i < |Join(ss)| - 1 ensures !(Join(ss)[i] == '/' && Join(ss)[i + 1] == '/') {
      JoinNoDouble(ss, i);
    }
  }

  /** A scheme of `n` characters, colon included, with two slashes after it. */
  lemma SchemeForm(a: nat, ss: seq<string>, b: nat, scheme: string)
    requires GoodSegments(ss) && (scheme == "http:" || scheme == "https:")
    ensures StartsWithLower(Padded(a, ss, b), scheme + "//") <==>
            a == 0 && b >= 2 && |ss| == 1 && LowerAll(ss[0]) == scheme
  {
    var raw, s, n := Padded(a, ss, b), Join(ss), |scheme|;
    JoinBounds(ss);
    SlashesShape(a);
    SlashesShape(b);
    assert |raw| == a + |s| + b;
    assert forall i | 0 <= i < |raw| :: raw[i] == if a <= i < a + |s| then s[i - a] else '/';
    if StartsWithLower(raw, scheme + "//") {
      SchemeOnly(a, ss, b, scheme);
    }
    if a == 0 && b >= 2 && |ss| == 1 && LowerAll(ss[0]) == scheme {
      assert s == ss[0] && |s| == n;
      forall i | 0 <= i < n + 2 ensures Lower(raw[i]) == (scheme + "//")[i] {
        if i < n {
          assert Lower(raw[i]) == LowerAll(ss[0])[i];
        }
      }
    }
  }

  lemma SchemeOnly(a: nat, ss: seq<string>, b: nat, scheme: string)
    requires GoodSegments(ss) && (scheme == "http:" || scheme == "https:")
    requires StartsWithLower(Padded(a, ss, b), scheme + "//")
    ensures a == 0 && b >= 2 && |ss| == 1 && LowerAll(ss[0]) == scheme
  {
    var raw, s, n, u := Padded(a, ss, b), Join(ss), |scheme|, scheme + "//";
    JoinBounds(ss);
    forall i | 0 <= i < |raw| ensures raw[i] == if a <= i < a + |s| then s[i - a] else '/' {
      PaddedAt(a, ss, b, i);
    }
    PaddedAt(a, ss, b, 0);
    assert Lower(raw[0]) == u[0] == 'h' && Lower(raw[n - 1]) == u[n - 1] == ':';
    assert Lower(raw[n]) == u[n] == '/' && Lower(raw[n + 1]) == u[n + 1] == '/';
    LowerSlash(raw[n]);
    LowerSlash(raw[n + 1]);
    assert a == 0 && |s| >= n;
    EndsBefore(s, n);
    NoSlashScheme(raw, s, scheme);
    OneSegment(ss);
    assert LowerAll(s) == scheme by {
      forall i | 0 <= i < n ensures LowerAll(s)[i] == scheme[i] {
        assert Lower(raw[i]) == u[i];
      }
    }
  }

  lemma EndsBefore(s: string, n: nat)
    requires !HasDoubleSlash(s) && (s == "" || s[|s| - 1] != '/')
    requires (n < |s| ==> s[n] == '/') && (n + 1 < |s| ==> s[n + 1] == '/')
    ensures |s| <= n
  {
  }

  lemma LowerSlash(c: char)
    ensures Lower(c) == '/' <==> c == '/'
  {
  }

  lemma NoSlashScheme(raw: string, s: string, scheme: string)
    requires (scheme == "http:" || scheme == "https:") && |s| == |scheme| && s <= raw
    requires StartsWithLower(raw, scheme + "//")
    ensures forall i | 0 <= i < |s| :: s[i] != '/'
  {
    forall i | 0 <= i < |s| ensures s[i] != '/' {
      assert Lower(raw[i]) == (scheme + "//")[i] == scheme[i];
      LowerSlash(s[i]);
    }
  }

  lemma OneSegment(ss: seq<string>)
    requires GoodSegments(ss) && ss != [] && forall i | 0 <= i < |Join(ss)| :: Join(ss)[i] != '/'
    ensures |ss| == 1 && Join(ss) == ss[0]
  {
    if |ss| > 1 {
      JoinShape(ss);
    }
  }

  lemma PaddedUrl(a: nat, ss: seq<string>, b: nat)
    requires GoodSegments(ss)
    ensures LooksLikeUrl(Padded(a, ss, b)) <==> UrlForm(a, ss, b)
  {
    var raw, s := Padded(a, ss, b), Join(ss);
    SchemeForm(a, ss, b, "http:");
    SchemeForm(a, ss, b, "https:");
    assert "http:" + "//" == "http://" && "https:" + "//" == "https://";
    JoinBounds(ss);
    forall i | 0 <= i < |raw| ensures raw[i] == if a <= i < a + |s| then s[i - a] else '/' {
      PaddedAt(a, ss, b, i);
    }
    SlashesShape(a);
    SlashesShape(b);
    if a >= 2 {
      assert raw[0] == '/' && raw[1] == '/';
      assert raw[..2] == "//";
    }
    if ss != [] {
      assert raw[a] != '/';
    }
  }

  /** Segments padded with slashes are kept, one slash before each, unless they read as a URL. */
  lemma NormalizeKeepsSegments(a: nat, ss: seq<string>, b: nat)
    requires GoodSegments(ss)
    ensures UrlForm(a, ss, b) ==> Normalize(Padded(a, ss, b)) == Err(IsUrl)
    ensures !UrlForm(a, ss, b) ==> Normalize(Padded(a, ss, b)) == Ok(if ss == [] then "" else "/" + Join(ss))
  {
    var raw := Padded(a, ss, b);
    PaddedSafe(a, ss, b);
    PaddedUrl(a, ss, b);
    JoinBounds(ss);
    StrippedPadded(a, Join(ss), b);
    if raw != "" {
      assert !IsSpace(raw[0]) && !IsSpace(raw[|raw| - 1]);
    }
    if ss != [] {
      SplitJoined(ss);
      assert "." !in ss && ".." !in ss;
    }
  }

  // ---- Nothing else is accepted ----

  lemma {:induction false} LeadingCount(s: string) returns (n: nat)
    ensures s == Slashes(n) + DropLeading(s)
  {
    if s != "" && s[0] == '/' {
      n := LeadingCount(s[1..]);
      n := n + 1;
      assert s == "/" + s[1..];
    } else {
      n := 0;
    }
  }

  lemma {:induction false} TrailingCount(s: string) returns (n: nat)
    ensures s == DropTrailing(s) + Slashes(n)
  {
    if s != "" && s[|s| - 1] == '/' {
      n := TrailingCount(s[..|s| - 1]);
      SlashesAdd(n, 1);
      assert s == s[..|s| - 1] + "/";
      assert Slashes(1) == "/";
      n := n + 1;
    } else {
      n := 0;
    }
  }

  lemma {:induction false} SplitNonEmpty(s: string)
    requires s != "" && s[0] != '/' && s[|s| - 1] != '/' && !HasDoubleSlash(s)
    ensures forall i | 0 <= i < |Split(s)| :: Split(s)[i] != ""
    decreases |s|
  {
    var n := FirstSlash(s);
    if n < |s| {
      var rest := s[n + 1..];
      assert s[n] == '/' && n + 1 < |s| && s[n + 1] != '/';
      assert forall i | 0 <= i < |rest| :: rest[i] == s[n + 1 + i];
      forall i | 0 <= i < |rest| - 1 ensures !(rest[i] == '/' && rest[i + 1] == '/') {
        assert !(s[n + 1 + i] == '/' && s[n + 2 + i] == '/');
      }
      SplitNonEmpty(rest);
      assert Split(s) == [s[..n]] + Split(rest);
    } else {
      assert s[..n] == s;
    }
  }

  /** The characters of every segment come from the joined string. */
  lemma {:induction false} JoinHas(ss: seq<string>, i: nat, k: nat) returns (m: nat)
    requires i < |ss| && k < |ss[i]|
    ensures m < |Join(ss)| && Join(ss)[m] == ss[i][k]
    decreases |ss|
  {
    if |ss| == 1 {
      m := k;
    } else if i == 0 {
      JoinShape(ss);
      m := k;
      assert Join(ss)[k] == Join(ss)[..|ss[0]|][k];
    } else {
      JoinShape(ss);
      var n := |ss[0]| + 1;
      m := JoinHas(ss[1..], i - 1, k);
      assert Join(ss)[n..][m] == Join(ss)[n + m];
      m := n + m;
    }
  }

  lemma SplitGood(raw: string)
    requires Normalize(raw).Ok? && Stripped(raw) != ""
    ensures GoodSegments(Split(Stripped(raw)))
  {
    var s, ss := Stripped(raw), Split(Stripped(raw));
    StrippedShape(raw);
    SplitNonEmpty(s);
    forall i | 0 <= i < |ss| ensures GoodSegment(ss[i]) {
      forall k | 0 <= k < |ss[i]| ensures SafeChar(ss[i][k]) {
        var m := JoinHas(ss, i, k);
        var j :| 0 <= j < |raw| && raw[j] == s[m];
        SafeExactly(raw[j]);
      }
      assert ss[i] in ss;
    }
  }

  /** Every accepted base path is good segments padded with slashes, not in the form of a URL. */
  lemma AcceptedForm(raw: string) returns (a: nat, ss: seq<string>, b: nat)
    requires Normalize(raw).Ok?
    ensures raw == Padded(a, ss, b) && GoodSegments(ss) && !UrlForm(a, ss, b)
  {
    var s := Stripped(raw);
    a := LeadingCount(raw);
    b := TrailingCount(DropLeading(raw));
    ss := [];
    if s != "" {
      ss := Split(s);
      SplitGood(raw);
    }
    assert raw == Slashes(a) + s + Slashes(b);
    PaddedUrl(a, ss, b);
  }
}
