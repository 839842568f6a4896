/** `_blank_comments` of scripts/check_batch_mock_seq.py: comments become spaces, and every scan
    sees the blanked text as it saw the original. */
module Blanking {
  import opened Scanner

  function BlankChar(c: char): char {
    if c == '\n' then c else ' '
  }

  predicate IsBlank(c: char) {
    c == ' ' || c == '\n'
  }

  function BlankRun(s: string): (r: string)
    ensures |r| == |s| && forall k | 0 <= k < |s| :: r[k] == BlankChar(s[k])
  {
    seq(|s|, k requires 0 <= k < |s| => BlankChar(s[k]))
  }

  /** The blanked form of `text[i..]`, for a scan standing at `i`. */
  function BlankFrom(text: string, i: nat): (r: string)
    requires i <= |text|
    ensures |r| == |text| - i
    decreases |text| - i
  {
    if i == |text| then ""
    else
      var j := Next(text, i);
      (if !IsQuote(text[i]) && AtComment(text, i) then BlankRun(text[i..j]) else text[i..j])
      + BlankFrom(text, j)
  }

  function Blanked(text: string): string {
    BlankFrom(text, 0)
  }

  /** `k` lies in a comment of `text`. */
  ghost predicate InComment(text: string, from: nat, k: nat) {
    exists i: nat | i <= k && i < |text| ::
      Reaches(text, from, i) && !IsQuote(text[i]) && AtComment(text, i) && k < CommentEnd(text, i)
  }

  // ---- What changed, character by character ----

  lemma BlankFromLater(text: string, i: nat, k: nat)
    requires i < |text| && Next(text, i) <= k < |text|
    ensures BlankFrom(text, i)[k - i] == BlankFrom(text, Next(text, i))[k - Next(text, i)]
  {
    var j := Next(text, i);
    var head := if !IsQuote(text[i]) && AtComment(text, i) then BlankRun(text[i..j]) else text[i..j];
    assert BlankFrom(text, i) == head + BlankFrom(text, j) && |head| == j - i;
  }

  lemma {:induction false} BlankFromAt(text: string, i: nat, k: nat)
    requires i <= k < |text|
    ensures BlankFrom(text, i)[k - i] == if InComment(text, i, k) then BlankChar(text[k]) else text[k]
    decreases |text| - i
  {
    var j := Next(text, i);
    if k < j {
      forall m: nat | Reaches(text, i, m) && m <= k ensures m == i {
        ReachesBetween(text, i, i);
        ReachesForward(text, i, m);
      }
    } else {
      BlankFromAt(text, j, k);
      BlankFromLater(text, i, k);
      if InComment(text, i, k) {
        var m: nat :| m <= k && m < |text| && Reaches(text, i, m) && !IsQuote(text[m])
                      && AtComment(text, m) && k < CommentEnd(text, m);
        assert m != i;
        assert Reaches(text, j, m);
      }
    }
  }

  /** Same length; a character inside a comment becomes a space unless it is a newline; nothing
      else changes. */
  lemma BlankingPointwise(text: string)
    ensures |Blanked(text)| == |text|
    ensures forall k | 0 <= k < |text| ::
              Blanked(text)[k] == if InComment(text, 0, k) && text[k] != '\n' then ' ' else text[k]
  {
    forall k | 0 <= k < |text|
      ensures Blanked(text)[k] == if InComment(text, 0, k) then BlankChar(text[k]) else text[k]
    {
      BlankFromAt(text, 0, k);
    }
  }

  // ---- The blanked text scans like the original ----

  /** `u` is, from `i` on, the blanked form of `text`. */
  predicate Follows(text: string, u: string, i: nat) {
    |u| == |text| && i <= |text| && u[i..] == BlankFrom(text, i)
  }

  lemma FollowsOn(text: string, u: string, i: nat)
    requires Follows(text, u, i) && i < |text|
    ensures Follows(text, u, Next(text, i))
    ensures forall k | i <= k < Next(text, i) ::
              u[k] == if !IsQuote(text[i]) && AtComment(text, i) then BlankChar(text[k]) else text[k]
  {
    var j, t := Next(text, i), u[i..];
    assert u[j..] == t[j - i..];
    forall k | i <= k < j
      ensures u[k] == if !IsQuote(text[i]) && AtComment(text, i) then BlankChar(text[k]) else text[k]
    {
      assert u[k] == t[k - i];
    }
  }

  /** A string end depends only on the characters up to it. */
  lemma {:induction false} StringEndLocal(text: string, u: string, quote: char, j: nat)
    requires |u| == |text|
    requires forall k | j <= k < StringEnd(text, quote, j) :: u[k] == text[k]
    ensures StringEnd(u, quote, j) == StringEnd(text, quote, j)
    decreases |text| - j
  {
    if j < |text| {
      if text[j] == '\\' {
        StringEndLocal(text, u, quote, j + 2);
      } else if text[j] != quote {
        StringEndLocal(text, u, quote, j + 1);
      }
    }
  }

  /** Strings and code keep their extent: no comment starts where none was blanked. */
  lemma KeepsToken(text: string, u: string, i: nat)
    requires Follows(text, u, i) && i < |text|
    requires IsQuote(text[i]) || !AtComment(text, i)
    ensures u[i] == text[i] && AtStringOrComment(u, i) == AtStringOrComment(text, i)
    ensures !AtComment(u, i) && Next(u, i) == Next(text, i)
  {
    FollowsOn(text, u, i);
    if IsQuote(text[i]) {
      StringEndLocal(text, u, text[i], i + 1);
    } else if text[i] == '/' && i + 1 < |text| {
      FollowsOn(text, u, i + 1);
    }
  }

  lemma BlanksComment(text: string, u: string, i: nat)
    requires Follows(text, u, i) && i < |text| && !IsQuote(text[i]) && AtComment(text, i)
    ensures forall k | i <= k < Next(text, i) :: IsBlank(u[k]) && !AtStringOrComment(u, k)
  {
    FollowsOn(text, u, i);
  }

  predicate Delimiters(open: char, close: char) {
    !IsBlank(open) && !IsBlank(close)
  }

  lemma {:induction false} ReaderCrossesBlanks(
    u: string, i: nat, j: nat, open: char, close: char, depth: int
  )
    requires i <= j <= |u| && Delimiters(open, close)
    requires forall k | i <= k < j :: IsBlank(u[k]) && !AtStringOrComment(u, k)
    ensures BalancedEnd(u, i, open, close, depth) == BalancedEnd(u, j, open, close, depth)
    decreases j - i
  {
    if i < j {
      ReaderCrossesBlanks(u, i + 1, j, open, close, depth);
    }
  }

  lemma {:induction false} ReaderFrom(
    text: string, u: string, i: nat, open: char, close: char, depth: int
  )
    requires Follows(text, u, i) && Delimiters(open, close)
    ensures BalancedEnd(u, i, open, close, depth) == BalancedEnd(text, i, open, close, depth)
    decreases |text| - i
  {
    if i < |text| {
      var j := Next(text, i);
      FollowsOn(text, u, i);
      if !IsQuote(text[i]) && AtComment(text, i) {
        BlanksComment(text, u, i);
        ReaderCrossesBlanks(u, i, j, open, close, depth);
        ReaderFrom(text, u, j, open, close, depth);
      } else {
        KeepsToken(text, u, i);
        var depth' := depth + Weight(text, i, open, close);
        ReaderFrom(text, u, j, open, close, depth');
        ReaderFrom(text, u, j, open, close, depth);
      }
    }
  }

  lemma {:induction false} BlocksCrossBlanks(u: string, i: nat, j: nat, starts: seq<nat>)
    requires i <= j <= |u|
    requires forall k | i <= k < j :: IsBlank(u[k]) && !AtStringOrComment(u, k)
    ensures Blocks(u, i, starts) == Blocks(u, j, starts)
    decreases j - i
  {
    if i < j {
      BlocksCrossBlanks(u, i + 1, j, starts);
    }
  }

  lemma {:induction false} BlocksFrom(text: string, u: string, i: nat, starts: seq<nat>)
    requires Follows(text, u, i)
    ensures Blocks(u, i, starts) == Blocks(text, i, starts)
    decreases |text| - i
  {
    if i < |text| {
      var j := Next(text, i);
      FollowsOn(text, u, i);
      if !IsQuote(text[i]) && AtComment(text, i) {
        BlanksComment(text, u, i);
        BlocksCrossBlanks(u, i, j, starts);
        BlocksFrom(text, u, j, starts);
      } else {
        KeepsToken(text, u, i);
        if AtStringOrComment(text, i) {
          BlocksFrom(text, u, j, starts);
        } else if text[i] == '{' {
          BlocksFrom(text, u, j, starts + [i]);
        } else if text[i] == '}' && starts != [] {
          BlocksFrom(text, u, j, starts[..|starts| - 1]);
        } else {
          BlocksFrom(text, u, j, starts);
        }
      }
    }
  }

  lemma {:induction false} FollowsAt(text: string, from: nat, i: nat)
    requires Follows(text, Blanked(text), from) && Reaches(text, from, i)
    ensures Follows(text, Blanked(text), i)
    decreases |text| - from
  {
    if from != i {
      FollowsOn(text, Blanked(text), from);
      FollowsAt(text, Next(text, from), i);
    }
  }

  lemma FollowsFromStart(text: string)
    ensures Follows(text, Blanked(text), 0)
  {
    assert Blanked(text)[0..] == BlankFrom(text, 0);
  }

  /** The inner loop: overwrite one comment in place. */
  method BlankSpan(out: array<char>, start: nat, end: nat)
    requires start <= end <= out.Length
    modifies out
    ensures forall k | 0 <= k < out.Length ::
              out[k] == if start <= k < end && old(out[k]) != '\n' then ' ' else old(out[k])
  {
    for k := start to end
      invariant forall m | 0 <= m < out.Length ::
                  out[m] == if start <= m < k then BlankChar(old(out[m])) else old(out[m])
    {
      if out[k] != '\n' {
        out[k] := ' ';
      }
    }
  }

  /** The in-place form: a buffer of characters overwritten comment by comment. */
  method BlankComments(text: string) returns (blanked: string)
    ensures blanked == Blanked(text)
  {
    var n := |text|;
    var out := new char[n](k requires 0 <= k < n => text[k]);
    ghost var u := Blanked(text);
    FollowsFromStart(text);
    var i := 0;
    while i < n
      invariant Follows(text, u, i)
      invariant forall k | 0 <= k < n :: out[k] == if k < i then u[k] else text[k]
      decreases n - i
    {
      FollowsOn(text, u, i);
      if AtStringOrComment(text, i) {
        if text[i] == '/' {
          var start := i;
          i := SkipComment(text, i);
          BlankSpan(out, start, i);
        } else {
          i := SkipString(text, i);
        }
      } else {
        i := i + 1;
      }
    }
    blanked := out[..];
  }

  /** Reading a balanced group from any scan position, or extracting all blocks, gives the same
      positions before and after blanking. */
  lemma ScansUnchanged(text: string, i: nat, open: char, close: char)
    requires Reaches(text, 0, i) && i <= |text| && Delimiters(open, close)
    ensures |Blanked(text)| == |text|
    ensures BalancedEnd(Blanked(text), i, open, close, 0) == BalancedEnd(text, i, open, close, 0)
    ensures Blocks(Blanked(text), 0, []) == Blocks(text, 0, [])
  {
    FollowsFromStart(text);
    FollowsAt(text, 0, i);
    ReaderFrom(text, Blanked(text), i, open, close, 0);
    BlocksFrom(text, Blanked(text), 0, []);
  }

  // ---- Nothing is left to blank ----

  lemma CodeStays(u: string, i: nat)
    requires i < |u| && !AtStringOrComment(u, i) && BlankFrom(u, i + 1) == u[i + 1..]
    ensures BlankFrom(u, i) == u[i..]
  {
    assert Next(u, i) == i + 1;
    assert BlankFrom(u, i) == u[i..i + 1] + u[i + 1..];
  }

  lemma {:induction false} BlankFromCrossesBlanks(u: string, i: nat, j: nat)
    requires i <= j <= |u| && BlankFrom(u, j) == u[j..]
    requires forall k | i <= k < j :: IsBlank(u[k]) && !AtStringOrComment(u, k)
    ensures BlankFrom(u, i) == u[i..]
    decreases j - i
  {
    if i < j {
      BlankFromCrossesBlanks(u, i + 1, j);
      CodeStays(u, i);
    }
  }

  lemma {:induction false} NothingLeftFrom(text: string, u: string, i: nat)
    requires Follows(text, u, i)
    ensures BlankFrom(u, i) == u[i..]
    decreases |text| - i
  {
    if i < |text| {
      var j := Next(text, i);
      FollowsOn(text, u, i);
      NothingLeftFrom(text, u, j);
      if !IsQuote(text[i]) && AtComment(text, i) {
        BlanksComment(text, u, i);
        BlankFromCrossesBlanks(u, i, j);
      } else {
        KeepsToken(text, u, i);
        assert u[i..] == u[i..j] + u[j..];
      }
    }
  }

  lemma BlankingIdempotent(text: string)
    ensures Blanked(Blanked(text)) == Blanked(text)
  {
    FollowsFromStart(text);
    NothingLeftFrom(text, Blanked(text), 0);
    assert Blanked(text)[0..] == Blanked(text);
  }

  /** A fixed point of blanking holds no comment at any scan position. */
  lemma {:induction false} BlankRunsMeetNoComment(u: string, from: nat, i: nat)
    requires from <= |u| && Reaches(u, from, i) && i < |u|
    requires BlankFrom(u, from) == u[from..]
    ensures IsQuote(u[i]) || !AtComment(u, i)
    decreases |u| - from
  {
    var j := Next(u, from);
    var t := BlankFrom(u, from);
    assert t[0] == u[from..][0] == u[from];
    if from != i {
      assert t[j - from..] == BlankFrom(u, j) && u[from..][j - from..] == u[j..];
      BlankRunsMeetNoComment(u, j, i);
    }
  }

  /** No comment starts at any position a scan of the blanked text stands on. */
  lemma NoCommentLeft(text: string, i: nat)
    requires i < |Blanked(text)| && Reaches(Blanked(text), 0, i)
    ensures IsQuote(Blanked(text)[i]) || !AtComment(Blanked(text), i)
  {
    FollowsFromStart(text);
    NothingLeftFrom(text, Blanked(text), 0);
    BlankRunsMeetNoComment(Blanked(text), 0, i);
  }
}
