/** The source scanners of scripts/check_batch_mock_seq.py: strings and comments are skipped whole,
    and every other position is code. */
module Scanner {
  import opened Wrappers

  predicate IsQuote(c: char) {
    c == '"' || c == '\'' || c == '`'
  }

  predicate AtComment(text: string, i: nat)
    requires i < |text|
  {
    text[i] == '/' && i + 1 < |text| && (text[i + 1] == '/' || text[i + 1] == '*')
  }

  predicate AtStringOrComment(text: string, i: nat)
    requires i < |text|
  {
    IsQuote(text[i]) || AtComment(text, i)
  }

  /** `text.startswith(needle, i)`. */
  predicate StartsAt(text: string, needle: string, i: nat) {
    i + |needle| <= |text| && text[i..i + |needle|] == needle
  }

  /** `text.find(needle, i)`, with |text| for "absent". */
  function Find(text: string, needle: string, i: nat): (j: nat)
    requires i <= |text| && needle != ""
    ensures i <= j <= |text| && (j < |text| ==> StartsAt(text, needle, j))
    ensures forall k | i <= k < j :: !StartsAt(text, needle, k)
    decreases |text| - i
  {
    if i == |text| || StartsAt(text, needle, i) then i else Find(text, needle, i + 1)
  }

  // ---- Specifications ----

  /** Past the string closed by `quote`, reading from `j`; an escape covers the next character. */
  function StringEnd(text: string, quote: char, j: nat): (end: nat)
    ensures end <= |text| && (j < |text| ==> j < end)
    decreases |text| - j
  {
    if j >= |text| then |text|
    else if text[j] == '\\' then StringEnd(text, quote, j + 2)
    else if text[j] == quote then j + 1
    else StringEnd(text, quote, j + 1)
  }

  function CommentEnd(text: string, i: nat): (end: nat)
    requires i < |text| && AtComment(text, i)
    ensures i + 2 <= end <= |text|
  {
    if text[i + 1] == '/' then
      var j := Find(text, "\n", i);
      if j == |text| then j else assert text[j] == '\n'; j + 1
    else
      var j := Find(text, "*/", i + 2);
      if j == |text| then j else j + 2
  }

  /** Where the scan goes from position `i`. */
  function Next(text: string, i: nat): (j: nat)
    requires i < |text|
    ensures i < j <= |text|
  {
    if IsQuote(text[i]) then StringEnd(text, text[i], i + 1)
    else if AtComment(text, i) then CommentEnd(text, i)
    else i + 1
  }

  /** A scan that stands at `from` comes to stand at `i`. */
  predicate Reaches(text: string, from: nat, i: nat)
    decreases |text| - from
  {
    from == i || (from < |text| && Reaches(text, Next(text, from), i))
  }

  /** A character outside every string and comment. */
  predicate IsCode(text: string, i: nat) {
    i < |text| && Reaches(text, 0, i) && !AtStringOrComment(text, i)
  }

  /** Just past the closer that brings `depth` to zero, scanning from `i`. */
  function BalancedEnd(text: string, i: nat, open: char, close: char, depth: int): Option<nat>
    requires i <= |text|
    decreases |text| - i
  {
    if i == |text| then None
    else if AtStringOrComment(text, i) then BalancedEnd(text, Next(text, i), open, close, depth)
    else if text[i] == open then BalancedEnd(text, i + 1, open, close, depth + 1)
    else if text[i] == close then
      if depth == 1 then Some(i + 1) else BalancedEnd(text, i + 1, open, close, depth - 1)
    else BalancedEnd(text, i + 1, open, close, depth)
  }

  /** The blocks a stack scan closes from `i` on, as (position of `{`, position of `}`). */
  function Blocks(text: string, i: nat, starts: seq<nat>): seq<(nat, nat)>
    requires i <= |text|
    decreases |text| - i
  {
    if i == |text| then []
    else if AtStringOrComment(text, i) then Blocks(text, Next(text, i), starts)
    else if text[i] == '{' then Blocks(text, i + 1, starts + [i])
    else if text[i] == '}' && starts != [] then
      [(starts[|starts| - 1], i)] + Blocks(text, i + 1, starts[..|starts| - 1])
    else Blocks(text, i + 1, starts)
  }

  predicate Within(text: string, blocks: seq<(nat, nat)>) {
    forall k | 0 <= k < |blocks| :: blocks[k].0 < blocks[k].1 < |text|
  }

  function Insides(text: string, blocks: seq<(nat, nat)>): (insides: seq<string>)
    requires Within(text, blocks)
  {
    seq(|blocks|, k requires 0 <= k < |blocks| => text[blocks[k].0 + 1..blocks[k].1])
  }

  // ---- The scanners ----

  method SkipString(text: string, start: nat) returns (end: nat)
    requires start < |text| && IsQuote(text[start])
    ensures end == StringEnd(text, text[start], start + 1)
  {
    var quote := text[start];
    var i := start + 1;
    var n := |text|;
    while i < n
      invariant StringEnd(text, quote, i) == StringEnd(text, quote, start + 1)
      decreases n - i
    {
      var c := text[i];
      if c == '\\' {
        i := i + 2;
        continue;
      }
      if c == quote {
        return i + 1;
      }
      i := i + 1;
    }
    return n;
  }

  method SkipComment(text: string, i: nat) returns (end: nat)
    requires i < |text| && AtComment(text, i)
    ensures end == CommentEnd(text, i)
  {
    var n := |text|;
    if text[i + 1] == '/' {
      var j := Find(text, "\n", i);
      return if j == n then n else j + 1;
    }
    var j := Find(text, "*/", i + 2);
    return if j == n then n else j + 2;
  }

  method Skip(text: string, i: nat) returns (end: nat)
    requires i < |text| && AtStringOrComment(text, i)
    ensures end == Next(text, i)
  {
    if IsQuote(text[i]) {
      end := SkipString(text, i);
    } else {
      end := SkipComment(text, i);
    }
  }

  /** The first position at which the scan stands on `needle`. */
  method FindCodeOccurrence(text: string, needle: string, start: nat) returns (at: Option<nat>)
    requires start <= |text|
    ensures at.Some? ==>
              && start <= at.value < |text| && Reaches(text, start, at.value)
              && !AtStringOrComment(text, at.value) && StartsAt(text, needle, at.value)
    ensures forall k: nat ::
              && Reaches(text, start, k) && k < (if at.Some? then at.value else |text|)
              ==> k < |text| && (AtStringOrComment(text, k) || !StartsAt(text, needle, k))
  {
    var n := |text|;
    var i := start;
    forall k: nat | Reaches(text, start, k) ensures start <= k { ReachesForward(text, start, k); }
    while i < n
      invariant start <= i <= n
      invariant Reaches(text, start, i)
      invariant forall k: nat :: Reaches(text, start, k) && k < i ==>
                                   AtStringOrComment(text, k) || !StartsAt(text, needle, k)
      decreases n - i
    {
      ghost var here := i;
      ReachesBetween(text, start, i);
      if AtStringOrComment(text, i) {
        i := Skip(text, i);
        ReachesOn(text, start, here);
        continue;
      }
      if StartsAt(text, needle, i) {
        return Some(i);
      }
      ReachesOn(text, start, here);
      i := i + 1;
    }
    return None;
  }

  method ReadBalanced(text: string, start: nat, open: char, close: char) returns (end: Option<nat>)
    requires start <= |text|
    ensures end == BalancedEnd(text, start, open, close, 0)
  {
    var n := |text|;
    var depth := 0;
    var i := start;
    while i < n
      invariant start <= i <= n
      invariant BalancedEnd(text, i, open, close, depth) == BalancedEnd(text, start, open, close, 0)
      decreases n - i
    {
      if AtStringOrComment(text, i) {
        i := Skip(text, i);
        continue;
      }
      var c := text[i];
      if c == open {
        depth := depth + 1;
      } else if c == close {
        depth := depth - 1;
        if depth == 0 {
          return Some(i + 1);
        }
      }
      i := i + 1;
    }
    return None;
  }

  method ObjectLiterals(text: string) returns (blocks: seq<string>)
    ensures Within(text, Blocks(text, 0, []))
    ensures |blocks| == |Blocks(text, 0, [])|
    ensures forall k | 0 <= k < |blocks| :: blocks[k] == text[Blocks(text, 0, [])[k].0 + 1..Blocks(text, 0, [])[k].1]
  {
    var n := |text|;
    blocks := [];
    var starts: seq<nat> := [];
    ghost var spans: seq<(nat, nat)> := [];
    var i := 0;
    while i < n
      invariant 0 <= i <= n
      invariant forall j | 0 <= j < |starts| :: starts[j] < i
      invariant Within(text, spans)
      invariant blocks == Insides(text, spans)
      invariant spans + Blocks(text, i, starts) == Blocks(text, 0, [])
      decreases n - i
    {
      if AtStringOrComment(text, i) {
        i := Skip(text, i);
        continue;
      }
      var c := text[i];
      if c == '{' {
        starts := starts + [i];
      } else if c == '}' && starts != [] {
        var start := starts[|starts| - 1];
        ClosingStep(text, i, starts, spans);
        starts := starts[..|starts| - 1];
        blocks := blocks + [text[start + 1..i]];
        spans := spans + [(start, i)];
      }
      i := i + 1;
    }
    AppendNothing(spans, Blocks(text, i, starts));
  }

  lemma AppendNothing(spans: seq<(nat, nat)>, rest: seq<(nat, nat)>)
    requires rest == []
    ensures spans + rest == spans
  {
  }

  lemma ClosingStep(text: string, i: nat, starts: seq<nat>, spans: seq<(nat, nat)>)
    requires i < |text| && !AtStringOrComment(text, i) && text[i] == '}' && starts != []
    requires starts[|starts| - 1] < i && Within(text, spans)
    ensures var start := starts[|starts| - 1];
            && Within(text, spans + [(start, i)])
            && spans + Blocks(text, i, starts)
               == spans + [(start, i)] + Blocks(text, i + 1, starts[..|starts| - 1])
            && Insides(text, spans + [(start, i)]) == Insides(text, spans) + [text[start + 1..i]]
  {
    var start := starts[|starts| - 1];
    BlocksAppend(spans, (start, i), Blocks(text, i + 1, starts[..|starts| - 1]));
    InsidesAppend(text, spans, (start, i));
  }

  lemma BlocksAppend(spans: seq<(nat, nat)>, b: (nat, nat), rest: seq<(nat, nat)>)
    ensures spans + ([b] + rest) == spans + [b] + rest
  {
  }

  lemma InsidesAppend(text: string, blocks: seq<(nat, nat)>, b: (nat, nat))
    requires Within(text, blocks) && b.0 < b.1 < |text|
    ensures Within(text, blocks + [b])
    ensures Insides(text, blocks + [b]) == Insides(text, blocks) + [text[b.0 + 1..b.1]]
  {
  }

  // ---- Reachability ----

  lemma {:induction false} ReachesOn(text: string, from: nat, i: nat)
    requires Reaches(text, from, i) && i < |text|
    ensures Reaches(text, from, Next(text, i))
    decreases |text| - from
  {
    if from != i {
      ReachesOn(text, Next(text, from), i);
    }
  }

  lemma {:induction false} ReachesForward(text: string, from: nat, i: nat)
    requires Reaches(text, from, i)
    ensures from <= i
    decreases |text| - from
  {
    if from != i {
      ReachesForward(text, Next(text, from), i);
    }
  }

  lemma {:induction false} ReachesTransitive(text: string, a: nat, b: nat, c: nat)
    requires Reaches(text, a, b) && Reaches(text, b, c)
    ensures Reaches(text, a, c)
    decreases |text| - a
  {
    if a != b {
      ReachesTransitive(text, Next(text, a), b, c);
    }
  }

  /** The scan stands nowhere strictly between a position and the next one. */
  lemma {:induction false} ReachesBetween(text: string, from: nat, i: nat)
    requires Reaches(text, from, i) && i < |text|
    ensures forall k: nat | Reaches(text, from, k) :: k <= i || k >= Next(text, i)
    decreases |text| - from
  {
    if from != i {
      ReachesBetween(text, Next(text, from), i);
      ReachesForward(text, Next(text, from), i);
    } else {
      forall k: nat | Reaches(text, from, k) ensures k <= i || k >= Next(text, i) {
        if k != i {
          ReachesForward(text, Next(text, i), k);
        }
      }
    }
  }

  // ---- The balanced reader against a count of delimiters ----

  function Weight(text: string, i: nat, open: char, close: char): int
    requires i < |text|
  {
    if AtStringOrComment(text, i) then 0
    else if text[i] == open then 1
    else if text[i] == close then -1
    else 0
  }

  /** Code openers minus code closers on the scan from `from` up to `to`. */
  function Net(text: string, from: nat, to: nat, open: char, close: char): int
    decreases |text| - from
  {
    if from >= to || from >= |text| then 0
    else Weight(text, from, open, close) + Net(text, Next(text, from), to, open, close)
  }

  /** At `p` stands a code closer that brings the depth, `depth` at `from`, to zero. */
  ghost predicate Zeroes(text: string, from: nat, open: char, close: char, depth: int, p: nat) {
    && p < |text| && Reaches(text, from, p)
    && !AtStringOrComment(text, p) && text[p] == close
    && depth + Net(text, from, p, open, close) == 1
  }

  /** The reader stops at the first closer where openers and closers balance, and nowhere else. */
  lemma {:induction false} ReaderStopsAtFirstZero(
    text: string, from: nat, open: char, close: char, depth: int, p: nat
  )
    requires from <= |text| && open != close
    ensures BalancedEnd(text, from, open, close, depth) == Some(p + 1) <==>
            && Zeroes(text, from, open, close, depth, p)
            && forall q: nat | q < p :: !Zeroes(text, from, open, close, depth, q)
    decreases |text| - from
  {
    if from < |text| {
      var next, depth' := Next(text, from), depth + Weight(text, from, open, close);
      forall q: nat
        ensures Zeroes(text, next, open, close, depth', q) ==> q > from
        ensures Zeroes(text, from, open, close, depth, q) ==> q >= from
        ensures q != from ==>
                  (Zeroes(text, from, open, close, depth, q) <==> Zeroes(text, next, open, close, depth', q))
      {
        if Reaches(text, next, q) {
          ReachesForward(text, next, q);
        }
      }
      ReaderStopsAtFirstZero(text, next, open, close, depth', p);
      if Zeroes(text, from, open, close, depth, from) {
        assert BalancedEnd(text, from, open, close, depth) == Some(from + 1);
      } else {
        assert BalancedEnd(text, from, open, close, depth) == BalancedEnd(text, next, open, close, depth');
      }
    }
  }

  // ---- The stack extractor agrees with the balanced reader ----

  function Reader(text: string, s: nat): Option<nat>
    requires s <= |text|
  {
    BalancedEnd(text, s, '{', '}', 0)
  }

  /** Every opener on the stack is as deep at `i` as its place in the stack says. */
  ghost predicate StackAgrees(text: string, i: nat, starts: seq<nat>)
    requires i <= |text|
  {
    forall j | 0 <= j < |starts| ::
      && starts[j] < i
      && Reader(text, starts[j]) == BalancedEnd(text, i, '{', '}', |starts| - j)
  }

  /** `s` is an opener that a scan standing at `i` still has to account for. */
  ghost predicate Pending(text: string, i: nat, starts: seq<nat>, s: nat) {
    s in starts || (i <= s < |text| && Reaches(text, i, s) && !AtStringOrComment(text, s) && text[s] == '{')
  }

  /** At a closing brace the reader of the innermost opener ends, and the others read on. */
  lemma PopAgrees(text: string, i: nat, popped: seq<nat>, top: nat)
    requires i < |text| && StackAgrees(text, i, popped + [top])
    requires !AtStringOrComment(text, i) && text[i] == '}'
    ensures top < i && Reader(text, top) == Some(i + 1)
    ensures StackAgrees(text, i + 1, popped)
  {
    var starts := popped + [top];
    assert starts[|popped|] == top;
    assert forall j | 0 <= j < |popped| :: popped[j] == starts[j];
  }

  lemma {:induction false} BlocksExact(text: string, i: nat, starts: seq<nat>, s: nat, e: nat)
    requires i <= |text| && StackAgrees(text, i, starts)
    ensures (s, e) in Blocks(text, i, starts) <==>
            Pending(text, i, starts, s) && Reader(text, s) == Some(e + 1)
    decreases |text| - i
  {
    if i == |text| {
      if s in starts {
        assert Reader(text, s).None?;
      }
    } else if AtStringOrComment(text, i) {
      BlocksExact(text, Next(text, i), starts, s, e);
      PendingStep(text, i, starts, s);
    } else if text[i] == '{' {
      var pushed := starts + [i];
      assert StackAgrees(text, i + 1, pushed);
      BlocksExact(text, i + 1, pushed, s, e);
      PendingStep(text, i, starts, s);
    } else if text[i] == '}' && starts != [] {
      var k := |starts| - 1;
      var top, popped := starts[k], starts[..k];
      assert starts == popped + [top];
      PopAgrees(text, i, popped, top);
      BlocksExact(text, i + 1, popped, s, e);
      PendingStep(text, i, starts, s);
    } else {
      BlocksExact(text, i + 1, starts, s, e);
      PendingStep(text, i, starts, s);
    }
  }

  lemma PendingStep(text: string, i: nat, starts: seq<nat>, s: nat)
    requires i < |text|
    ensures !AtStringOrComment(text, i) && text[i] == '{' ==>
              (Pending(text, i, starts, s) <==> Pending(text, i + 1, starts + [i], s))
    ensures AtStringOrComment(text, i) || text[i] != '{' ==>
              (Pending(text, i, starts, s) <==> Pending(text, Next(text, i), starts, s))
  {
    if Reaches(text, Next(text, i), s) {
      ReachesForward(text, Next(text, i), s);
    }
  }

  lemma {:induction false} BlocksEndLater(text: string, i: nat, starts: seq<nat>)
    requires i <= |text|
    ensures forall k | 0 <= k < |Blocks(text, i, starts)| :: i <= Blocks(text, i, starts)[k].1 < |text|
    ensures forall j, k | 0 <= j < k < |Blocks(text, i, starts)| ::
              Blocks(text, i, starts)[j].1 < Blocks(text, i, starts)[k].1
    decreases |text| - i
  {
    if i == |text| {
    } else if AtStringOrComment(text, i) {
      BlocksEndLater(text, Next(text, i), starts);
    } else if text[i] == '{' {
      BlocksEndLater(text, i + 1, starts + [i]);
    } else if text[i] == '}' && starts != [] {
      BlocksEndLater(text, i + 1, starts[..|starts| - 1]);
    } else {
      BlocksEndLater(text, i + 1, starts);
    }
  }

  /** The extractor finds exactly the code-position openers the balanced reader closes, each once,
      in the order of their closing braces. */
  lemma ExtractorAgreesWithReader(text: string)
    ensures forall s: nat, e: nat :: (s, e) in Blocks(text, 0, []) <==>
              IsCode(text, s) && text[s] == '{' && Reader(text, s) == Some(e + 1)
    ensures forall j, k | 0 <= j < k < |Blocks(text, 0, [])| ::
              Blocks(text, 0, [])[j].1 < Blocks(text, 0, [])[k].1
  {
    forall s: nat, e: nat
      ensures (s, e) in Blocks(text, 0, []) <==>
              IsCode(text, s) && text[s] == '{' && Reader(text, s) == Some(e + 1)
    {
      BlocksExact(text, 0, [], s, e);
    }
    BlocksEndLater(text, 0, []);
  }
}
