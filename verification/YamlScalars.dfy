/** Quoted scalars and trailing comments, as scripts/check_runtime_contract.py reads them. */
module YamlScalars {

  /** Python's `str.replace`: non-overlapping occurrences, left to right. */
  function Replace(s: string, old_: string, new_: string): string
    requires old_ != ""
    decreases |s|
  {
    if s == "" then ""
    else if old_ <= s then new_ + Replace(s[|old_|..], old_, new_)
    else [s[0]] + Replace(s[1..], old_, new_)
  }

  predicate IsQuote(c: char) {
    c == '"' || c == '\''
  }

  /** `_strip_yaml_quotes`. */
  function StripQuotes(value: string): string {
    if |value| >= 2 && value[0] == value[|value| - 1] && IsQuote(value[0]) then
      var inner := value[1..|value| - 1];
      if value[0] == '\'' then Replace(inner, "''", "'")
      else Replace(Replace(inner, "\\\"", "\""), "\\\\", "\\")
    else value
  }

  /** Where the quoted scalar opened at index 0 closes, scanning from `end`; at or past |value| when
      it does not. */
  function ClosingQuote(value: string, quote: char, end: nat): nat
    decreases |value| - end
  {
    if end >= |value| then end
    else if quote == '"' && value[end] == '\\' then ClosingQuote(value, quote, end + 2)
    else if value[end] == quote then
      if quote == '\'' && end + 1 < |value| && value[end + 1] == '\'' then ClosingQuote(value, quote, end + 2)
      else end
    else ClosingQuote(value, quote, end + 1)
  }

  predicate IsSpace(c: char) {
    c == ' ' || '\t' <= c <= '\r' || '\U{001C}' <= c <= '\U{001F}'
  }

  function RStrip(s: string): string {
    if s != "" && IsSpace(s[|s| - 1]) then RStrip(s[..|s| - 1]) else s
  }

  function LStrip(s: string): string {
    if s != "" && IsSpace(s[0]) then LStrip(s[1..]) else s
  }

  function Strip(s: string): string {
    RStrip(LStrip(s))
  }

  /** `value.split(" #", 1)[0]`. */
  function BeforeComment(s: string): string {
    if s == "" || " #" <= s then "" else [s[0]] + BeforeComment(s[1..])
  }

  function Take(s: string, n: nat): string {
    if n < |s| then s[..n] else s
  }

  /** `_strip_yaml_comment`. */
  function StripComment(value: string): string {
    if value != "" && IsQuote(value[0]) then Take(value, ClosingQuote(value, value[0], 1) + 1)
    else RStrip(BeforeComment(value))
  }

  /** The index loop of `_strip_yaml_comment`. */
  method StripYamlComment(value: string) returns (kept: string)
    ensures kept == StripComment(value)
  {
    if value != "" && IsQuote(value[0]) {
      var quote := value[0];
      var end := 1;
      while end < |value|
        invariant ClosingQuote(value, quote, end) == ClosingQuote(value, quote, 1)
        decreases |value| - end
      {
        if quote == '"' && value[end] == '\\' {
          end := end + 2;
          continue;
        }
        if value[end] == quote {
          if quote == '\'' && end + 1 < |value| && value[end + 1] == '\'' {
            end := end + 2;
            continue;
          }
          break;
        }
        end := end + 1;
      }
      return Take(value, end + 1);
    }
    return RStrip(BeforeComment(value));
  }

  // ---- Writing scalars: sections 7.3.1 and 7.3.2 of YAML 1.2.2 ----

  datatype Style = DoubleQuoted | SingleQuoted

  function EscapeChar(style: Style, c: char): string {
    if style.DoubleQuoted? && (c == '"' || c == '\\') then ['\\', c]
    else if style.SingleQuoted? && c == '\'' then "''"
    else [c]
  }

  function Escape(style: Style, s: string): string {
    if s == "" then "" else EscapeChar(style, s[0]) + Escape(style, s[1..])
  }

  function Delimiter(style: Style): char {
    if style.DoubleQuoted? then '"' else '\''
  }

  function Quoted(style: Style, s: string): string {
    [Delimiter(style)] + Escape(style, s) + [Delimiter(style)]
  }

  // ---- Reading back what was written ----

  /** Only the backslashes doubled: double-quoted text after the first of the two replaces. */
  function DoubleBackslashes(s: string): string {
    if s == "" then "" else (if s[0] == '\\' then "\\\\" else [s[0]]) + DoubleBackslashes(s[1..])
  }

  lemma ReplaceAt(s: string, old_: string, new_: string, rest: string)
    requires old_ != "" && s == old_ + rest
    ensures Replace(s, old_, new_) == new_ + Replace(rest, old_, new_)
  {
    assert s[|old_|..] == rest;
  }

  lemma ReplaceSkip(c: char, rest: string, old_: string, new_: string)
    requires |old_| == 2 && !(c == old_[0] && rest != "" && rest[0] == old_[1])
    ensures Replace([c] + rest, old_, new_) == [c] + Replace(rest, old_, new_)
  {
    var s := [c] + rest;
    assert s[1..] == rest;
    assert s[0] == c;
    assert rest != "" ==> s[1] == rest[0];
  }

  lemma EscapeStartsUnquoted(s: string)
    ensures Escape(DoubleQuoted, s) != "" ==> Escape(DoubleQuoted, s)[0] != '"'
  {
  }

  /** A doubled backslash survives the first replace. */
  lemma BackslashSurvives(rest: string)
    requires rest == "" || rest[0] != '"'
    ensures Replace("\\\\" + rest, "\\\"", "\"") == "\\\\" + Replace(rest, "\\\"", "\"")
  {
    var more := ['\\'] + rest;
    ReplaceSkip('\\', rest, "\\\"", "\"");
    ReplaceSkip('\\', more, "\\\"", "\"");
    assert "\\\\" + rest == ['\\'] + more;
  }

  lemma {:induction false} FirstReplace(s: string)
    ensures Replace(Escape(DoubleQuoted, s), "\\\"", "\"") == DoubleBackslashes(s)
  {
    if s != "" {
      var c, rest := s[0], Escape(DoubleQuoted, s[1..]);
      FirstReplace(s[1..]);
      EscapeStartsUnquoted(s[1..]);
      if c == '"' {
        assert Escape(DoubleQuoted, s) == "\\\"" + rest;
        ReplaceAt("\\\"" + rest, "\\\"", "\"", rest);
      } else if c == '\\' {
        assert Escape(DoubleQuoted, s) == "\\\\" + rest;
        BackslashSurvives(rest);
      } else {
        assert Escape(DoubleQuoted, s) == [c] + rest;
        ReplaceSkip(c, rest, "\\\"", "\"");
      }
    }
  }

  lemma {:induction false} SecondReplace(s: string)
    ensures Replace(DoubleBackslashes(s), "\\\\", "\\") == s
  {
    if s != "" {
      var rest := DoubleBackslashes(s[1..]);
      SecondReplace(s[1..]);
      assert s == [s[0]] + s[1..];
      if s[0] == '\\' {
        ReplaceAt(DoubleBackslashes(s), "\\\\", "\\", rest);
      } else {
        ReplaceSkip(s[0], rest, "\\\\", "\\");
      }
    }
  }

  lemma {:induction false} SingleReplace(s: string)
    ensures Replace(Escape(SingleQuoted, s), "''", "'") == s
  {
    if s != "" {
      var rest := Escape(SingleQuoted, s[1..]);
      SingleReplace(s[1..]);
      assert s == [s[0]] + s[1..];
      if s[0] == '\'' {
        ReplaceAt(Escape(SingleQuoted, s), "''", "'", rest);
      } else {
        ReplaceSkip(s[0], rest, "''", "'");
      }
    }
  }

  /** What follows a closing quote must not read as its doubling. */
  predicate Ends(style: Style, tail: string) {
    !(style.SingleQuoted? && tail != "" && tail[0] == '\'')
  }

  lemma SkipsEscape(value: string, style: Style, i: nat, c: char)
    requires i + |EscapeChar(style, c)| <= |value|
    requires value[i..i + |EscapeChar(style, c)|] == EscapeChar(style, c)
    ensures ClosingQuote(value, Delimiter(style), i)
         == ClosingQuote(value, Delimiter(style), i + |EscapeChar(style, c)|)
  {
    var head := EscapeChar(style, c);
    assert value[i] == head[0];
    assert |head| == 2 ==> value[i + 1] == head[1];
  }

  lemma ClosesHere(value: string, style: Style, i: nat, tail: string)
    requires Ends(style, tail) && i <= |value| && value[i..] == [Delimiter(style)] + tail
    ensures ClosingQuote(value, Delimiter(style), i) == i
  {
    assert value[i] == value[i..][0];
    assert tail != "" ==> value[i + 1] == value[i..][1];
  }

  lemma PassesChar(style: Style, value: string, i: nat, c: char, more: string)
    requires i <= |value| && value[i..] == EscapeChar(style, c) + more
    ensures var j := i + |EscapeChar(style, c)|;
            && j <= |value| && value[j..] == more
            && ClosingQuote(value, Delimiter(style), i) == ClosingQuote(value, Delimiter(style), j)
  {
    EscapeHead(value, i, EscapeChar(style, c), more);
    SkipsEscape(value, style, i, c);
  }

  /** The scan passes over all that was escaped, to whatever follows it. */
  lemma {:induction false} PassesEscape(style: Style, value: string, i: nat, s: string, rest: string)
    requires i <= |value| && value[i..] == Escape(style, s) + rest
    ensures ClosingQuote(value, Delimiter(style), i) == ClosingQuote(value, Delimiter(style), i + |Escape(style, s)|)
    decreases |s|
  {
    if s == "" {
      assert i + |Escape(style, s)| == i;
    } else {
      var more := Escape(style, s[1..]) + rest;
      var j := i + |EscapeChar(style, s[0])|;
      EscapedHead(style, s, rest);
      PassesChar(style, value, i, s[0], more);
      PassesEscape(style, value, j, s[1..], rest);
      assert j + |Escape(style, s[1..])| == i + |Escape(style, s)|;
    }
  }

  /** The scan closes exactly at the delimiter that was written. */
  lemma ClosesAtDelimiter(style: Style, value: string, i: nat, s: string, tail: string)
    requires Ends(style, tail) && i <= |value|
    requires value[i..] == Escape(style, s) + ([Delimiter(style)] + tail)
    ensures ClosingQuote(value, Delimiter(style), i) == i + |Escape(style, s)|
  {
    var rest := [Delimiter(style)] + tail;
    PassesEscape(style, value, i, s, rest);
    EscapeHead(value, i, Escape(style, s), rest);
    ClosesHere(value, style, i + |Escape(style, s)|, tail);
  }

  lemma EscapedHead(style: Style, s: string, rest: string)
    requires s != ""
    ensures Escape(style, s) + rest == EscapeChar(style, s[0]) + (Escape(style, s[1..]) + rest)
    ensures |Escape(style, s)| == |EscapeChar(style, s[0])| + |Escape(style, s[1..])|
  {
    var head, more := EscapeChar(style, s[0]), Escape(style, s[1..]);
    assert Escape(style, s) == head + more;
    Associate(head, more, rest);
  }

  lemma Associate(a: string, b: string, c: string)
    ensures (a + b) + c == a + (b + c)
  {
  }

  lemma EscapeHead(value: string, i: nat, head: string, rest: string)
    requires i <= |value| && value[i..] == head + rest
    ensures i + |head| <= |value| && value[i..i + |head|] == head && value[i + |head|..] == rest
  {
    assert value[i..][..|head|] == head;
    assert value[i..][|head|..] == rest;
  }

  lemma StripsToQuoted(style: Style, s: string, tail: string)
    requires Ends(style, tail)
    ensures StripComment(Quoted(style, s) + tail) == Quoted(style, s)
  {
    var quote := Delimiter(style);
    var value := Quoted(style, s) + tail;
    assert value[1..] == Escape(style, s) + ([quote] + tail);
    ClosesAtDelimiter(style, value, 1, s, tail);
    assert value[..|Quoted(style, s)|] == Quoted(style, s);
  }

  /** Any string written in either quoted style, whatever comment follows it, reads back. */
  lemma QuotedRoundTrip(style: Style, s: string, tail: string)
    requires Ends(style, tail)
    ensures StripQuotes(StripComment(Quoted(style, s) + tail)) == s
  {
    StripsToQuoted(style, s, tail);
    var q := Quoted(style, s);
    assert q[1..|q| - 1] == Escape(style, s);
    if style.DoubleQuoted? {
      FirstReplace(s);
      SecondReplace(s);
    } else {
      SingleReplace(s);
    }
  }

  /** A quoted scalar that is never closed is kept as it is. */
  lemma UnclosedKept(style: Style, s: string)
    ensures StripComment([Delimiter(style)] + Escape(style, s)) == [Delimiter(style)] + Escape(style, s)
  {
    var value := [Delimiter(style)] + Escape(style, s);
    assert value[1..] == Escape(style, s) + "";
    PassesEscape(style, value, 1, s, "");
  }

  // ---- Plain scalars ----

  /** A scalar and how it is written. */
  datatype Scalar = QuotedScalar(style: Style, text: string) | PlainScalar(text: string)

  function Written(scalar: Scalar): string {
    match scalar
    case QuotedScalar(style, text) => Quoted(style, text)
    case PlainScalar(text) => text
  }

  function Spaces(n: nat): string {
    if n == 0 then "" else " " + Spaces(n - 1)
  }

  /** Text without a leading quote, white space at either end, or a comment inside. */
  predicate PlainText(text: string) {
    && text != "" && text[0] != '"' && text[0] != '\'' && !IsSpace(text[0]) && !IsSpace(text[|text| - 1])
    && forall k | 0 <= k < |text| - 1 :: !(text[k] == ' ' && text[k + 1] == '#')
  }

  /** Spaces, and then nothing or a comment. */
  predicate PlainComment(comment: string) {
    exists k: nat | k <= |comment| :: comment[..k] == Spaces(k) && (k == |comment| || " #" <= comment[k..])
  }

  lemma {:induction false} RStripAfter(a: string, tail: string)
    requires a != "" && !IsSpace(a[|a| - 1])
    ensures RStrip(a + tail) == a + RStrip(tail)
    decreases |tail|
  {
    var s := a + tail;
    if tail == "" {
      assert s == a;
    } else if IsSpace(tail[|tail| - 1]) {
      assert s[..|s| - 1] == a + tail[..|tail| - 1];
      RStripAfter(a, tail[..|tail| - 1]);
    }
  }

  lemma {:induction false} RStripTwice(s: string)
    ensures RStrip(RStrip(s)) == RStrip(s)
  {
    if s != "" && IsSpace(s[|s| - 1]) {
      RStripTwice(s[..|s| - 1]);
    }
  }

  lemma {:induction false} RStripSpaces(n: nat)
    ensures RStrip(Spaces(n)) == "" && |Spaces(n)| == n && forall k | 0 <= k < n :: Spaces(n)[k] == ' '
  {
    if n > 0 {
      RStripSpaces(n - 1);
      var s := Spaces(n);
      assert s[n - 1] == if n == 1 then ' ' else Spaces(n - 1)[n - 2];
      SpacesShorter(n);
    }
  }

  lemma {:induction false} SpacesShorter(n: nat)
    requires n > 0
    ensures |Spaces(n)| == n && Spaces(n)[..n - 1] == Spaces(n - 1)
  {
    if n > 1 {
      SpacesShorter(n - 1);
      assert Spaces(n) == " " + Spaces(n - 1);
      assert (" " + Spaces(n - 1))[..n - 1] == " " + Spaces(n - 1)[..n - 2];
    }
  }

  predicate CommentAt(s: string, k: nat) {
    k + 1 < |s| && s[k] == ' ' && s[k + 1] == '#'
  }

  /** No comment starts within `text` when `rest` follows it. */
  predicate NoneStarts(text: string, rest: string) {
    forall k | 0 <= k < |text| :: !CommentAt(text + rest, k)
  }

  lemma {:induction false} BeforePasses(text: string, rest: string)
    requires NoneStarts(text, rest)
    ensures BeforeComment(text + rest) == text + BeforeComment(rest)
    decreases |text|
  {
    if text == "" {
      assert text + rest == rest;
    } else {
      NoneStartsLater(text, rest);
      BeforePasses(text[1..], rest);
      assert text == [text[0]] + text[1..];
    }
  }

  lemma NoneStartsLater(text: string, rest: string)
    requires text != "" && NoneStarts(text, rest)
    ensures NoneStarts(text[1..], rest)
    ensures BeforeComment(text + rest) == [text[0]] + BeforeComment(text[1..] + rest)
  {
    var s := text + rest;
    assert s[0] == text[0] && s[1..] == text[1..] + rest;
    MarkHead(s);
    assert !CommentAt(s, 0);
    forall k | 0 <= k < |text[1..]| ensures !CommentAt(s[1..], k) {
      assert !CommentAt(s, k + 1);
    }
  }

  lemma MarkHead(s: string)
    ensures " #" <= s <==> CommentAt(s, 0)
  {
    assert " #" == [' ', '#'];
    if CommentAt(s, 0) {
      assert s[..2] == " #";
    }
  }

  /** Plain text loses what follows it: spaces, and a comment after them. */
  lemma CommentDropped(text: string, comment: string)
    requires PlainText(text) && PlainComment(comment)
    ensures StripComment(text + comment) == text
    ensures StripComment(text + RStrip(comment)) == text
  {
    var k: nat :| k <= |comment| && comment[..k] == Spaces(k) && (k == |comment| || " #" <= comment[k..]);
    var tail := comment[k..];
    assert comment == Spaces(k) + tail;
    PlainKept(text, k, tail);
    Associate(text, Spaces(k), tail);
    RStripPlain(k, tail);
    if tail == "" {
      PlainKept(text, 0, "");
      assert text + Spaces(0) + "" == text + "";
    } else {
      PlainKept(text, k, RStrip(tail));
      Associate(text, Spaces(k), RStrip(tail));
    }
  }

  /** A comment loses the white space at its end. */
  lemma RStripPlain(k: nat, tail: string)
    requires tail == "" || " #" <= tail
    ensures RStrip(Spaces(k) + tail) == if tail == "" then "" else Spaces(k) + RStrip(tail)
    ensures tail != "" ==> " #" <= RStrip(tail)
  {
    if tail == "" {
      RStripSpaces(k);
      assert Spaces(k) + "" == Spaces(k);
    } else {
      var more := tail[2..];
      assert tail == " #" + more;
      RStripAfter(" #", more);
      var head := Spaces(k) + " #";
      Associate(Spaces(k), " #", more);
      Associate(Spaces(k), " #", RStrip(more));
      assert head[|head| - 1] == '#';
      RStripAfter(head, more);
    }
  }

  lemma PlainKept(text: string, n: nat, tail: string)
    requires PlainText(text) && (tail == "" || " #" <= tail)
    ensures StripComment(text + Spaces(n) + tail) == text
  {
    var padded := text + Spaces(n);
    RStripSpaces(n);
    NoneStartsPadded(text, n, tail);
    BeforePasses(padded, tail);
    assert BeforeComment(tail) == "";
    assert padded + "" == padded;
    RStripAfter(text, Spaces(n));
    assert text + "" == text;
    assert (padded + tail)[0] == text[0];
  }

  lemma NoneStartsPadded(text: string, n: nat, tail: string)
    requires PlainText(text) && (tail == "" || " #" <= tail)
    ensures NoneStarts(text + Spaces(n), tail)
  {
    RStripSpaces(n);
    var all := text + Spaces(n) + tail;
    forall k | 0 <= k < |text + Spaces(n)| ensures !CommentAt(all, k) {
      if k + 1 < |text| {
        assert all[k] == text[k] && all[k + 1] == text[k + 1];
      } else if k < |text| {
        assert all[k] == text[k];
      } else if k + 1 < |text| + n {
        assert all[k + 1] == Spaces(n)[k + 1 - |text|];
      } else if tail != "" {
        assert all[k + 1] == tail[0];
      }
    }
  }
}
