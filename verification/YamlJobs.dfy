/** The indentation walk that inventories a workflow's jobs (scripts/check_runtime_contract.py). */
module YamlJobs {
  import opened Wrappers
  import opened YamlScalars

  function LeadingSpaces(raw: string): nat {
    if raw != "" && raw[0] == ' ' then 1 + LeadingSpaces(raw[1..]) else 0
  }

  /** A tab in the leading whitespace. */
  predicate TabIndented(raw: string) {
    raw != "" && IsSpace(raw[0]) && (raw[0] == '\t' || TabIndented(raw[1..]))
  }

  function Colon(line: string): nat {
    if line == "" || line[0] == ':' then 0 else 1 + Colon(line[1..])
  }

  lemma {:induction false} ColonInside(line: string)
    ensures Colon(line) <= |line|
    ensures Colon(line) == |line| <==> ':' !in line
    decreases |line|
  {
    if line != "" && line[0] != ':' {
      ColonInside(line[1..]);
      assert line == [line[0]] + line[1..];
    }
  }

  predicate Skipped(raw: string) {
    Strip(raw) == "" || "#" <= LStrip(raw)
  }

  predicate HasColon(raw: string) {
    ':' in Strip(raw)
  }

  function Before(line: string): string {
    Take(line, Colon(line))
  }

  function After(line: string): string {
    if Colon(line) < |line| then line[Colon(line) + 1..] else ""
  }

  function Key(raw: string): string {
    StripQuotes(Strip(Before(Strip(raw))))
  }

  function Value(raw: string): string {
    StripComment(Strip(After(Strip(raw))))
  }

  datatype Unparseable = TabIndentation | ListForm | FlowStyle | AnchorName | BlockScalarName

  datatype Walk = Walk(
    names: seq<string>,
    inJobs: bool,
    jobIndent: Option<nat>,
    pending: Option<string>,
    stopped: bool
  )

  const START := Walk([], false, None, None, false)

  predicate IsJobsHeader(raw: string) {
    LeadingSpaces(raw) == 0 && Key(raw) == "jobs" && Value(raw) == ""
  }

  /** A line at job level: it resolves the pending job and opens the next. */
  function JobLine(w: Walk, raw: string): Result<Walk, Unparseable> {
    var line := Strip(raw);
    if "- " <= line then Err(ListForm)
    else if '{' in line || '}' in line then Err(FlowStyle)
    else Ok(w.(names := Flush(w), pending := Some(Key(raw))))
  }

  function Flush(w: Walk): seq<string> {
    if w.pending.Some? then w.names + [w.pending.value] else w.names
  }

  /** The pending job's own `name:` line. */
  function NameLine(w: Walk, raw: string): Result<Walk, Unparseable> {
    var value := Value(raw);
    if "&" <= value || "*" <= value then Err(AnchorName)
    else if ">" <= value || "|" <= value then Err(BlockScalarName)
    else if StripQuotes(value) != "" then Ok(w.(pending := Some(StripQuotes(value))))
    else Ok(w)
  }

  /** One line of the walk. */
  function Step(w: Walk, raw: string): Result<Walk, Unparseable> {
    if w.stopped || Skipped(raw) then Ok(w)
    else if w.inJobs && TabIndented(raw) then Err(TabIndentation)
    else if !HasColon(raw) then Ok(w)
    else if !w.inJobs then Ok(if IsJobsHeader(raw) then w.(inJobs := true) else w)
    else if LeadingSpaces(raw) == 0 then Ok(w.(stopped := true))
    else
      var indent := LeadingSpaces(raw);
      var v := if w.jobIndent.None? then w.(jobIndent := Some(indent)) else w;
      if indent == v.jobIndent.value then JobLine(v, raw)
      else if v.pending.Some? && indent == v.jobIndent.value + 2 && Key(raw) == "name" then NameLine(v, raw)
      else Ok(v)
  }

  function Fold(w: Walk, lines: seq<string>): Result<Walk, Unparseable>
    decreases |lines|
  {
    if lines == [] then Ok(w)
    else
      var next := Step(w, lines[0]);
      if next.Err? then next else Fold(next.value, lines[1..])
  }

  function Names(lines: seq<string>): Result<seq<string>, Unparseable> {
    var w := Fold(START, lines);
    if w.Err? then Err(w.error) else Ok(Flush(w.value))
  }

  /** `_ci_job_display_names`. */
  method CiJobDisplayNames(lines: seq<string>) returns (r: Result<seq<string>, Unparseable>)
    ensures r == Names(lines)
  {
    var w := START;
    assert lines[0..] == lines;
    for i := 0 to |lines|
      invariant Fold(w, lines[i..]) == Fold(START, lines)
    {
      assert lines[i..][1..] == lines[i + 1..];
      var next := Step(w, lines[i]);
      if next.Err? {
        return Err(next.error);
      }
      w := next.value;
    }
    return Ok(Flush(w));
  }

  // ---- Printing a jobs map ----

  /** The name of a job, and what follows it on its line. */
  datatype Name = Name(scalar: Scalar, comment: string)

  datatype Job = Job(key: string, before: seq<string>, name: Option<Name>, after: seq<string>)

  function Header(n: nat, key: string): string {
    Spaces(n) + (key + ":")
  }

  function PrintedName(n: nat, name: Name): string {
    Spaces(n + 2) + ("name: " + Written(name.scalar) + name.comment)
  }

  function JobLines(n: nat, job: Job): seq<string> {
    [Header(n, job.key)] + job.before
    + (if job.name.Some? then [PrintedName(n, job.name.value)] else [])
    + job.after
  }

  function AllJobLines(n: nat, jobs: seq<Job>): seq<string> {
    if jobs == [] then [] else JobLines(n, jobs[0]) + AllJobLines(n, jobs[1..])
  }

  function DisplayName(job: Job): string {
    if job.name.Some? && job.name.value.scalar.text != "" then job.name.value.scalar.text else job.key
  }

  function DisplayNames(jobs: seq<Job>): seq<string> {
    if jobs == [] then [] else [DisplayName(jobs[0])] + DisplayNames(jobs[1..])
  }

  predicate IsWordChar(c: char) {
    'a' <= c <= 'z' || 'A' <= c <= 'Z' || '0' <= c <= '9' || c == '_' || c == '-'
  }

  /** A job id as GitHub Actions admits it. */
  predicate PlainKey(key: string) {
    key != "" && key[0] != '-' && forall i | 0 <= i < |key| :: IsWordChar(key[i])
  }

  /** A line the walk passes over inside a job at indent `n`. */
  predicate Filler(n: nat, raw: string) {
    || Skipped(raw)
    || (!TabIndented(raw) &&
        (!HasColon(raw) || (LeadingSpaces(raw) > n && !(LeadingSpaces(raw) == n + 2 && Key(raw) == "name"))))
  }

  /** A quoted name may be followed by anything after a space, a plain one by a comment alone; a plain
      one does not begin like an anchor, an alias or a block scalar. */
  predicate GoodName(name: Name) {
    match name.scalar
    case QuotedScalar(_, _) => name.comment == "" || name.comment[0] == ' '
    case PlainScalar(text) =>
      && PlainText(text) && text[0] != '&' && text[0] != '*' && text[0] != '>' && text[0] != '|'
      && PlainComment(name.comment)
  }

  predicate GoodJob(n: nat, job: Job) {
    && PlainKey(job.key)
    && (forall i | 0 <= i < |job.before| :: Filler(n, job.before[i]))
    && (forall i | 0 <= i < |job.after| :: Filler(n, job.after[i]))
    && (job.name.Some? ==> GoodName(job.name.value))
  }

  /** A line that ends the jobs map: a top-level key. */
  predicate TopLevelKey(raw: string) {
    raw != "" && !IsSpace(raw[0]) && raw[0] != '#' && ':' in RStrip(raw)
  }

  // ---- Whitespace ----

  lemma {:induction false} RStripPrefix(s: string)
    ensures RStrip(s) <= s
  {
    if s != "" && IsSpace(s[|s| - 1]) {
      RStripPrefix(s[..|s| - 1]);
    }
  }

  lemma {:induction false} Indented(n: nat, line: string)
    requires line != "" && !IsSpace(line[0])
    ensures LStrip(Spaces(n) + line) == line
    ensures LeadingSpaces(Spaces(n) + line) == n
    ensures !TabIndented(Spaces(n) + line)
  {
    var raw := Spaces(n) + line;
    if n == 0 {
      assert raw == line;
    } else {
      assert raw[0] == ' ' && raw[1..] == Spaces(n - 1) + line;
      Indented(n - 1, line);
    }
  }

  lemma {:induction false} ColonAt(key: string, rest: string)
    requires ':' !in key
    ensures Colon(key + ":" + rest) == |key|
    ensures Before(key + ":" + rest) == key && After(key + ":" + rest) == rest
  {
    var line := key + ":" + rest;
    ColonCount(key, ":" + rest);
    assert line == key + (":" + rest);
  }

  lemma {:induction false} ColonCount(key: string, rest: string)
    requires ':' !in key && rest != "" && rest[0] == ':'
    ensures Colon(key + rest) == |key|
  {
    var line := key + rest;
    if key != "" {
      assert line[0] == key[0] && line[1..] == key[1..] + rest;
      ColonCount(key[1..], rest);
    } else {
      assert line == rest;
    }
  }

  lemma PlainKeyFacts(key: string)
    requires PlainKey(key)
    ensures ':' !in key && '{' !in key && '}' !in key && !IsSpace(key[0]) && !IsSpace(key[|key| - 1])
    ensures Strip(key) == key && StripQuotes(key) == key && key[0] != '#'
  {
    RStripAfter(key, "");
    assert key + "" == key;
    assert IsWordChar(key[0]);
  }

  // ---- One printed line ----

  lemma HeaderRead(n: nat, key: string)
    requires PlainKey(key)
    ensures var raw := Header(n, key);
            && !Skipped(raw) && !TabIndented(raw) && HasColon(raw)
            && LeadingSpaces(raw) == n && Key(raw) == key && Strip(raw) == key + ":"
  {
    var line := key + ":";
    PlainKeyFacts(key);
    Indented(n, line);
    RStripAfter(line, "");
    assert line + "" == line;
    ColonAt(key, "");
    assert line[|key|] == ':';
    assert line[0] == key[0];
  }

  lemma HeaderStep(w: Walk, n: nat, key: string)
    requires PlainKey(key) && n > 0 && w.inJobs && !w.stopped
    requires w.jobIndent == None || w.jobIndent == Some(n)
    ensures Step(w, Header(n, key)) ==
            Ok(w.(jobIndent := Some(n), names := Flush(w), pending := Some(key)))
  {
    HeaderRead(n, key);
    PlainKeyFacts(key);
    var line := key + ":";
    assert line[0] == key[0];
    assert forall c | c in line :: c in key || c == ':';
  }

  /** What a name line with the value `q` and the comment `c` is once stripped. */
  function StrippedName(q: string, c: string): string {
    "name" + ":" + (" " + q + RStrip(c))
  }

  lemma IndentedStrip(n: nat, head: string, rest: string)
    requires head != "" && !IsSpace(head[0]) && !IsSpace(head[|head| - 1])
    ensures var raw := Spaces(n) + (head + rest);
            && Strip(raw) == head + RStrip(rest) && LStrip(raw)[..1] == [head[0]]
            && LeadingSpaces(raw) == n && !TabIndented(raw)
  {
    Indented(n, head + rest);
    RStripAfter(head, rest);
  }

  lemma StripSpaced(q: string, c: string)
    requires q != "" && !IsSpace(q[0]) && !IsSpace(q[|q| - 1])
    ensures Strip(" " + (q + c)) == q + RStrip(c)
  {
    var line := q + c;
    assert line[0] == q[0];
    assert LStrip(line) == line;
    assert (" " + line)[0] == ' ' && (" " + line)[1..] == line;
    assert LStrip(" " + line) == line;
    RStripAfter(q, c);
  }

  lemma NameText(q: string, c: string)
    requires q != ""
    ensures ("name: " + q) + c == "name" + ":" + (" " + q + c)
    ensures ("name: " + q)[0] == 'n' && ("name: " + q)[|"name: " + q| - 1] == q[|q| - 1]
  {
    assert "name: " == "name" + ":" + " ";
  }

  lemma NameLineStripped(n: nat, q: string, c: string)
    requires TextLine(q)
    ensures var raw := Spaces(n) + ("name: " + q + c);
            && Strip(raw) == StrippedName(q, c) && LStrip(raw)[..1] == "n"
            && LeadingSpaces(raw) == n && !TabIndented(raw)
  {
    NameText(q, RStrip(c));
    IndentedStrip(n, "name: " + q, c);
  }

  lemma WrittenEnds(scalar: Scalar)
    requires scalar.PlainScalar? ==> PlainText(scalar.text)
    ensures var q := Written(scalar);
            q != "" && !IsSpace(q[0]) && !IsSpace(q[|q| - 1])
  {
    var q := Written(scalar);
    if scalar.QuotedScalar? {
      assert q[0] == Delimiter(scalar.style) && q[|q| - 1] == Delimiter(scalar.style);
    }
  }

  lemma NameLineKey(q: string, c: string)
    ensures var line := StrippedName(q, c);
            Before(line) == "name" && After(line) == " " + q + RStrip(c) && ':' in line
  {
    var rest := " " + q + RStrip(c);
    ColonAt("name", rest);
    assert ("name" + ":" + rest)[4] == ':';
  }

  lemma NameLineValue(name: Name)
    requires GoodName(name)
    ensures StripComment(Strip(" " + Written(name.scalar) + RStrip(name.comment))) == Written(name.scalar)
  {
    var q, c := Written(name.scalar), RStrip(name.comment);
    WrittenEnds(name.scalar);
    StripSpaced(q, c);
    assert " " + q + c == " " + (q + c);
    RStripTwice(name.comment);
    match name.scalar
    case QuotedScalar(style, text) =>
      RStripPrefix(name.comment);
      StripsToQuoted(style, text, c);
    case PlainScalar(text) =>
      CommentDropped(text, name.comment);
  }

  lemma NameKeyPlain()
    ensures StripQuotes(Strip("name")) == "name"
  {
    assert PlainKey("name");
    PlainKeyFacts("name");
  }

  /** A name line, whatever its value. */
  lemma NameLineParts(n: nat, q: string, c: string)
    requires TextLine(q)
    ensures var raw := Spaces(n) + ("name: " + q + c);
            && !Skipped(raw) && !TabIndented(raw) && HasColon(raw) && LeadingSpaces(raw) == n
            && Key(raw) == "name" && Value(raw) == StripComment(Strip(" " + q + RStrip(c)))
  {
    var raw := Spaces(n) + ("name: " + q + c);
    NameLineStripped(n, q, c);
    NameLineKey(q, c);
    NameKeyPlain();
    assert LStrip(raw)[0] == LStrip(raw)[..1][0];
  }

  lemma NameLineRead(n: nat, name: Name)
    requires GoodName(name)
    ensures var raw := PrintedName(n, name);
            && !Skipped(raw) && !TabIndented(raw) && HasColon(raw)
            && LeadingSpaces(raw) == n + 2 && Key(raw) == "name" && Value(raw) == Written(name.scalar)
  {
    WrittenEnds(name.scalar);
    NameLineParts(n + 2, Written(name.scalar), name.comment);
    NameLineValue(name);
  }

  /** A printed value is neither an anchor nor a block scalar, and a non-empty one is the name. */
  lemma WrittenNameLine(w: Walk, raw: string, name: Name)
    requires GoodName(name) && Value(raw) == Written(name.scalar)
    ensures NameLine(w, raw) == Ok(if name.scalar.text != "" then w.(pending := Some(name.scalar.text)) else w)
  {
    WrittenReads(name.scalar);
    WrittenUnmarked(name);
  }

  lemma WrittenReads(scalar: Scalar)
    requires scalar.PlainScalar? ==> PlainText(scalar.text)
    ensures StripQuotes(Written(scalar)) == scalar.text
  {
    if scalar.QuotedScalar? {
      StripsToQuoted(scalar.style, scalar.text, "");
      QuotedRoundTrip(scalar.style, scalar.text, "");
      assert Quoted(scalar.style, scalar.text) + "" == Quoted(scalar.style, scalar.text);
    }
  }

  lemma WrittenUnmarked(name: Name)
    requires GoodName(name)
    ensures var q := Written(name.scalar);
            !("&" <= q) && !("*" <= q) && !(">" <= q) && !("|" <= q)
  {
    var q := Written(name.scalar);
    if name.scalar.QuotedScalar? {
      assert q[0] == Delimiter(name.scalar.style);
    }
  }

  lemma NameStep(w: Walk, n: nat, name: Name)
    requires GoodName(name) && n > 0 && w.inJobs && !w.stopped && w.jobIndent == Some(n) && w.pending.Some?
    ensures Step(w, PrintedName(n, name)) ==
            Ok(if name.scalar.text != "" then w.(pending := Some(name.scalar.text)) else w)
  {
    NameLineRead(n, name);
    WrittenNameLine(w, PrintedName(n, name), name);
  }

  lemma FillerStep(w: Walk, n: nat, raw: string)
    requires Filler(n, raw) && w.inJobs && !w.stopped && w.jobIndent == Some(n)
    ensures Step(w, raw) == Ok(w)
  {
  }

  // ---- The whole map ----

  lemma {:induction false} FoldAppend(w: Walk, a: seq<string>, b: seq<string>)
    ensures Fold(w, a + b) == var v := Fold(w, a); if v.Err? then v else Fold(v.value, b)
    decreases |a|
  {
    if a == [] {
      assert a + b == b;
    } else {
      assert (a + b)[1..] == a[1..] + b;
      var next := Step(w, a[0]);
      if next.Ok? {
        FoldAppend(next.value, a[1..], b);
      }
    }
  }

  lemma {:induction false} FoldFillers(w: Walk, n: nat, lines: seq<string>)
    requires w.inJobs && !w.stopped && w.jobIndent == Some(n)
    requires forall i | 0 <= i < |lines| :: Filler(n, lines[i])
    ensures Fold(w, lines) == Ok(w)
    decreases |lines|
  {
    if lines != [] {
      FillerStep(w, n, lines[0]);
      FoldFillers(w, n, lines[1..]);
    }
  }

  lemma FoldOne(w: Walk, raw: string)
    ensures Fold(w, [raw]) == Step(w, raw)
  {
    assert [raw][1..] == [];
  }

  lemma FoldJob(w: Walk, n: nat, job: Job)
    requires GoodJob(n, job) && n > 0 && w.inJobs && !w.stopped
    requires w.jobIndent == None || w.jobIndent == Some(n)
    ensures Fold(w, JobLines(n, job)) ==
            Ok(w.(jobIndent := Some(n), names := Flush(w), pending := Some(DisplayName(job))))
  {
    var header, name := [Header(n, job.key)], if job.name.Some? then [PrintedName(n, job.name.value)] else [];
    var w1 := w.(jobIndent := Some(n), names := Flush(w), pending := Some(job.key));
    var w2 := w1.(pending := Some(DisplayName(job)));
    HeaderStep(w, n, job.key);
    FoldOne(w, Header(n, job.key));
    FoldAppend(w, header, job.before);
    FoldFillers(w1, n, job.before);
    FoldAppend(w, header + job.before, name);
    if job.name.Some? {
      NameStep(w1, n, job.name.value);
      FoldOne(w1, PrintedName(n, job.name.value));
    }
    FoldAppend(w, header + job.before + name, job.after);
    FoldFillers(w2, n, job.after);
  }

  lemma FlushMore(w: Walk, w1: Walk, jobs: seq<Job>)
    requires jobs != [] && w1.names == Flush(w) && w1.pending == Some(DisplayName(jobs[0]))
    ensures Flush(w1) + DisplayNames(jobs[1..]) == Flush(w) + DisplayNames(jobs)
  {
    assert DisplayNames(jobs) == [DisplayName(jobs[0])] + DisplayNames(jobs[1..]);
  }

  lemma {:induction false} FoldJobs(w: Walk, n: nat, jobs: seq<Job>)
    requires n > 0 && w.inJobs && !w.stopped && (w.jobIndent == None || w.jobIndent == Some(n))
    requires forall i | 0 <= i < |jobs| :: GoodJob(n, jobs[i])
    ensures var r := Fold(w, AllJobLines(n, jobs));
            && r.Ok? && Flush(r.value) == Flush(w) + DisplayNames(jobs)
            && r.value.inJobs && !r.value.stopped
            && r.value.jobIndent == (if jobs == [] then w.jobIndent else Some(n))
            && (jobs != [] ==> r.value.pending.Some?)
    decreases |jobs|
  {
    if jobs != [] {
      FoldJob(w, n, jobs[0]);
      var w1 := w.(jobIndent := Some(n), names := Flush(w), pending := Some(DisplayName(jobs[0])));
      FoldJobs(w1, n, jobs[1..]);
      FoldAppend(w, JobLines(n, jobs[0]), AllJobLines(n, jobs[1..]));
      FlushMore(w, w1, jobs);
    }
  }

  lemma {:induction false} FoldPreamble(lines: seq<string>)
    requires forall i | 0 <= i < |lines| :: !IsJobsHeader(lines[i])
    ensures Fold(START, lines) == Ok(START)
    decreases |lines|
  {
    if lines != [] {
      FoldPreamble(lines[1..]);
    }
  }

  lemma {:induction false} FoldStopped(w: Walk, lines: seq<string>)
    requires w.stopped
    ensures Fold(w, lines) == Ok(w)
    decreases |lines|
  {
    if lines != [] {
      FoldStopped(w, lines[1..]);
    }
  }

  lemma TopLevelStops(w: Walk, tail: seq<string>)
    requires w.inJobs && !w.stopped && (tail == [] || TopLevelKey(tail[0]))
    ensures Fold(w, tail).Ok? && Flush(Fold(w, tail).value) == Flush(w)
  {
    if tail != [] {
      assert LStrip(tail[0]) == tail[0];
      FoldStopped(w.(stopped := true), tail[1..]);
    }
  }

  lemma JobsHeaderStep()
    ensures Step(START, "jobs:") == Ok(START.(inJobs := true))
  {
    assert PlainKey("jobs");
    HeaderRead(0, "jobs");
    assert Header(0, "jobs") == "jobs:";
    ColonAt("jobs", "");
    assert "jobs" + ":" + "" == "jobs:";
  }

  /** A printed jobs map parses back to its display names, in order, whatever precedes it, whatever
      deeper lines the jobs hold, and whatever follows the next top-level key. */
  lemma PrintedJobsParseBack(preamble: seq<string>, n: nat, jobs: seq<Job>, tail: seq<string>)
    requires forall i | 0 <= i < |preamble| :: !IsJobsHeader(preamble[i])
    requires n > 0 && forall i | 0 <= i < |jobs| :: GoodJob(n, jobs[i])
    requires tail == [] || TopLevelKey(tail[0])
    ensures Names(preamble + ["jobs:"] + AllJobLines(n, jobs) + tail) == Ok(DisplayNames(jobs))
  {
    var w := START.(inJobs := true);
    FoldPreamble(preamble);
    FoldAppend(START, preamble, ["jobs:"]);
    JobsHeaderStep();
    FoldOne(START, "jobs:");
    FoldJobs(w, n, jobs);
    FoldAppend(START, preamble + ["jobs:"], AllJobLines(n, jobs));
    var v := Fold(w, AllJobLines(n, jobs)).value;
    TopLevelStops(v, tail);
    FoldAppend(START, preamble + ["jobs:"] + AllJobLines(n, jobs), tail);
    assert Flush(w) + DisplayNames(jobs) == DisplayNames(jobs);
  }

  // ---- What the walk refuses ----

  /** Lines the walk cannot inventory: indented with a tab, an entry of a list at job level, a flow
      mapping at job level, and a name that is an anchor, an alias or a block scalar. */
  datatype BadLine =
    | Tabbed(blank: string, line: string)
    | Listed(rest: string)
    | Flow(line: string)
    | Named(value: string)

  function BadRaw(n: nat, bad: BadLine): string {
    match bad
    case Tabbed(blank, line) => blank + line
    case Listed(rest) => Spaces(n) + ("- " + rest)
    case Flow(line) => Spaces(n) + line
    case Named(value) => Spaces(n + 2) + ("name: " + value)
  }

  /** The line is what its kind says, and no more is known of it. */
  predicate ShapedBadly(bad: BadLine) {
    match bad
    case Tabbed(blank, line) =>
      && (forall i | 0 <= i < |blank| :: blank[i] == ' ' || blank[i] == '\t') && '\t' in blank
      && TextLine(line) && line[0] != '#'
    case Listed(rest) => TextLine(rest) && ':' in rest
    case Flow(line) =>
      && TextLine(line) && line[0] != '#' && line[0] != '-'
      && ':' in line && ('{' in line || '}' in line)
    case Named(value) =>
      TextLine(value) && (value[0] == '&' || value[0] == '*' || value[0] == '>' || value[0] == '|')
  }

  /** Neither end is white space. */
  predicate TextLine(line: string) {
    line != "" && !IsSpace(line[0]) && !IsSpace(line[|line| - 1])
  }

  function Refusal(bad: BadLine): Unparseable {
    match bad
    case Tabbed(_, _) => TabIndentation
    case Listed(_) => ListForm
    case Flow(_) => FlowStyle
    case Named(value) => if value != "" && (value[0] == '&' || value[0] == '*') then AnchorName else BlockScalarName
  }

  lemma {:induction false} TabSeen(blank: string, line: string)
    requires forall i | 0 <= i < |blank| :: blank[i] == ' ' || blank[i] == '\t'
    requires line != "" && !IsSpace(line[0])
    ensures TabIndented(blank + line) <==> '\t' in blank
    ensures LStrip(blank + line) == line
  {
    var raw := blank + line;
    if blank == "" {
      assert raw == line;
    } else {
      assert raw[0] == blank[0] && raw[1..] == blank[1..] + line;
      TabSeen(blank[1..], line);
    }
  }

  lemma {:induction false} RStripText(line: string)
    requires line != "" && !IsSpace(line[|line| - 1])
    ensures RStrip(line) == line
  {
  }

  lemma TabbedStep(w: Walk, n: nat, bad: BadLine)
    requires bad.Tabbed? && ShapedBadly(bad) && w.inJobs && !w.stopped
    ensures Step(w, BadRaw(n, bad)) == Err(TabIndentation)
  {
    TabSeen(bad.blank, bad.line);
    RStripText(bad.line);
    assert !("#" <= bad.line);
  }

  lemma AtJobLevel(n: nat, line: string)
    requires TextLine(line) && line[0] != '#' && ':' in line
    ensures var raw := Spaces(n) + line;
            !Skipped(raw) && !TabIndented(raw) && HasColon(raw) && LeadingSpaces(raw) == n && Strip(raw) == line
  {
    Indented(n, line);
    RStripText(line);
    assert !("#" <= line);
  }

  lemma JobLevelStep(w: Walk, n: nat, bad: BadLine)
    requires (bad.Listed? || bad.Flow?) && ShapedBadly(bad) && n > 0 && w.inJobs && !w.stopped
    requires w.jobIndent == None || w.jobIndent == Some(n)
    ensures Step(w, BadRaw(n, bad)) == Err(Refusal(bad))
  {
    if bad.Listed? {
      var line := "- " + bad.rest;
      assert line[|line| - 1] == bad.rest[|bad.rest| - 1];
      assert ':' in line;
      AtJobLevel(n, line);
    } else {
      AtJobLevel(n, bad.line);
      assert !("- " <= bad.line);
    }
  }

  lemma NamedStep(w: Walk, n: nat, bad: BadLine)
    requires bad.Named? && ShapedBadly(bad) && n > 0 && w.inJobs && !w.stopped
    requires w.jobIndent == Some(n) && w.pending.Some?
    ensures Step(w, BadRaw(n, bad)) == Err(Refusal(bad))
  {
    assert "name: " + bad.value + "" == "name: " + bad.value;
    NameLineParts(n + 2, bad.value, "");
    MarkedValue(bad.value);
  }

  lemma MarkedValue(value: string)
    requires TextLine(value) && (value[0] == '&' || value[0] == '*' || value[0] == '>' || value[0] == '|')
    ensures var v := StripComment(Strip(" " + value + RStrip("")));
            v != "" && v[0] == value[0]
  {
    StripSpaced(value, "");
    assert " " + value + "" == " " + (value + "") && value + "" == value;
    FirstStays(value);
  }

  lemma FirstStays(value: string)
    requires value != "" && !IsQuote(value[0]) && !IsSpace(value[0])
    ensures StripComment(value) != "" && StripComment(value)[0] == value[0]
  {
    var before := BeforeComment(value);
    assert before == [value[0]] + BeforeComment(value[1..]);
    RStripAfter([value[0]], BeforeComment(value[1..]));
  }

  /** A jobs map that reads well up to a bad line is refused for it, whatever follows: a name that is
      an anchor, an alias or a block scalar below a job, the other kinds anywhere. */
  lemma BadLineRefused(preamble: seq<string>, n: nat, jobs: seq<Job>, bad: BadLine, tail: seq<string>)
    requires forall i | 0 <= i < |preamble| :: !IsJobsHeader(preamble[i])
    requires n > 0 && forall i | 0 <= i < |jobs| :: GoodJob(n, jobs[i])
    requires ShapedBadly(bad) && (bad.Named? ==> jobs != [])
    ensures Names(preamble + ["jobs:"] + AllJobLines(n, jobs) + [BadRaw(n, bad)] + tail) == Err(Refusal(bad))
  {
    var w := START.(inJobs := true);
    var before := preamble + ["jobs:"] + AllJobLines(n, jobs);
    FoldPreamble(preamble);
    FoldAppend(START, preamble, ["jobs:"]);
    JobsHeaderStep();
    FoldOne(START, "jobs:");
    FoldJobs(w, n, jobs);
    FoldAppend(START, preamble + ["jobs:"], AllJobLines(n, jobs));
    var v := Fold(START, before).value;
    if bad.Tabbed? {
      TabbedStep(v, n, bad);
    } else if bad.Named? {
      NamedStep(v, n, bad);
    } else {
      JobLevelStep(v, n, bad);
    }
    FoldOne(v, BadRaw(n, bad));
    FoldAppend(START, before, [BadRaw(n, bad)]);
    FoldAppend(START, before + [BadRaw(n, bad)], tail);
  }
}
