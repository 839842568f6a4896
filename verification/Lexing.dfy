/** What the scanners of scripts/check_batch_mock_seq.py take for a string, a comment and code, told
    by how such text is spelled. */
module Lexing {
  import opened Scanner

  // ---- Strings ----

  /** A string is spelled by plain characters and by backslashes that each cover one character. */
  datatype Atom = Plain(c: char) | Escaped(c: char)

  function SpellAtom(a: Atom): string {
    if a.Plain? then [a.c] else ['\\', a.c]
  }

  function Spell(atoms: seq<Atom>): string {
    if atoms == [] then "" else SpellAtom(atoms[0]) + Spell(atoms[1..])
  }

  predicate Opens(c: char) {
    c == '"' || c == '\'' || c == '`'
  }

  /** No plain character is a backslash or the quote. */
  predicate SpellsInside(quote: char, atoms: seq<Atom>) {
    forall k | 0 <= k < |atoms| && atoms[k].Plain? :: atoms[k].c != '\\' && atoms[k].c != quote
  }

  lemma SliceFrom(text: string, j: nat, head: string, rest: string)
    requires j <= |text| && text[j..] == head + rest
    ensures j + |head| <= |text| && text[j + |head|..] == rest
    ensures forall k | 0 <= k < |head| :: text[j + k] == head[k]
  {
    assert text[j..][|head|..] == rest;
    forall k | 0 <= k < |head| ensures text[j + k] == head[k] {
      assert text[j..][k] == text[j + k];
    }
  }

  lemma SpellHead(atoms: seq<Atom>, rest: string)
    requires atoms != []
    ensures Spell(atoms) + rest == SpellAtom(atoms[0]) + (Spell(atoms[1..]) + rest)
    ensures |Spell(atoms)| == |SpellAtom(atoms[0])| + |Spell(atoms[1..])|
  {
    var head, more := SpellAtom(atoms[0]), Spell(atoms[1..]);
    assert Spell(atoms) == head + more;
    Associate(head, more, rest);
  }

  lemma Associate(a: string, b: string, c: string)
    ensures (a + b) + c == a + (b + c)
  {
  }

  lemma PassesAtom(text: string, quote: char, j: nat, a: Atom)
    requires Opens(quote) && (a.Plain? ==> a.c != '\\' && a.c != quote)
    requires j + |SpellAtom(a)| <= |text| && forall k | 0 <= k < |SpellAtom(a)| :: text[j + k] == SpellAtom(a)[k]
    ensures StringEnd(text, quote, j) == StringEnd(text, quote, j + |SpellAtom(a)|)
  {
    assert text[j + 0] == SpellAtom(a)[0];
  }

  lemma PassesHead(text: string, quote: char, j: nat, a: Atom, more: string)
    requires Opens(quote) && (a.Plain? ==> a.c != '\\' && a.c != quote)
    requires j <= |text| && text[j..] == SpellAtom(a) + more
    ensures var k := j + |SpellAtom(a)|;
            k <= |text| && text[k..] == more && StringEnd(text, quote, j) == StringEnd(text, quote, k)
  {
    SliceFrom(text, j, SpellAtom(a), more);
    PassesAtom(text, quote, j, a);
  }

  lemma {:induction false} PassesAtoms(text: string, quote: char, j: nat, atoms: seq<Atom>, rest: string)
    requires Opens(quote) && SpellsInside(quote, atoms) && j <= |text| && text[j..] == Spell(atoms) + rest
    ensures StringEnd(text, quote, j) == StringEnd(text, quote, j + |Spell(atoms)|)
    ensures j + |Spell(atoms)| <= |text| && text[j + |Spell(atoms)|..] == rest
    decreases |atoms|
  {
    if atoms == [] {
      assert Spell(atoms) + rest == rest;
    } else {
      var more, k := Spell(atoms[1..]) + rest, j + |SpellAtom(atoms[0])|;
      SpellHead(atoms, rest);
      PassesHead(text, quote, j, atoms[0], more);
      PassesAtoms(text, quote, k, atoms[1..], rest);
      assert k + |Spell(atoms[1..])| == j + |Spell(atoms)|;
    }
  }

  /** A string ends just past the first quote that no backslash covers. */
  lemma ClosedString(text: string, i: nat, atoms: seq<Atom>, tail: string)
    requires i < |text| && Opens(text[i]) && SpellsInside(text[i], atoms)
    requires text[i + 1..] == Spell(atoms) + ([text[i]] + tail)
    ensures AtStringOrComment(text, i)
    ensures Next(text, i) == i + |Spell(atoms)| + 2 && text[Next(text, i)..] == tail
  {
    var rest := [text[i]] + tail;
    var j := i + 1 + |Spell(atoms)|;
    PassesAtoms(text, text[i], i + 1, atoms, rest);
    SliceFrom(text, j, [text[i]], tail);
    assert text[j + 0] == text[i];
  }

  /** Without such a quote it takes the rest of the text, whether or not a lone backslash ends that. */
  lemma OpenString(text: string, i: nat, atoms: seq<Atom>, rest: string)
    requires i < |text| && Opens(text[i]) && SpellsInside(text[i], atoms)
    requires text[i + 1..] == Spell(atoms) + rest && (rest == "" || rest == "\\")
    ensures AtStringOrComment(text, i) && Next(text, i) == |text|
  {
    PassesAtoms(text, text[i], i + 1, atoms, rest);
    var j := i + 1 + |Spell(atoms)|;
    assert text[j..] == rest;
    if rest == "\\" {
      assert text[j] == text[j..][0] == '\\' && |text| == j + 1;
    }
  }

  /** What follows an opening quote always has one of these forms. */
  lemma {:induction false} StringForms(quote: char, s: string) returns (atoms: seq<Atom>, rest: string)
    requires Opens(quote)
    ensures SpellsInside(quote, atoms) && s == Spell(atoms) + rest
    ensures rest == "" || rest == "\\" || rest[0] == quote
    decreases |s|
  {
    if s == "" || s == "\\" || s[0] == quote {
      atoms, rest := [], s;
    } else {
      var a := if s[0] == '\\' then Escaped(s[1]) else Plain(s[0]);
      var n := |SpellAtom(a)|;
      var more;
      more, rest := StringForms(quote, s[n..]);
      atoms := [a] + more;
      assert s == SpellAtom(a) + s[n..];
      assert atoms[1..] == more;
      SpellHead(atoms, rest);
    }
  }

  // ---- Comments and code ----

  lemma FoundAt(text: string, needle: string, i: nat, j: nat)
    requires i <= j <= |text| && needle != "" && (j < |text| ==> StartsAt(text, needle, j))
    requires forall k | i <= k < j :: !StartsAt(text, needle, k)
    ensures Find(text, needle, i) == j
  {
    assert Find(text, needle, i) >= j;
  }

  /** A line comment ends just past its newline, or with the text. */
  lemma LineComment(text: string, i: nat, body: string, tail: string)
    requires i <= |text| && '\n' !in body
    requires text[i..] == "//" + body + tail && (tail == "" || tail[0] == '\n')
    ensures i < |text| && AtStringOrComment(text, i)
    ensures Next(text, i) == if tail == "" then |text| else i + 2 + |body| + 1
  {
    var head := "//" + body;
    SliceFrom(text, i, head, tail);
    assert text[i + 0] == head[0] == '/' && text[i + 1] == head[1] == '/';
    var j := i + |head|;
    assert tail != "" ==> text[j] == text[j..][0] == '\n';
    forall k | i <= k < j ensures !StartsAt(text, "\n", k) {
      assert text[i + (k - i)] == head[k - i];
      assert k - i >= 2 ==> head[k - i] == body[k - i - 2];
    }
    assert tail != "" ==> text[j..j + 1] == "\n";
    FoundAt(text, "\n", i, j);
  }

  /** No block comment ends inside. */
  predicate NoClose(body: string) {
    forall k | 0 <= k < |body| - 1 :: !(body[k] == '*' && body[k + 1] == '/')
  }

  /** A block comment ends just past the first star and slash after its opening, or with the text. */
  lemma BlockComment(text: string, i: nat, body: string, tail: string)
    requires i <= |text| && NoClose(body)
    requires text[i..] == "/*" + body + tail && (tail == "" || "*/" <= tail)
    ensures i < |text| && AtStringOrComment(text, i)
    ensures Next(text, i) == if tail == "" then |text| else i + 2 + |body| + 2
  {
    var head := "/*" + body;
    SliceFrom(text, i, head, tail);
    assert text[i + 0] == head[0] == '/' && text[i + 1] == head[1] == '*';
    var j := i + |head|;
    assert tail != "" ==> text[j] == text[j..][0] == '*' && text[j + 1] == text[j..][1] == '/';
    forall k | i + 2 <= k < j ensures !StartsAt(text, "*/", k) {
      NotClosedAt(text, i, body, k);
    }
    assert tail != "" ==> text[j..j + 2] == "*/";
    FoundAt(text, "*/", i + 2, j);
  }

  lemma NotClosedAt(text: string, i: nat, body: string, k: nat)
    requires NoClose(body) && i + 2 <= k < i + 2 + |body| <= |text|
    requires forall m | 0 <= m < |body| + 2 :: text[i + m] == ("/*" + body)[m]
    requires i + 2 + |body| < |text| ==> text[i + 2 + |body|] == '*'
    ensures !StartsAt(text, "*/", k)
  {
    var m := k - i - 2;
    assert text[i + (m + 2)] == ("/*" + body)[m + 2] == body[m];
    if m + 1 < |body| {
      assert text[i + (m + 3)] == ("/*" + body)[m + 3] == body[m + 1];
    }
    assert k + 2 <= |text| ==> text[k..k + 2] == [text[k], text[k + 1]];
  }

  /** Everything else is code, one character at a time. */
  lemma CodeCharacter(text: string, i: nat)
    requires i < |text| && text[i] !in "\"'`"
    requires !(i + 1 < |text| && text[i] == '/' && text[i + 1] in "/*")
    ensures !AtStringOrComment(text, i) && Next(text, i) == i + 1
  {
  }
}
