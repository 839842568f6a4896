/** Base-path normalization and the API proxy paths built on it (frontend/vite.paths.ts). */
module BasePath {
  import opened Wrappers
  import opened Paths

  datatype Rejection = OuterWhitespace | IsUrl | UnsafeCharacter | DuplicateSlash | RelativeSegment

  /** Characters of the regular-expression class for white space. */
  predicate IsSpace(c: char) {
    c == ' ' || '\t' <= c <= '\r' || c == '\U{00A0}' || c == '\U{FEFF}' || c == '\U{1680}'
    || '\U{2000}' <= c <= '\U{200A}' || c == '\U{2028}' || c == '\U{2029}' || c == '\U{202F}'
    || c == '\U{205F}' || c == '\U{3000}'
  }

  predicate Unsafe(c: char) {
    IsSpace(c) || c == ';' || c == '\\' || c == '?' || c == '#' || c < ' ' || c == '\U{007F}'
  }

  function Lower(c: char): char {
    if 'A' <= c <= 'Z' then (c as int - 'A' as int + 'a' as int) as char else c
  }

  predicate StartsWithLower(s: string, prefix: string) {
    |prefix| <= |s| && forall i | 0 <= i < |prefix| :: Lower(s[i]) == prefix[i]
  }

  predicate LooksLikeUrl(raw: string) {
    || StartsWithLower(raw, "http://") || StartsWithLower(raw, "https://")
    || ("//" <= raw && exists i | 0 <= i < |raw| :: raw[i] != '/')
  }

  function DropLeading(s: string): string {
    if s != "" && s[0] == '/' then DropLeading(s[1..]) else s
  }

  function DropTrailing(s: string): string {
    if s != "" && s[|s| - 1] == '/' then DropTrailing(s[..|s| - 1]) else s
  }

  function Stripped(raw: string): string {
    DropTrailing(DropLeading(raw))
  }

  predicate HasDoubleSlash(s: string) {
    exists i | 0 <= i < |s| - 1 :: s[i] == '/' && s[i + 1] == '/'
  }

  /** `normalizeBasePath`. */
  function Normalize(raw: string): Result<string, Rejection> {
    if raw == "" then Ok("")
    else if IsSpace(raw[0]) || IsSpace(raw[|raw| - 1]) then Err(OuterWhitespace)
    else if LooksLikeUrl(raw) then Err(IsUrl)
    else if exists i | 0 <= i < |raw| :: Unsafe(raw[i]) then Err(UnsafeCharacter)
    else if HasDoubleSlash(Stripped(raw)) then Err(DuplicateSlash)
    else if Stripped(raw) == "" then Ok("")
    else if "." in Split(Stripped(raw)) || ".." in Split(Stripped(raw)) then Err(RelativeSegment)
    else Ok("/" + Stripped(raw))
  }

  /** `createApiProxyPath`. */
  function ProxyPath(basename: string): Result<string, Rejection> {
    var base := Normalize(basename);
    if base.Err? then base else if base.value == "" then Ok("/api") else Ok(base.value + "/api")
  }

  /** `rewriteApiProxyPath`. */
  function Rewrite(request: string, basename: string): Result<string, Rejection> {
    var base := Normalize(basename);
    if base.Err? then base
    else if base.value == "" then Ok(request)
    else if request == base.value + "/api" then Ok("/api")
    else if base.value + "/api/" <= request then Ok(request[|base.value|..])
    else Ok(request)
  }

  // ---- Stripping ----

  lemma {:induction false} DropLeadingTail(s: string) returns (k: nat)
    ensures k <= |s| && DropLeading(s) == s[k..]
    ensures DropLeading(s) == "" || DropLeading(s)[0] != '/'
  {
    if s != "" && s[0] == '/' {
      var j := DropLeadingTail(s[1..]);
      k := j + 1;
      assert s[1..][j..] == s[k..];
    } else {
      k := 0;
      assert s[0..] == s;
    }
  }

  lemma {:induction false} DropTrailingHead(s: string)
    ensures DropTrailing(s) <= s
    ensures DropTrailing(s) == "" || DropTrailing(s)[|DropTrailing(s)| - 1] != '/'
  {
    if s != "" && s[|s| - 1] == '/' {
      DropTrailingHead(s[..|s| - 1]);
    }
  }

  /** What is left has no slash at either end, and only characters of the original. */
  lemma StrippedShape(raw: string)
    ensures var s := Stripped(raw);
            && (s != "" ==> s[0] != '/' && s[|s| - 1] != '/')
            && forall i | 0 <= i < |s| :: s[i] in raw
  {
    var k := DropLeadingTail(raw);
    var t := DropLeading(raw);
    DropTrailingHead(t);
    var s := Stripped(raw);
    forall i | 0 <= i < |s| ensures s[i] in raw {
      assert s[i] == t[i] == raw[k + i];
    }
  }

  lemma StrippedFixed(s: string)
    requires s != "" && s[0] != '/' && s[|s| - 1] != '/'
    ensures Stripped("/" + s) == s
  {
    assert ("/" + s)[1..] == s;
    assert DropLeading("/" + s) == s;
  }

  // ---- Properties ----

  /** Normalizing a normalized path changes nothing. */
  lemma NormalizeIdempotent(raw: string)
    requires Normalize(raw).Ok?
    ensures Normalize(Normalize(raw).value) == Normalize(raw)
  {
    var s := Stripped(raw);
    if raw != "" && s != "" {
      var n := "/" + s;
      StrippedShape(raw);
      StrippedFixed(s);
      forall i | 0 <= i < |n| ensures !Unsafe(n[i]) {
        if i > 0 {
          assert n[i] == s[i - 1];
          var j :| 0 <= j < |raw| && raw[j] == s[i - 1];
        }
      }
      assert n[1] == s[0];
      assert Lower(n[0]) == '/';
      assert !Unsafe(n[|n| - 1]);
      assert !LooksLikeUrl(n);
    }
  }

  /** A normalized base is empty or starts with a single slash and ends without one. */
  lemma NormalizedShape(raw: string)
    requires Normalize(raw).Ok?
    ensures var base := Normalize(raw).value;
            base == "" || (|base| >= 2 && base[0] == '/' && base[1] != '/' && base[|base| - 1] != '/'
                           && !HasDoubleSlash(base))
  {
    StrippedShape(raw);
    var s := Stripped(raw);
    if raw != "" && s != "" {
      var n := "/" + s;
      forall i | 0 <= i < |n| - 1 ensures !(n[i] == '/' && n[i + 1] == '/') {
        assert i > 0 ==> n[i] == s[i - 1] && n[i + 1] == s[i];
      }
    }
  }

  /** What a client sends to the proxied path reaches the API under its own path. */
  lemma RewriteInvertsProxyPath(basename: string, r: string)
    requires Normalize(basename).Ok? && (r == "" || r[0] == '/')
    ensures ProxyPath(basename).Ok?
    ensures Rewrite(ProxyPath(basename).value + r, basename) == Ok("/api" + r)
  {
    var base := Normalize(basename).value;
    if base != "" {
      var request := base + "/api" + r;
      assert request[|base|..] == "/api" + r;
      if r == "" {
        assert request == base + "/api";
      } else {
        assert request == base + "/api/" + r[1..];
        assert request != base + "/api";
      }
    }
  }

  /** `request` is `prefix` followed by nothing or by a path. */
  predicate Under(prefix: string, request: string) {
    prefix <= request && (|request| == |prefix| || request[|prefix|] == '/')
  }

  /** Any path outside the proxied one passes through unchanged. */
  lemma RewriteLeavesOthers(basename: string, request: string)
    requires Normalize(basename).Ok? && Normalize(basename).value != ""
    requires !Under(ProxyPath(basename).value, request)
    ensures Rewrite(request, basename) == Ok(request)
  {
    var base := Normalize(basename).value;
    var prefix, longer := base + "/api", base + "/api/";
    assert longer[..|prefix|] == prefix && longer[|prefix|] == '/';
    assert longer <= request ==> Under(prefix, request);
  }
}
