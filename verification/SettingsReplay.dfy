/** Replay of persisted settings against the cross-field validators
    (backend/app/lifespan.py, backend/app/config.py). */
module SettingsReplay {
  import opened Wrappers

  datatype Value = Null | Num(n: real) | Text(s: string)

  type Values = map<string, Value>

  // ---- Validation of a whole settings dictionary ----

  /** `canonicalize_vector_metric`. */
  function CanonicalMetric(v: Value): Value {
    if v == Text("euclidean") then Text("l2")
    else if v == Text("dot_product") then Text("dot")
    else v
  }

  function Lookup(data: Values, key: string): Value {
    if key in data then data[key] else Null
  }

  /** One entry of `apply_legacy_settings_conversion`: an explicit replacement value is never
      overridden. */
  function Converted(data: Values, legacy: string, replacement: string, factor: real): Values {
    if Lookup(data, legacy).Num? && Lookup(data, replacement).Null?
    then data[replacement := Num(data[legacy].n * factor)]
    else data
  }

  function ApplyLegacyConversion(data: Values): Values {
    var sized := Converted(data, "chunk_size", "chunk_size_chars", 4.0);
    var overlapped := Converted(sized, "chunk_overlap", "chunk_overlap_chars", 4.0);
    var topped := Converted(overlapped, "vector_top_k", "retrieval_top_k", 1.0);
    if "vector_metric" in topped then topped["vector_metric" := CanonicalMetric(topped["vector_metric"])] else topped
  }

  /** A field that must be a number; its default stands in only when it is absent. */
  function Required(data: Values, key: string, default_: real): Option<real> {
    if key !in data then Some(default_) else if data[key].Num? then Some(data[key].n) else None
  }

  /** A field whose default also stands in for null. */
  function Number(data: Values, key: string, default_: real): Option<real> {
    match Lookup(data, key)
    case Null => Some(default_)
    case Num(n) => Some(n)
    case Text(_) => None
  }

  const MAX_TEXT_CHARS := 8192.0

  /** The chunk and overlap bounds. */
  predicate ChunksCoherent(size: Option<real>, overlap: Option<real>) {
    && size.Some? && 0.0 < size.value <= MAX_TEXT_CHARS
    && overlap.Some? && overlap.value < size.value
  }

  predicate JobsCoherent(heartbeat: Option<real>, reclaim: Option<real>, stall: Option<real>, parse: Option<real>) {
    && heartbeat.Some? && reclaim.Some? && stall.Some? && parse.Some?
    && reclaim.value > 4.0 * heartbeat.value
    && stall.value > reclaim.value && stall.value > parse.value
  }

  predicate BatchesCoherent(
    count: Option<real>, chars: Option<real>, budget: Option<real>, minimum: Option<real>, size: Option<real>
  ) {
    && count.Some? && chars.Some? && budget.Some? && minimum.Some? && size.Some?
    && count.value * chars.value <= budget.value
    && minimum.value <= size.value
  }

  /** `Settings.model_validate`, as far as the cross-field constraints go. */
  predicate Accepted(data: Values) {
    var d := ApplyLegacyConversion(data);
    && ChunksCoherent(Number(d, "chunk_size_chars", 2000.0), Number(d, "chunk_overlap_chars", 200.0))
    && JobsCoherent(Required(d, "jobs_heartbeat_interval_seconds", 30.0),
                    Required(d, "jobs_lease_reclaim_timeout_seconds", 300.0),
                    Required(d, "jobs_stall_timeout_seconds", 900.0),
                    Required(d, "document_parse_timeout", 300.0))
    && BatchesCoherent(Required(d, "embedding_probe_batch_count", 4.0),
                       Required(d, "embedding_probe_batch_chars", 512.0),
                       Required(d, "embedding_batch_max_chars", 131072.0),
                       Required(d, "embedding_batch_min_sub_size", 1.0),
                       Required(d, "embedding_batch_size", 64.0))
  }

  // ---- Replay ----

  /** A decoder for stored rows: `None` is an exception. */
  type Decoder = (string, string) -> Option<Value>

  const LEGACY_KEYS := [
    "chunk_size", "chunk_overlap", "max_context_chunks",
    "auto_scan_interval_minutes", "auto_scan_enabled", "rag_relevance_threshold"
  ]

  /** Set one key if the whole stays valid. */
  function ApplyOne(values: Values, key: string, value: Value): Values {
    if Accepted(values[key := value]) then values[key := value] else values
  }

  /** The loop over the legacy keys. */
  function LegacyLoop(values: Values, keys: seq<string>, persisted: map<string, string>, decode: Decoder): Values
    decreases |keys|
  {
    if keys == [] then values
    else
      var next :=
        if keys[0] in persisted && decode(keys[0], persisted[keys[0]]).Some?
        then ApplyOne(values, keys[0], decode(keys[0], persisted[keys[0]]).value)
        else values;
      LegacyLoop(next, keys[1..], persisted, decode)
  }

  /** The decoded value of one functional field, canonicalized. */
  function Decoded(values: Values, key: string, persisted: map<string, string>, decode: Decoder): Option<Value> {
    if key !in persisted || key !in values then None
    else
      var v := decode(key, persisted[key]);
      if v.None? then None
      else if key == "vector_metric" then Some(CanonicalMetric(v.value))
      else v
  }

  /** Every row that decodes. */
  function ConvertedPairs(values: Values, fields: seq<string>, persisted: map<string, string>, decode: Decoder): Values {
    map key | key in fields && Decoded(values, key, persisted, decode).Some? ::
      Decoded(values, key, persisted, decode).value
  }

  /** The per-key fallback. */
  function PerKey(values: Values, fields: seq<string>, pairs: Values): Values
    decreases |fields|
  {
    if fields == [] then values
    else PerKey(if fields[0] in pairs then ApplyOne(values, fields[0], pairs[fields[0]]) else values,
                fields[1..], pairs)
  }

  function SecondPass(values: Values, fields: seq<string>, pairs: Values): Values {
    if pairs != map[] && Accepted(values + pairs) then values + pairs else PerKey(values, fields, pairs)
  }

  function Replay(
    values: Values, fields: seq<string>, persisted: map<string, string>, legacy: Decoder, decode: Decoder
  ): Values {
    var after := LegacyLoop(values, LEGACY_KEYS, persisted, legacy);
    SecondPass(after, fields, ConvertedPairs(after, fields, persisted, decode))
  }

  /** The `settings` singleton. */
  class Settings {
    var values: Values

    constructor (values: Values)
      ensures this.values == values
    {
      this.values := values;
    }

    /** `_validate_setting_value`. */
    method ValidateSetting(key: string, value: Value) returns (ok: bool)
      ensures ok == Accepted(values[key := value])
    {
      var current := values;
      current := current[key := value];
      ok := Accepted(current);
    }

    /** `_batch_validate_persisted`. */
    method BatchValidate(pairs: Values) returns (ok: bool)
      ensures ok == Accepted(values + pairs)
    {
      ok := Accepted(values + pairs);
    }

    /** First loop of `_load_persisted_settings`: the legacy keys, one at a time. */
    method ReplayLegacy(persisted: map<string, string>, decode: Decoder)
      modifies this
      ensures values == LegacyLoop(old(values), LEGACY_KEYS, persisted, decode)
    {
      ghost var start := values;
      assert LEGACY_KEYS[0..] == LEGACY_KEYS;
      for i := 0 to |LEGACY_KEYS|
        invariant LegacyLoop(values, LEGACY_KEYS[i..], persisted, decode)
               == LegacyLoop(start, LEGACY_KEYS, persisted, decode)
      {
        assert LEGACY_KEYS[i..][1..] == LEGACY_KEYS[i + 1..];
        var key := LEGACY_KEYS[i];
        if key in persisted {
          var converted := decode(key, persisted[key]);
          if converted.Some? {
            var ok := ValidateSetting(key, converted.value);
            if ok {
              values := values[key := converted.value];
            }
          }
        }
      }
    }

    /** First pass of the two-pass replay: decode every functional field. */
    method ConvertRows(fields: seq<string>, persisted: map<string, string>, decode: Decoder) returns (pairs: Values)
      ensures pairs == ConvertedPairs(values, fields, persisted, decode)
    {
      pairs := map[];
      for i := 0 to |fields|
        invariant pairs == ConvertedPairs(values, fields[..i], persisted, decode)
      {
        var key := fields[i];
        assert fields[..i + 1] == fields[..i] + [key];
        PairsExtend(values, fields[..i], key, persisted, decode);
        if key in persisted && key in values {
          var converted := decode(key, persisted[key]);
          if converted.Some? {
            pairs := pairs[key := if key == "vector_metric" then CanonicalMetric(converted.value) else converted.value];
          }
        }
      }
      assert fields[..|fields|] == fields;
    }

    /** The per-key fallback of the second pass. */
    method ApplyPerKey(fields: seq<string>, pairs: Values)
      modifies this
      ensures values == PerKey(old(values), fields, pairs)
    {
      ghost var start := values;
      assert fields[0..] == fields;
      for i := 0 to |fields|
        invariant PerKey(values, fields[i..], pairs) == PerKey(start, fields, pairs)
      {
        assert fields[i..][1..] == fields[i + 1..];
        var key := fields[i];
        if key in pairs {
          var ok := ValidateSetting(key, pairs[key]);
          if ok {
            values := values[key := pairs[key]];
          }
        }
      }
    }

    /** `_load_persisted_settings`. */
    method LoadPersisted(fields: seq<string>, persisted: map<string, string>, legacy: Decoder, decode: Decoder)
      modifies this
      ensures values == Replay(old(values), fields, persisted, legacy, decode)
      ensures Accepted(old(values)) ==> Accepted(values)
    {
      ReplayKeepsValid(values, fields, persisted, legacy, decode);
      ReplayLegacy(persisted, legacy);
      var pairs := ConvertRows(fields, persisted, decode);
      ApplyConverted(fields, pairs);
    }

    /** Second pass: all decoded rows at once if they are jointly valid, else one key at a time. */
    method ApplyConverted(fields: seq<string>, pairs: Values)
      modifies this
      ensures values == SecondPass(old(values), fields, pairs)
      ensures Accepted(old(values)) ==> Accepted(values)
      ensures AppliedOver(old(values), pairs, values)
    {
      SecondPassValues(values, fields, pairs);
      SecondPassKeepsValid(values, fields, pairs);
      var joint := false;
      if pairs != map[] {
        joint := BatchValidate(pairs);
      }
      if joint {
        values := values + pairs;
      } else {
        ApplyPerKey(fields, pairs);
      }
    }
  }

  lemma PairsExtend(values: Values, fields: seq<string>, key: string, persisted: map<string, string>, decode: Decoder)
    ensures ConvertedPairs(values, fields + [key], persisted, decode)
         == var d := Decoded(values, key, persisted, decode);
            var pairs := ConvertedPairs(values, fields, persisted, decode);
            if d.Some? then pairs[key := d.value] else pairs
  {
  }

  // ---- What replay keeps ----

  lemma {:induction false} LegacyLoopKeepsValid(
    values: Values, keys: seq<string>, persisted: map<string, string>, decode: Decoder
  )
    requires Accepted(values)
    ensures Accepted(LegacyLoop(values, keys, persisted, decode))
    decreases |keys|
  {
    if keys != [] {
      var next :=
        if keys[0] in persisted && decode(keys[0], persisted[keys[0]]).Some?
        then ApplyOne(values, keys[0], decode(keys[0], persisted[keys[0]]).value)
        else values;
      LegacyLoopKeepsValid(next, keys[1..], persisted, decode);
    }
  }

  lemma {:induction false} PerKeyKeepsValid(values: Values, fields: seq<string>, pairs: Values)
    requires Accepted(values)
    ensures Accepted(PerKey(values, fields, pairs))
    decreases |fields|
  {
    if fields != [] {
      PerKeyKeepsValid(if fields[0] in pairs then ApplyOne(values, fields[0], pairs[fields[0]]) else values,
                       fields[1..], pairs);
    }
  }

  /** Valid settings are valid after the replay of any stored rows. */
  lemma ReplayKeepsValid(
    values: Values, fields: seq<string>, persisted: map<string, string>, legacy: Decoder, decode: Decoder
  )
    ensures Accepted(values) ==> Accepted(Replay(values, fields, persisted, legacy, decode))
  {
    if Accepted(values) {
      LegacyLoopKeepsValid(values, LEGACY_KEYS, persisted, legacy);
    }
    var after := LegacyLoop(values, LEGACY_KEYS, persisted, legacy);
    SecondPassKeepsValid(after, fields, ConvertedPairs(after, fields, persisted, decode));
  }

  lemma SecondPassKeepsValid(values: Values, fields: seq<string>, pairs: Values)
    ensures Accepted(values) ==> Accepted(SecondPass(values, fields, pairs))
  {
    if Accepted(values) {
      PerKeyKeepsValid(values, fields, pairs);
    }
  }

  lemma {:induction false} PerKeyValues(values: Values, fields: seq<string>, pairs: Values, key: string)
    requires Lookup(PerKey(values, fields, pairs), key) != Lookup(values, key)
    ensures key in pairs && key in fields && Lookup(PerKey(values, fields, pairs), key) == pairs[key]
    decreases |fields|
  {
    if fields != [] {
      var next := if fields[0] in pairs then ApplyOne(values, fields[0], pairs[fields[0]]) else values;
      if Lookup(PerKey(next, fields[1..], pairs), key) != Lookup(next, key) {
        PerKeyValues(next, fields[1..], pairs, key);
      }
    }
  }

  /** A replayed field holds its decoded row or the value it had; when the decoded rows are jointly
      valid over the state the legacy loop leaves, every one of them is applied. */
  lemma ReplayAppliesJointly(
    values: Values, fields: seq<string>, persisted: map<string, string>, legacy: Decoder, decode: Decoder
  )
    ensures var after := LegacyLoop(values, LEGACY_KEYS, persisted, legacy);
            var pairs := ConvertedPairs(after, fields, persisted, decode);
            var final := Replay(values, fields, persisted, legacy, decode);
            AppliedOver(after, pairs, final)
  {
    var after := LegacyLoop(values, LEGACY_KEYS, persisted, legacy);
    var pairs := ConvertedPairs(after, fields, persisted, decode);
    SecondPassValues(after, fields, pairs);
  }

  /** Each setting holds its row or the value it had, and all rows are held when they are jointly
      valid. */
  ghost predicate AppliedOver(before: Values, pairs: Values, after: Values) {
    && (Accepted(before + pairs) ==> forall key | key in pairs :: key in after && after[key] == pairs[key])
    && (forall key :: Lookup(after, key) == Lookup(before, key)
                      || (key in pairs && Lookup(after, key) == pairs[key]))
  }

  lemma SecondPassValues(values: Values, fields: seq<string>, pairs: Values)
    ensures AppliedOver(values, pairs, SecondPass(values, fields, pairs))
  {
    forall key | Lookup(PerKey(values, fields, pairs), key) != Lookup(values, key)
      ensures key in pairs && Lookup(PerKey(values, fields, pairs), key) == pairs[key]
    {
      PerKeyValues(values, fields, pairs, key);
    }
  }

  /** Settings that carry only a chunk size and an overlap. */
  function Chunking(size: real, overlap: real): Values {
    map["chunk_size_chars" := Num(size), "chunk_overlap_chars" := Num(overlap)]
  }

  lemma ChunkingAccepted(size: real, overlap: real)
    ensures Accepted(Chunking(size, overlap)) <==> overlap < size && 0.0 < size <= MAX_TEXT_CHARS
  {
    var data := Chunking(size, overlap);
    assert ApplyLegacyConversion(data) == data;
  }

  /** Joint replay matters: a valid pair saved over a valid pair is always applied jointly, and one key
      at a time applies it exactly when the old overlap is below the new size; otherwise the old size
      stays. */
  lemma OneKeyAtATimeExact(size: real, overlap: real, newSize: real, newOverlap: real)
    requires Accepted(Chunking(size, overlap)) && Accepted(Chunking(newSize, newOverlap))
    ensures var fields := ["chunk_size_chars", "chunk_overlap_chars"];
            var boot, pair := Chunking(size, overlap), Chunking(newSize, newOverlap);
            && SecondPass(boot, fields, pair) == pair
            && (PerKey(boot, fields, pair) == pair <==> overlap < newSize)
            && (overlap >= newSize ==> PerKey(boot, fields, pair) == Chunking(size, newOverlap))
  {
    var boot, pair := Chunking(size, overlap), Chunking(newSize, newOverlap);
    ChunkingAccepted(size, overlap);
    PairAccepted(size, overlap, newSize, newOverlap);
    PerKeyTwo(boot, "chunk_size_chars", "chunk_overlap_chars", pair);
    if overlap < newSize {
      SizeApplied(size, overlap, newSize);
      OverlapApplied(newSize, overlap, newOverlap);
    } else {
      SizeRejected(size, overlap, newSize);
      OverlapApplied(size, overlap, newOverlap);
      ChunkingDiffers(size, newSize, newOverlap);
    }
  }

  lemma ChunkingDiffers(size: real, newSize: real, overlap: real)
    requires size != newSize
    ensures Chunking(size, overlap) != Chunking(newSize, overlap)
  {
    assert Chunking(size, overlap)["chunk_size_chars"] != Chunking(newSize, overlap)["chunk_size_chars"];
  }

  lemma SizeApplied(size: real, overlap: real, newSize: real)
    requires overlap < newSize && 0.0 < newSize <= MAX_TEXT_CHARS
    ensures ApplyOne(Chunking(size, overlap), "chunk_size_chars", Num(newSize)) == Chunking(newSize, overlap)
  {
    ChunkingAccepted(newSize, overlap);
    SizeReplaced(size, overlap, newSize);
  }

  lemma PairAccepted(size: real, overlap: real, newSize: real, newOverlap: real)
    requires Accepted(Chunking(newSize, newOverlap))
    ensures 0.0 < newSize <= MAX_TEXT_CHARS && newOverlap < newSize
    ensures var boot, pairs := Chunking(size, overlap), Chunking(newSize, newOverlap);
            boot + pairs == pairs && pairs != map[] && Accepted(pairs)
  {
    ChunkingAccepted(newSize, newOverlap);
    assert "chunk_size_chars" in Chunking(newSize, newOverlap);
  }

  lemma SizeReplaced(size: real, overlap: real, newSize: real)
    ensures Chunking(size, overlap)["chunk_size_chars" := Num(newSize)] == Chunking(newSize, overlap)
  {
  }

  lemma SizeRejected(size: real, overlap: real, newSize: real)
    requires newSize <= overlap
    ensures ApplyOne(Chunking(size, overlap), "chunk_size_chars", Num(newSize)) == Chunking(size, overlap)
  {
    ChunkingAccepted(newSize, overlap);
    SizeReplaced(size, overlap, newSize);
  }

  lemma OverlapApplied(size: real, overlap: real, newOverlap: real)
    requires newOverlap < size && 0.0 < size <= MAX_TEXT_CHARS
    ensures ApplyOne(Chunking(size, overlap), "chunk_overlap_chars", Num(newOverlap)) == Chunking(size, newOverlap)
  {
    ChunkingAccepted(size, newOverlap);
    assert Chunking(size, overlap)["chunk_overlap_chars" := Num(newOverlap)] == Chunking(size, newOverlap);
  }

  lemma PerKeyTwo(values: Values, a: string, b: string, pairs: Values)
    requires a in pairs && b in pairs
    ensures PerKey(values, [a, b], pairs) == ApplyOne(ApplyOne(values, a, pairs[a]), b, pairs[b])
  {
    var first := ApplyOne(values, a, pairs[a]);
    assert [a, b][1..] == [b] && [b][1..] == [];
    assert PerKey(values, [a, b], pairs) == PerKey(first, [b], pairs);
    assert PerKey(first, [b], pairs) == PerKey(ApplyOne(first, b, pairs[b]), [], pairs);
  }

  // ---- What valid settings guarantee ----

  lemma ConversionKeepsExplicit(data: Values, key: string)
    requires Lookup(data, key).Num?
    ensures Lookup(ApplyLegacyConversion(data), key) == data[key]
  {
  }

  predicate Carries(values: Values, key: string) {
    Lookup(values, key).Num?
  }

  function Carried(values: Values, key: string): real
    requires Carries(values, key)
  {
    values[key].n
  }

  lemma RequiredStays(values: Values, key: string, default_: real)
    requires Carries(values, key)
    ensures Number(ApplyLegacyConversion(values), key, default_) == Some(Carried(values, key))
    ensures Required(ApplyLegacyConversion(values), key, default_) == Some(Carried(values, key))
  {
    ConversionKeepsExplicit(values, key);
  }

  /** Overlap below size and size within the text limit, for the values the settings carry. */
  lemma ValidChunks(values: Values)
    requires Accepted(values) && Carries(values, "chunk_size_chars")
    ensures 0.0 < Carried(values, "chunk_size_chars") <= MAX_TEXT_CHARS
    ensures Carries(values, "chunk_overlap_chars") ==>
              Carried(values, "chunk_overlap_chars") < Carried(values, "chunk_size_chars")
  {
    RequiredStays(values, "chunk_size_chars", 2000.0);
    if Carries(values, "chunk_overlap_chars") {
      RequiredStays(values, "chunk_overlap_chars", 200.0);
    }
  }

  /** A lease is reclaimed well after its heartbeat. */
  lemma ValidLease(values: Values)
    requires Accepted(values)
    requires Carries(values, "jobs_heartbeat_interval_seconds") && Carries(values, "jobs_lease_reclaim_timeout_seconds")
    ensures Carried(values, "jobs_lease_reclaim_timeout_seconds") > 4.0 * Carried(values, "jobs_heartbeat_interval_seconds")
  {
    RequiredStays(values, "jobs_heartbeat_interval_seconds", 30.0);
    RequiredStays(values, "jobs_lease_reclaim_timeout_seconds", 300.0);
  }

  /** A stall is later than both the reclaim and the parse deadline. */
  lemma ValidStall(values: Values)
    requires Accepted(values) && Carries(values, "jobs_stall_timeout_seconds")
    ensures Carries(values, "jobs_lease_reclaim_timeout_seconds") ==>
              Carried(values, "jobs_stall_timeout_seconds") > Carried(values, "jobs_lease_reclaim_timeout_seconds")
    ensures Carries(values, "document_parse_timeout") ==>
              Carried(values, "jobs_stall_timeout_seconds") > Carried(values, "document_parse_timeout")
  {
    RequiredStays(values, "jobs_stall_timeout_seconds", 900.0);
    if Carries(values, "jobs_lease_reclaim_timeout_seconds") {
      RequiredStays(values, "jobs_lease_reclaim_timeout_seconds", 300.0);
    }
    if Carries(values, "document_parse_timeout") {
      RequiredStays(values, "document_parse_timeout", 300.0);
    }
  }

  /** A probe fits its budget. */
  lemma ValidProbe(values: Values)
    requires Accepted(values) && Carries(values, "embedding_batch_max_chars")
    requires Carries(values, "embedding_probe_batch_count") && Carries(values, "embedding_probe_batch_chars")
    ensures Carried(values, "embedding_probe_batch_count") * Carried(values, "embedding_probe_batch_chars")
            <= Carried(values, "embedding_batch_max_chars")
  {
    RequiredStays(values, "embedding_probe_batch_count", 4.0);
    RequiredStays(values, "embedding_probe_batch_chars", 512.0);
    RequiredStays(values, "embedding_batch_max_chars", 131072.0);
  }

  /** A sub-batch is no larger than a batch. */
  lemma ValidSubBatch(values: Values)
    requires Accepted(values)
    requires Carries(values, "embedding_batch_min_sub_size") && Carries(values, "embedding_batch_size")
    ensures Carried(values, "embedding_batch_min_sub_size") <= Carried(values, "embedding_batch_size")
  {
    RequiredStays(values, "embedding_batch_min_sub_size", 1.0);
    RequiredStays(values, "embedding_batch_size", 64.0);
  }

  /** Whatever of these fields the settings carry satisfies the constraints between them. */
  ghost predicate CoherentAsCarried(values: Values) {
    && LessAsCarried(values, "chunk_overlap_chars", "chunk_size_chars")
    && (Carries(values, "chunk_size_chars") ==> 0.0 < Carried(values, "chunk_size_chars") <= MAX_TEXT_CHARS)
    && (Carries(values, "jobs_heartbeat_interval_seconds") && Carries(values, "jobs_lease_reclaim_timeout_seconds") ==>
          Carried(values, "jobs_lease_reclaim_timeout_seconds") > 4.0 * Carried(values, "jobs_heartbeat_interval_seconds"))
    && LessAsCarried(values, "jobs_lease_reclaim_timeout_seconds", "jobs_stall_timeout_seconds")
    && LessAsCarried(values, "document_parse_timeout", "jobs_stall_timeout_seconds")
    && (&& Carries(values, "embedding_probe_batch_count") && Carries(values, "embedding_probe_batch_chars")
        && Carries(values, "embedding_batch_max_chars") ==>
          Carried(values, "embedding_probe_batch_count") * Carried(values, "embedding_probe_batch_chars")
          <= Carried(values, "embedding_batch_max_chars"))
    && (Carries(values, "embedding_batch_min_sub_size") && Carries(values, "embedding_batch_size") ==>
          Carried(values, "embedding_batch_min_sub_size") <= Carried(values, "embedding_batch_size"))
  }

  predicate LessAsCarried(values: Values, a: string, b: string) {
    Carries(values, a) && Carries(values, b) ==> Carried(values, a) < Carried(values, b)
  }

  /** The constraints hold of the very values the settings carry, legacy fields or not. */
  lemma ValidMeansCoherent(values: Values)
    requires Accepted(values)
    ensures CoherentAsCarried(values)
  {
    if Carries(values, "chunk_size_chars") {
      ValidChunks(values);
    }
    if Carries(values, "jobs_heartbeat_interval_seconds") && Carries(values, "jobs_lease_reclaim_timeout_seconds") {
      ValidLease(values);
    }
    if Carries(values, "jobs_stall_timeout_seconds") {
      ValidStall(values);
    }
    if && Carries(values, "embedding_probe_batch_count") && Carries(values, "embedding_probe_batch_chars")
       && Carries(values, "embedding_batch_max_chars") {
      ValidProbe(values);
    }
    if Carries(values, "embedding_batch_min_sub_size") && Carries(values, "embedding_batch_size") {
      ValidSubBatch(values);
    }
  }

  /** Every field the constraints speak of is carried, as in the settings of a running application. */
  predicate CarriesAll(values: Values) {
    && Carries(values, "chunk_size_chars") && Carries(values, "chunk_overlap_chars")
    && Carries(values, "jobs_heartbeat_interval_seconds") && Carries(values, "jobs_lease_reclaim_timeout_seconds")
    && Carries(values, "jobs_stall_timeout_seconds") && Carries(values, "document_parse_timeout")
    && Carries(values, "embedding_probe_batch_count") && Carries(values, "embedding_probe_batch_chars")
    && Carries(values, "embedding_batch_max_chars")
    && Carries(values, "embedding_batch_min_sub_size") && Carries(values, "embedding_batch_size")
  }

  lemma CoherentChunks(values: Values)
    requires CarriesAll(values) && CoherentAsCarried(values)
    ensures var d := ApplyLegacyConversion(values);
            ChunksCoherent(Number(d, "chunk_size_chars", 2000.0), Number(d, "chunk_overlap_chars", 200.0))
  {
    RequiredStays(values, "chunk_size_chars", 2000.0);
    RequiredStays(values, "chunk_overlap_chars", 200.0);
    assert LessAsCarried(values, "chunk_overlap_chars", "chunk_size_chars");
  }

  lemma CoherentJobs(values: Values)
    requires CarriesAll(values) && CoherentAsCarried(values)
    ensures var d := ApplyLegacyConversion(values);
            JobsCoherent(Required(d, "jobs_heartbeat_interval_seconds", 30.0),
                         Required(d, "jobs_lease_reclaim_timeout_seconds", 300.0),
                         Required(d, "jobs_stall_timeout_seconds", 900.0),
                         Required(d, "document_parse_timeout", 300.0))
  {
    RequiredStays(values, "jobs_heartbeat_interval_seconds", 30.0);
    RequiredStays(values, "jobs_lease_reclaim_timeout_seconds", 300.0);
    RequiredStays(values, "jobs_stall_timeout_seconds", 900.0);
    RequiredStays(values, "document_parse_timeout", 300.0);
    assert LessAsCarried(values, "jobs_lease_reclaim_timeout_seconds", "jobs_stall_timeout_seconds");
    assert LessAsCarried(values, "document_parse_timeout", "jobs_stall_timeout_seconds");
  }

  lemma CoherentBatches(values: Values)
    requires CarriesAll(values) && CoherentAsCarried(values)
    ensures var d := ApplyLegacyConversion(values);
            BatchesCoherent(Required(d, "embedding_probe_batch_count", 4.0),
                            Required(d, "embedding_probe_batch_chars", 512.0),
                            Required(d, "embedding_batch_max_chars", 131072.0),
                            Required(d, "embedding_batch_min_sub_size", 1.0),
                            Required(d, "embedding_batch_size", 64.0))
  {
    RequiredStays(values, "embedding_probe_batch_count", 4.0);
    RequiredStays(values, "embedding_probe_batch_chars", 512.0);
    RequiredStays(values, "embedding_batch_max_chars", 131072.0);
    RequiredStays(values, "embedding_batch_min_sub_size", 1.0);
    RequiredStays(values, "embedding_batch_size", 64.0);
  }

  /** Complete settings are accepted exactly when they satisfy the constraints. */
  lemma CompleteAcceptedExactly(values: Values)
    requires CarriesAll(values)
    ensures Accepted(values) <==> CoherentAsCarried(values)
  {
    if CoherentAsCarried(values) {
      CoherentChunks(values);
      CoherentJobs(values);
      CoherentBatches(values);
    } else if Accepted(values) {
      ValidMeansCoherent(values);
      assert false;
    }
  }

  /** What a lone field may be beside the defaults of all others. */
  predicate FitsDefaults(key: string, n: real) {
    if key == "chunk_size_chars" then 200.0 < n <= 8192.0
    else if key == "chunk_overlap_chars" then n < 2000.0
    else if key == "jobs_heartbeat_interval_seconds" then 4.0 * n < 300.0
    else if key == "jobs_lease_reclaim_timeout_seconds" then 120.0 < n < 900.0
    else if key == "jobs_stall_timeout_seconds" then 300.0 < n
    else if key == "document_parse_timeout" then n < 900.0
    else if key == "embedding_probe_batch_count" then n * 512.0 <= 131072.0
    else if key == "embedding_probe_batch_chars" then 4.0 * n <= 131072.0
    else if key == "embedding_batch_max_chars" then 2048.0 <= n
    else if key == "embedding_batch_min_sub_size" then n <= 64.0
    else key == "embedding_batch_size" && 1.0 <= n
  }

  predicate Constrained(key: string) {
    || key == "chunk_size_chars" || key == "chunk_overlap_chars"
    || key == "jobs_heartbeat_interval_seconds" || key == "jobs_lease_reclaim_timeout_seconds"
    || key == "jobs_stall_timeout_seconds" || key == "document_parse_timeout"
    || key == "embedding_probe_batch_count" || key == "embedding_probe_batch_chars"
    || key == "embedding_batch_max_chars"
    || key == "embedding_batch_min_sub_size" || key == "embedding_batch_size"
  }

  lemma LoneUnconverted(key: string, n: real)
    requires Constrained(key)
    ensures ApplyLegacyConversion(map[key := Num(n)]) == map[key := Num(n)]
  {
    assert |"chunk_size"| == 10 && |"chunk_overlap"| == 13 && |"vector_top_k"| == 12 && |"vector_metric"| == 13;
    assert |key| > 13;
  }

  lemma LoneChunks(key: string, n: real)
    requires Constrained(key)
    ensures var d := map[key := Num(n)];
            ChunksCoherent(Number(d, "chunk_size_chars", 2000.0), Number(d, "chunk_overlap_chars", 200.0))
            <==> (key == "chunk_size_chars" || key == "chunk_overlap_chars" ==> FitsDefaults(key, n))
  {
  }

  /** One field set, and the others at their defaults, is accepted exactly on these ranges. */
  lemma LoneFieldExactly(key: string, n: real)
    requires Constrained(key)
    ensures Accepted(map[key := Num(n)]) <==> FitsDefaults(key, n)
  {
    LoneUnconverted(key, n);
    LoneChunks(key, n);
  }

  // ---- What a stored row does ----

  lemma {:induction false} LegacyLoopAppend(
    values: Values, a: seq<string>, b: seq<string>, persisted: map<string, string>, decode: Decoder
  )
    ensures LegacyLoop(values, a + b, persisted, decode)
         == LegacyLoop(LegacyLoop(values, a, persisted, decode), b, persisted, decode)
    decreases |a|
  {
    if a == [] {
      assert a + b == b;
    } else {
      var next :=
        if a[0] in persisted && decode(a[0], persisted[a[0]]).Some?
        then ApplyOne(values, a[0], decode(a[0], persisted[a[0]]).value)
        else values;
      assert (a + b)[1..] == a[1..] + b;
      LegacyLoopAppend(next, a[1..], b, persisted, decode);
    }
  }

  lemma {:induction false} LegacyLoopLeaves(
    values: Values, keys: seq<string>, persisted: map<string, string>, decode: Decoder, key: string
  )
    requires key !in keys
    ensures Lookup(LegacyLoop(values, keys, persisted, decode), key) == Lookup(values, key)
    ensures key in LegacyLoop(values, keys, persisted, decode) <==> key in values
    decreases |keys|
  {
    if keys != [] {
      var next :=
        if keys[0] in persisted && decode(keys[0], persisted[keys[0]]).Some?
        then ApplyOne(values, keys[0], decode(keys[0], persisted[keys[0]]).value)
        else values;
      LegacyLoopLeaves(next, keys[1..], persisted, decode, key);
    }
  }

  /** A legacy key with a stored row that decodes holds it exactly when the whole is valid at the key's
      turn, and keeps its value otherwise. */
  lemma LegacyRowApplied(
    values: Values, before: seq<string>, key: string, later: seq<string>,
    persisted: map<string, string>, decode: Decoder
  )
    requires key !in later
    ensures var turn := LegacyLoop(values, before, persisted, decode);
            var final := LegacyLoop(values, before + [key] + later, persisted, decode);
            Lookup(final, key) ==
            if key in persisted && decode(key, persisted[key]).Some?
               && Accepted(turn[key := decode(key, persisted[key]).value])
            then decode(key, persisted[key]).value else Lookup(turn, key)
  {
    var turn := LegacyLoop(values, before, persisted, decode);
    LegacyLoopAppend(values, before, [key], persisted, decode);
    LegacyLoopAppend(values, before + [key], later, persisted, decode);
    assert [key][1..] == [];
    var next := LegacyLoop(turn, [key], persisted, decode);
    LegacyLoopLeaves(next, later, persisted, decode, key);
  }

  lemma {:induction false} LegacyLoopIdle(
    values: Values, keys: seq<string>, persisted: map<string, string>, decode: Decoder
  )
    requires forall k | 0 <= k < |keys| :: keys[k] !in persisted
    ensures LegacyLoop(values, keys, persisted, decode) == values
    decreases |keys|
  {
    if keys != [] {
      LegacyLoopIdle(values, keys[1..], persisted, decode);
    }
  }

  /** The one stored row of a legacy setting is applied whenever the whole stays valid, and otherwise
      changes nothing. */
  lemma StoredLegacyRow(values: Values, key: string, raw: string, decode: Decoder)
    requires || key == "chunk_size" || key == "chunk_overlap" || key == "max_context_chunks"
             || key == "auto_scan_interval_minutes" || key == "auto_scan_enabled" || key == "rag_relevance_threshold"
    requires decode(key, raw).Some?
    ensures LegacyLoop(values, LEGACY_KEYS, map[key := raw], decode) ==
            if Accepted(values[key := decode(key, raw).value]) then values[key := decode(key, raw).value] else values
  {
    var i := LegacyIndex(key);
    var before, later := LEGACY_KEYS[..i], LEGACY_KEYS[i + 1..];
    LegacyKeysDistinct(i);
    assert LEGACY_KEYS == before + [key] + later;
    OneRow(values, before, key, later, raw, decode);
  }

  function LegacyIndex(key: string): (i: nat)
    requires || key == "chunk_size" || key == "chunk_overlap" || key == "max_context_chunks"
             || key == "auto_scan_interval_minutes" || key == "auto_scan_enabled" || key == "rag_relevance_threshold"
    ensures i < |LEGACY_KEYS| && LEGACY_KEYS[i] == key
  {
    if key == "chunk_size" then 0
    else if key == "chunk_overlap" then 1
    else if key == "max_context_chunks" then 2
    else if key == "auto_scan_interval_minutes" then 3
    else if key == "auto_scan_enabled" then 4
    else 5
  }

  lemma LegacyKeysDistinct(i: nat)
    requires i < |LEGACY_KEYS|
    ensures forall k | 0 <= k < |LEGACY_KEYS| && k != i :: LEGACY_KEYS[k] != LEGACY_KEYS[i]
  {
    assert |LEGACY_KEYS[0]| == 10 && |LEGACY_KEYS[1]| == 13 && |LEGACY_KEYS[2]| == 18;
    assert |LEGACY_KEYS[3]| == 26 && |LEGACY_KEYS[4]| == 17 && |LEGACY_KEYS[5]| == 23;
  }

  lemma OneRow(values: Values, before: seq<string>, key: string, later: seq<string>, raw: string, decode: Decoder)
    requires key !in before && key !in later && decode(key, raw).Some?
    ensures LegacyLoop(values, before + [key] + later, map[key := raw], decode)
         == ApplyOne(values, key, decode(key, raw).value)
  {
    var persisted := map[key := raw];
    LegacyLoopIdle(values, before, persisted, decode);
    LegacyLoopAppend(values, before, [key], persisted, decode);
    LegacyLoopAppend(values, before + [key], later, persisted, decode);
    assert [key][1..] == [];
    LegacyLoopIdle(LegacyLoop(values, [key], persisted, decode), later, persisted, decode);
  }

  lemma {:induction false} PerKeyAppend(values: Values, a: seq<string>, b: seq<string>, pairs: Values)
    ensures PerKey(values, a + b, pairs) == PerKey(PerKey(values, a, pairs), b, pairs)
    decreases |a|
  {
    if a == [] {
      assert a + b == b;
    } else {
      assert (a + b)[1..] == a[1..] + b;
      PerKeyAppend(if a[0] in pairs then ApplyOne(values, a[0], pairs[a[0]]) else values, a[1..], b, pairs);
    }
  }

  lemma {:induction false} PerKeyLeaves(values: Values, fields: seq<string>, pairs: Values, key: string)
    requires key !in fields
    ensures Lookup(PerKey(values, fields, pairs), key) == Lookup(values, key)
    decreases |fields|
  {
    if fields != [] {
      PerKeyLeaves(if fields[0] in pairs then ApplyOne(values, fields[0], pairs[fields[0]]) else values,
                   fields[1..], pairs, key);
    }
  }

  /** In the fallback a field holds its row exactly when the whole is valid at the field's turn. */
  lemma FallbackRowApplied(values: Values, before: seq<string>, key: string, later: seq<string>, pairs: Values)
    requires key !in later
    ensures var turn := PerKey(values, before, pairs);
            Lookup(PerKey(values, before + [key] + later, pairs), key) ==
            if key in pairs && Accepted(turn[key := pairs[key]]) then pairs[key] else Lookup(turn, key)
  {
    PerKeyAppend(values, before, [key], pairs);
    PerKeyAppend(values, before + [key], later, pairs);
    var turn := PerKey(values, before, pairs);
    assert [key][1..] == [];
    PerKeyLeaves(PerKey(turn, [key], pairs), later, pairs, key);
  }

  /** The first pass takes exactly the listed fields the settings have whose rows decode, and gives the
      two old names of a vector metric their new ones. */
  lemma ConvertedExactly(values: Values, fields: seq<string>, persisted: map<string, string>, decode: Decoder, key: string)
    ensures var pairs := ConvertedPairs(values, fields, persisted, decode);
            && (key in pairs <==> key in fields && key in values && key in persisted && decode(key, persisted[key]).Some?)
            && (key in pairs ==>
                  var v := decode(key, persisted[key]).value;
                  pairs[key] ==
                  if key == "vector_metric" && v == Text("euclidean") then Text("l2")
                  else if key == "vector_metric" && v == Text("dot_product") then Text("dot")
                  else v)
  {
  }

  /** The legacy fields stand in for their replacements, a chunk size and an overlap at four characters
      a token, exactly where the replacement is null; no other field but the metric is touched. */
  lemma LegacyConversionExactly(data: Values, key: string)
    ensures var d := ApplyLegacyConversion(data);
            && (key == "chunk_size_chars" && Lookup(data, key).Null? && Lookup(data, "chunk_size").Num? ==>
                  Lookup(d, key) == Num(data["chunk_size"].n * 4.0))
            && (key == "chunk_overlap_chars" && Lookup(data, key).Null? && Lookup(data, "chunk_overlap").Num? ==>
                  Lookup(d, key) == Num(data["chunk_overlap"].n * 4.0))
            && (key == "retrieval_top_k" && Lookup(data, key).Null? && Lookup(data, "vector_top_k").Num? ==>
                  Lookup(d, key) == Num(data["vector_top_k"].n))
            && (key !in {"chunk_size_chars", "chunk_overlap_chars", "retrieval_top_k", "vector_metric"} ==>
                  Lookup(d, key) == Lookup(data, key))
  {
    assert |"chunk_size_chars"| == 16 && |"chunk_overlap_chars"| == 19 && |"retrieval_top_k"| == 15;
    assert |"vector_metric"| == 13 && |"chunk_overlap"| == 13 && |"vector_top_k"| == 12;
    assert "chunk_overlap"[0] != "vector_metric"[0];
  }

  /** A legacy chunk size stands in exactly when the replacement is null, four characters a token. */
  lemma LegacySizeApplies(data: Values)
    requires Lookup(data, "chunk_size").Num?
    ensures Lookup(ApplyLegacyConversion(data), "chunk_size_chars") ==
            if Lookup(data, "chunk_size_chars").Null? then Num(data["chunk_size"].n * 4.0)
            else data["chunk_size_chars"]
  {
  }
}
