/** The embedding-dimension migration of scripts/migrate_embeddings.py: its decision ladder, its
    crash-ordered steps, and what every crash leaves behind. */
module Migration {
  import opened Wrappers

  datatype Status = Pending | Processing | Indexed | Partial | Errored

  /** A row of `files`: `chunks` is the chunk count it claims, `queued` its phase. */
  datatype Row = Row(status: Status, chunks: nat, queued: bool)

  datatype Sqlite =
    | Missing
    | Unreadable
    | NotApplication
    | BackupCopy(rows: map<nat, Row>)
    | Application(rows: map<nat, Row>)

  /** The vector index directory: its number of entries, the embedding dimension that can be detected
      in it, and how many chunk rows can be read for each file id. */
  datatype Vectors =
    | Absent
    | Present(entries: nat, dim: Option<nat>, chunks: map<nat, nat>)

  datatype State = State(sqlite: Sqlite, vectors: Vectors)

  /** An empty directory holds no table. */
  predicate Sound(s: State) {
    s.vectors.Present? && s.vectors.entries == 0 ==> s.vectors == Present(0, None, map[])
  }

  predicate ClaimsVectors(row: Row) {
    row.status.Indexed? || row.status.Partial?
  }

  function Rows(sqlite: Sqlite): map<nat, Row> {
    match sqlite
    case BackupCopy(rows) => rows
    case Application(rows) => rows
    case _ => map[]
  }

  function Claims(sqlite: Sqlite): set<nat> {
    set id | id in Rows(sqlite) && ClaimsVectors(Rows(sqlite)[id])
  }

  function ChunksOf(vectors: Vectors, id: nat): nat {
    if vectors.Present? && id in vectors.chunks then vectors.chunks[id] else 0
  }

  /** Every row that claims vectors has all of them. */
  predicate Backed(s: State) {
    forall id | id in Claims(s.sqlite) :: ChunksOf(s.vectors, id) == Rows(s.sqlite)[id].chunks
  }

  // ---- The ladder ----

  /** What is outside both stores: the configured dimension, when settings load, and whether another
      process holds the write lock. */
  datatype Env = Env(configured: Option<nat>, writer: bool)

  datatype Decision = Refuse(code: nat) | Nothing | Go(repair: bool)

  /** A dimension that Python counts as true. */
  predicate Known(dim: Option<nat>) {
    dim.Some? && dim.value != 0
  }

  function StoredDim(vectors: Vectors): Option<nat> {
    if vectors.Present? then vectors.dim else None
  }

  predicate NonEmpty(vectors: Vectors) {
    vectors.Present? && vectors.entries > 0
  }

  predicate IsEmpty(vectors: Vectors) {
    vectors.Present? && vectors.entries == 0
  }

  /** Whether some claimed id has chunks; `None` when the index names no file. */
  function Shares(vectors: Vectors, claims: set<nat>): Option<bool> {
    if vectors.Absent? || vectors.chunks == map[] then None
    else Some(exists id | id in claims :: id in vectors.chunks)
  }

  /** The refusal of `_assert_application_database`, if any. */
  function DatabaseRefusal(s: State): Option<nat> {
    match s.sqlite
    case Missing => Some(8)
    case BackupCopy(_) => Some(8)
    case Unreadable => Some(5)
    case NotApplication => Some(8)
    case Application(_) =>
      if Claims(s.sqlite) != {} && Shares(s.vectors, Claims(s.sqlite)) == Some(false) then Some(8) else None
  }

  function Gates(s: State, env: Env, dry: bool, repair: bool): Decision {
    if DatabaseRefusal(s).Some? then Refuse(DatabaseRefusal(s).value)
    else if !dry && env.writer then Refuse(5)
    else Go(repair)
  }

  /** The comparison of the stored and the configured dimension. */
  function Compare(s: State, env: Env, dry: bool, force: bool): Decision {
    var stored := StoredDim(s.vectors);
    if Known(stored) && Known(env.configured) && stored == env.configured && !force then Nothing
    else if (Known(stored) && Known(env.configured)) || force then Gates(s, env, dry, false)
    else Refuse(4)
  }

  /** `run_migration` up to its first write. */
  function Decide(s: State, env: Env, dry: bool, force: bool): Decision {
    if s.vectors.Absent? && s.sqlite.Missing? then Refuse(7)
    else if StoredDim(s.vectors).None? then
      if NonEmpty(s.vectors) then
        if force then Compare(s, env, dry, force) else Refuse(3)
      else if s.vectors.Present? && s.sqlite.Unreadable? then Refuse(6)
      else if s.vectors.Present? && Claims(s.sqlite) != {} then Gates(s, env, dry, true)
      else if force then Compare(s, env, dry, force)
      else Nothing
    else Compare(s, env, dry, force)
  }

  // ---- What the ladder decides, input by input ----

  /** Some row says that its file is indexed, wholly or in part. */
  predicate SomeClaim(s: State) {
    exists id | id in Rows(s.sqlite) :: Rows(s.sqlite)[id].status == Indexed || Rows(s.sqlite)[id].status == Partial
  }

  /** The index names files, and none of them is one the rows claim. */
  predicate Stranger(s: State) {
    && s.vectors.Present? && s.vectors.chunks != map[]
    && forall id | id in Rows(s.sqlite) && id in s.vectors.chunks ::
         !(Rows(s.sqlite)[id].status == Indexed || Rows(s.sqlite)[id].status == Partial)
  }

  /** The database is the application's own and not about another index, and a run that writes is alone. */
  predicate GatesPass(s: State, env: Env, dry: bool) {
    && s.sqlite.Application?
    && !(SomeClaim(s) && Stranger(s))
    && (dry || !env.writer)
  }

  /** The index has one known dimension and the settings another. */
  predicate Mismatch(s: State, env: Env) {
    && s.vectors.Present? && s.vectors.dim.Some? && s.vectors.dim.value != 0
    && env.configured.Some? && env.configured.value != 0 && s.vectors.dim != env.configured
  }

  predicate EmptyUnderClaims(s: State) {
    s.vectors.Present? && s.vectors.entries == 0 && SomeClaim(s)
  }

  lemma ClaimsExactly(s: State)
    ensures Claims(s.sqlite) != {} <==> SomeClaim(s)
    ensures Shares(s.vectors, Claims(s.sqlite)) == Some(false) <==> Stranger(s)
  {
    if SomeClaim(s) {
      var id :| id in Rows(s.sqlite) && ClaimsVectors(Rows(s.sqlite)[id]);
      assert id in Claims(s.sqlite);
    }
    if s.vectors.Present? {
      assert (exists id | id in Claims(s.sqlite) :: id in s.vectors.chunks)
        <==> exists id | id in Rows(s.sqlite) && id in s.vectors.chunks :: ClaimsVectors(Rows(s.sqlite)[id]);
    }
  }

  lemma GatesExactly(s: State, env: Env, dry: bool, repair: bool)
    ensures Gates(s, env, dry, repair).Go? <==> GatesPass(s, env, dry)
    ensures Gates(s, env, dry, repair) != Nothing && (Gates(s, env, dry, repair).Go? ==> Gates(s, env, dry, repair).repair == repair)
    ensures Gates(s, env, dry, repair).Refuse? ==> Gates(s, env, dry, repair).code in {5, 8}
  {
    ClaimsExactly(s);
  }

  /** Without --force a run goes exactly when the dimensions are known and differ, or the index is empty
      under claiming rows, and the gates let it; it finds nothing to do exactly when there is no index,
      the index is empty under no claim, or the dimensions are known and equal. */
  lemma PlainRunExactly(s: State, env: Env, dry: bool)
    requires Sound(s)
    ensures Decide(s, env, dry, false).Go? <==>
              (Mismatch(s, env) || EmptyUnderClaims(s)) && GatesPass(s, env, dry)
    ensures Decide(s, env, dry, false).Go? ==> (Decide(s, env, dry, false).repair <==> EmptyUnderClaims(s))
    ensures Decide(s, env, dry, false) == Nothing <==>
              || (s.vectors.Absent? && !s.sqlite.Missing?)
              || (s.vectors.Present? && s.vectors.entries == 0 && !s.sqlite.Unreadable? && !SomeClaim(s))
              || (s.vectors.Present? && s.vectors.dim.Some? && s.vectors.dim.value != 0 && s.vectors.dim == env.configured)
  {
    ClaimsExactly(s);
    GatesExactly(s, env, dry, true);
    GatesExactly(s, env, dry, false);
  }

  /** The refusals of a plain run that come before the gates, each on exactly its inputs. */
  lemma PlainRefusalsExactly(s: State, env: Env, dry: bool)
    requires Sound(s)
    ensures Decide(s, env, dry, false) == Refuse(7) <==> s.vectors.Absent? && s.sqlite.Missing?
    ensures Decide(s, env, dry, false) == Refuse(3) <==>
              s.vectors.Present? && s.vectors.entries > 0 && s.vectors.dim.None?
    ensures Decide(s, env, dry, false) == Refuse(6) <==>
              s.vectors.Present? && s.vectors.entries == 0 && s.sqlite.Unreadable?
    ensures Decide(s, env, dry, false) == Refuse(4) <==>
              && s.vectors.Present? && s.vectors.dim.Some?
              && (s.vectors.dim.value == 0 || env.configured.None? || env.configured.value == 0)
  {
    ClaimsExactly(s);
    GatesExactly(s, env, dry, true);
    GatesExactly(s, env, dry, false);
  }

  /** With --force a run goes exactly when the gates let it, and never finds nothing to do. */
  lemma ForcedRunExactly(s: State, env: Env, dry: bool)
    requires Sound(s)
    ensures Decide(s, env, dry, true).Go? <==> GatesPass(s, env, dry)
    ensures Decide(s, env, dry, true) != Nothing
  {
    ClaimsExactly(s);
    GatesExactly(s, env, dry, true);
    GatesExactly(s, env, dry, false);
  }

  // ---- The writes ----

  function ResetRow(row: Row): Row {
    if ClaimsVectors(row) then Row(Pending, 0, true) else row
  }

  function Reset(sqlite: Sqlite): Sqlite {
    match sqlite
    case BackupCopy(rows) => BackupCopy(map id | id in rows :: ResetRow(rows[id]))
    case Application(rows) => Application(map id | id in rows :: ResetRow(rows[id]))
    case _ => sqlite
  }

  function Wiped(vectors: Vectors): Vectors {
    if vectors.Absent? then Absent else Present(0, None, map[])
  }

  function Migrated(s: State): State {
    State(Reset(s.sqlite), Wiped(s.vectors))
  }

  /** `b` is what a deletion of `a` may have left: the directory gone, or anything less than `a`. */
  predicate Remnant(a: Vectors, b: Vectors) {
    || b.Absent?
    || (&& a.Present? && b.entries <= a.entries
        && (b.dim == a.dim || b.dim.None?)
        && (forall id | id in b.chunks :: id in a.chunks && b.chunks[id] <= a.chunks[id])
        && (b.entries == 0 ==> b == Present(0, None, map[])))
  }

  /** The states a destructive run passes through: the start, or the rows reset and the index
      anywhere on the way to empty. */
  predicate OnTheWay(start: State, s: State) {
    s == start || (s.sqlite == Reset(start.sqlite) && Remnant(start.vectors, s.vectors))
  }

  /** The writes that may fail. */
  datatype WriteFault = ResetRows | DeleteIndex | RemakeIndex

  class Host {
    var now: State
    ghost var trail: seq<State>

    constructor (s: State)
      ensures now == s && trail == []
    {
      now := s;
      trail := [];
    }

    method Record(next: State)
      modifies this
      ensures now == next && trail == old(trail) + [next]
    {
      now := next;
      trail := trail + [next];
    }

    /** `_reset_file_statuses`: one transaction. */
    method ResetStatuses(faults: set<WriteFault>) returns (ok: bool, count: nat)
      requires now.sqlite.Application?
      modifies this
      ensures trail == old(trail) + [now]
      ensures now == if ok then old(now).(sqlite := Reset(old(now).sqlite)) else old(now)
      ensures count == |Claims(old(now).sqlite)|
      ensures ok <==> count == 0 || ResetRows !in faults
    {
      count := |Claims(now.sqlite)|;
      ok := count == 0 || ResetRows !in faults;
      if count == 0 {
        NoClaimsNoReset(now.sqlite);
      }
      Record(if ok then now.(sqlite := Reset(now.sqlite)) else now);
    }

    /** `_wipe_lancedb`: delete the tree, then make an empty directory again. */
    method Wipe(faults: set<WriteFault>) returns (ok: bool)
      requires Sound(now)
      modifies this
      ensures old(trail) <= trail
      ensures forall k | |old(trail)| <= k < |trail| ::
                trail[k].sqlite == old(now).sqlite && Remnant(old(now).vectors, trail[k].vectors)
      ensures now.sqlite == old(now).sqlite && Remnant(old(now).vectors, now.vectors)
      ensures ok ==> now.vectors == Wiped(old(now).vectors)
      ensures ok <==> old(now).vectors.Absent? || (DeleteIndex !in faults && RemakeIndex !in faults)
    {
      if now.vectors.Absent? {
        return true;
      }
      ghost var start := now;
      var steps: nat := *;
      while steps > 0
        invariant old(trail) <= trail
        invariant now.sqlite == start.sqlite && now.vectors.Present? && Remnant(start.vectors, now.vectors)
        invariant forall k | |old(trail)| <= k < |trail| ::
                    trail[k].sqlite == start.sqlite && Remnant(start.vectors, trail[k].vectors)
      {
        var less: Vectors := *;
        if less.Present? && Remnant(now.vectors, less) {
          RemnantTransitive(start.vectors, now.vectors, less);
          Record(now.(vectors := less));
        }
        steps := steps - 1;
      }
      if DeleteIndex in faults {
        return false;
      }
      Record(now.(vectors := Absent));
      if RemakeIndex in faults {
        return false;
      }
      Record(now.(vectors := Present(0, None, map[])));
      ok := true;
    }

    /** `run_migration`. */
    method RunMigration(env: Env, dry: bool, force: bool, faults: set<WriteFault>)
      returns (decision: Decision, completed: bool)
      requires Sound(now)
      modifies this
      ensures decision == Decide(old(now), env, dry, force)
      ensures old(trail) <= trail
      ensures !decision.Go? || dry ==> now == old(now) && trail == old(trail)
      ensures forall k | |old(trail)| <= k < |trail| :: OnTheWay(old(now), trail[k])
      ensures OnTheWay(old(now), now)
      ensures decision.Go? && !dry && completed ==> now == Migrated(old(now))
      ensures faults == {} ==> completed
    {
      completed := true;
      if now.vectors.Absent? && now.sqlite.Missing? {
        return Refuse(7), completed;
      }
      var stored := StoredDim(now.vectors);
      var repair := false;
      if stored.None? {
        if NonEmpty(now.vectors) {
          if !force {
            return Refuse(3), completed;
          }
        } else {
          if now.vectors.Present? && now.sqlite.Unreadable? {
            return Refuse(6), completed;
          }
          var stranded := if now.vectors.Present? then |Claims(now.sqlite)| else 0;
          if stranded > 0 {
            repair := true;
          } else if !force {
            return Nothing, completed;
          }
        }
      }
      if !repair {
        if Known(stored) && Known(env.configured) && stored == env.configured && !force {
          return Nothing, completed;
        }
        if !(Known(stored) && Known(env.configured)) && !force {
          return Refuse(4), completed;
        }
      }
      var refusal := DatabaseRefusal(now);
      if refusal.Some? {
        return Refuse(refusal.value), completed;
      }
      if !dry && env.writer {
        return Refuse(5), completed;
      }
      decision := Go(repair);
      if dry {
        return;
      }
      ghost var start := now;
      RemnantReflexive(start);
      var reset, count := ResetStatuses(faults);
      if !reset {
        completed := false;
        return;
      }
      completed := Wipe(faults);
    }
  }

  lemma NoClaimsNoReset(sqlite: Sqlite)
    requires |Claims(sqlite)| == 0
    ensures Reset(sqlite) == sqlite
  {
    assert Claims(sqlite) == {};
    forall id | id in Rows(sqlite) ensures ResetRow(Rows(sqlite)[id]) == Rows(sqlite)[id] {
      assert id !in Claims(sqlite);
    }
    if sqlite.Application? {
      assert (map id | id in sqlite.rows :: ResetRow(sqlite.rows[id])) == sqlite.rows;
    } else if sqlite.BackupCopy? {
      assert (map id | id in sqlite.rows :: ResetRow(sqlite.rows[id])) == sqlite.rows;
    }
  }

  lemma RemnantTransitive(a: Vectors, b: Vectors, c: Vectors)
    requires b.Present? && Remnant(a, b) && Remnant(b, c)
    ensures Remnant(a, c)
  {
  }

  lemma RemnantReflexive(s: State)
    requires Sound(s)
    ensures Remnant(s.vectors, s.vectors)
  {
  }

  lemma ResetClaimsNothing(sqlite: Sqlite)
    ensures Claims(Reset(sqlite)) == {}
  {
    forall id | id in Rows(Reset(sqlite)) ensures !ClaimsVectors(Rows(Reset(sqlite))[id]) {
      assert Rows(Reset(sqlite))[id] == ResetRow(Rows(sqlite)[id]);
    }
  }

  /** A reset turns exactly the rows that claim vectors into queued rows without chunks, and touches no
      other. */
  lemma ResetExactly(rows: map<nat, Row>, id: nat)
    ensures Reset(Application(rows)).Application? && Reset(Application(rows)).rows.Keys == rows.Keys
    ensures id in rows ==>
              Reset(Application(rows)).rows[id] ==
              if rows[id].status == Indexed || rows[id].status == Partial then Row(Pending, 0, true) else rows[id]
  {
  }

  // ---- What the order of the writes buys ----

  /** After every prefix of a run, a row that still claims vectors still has all of them. */
  lemma NeverStrandsClaims(start: State, s: State)
    requires Backed(start) && OnTheWay(start, s)
    ensures Backed(s)
  {
    if s != start {
      ResetClaimsNothing(start.sqlite);
    }
  }

  /** The other order would not do: wiping first strands every row with a chunk to its name. */
  lemma WipeFirstStrands(start: State, id: nat)
    requires Backed(start) && id in Claims(start.sqlite) && Rows(start.sqlite)[id].chunks > 0
    ensures !Backed(start.(vectors := Wiped(start.vectors)))
  {
    assert ChunksOf(Wiped(start.vectors), id) == 0;
  }

  /** Without --force a run writes only in repair of an empty index, or over two known, different
      dimensions. */
  lemma DestructionJustified(s: State, env: Env, dry: bool)
    requires Decide(s, env, dry, false).Go?
    ensures Decide(s, env, dry, false).repair ==> IsEmpty(s.vectors) && Claims(s.sqlite) != {}
    ensures !Decide(s, env, dry, false).repair ==>
              && Known(StoredDim(s.vectors)) && Known(env.configured)
              && StoredDim(s.vectors) != env.configured
    ensures s.sqlite.Application?
  {
  }

  predicate Settled(s: State) {
    Claims(s.sqlite) == {} && !NonEmpty(s.vectors)
  }

  /** Where a run that is not interrupted ends. */
  function After(s: State, env: Env, force: bool): State {
    if Decide(s, env, false, force).Go? then Migrated(s) else s
  }

  /** Exit 3 asks for --force. */
  function Flag(s: State, env: Env, force: bool): bool {
    force || Decide(s, env, false, force) == Refuse(3)
  }

  /** The documented way on from an interruption: run again, adding --force on exit 3. */
  function Rerun(s: State, env: Env, force: bool): State {
    After(s, env, Flag(s, env, force))
  }

  lemma MigratedSettles(s: State)
    ensures Settled(Migrated(s))
  {
    ResetClaimsNothing(s.sqlite);
  }

  lemma ResetKeepsApplication(s: State)
    ensures Reset(s.sqlite).Application? <==> s.sqlite.Application?
  {
  }

  /** Once the rows are reset and the database is usable, forcing always goes through. */
  lemma ForceGoes(s: State, env: Env)
    requires s.sqlite.Application? && Claims(s.sqlite) == {} && !env.writer
    ensures Decide(s, env, false, true).Go?
  {
  }

  /** A settled state stays settled: a further plain run changes nothing. */
  lemma SettledStays(s: State, env: Env)
    requires Settled(s) && s.sqlite.Application? && Sound(s)
    ensures Decide(s, env, false, false) == Nothing && After(s, env, false) == s
  {
  }

  /** From every crash state of a destructive run, running again settles the stores. */
  lemma Converges(start: State, s: State, env: Env, force: bool)
    requires Sound(start) && Decide(start, env, false, force).Go? && OnTheWay(start, s)
    ensures Settled(Rerun(s, env, force))
    ensures Decide(Rerun(s, env, force), env, false, false) == Nothing
    ensures After(Rerun(s, env, force), env, false) == Rerun(s, env, force)
  {
    assert start.sqlite.Application? && !env.writer;
    ResetKeepsApplication(start);
    ResetClaimsNothing(start.sqlite);
    MigratedSettles(s);
    ResetKeepsApplication(s);
    if s != start {
      ForceGoes(s, env);
      if !force && !Decide(s, env, false, force).Go? && Decide(s, env, false, force) != Refuse(3) {
        NotForcedRemnant(start, s, env);
      }
    }
    SettledStays(Rerun(s, env, force), env);
  }

  /** What a plain re-run decides over a remnant when it neither goes nor stops at exit 3. */
  lemma NotForcedRemnant(start: State, s: State, env: Env)
    requires Sound(start) && Decide(start, env, false, false).Go? && OnTheWay(start, s) && s != start
    requires !Decide(s, env, false, false).Go? && Decide(s, env, false, false) != Refuse(3)
    ensures Settled(s)
  {
    ResetClaimsNothing(start.sqlite);
    ResetKeepsApplication(start);
    DestructionJustified(start, env, false);
  }

  /** Tries that each may be cut short anywhere, one after the other. */
  ghost predicate Tries(run: seq<State>, env: Env, force: bool) {
    && run != []
    && forall i | 0 <= i < |run| - 1 :: Try(run[i], run[i + 1], env, force)
  }

  predicate Try(a: State, b: State, env: Env, force: bool) {
    b == a || (Decide(a, env, false, Flag(a, env, force)).Go? && OnTheWay(a, b))
  }

  /** However often the migration is cut short, no row ever claims vectors it does not have. */
  lemma {:induction false} TriesNeverStrand(run: seq<State>, env: Env, force: bool, i: nat)
    requires Tries(run, env, force) && Backed(run[0]) && i < |run|
    ensures Backed(run[i])
  {
    if i > 0 {
      TriesNeverStrand(run, env, force, i - 1);
      assert Try(run[i - 1], run[i], env, force);
      if run[i] != run[i - 1] {
        NeverStrandsClaims(run[i - 1], run[i]);
      }
    }
  }

  /** However often the migration is cut short, the first try that is not settles the stores, and a
      further plain run changes nothing. */
  lemma {:induction false} TriesConverge(run: seq<State>, env: Env, force: bool, i: nat)
    requires Tries(run, env, force) && Sound(run[0]) && Decide(run[0], env, false, force).Go? && i < |run|
    ensures Sound(run[i]) && run[i].sqlite.Application?
    ensures Settled(Rerun(run[i], env, force))
    ensures After(Rerun(run[i], env, force), env, false) == Rerun(run[i], env, force)
  {
    if i == 0 {
      DestructionNeedsApplication(run[0], env, force);
      MigratedSettles(run[0]);
    } else {
      TriesConverge(run, env, force, i - 1);
      var a, b := run[i - 1], run[i];
      assert Try(a, b, env, force);
      if b != a {
        ResetKeepsApplication(a);
        if Flag(a, env, force) == force {
          Converges(a, b, env, force);
        } else {
          ForcedTrySettles(a, b, env);
        }
      }
    }
    ResetKeepsApplication(run[i]);
    SettledStays(Rerun(run[i], env, force), env);
  }

  lemma DestructionNeedsApplication(s: State, env: Env, force: bool)
    requires Decide(s, env, false, force).Go?
    ensures s.sqlite.Application?
  {
  }

  /** A forced try that was cut short leaves nothing a plain run would keep for good. */
  lemma ForcedTrySettles(a: State, b: State, env: Env)
    requires Decide(a, env, false, false) == Refuse(3) && Decide(a, env, false, true).Go?
    requires OnTheWay(a, b) && b != a
    ensures Settled(Rerun(b, env, false))
  {
    ResetClaimsNothing(a.sqlite);
    ResetKeepsApplication(a);
    DestructionNeedsApplication(a, env, true);
    if NonEmpty(b.vectors) {
      ForceGoes(b, env);
      MigratedSettles(b);
    }
  }

  // ---- The identity probe ----

  /** `_index_shares_claimed_ids`: probe the claimed ids batch by batch, stopping at the first hit. */
  method ProbeSharedIds(vectors: Vectors, batches: seq<seq<nat>>) returns (shares: Option<bool>)
    ensures shares == Shares(vectors, set b, k | 0 <= b < |batches| && 0 <= k < |batches[b]| :: batches[b][k])
    ensures shares == None <==> vectors.Absent? || vectors.chunks == map[]
    ensures shares == Some(true) <==>
              vectors.Present? && exists b, k | 0 <= b < |batches| && 0 <= k < |batches[b]| :: batches[b][k] in vectors.chunks
  {
    if vectors.Absent? || vectors.chunks == map[] {
      return None;
    }
    ghost var claims := set b, k | 0 <= b < |batches| && 0 <= k < |batches[b]| :: batches[b][k];
    for i := 0 to |batches|
      invariant forall b, k | 0 <= b < i && 0 <= k < |batches[b]| :: batches[b][k] !in vectors.chunks
    {
      if exists k | 0 <= k < |batches[i]| :: batches[i][k] in vectors.chunks {
        var k :| 0 <= k < |batches[i]| && batches[i][k] in vectors.chunks;
        assert batches[i][k] in claims;
        return Some(true);
      }
    }
    return Some(false);
  }
}
