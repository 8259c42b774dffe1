/** The four-statement response-integrity migration over a database that may fail or
    lose the connection at any call: which runs from which states do what, and that
    any number of interrupted runs can be finished. */
module ResponseIntegrity {
  import opened Prelude
  import Logic = CheckMeaning

  /** What the stage probe counts. */
  datatype Schema = Schema(
    responseColumns: nat, immutableCheck: nat, lifecycleCheck: nat, outboxColumn: nat, outcomeCheck: nat)

  /** An outbox row with the error code of its operation. While the column does not
      exist its failure code is None. */
  datatype Row = Row(state: int, failureCode: Option<int>, hasResult: bool, errorCode: Option<int>)

  datatype Statement = AlterResponses | AddFailureCode | Backfill | AddOutcomeCheck

  /** The database: its schema, the outbox rows, and every statement that committed. */
  datatype Database = Database(schema: Schema, rows: seq<Row>, history: seq<Statement>)

  /** What happens to the n-th call: it works, it is lost before any effect, or its
      effect commits and the answer is lost. */
  datatype Fault = Fine | Lost | Late

  type Faults = nat -> Fault

  // ----- the statements -----

  /** The new column is NULL in every row. */
  function UnsetRows(rows: seq<Row>): (unset: seq<Row>)
    ensures |unset| == |rows|
  {
    seq(|rows|, i requires 0 <= i < |rows| => rows[i].(failureCode := None))
  }

  predicate AllUnset(rows: seq<Row>) {
    forall r | r in rows :: r.failureCode.None?
  }

  /** The UPDATE: error codes for the failed rows that have none yet. */
  function FillRow(r: Row): Row {
    if r.state == 3 && r.failureCode.None? then r.(failureCode := r.errorCode) else r
  }

  function FillRows(rows: seq<Row>): (filled: seq<Row>)
    ensures |filled| == |rows| && forall i | 0 <= i < |rows| :: filled[i] == FillRow(rows[i])
  {
    seq(|rows|, i requires 0 <= i < |rows| => FillRow(rows[i]))
  }

  function TruthOf(b: bool): Logic.Truth {
    if b then Logic.True else Logic.False
  }

  /** chk_admin_action_outbox_outcome: `IN` over a NULL failure code is UNKNOWN. */
  function OutcomeTruth(r: Row): Logic.Truth {
    var inCodes := if r.failureCode.None? then Logic.Unknown else TruthOf(1 <= r.failureCode.value <= 5);
    var succeeded := Logic.Both(Logic.Both(TruthOf(r.state == 2), TruthOf(r.failureCode.None?)), TruthOf(r.hasResult));
    var failed := Logic.Both(Logic.Both(TruthOf(r.state == 3), inCodes), TruthOf(!r.hasResult));
    Logic.Either(succeeded, failed)
  }

  /** MySQL rejects a row only when the check is FALSE: UNKNOWN passes. */
  predicate OutcomeOk(r: Row) {
    !OutcomeTruth(r).False?
  }

  /** Which rows pass: the intended ones, and failed rows whose code is still NULL. */
  lemma OutcomeOkIff(r: Row)
    ensures OutcomeOk(r) <==>
            || (r.state == 2 && r.failureCode.None? && r.hasResult)
            || (r.state == 3 && !r.hasResult && (r.failureCode.None? || 1 <= r.failureCode.value <= 5))
    ensures OutcomeTruth(r).Unknown? <==> r.state == 3 && !r.hasResult && r.failureCode.None?
  {
  }

  predicate OutcomesOk(rows: seq<Row>) {
    forall r | r in rows :: OutcomeOk(r)
  }

  /** The schema and rows after a statement, or None when MySQL rejects it. */
  function Apply(db: Database, s: Statement): Option<Database> {
    match s
    case AlterResponses =>
      if db.schema.immutableCheck == 1 && db.schema.responseColumns == 0 && db.schema.lifecycleCheck == 0
      then
        var schema := db.schema.(immutableCheck := 0, responseColumns := 3, lifecycleCheck := 1);
        Some(db.(schema := schema, history := db.history + [s]))
      else None
    case AddFailureCode =>
      if db.schema.outboxColumn == 0
      then Some(db.(schema := db.schema.(outboxColumn := 1), rows := UnsetRows(db.rows), history := db.history + [s]))
      else None
    case Backfill =>
      if db.schema.outboxColumn == 1 then Some(db.(rows := FillRows(db.rows), history := db.history + [s])) else None
    case AddOutcomeCheck =>
      if db.schema.outboxColumn == 1 && db.schema.outcomeCheck == 0 && OutcomesOk(db.rows)
      then Some(db.(schema := db.schema.(outcomeCheck := 1), history := db.history + [s]))
      else None
  }

  /** adminResponseIntegrityStage. */
  function Stage(s: Schema): int {
    if s == Schema(0, 1, 0, 0, 0) then 0
    else if s == Schema(3, 0, 1, 0, 0) then 1
    else if s == Schema(3, 0, 1, 1, 0) then 2
    else if s == Schema(3, 0, 1, 1, 1) then 3
    else -1
  }

  /** After a call: the database, the calls made so far, and whether it worked. */
  datatype Outcome = Outcome(db: Database, calls: nat, ok: bool)

  function Exec(db: Database, s: Statement, faults: Faults, calls: nat): Outcome {
    var applied := Apply(db, s);
    match faults(calls)
    case Lost => Outcome(db, calls + 1, false)
    case Late => Outcome(if applied.Some? then applied.value else db, calls + 1, false)
    case Fine => if applied.None? then Outcome(db, calls + 1, false) else Outcome(applied.value, calls + 1, true)
  }

  /** The stage as the migration sees it: a failed probe is no stage. */
  function Probe(db: Database, faults: Faults, calls: nat): int {
    if faults(calls) == Fine then Stage(db.schema) else -1
  }

  /** One DDL statement and the probe that must find the next stage. */
  function Advance(db: Database, s: Statement, next: int, faults: Faults, calls: nat): Outcome {
    var done := Exec(db, s, faults, calls);
    if !done.ok then done
    else Outcome(done.db, done.calls + 1, Probe(done.db, faults, done.calls) == next)
  }

  /** From the backfill on; `stage` is what the last probe said. */
  function Finish(db: Database, stage: int, faults: Faults, calls: nat): Outcome {
    var filled := Exec(db, Backfill, faults, calls);
    if !filled.ok then filled
    else if stage == 2 then Advance(filled.db, AddOutcomeCheck, 3, faults, filled.calls)
    else Outcome(filled.db, filled.calls, stage == 3)
  }

  function FromOutbox(db: Database, stage: int, faults: Faults, calls: nat): Outcome {
    if stage == 1 then
      var added := Advance(db, AddFailureCode, 2, faults, calls);
      if !added.ok then added else Finish(added.db, 2, faults, added.calls)
    else Finish(db, stage, faults, calls)
  }

  /** applyAdminResponseIntegrityMigration. */
  function Migrate(db: Database, faults: Faults): Outcome {
    var stage := Probe(db, faults, 0);
    if stage < 0 then Outcome(db, 1, false)
    else if stage == 0 then
      var altered := Advance(db, AlterResponses, 1, faults, 1);
      if !altered.ok then altered else FromOutbox(altered.db, 1, faults, altered.calls)
    else FromOutbox(db, stage, faults, 1)
  }

  // ----- the states interrupted runs can leave -----

  function Repeat(n: nat): seq<Statement> {
    if n == 0 then [] else Repeat(n - 1) + [Backfill]
  }

  /** The committed statements at a stage: each DDL once, in order; `before` backfills
      between the column and the check, `after` ones since. */
  function Committed(stage: nat, before: nat, after: nat): seq<Statement> {
    if stage == 0 then []
    else if stage == 1 then [AlterResponses]
    else if stage == 2 then [AlterResponses, AddFailureCode] + Repeat(before)
    else [AlterResponses, AddFailureCode] + Repeat(before) + [AddOutcomeCheck] + Repeat(after)
  }

  /** A recognised stage with a matching history: nothing filled before the column,
      everything filled once a backfill ran, and the check only after one. */
  predicate Prefix(db: Database, original: seq<Row>, before: nat, after: nat) {
    var stage := Stage(db.schema);
    && 0 <= stage <= 3 && db.history == Committed(stage, before, after)
    && (stage < 2 ==> before == 0) && (stage < 3 ==> after == 0) && (stage == 3 ==> before > 0)
    && db.rows == (if before == 0 then original else FillRows(original))
    && (stage == 3 ==> OutcomesOk(db.rows)) && AllUnset(original)
  }

  ghost predicate Resumable(db: Database, original: seq<Row>) {
    exists before, after: nat :: Prefix(db, original, before, after)
  }

  /** The backfill is idempotent. */
  lemma FillingTwice(rows: seq<Row>)
    ensures FillRows(FillRows(rows)) == FillRows(rows)
  {
  }

  lemma BackfillKeeps(db: Database, original: seq<Row>, before: nat, after: nat)
    requires Prefix(db, original, before, after) && Stage(db.schema) >= 2
    ensures Apply(db, Backfill).Some?
    ensures var next := Apply(db, Backfill).value;
            Stage(next.schema) == Stage(db.schema) && next.rows == FillRows(original) &&
            if Stage(db.schema) == 2 then Prefix(next, original, before + 1, after)
              else Prefix(next, original, before, after + 1)
  {
  }

  lemma DdlKeeps(db: Database, original: seq<Row>, s: Statement, before: nat, after: nat)
    requires Prefix(db, original, before, after) && Apply(db, s).Some?
    requires s == AlterResponses || s == AddFailureCode || (s == AddOutcomeCheck && before > 0)
    requires s == AlterResponses ==> Stage(db.schema) == 0
    requires s == AddFailureCode ==> Stage(db.schema) == 1
    requires s == AddOutcomeCheck ==> Stage(db.schema) == 2
    ensures Prefix(Apply(db, s).value, original, before, after)
    ensures Stage(Apply(db, s).value.schema) == Stage(db.schema) + 1
  {
  }

  lemma ExecKeeps(db: Database, original: seq<Row>, s: Statement, faults: Faults, calls: nat, before: nat, after: nat)
    requires Prefix(db, original, before, after)
    requires match s
             case AlterResponses => Stage(db.schema) == 0
             case AddFailureCode => Stage(db.schema) == 1
             case Backfill => Stage(db.schema) >= 2
             case AddOutcomeCheck => Stage(db.schema) == 2 && before > 0
    ensures Resumable(Exec(db, s, faults, calls).db, original)
  {
    hide Apply;
    if s == Backfill {
      BackfillKeeps(db, original, before, after);
    } else if Apply(db, s).Some? {
      DdlKeeps(db, original, s, before, after);
    }
  }

  lemma FinishKeeps(db: Database, original: seq<Row>, stage: int, faults: Faults, calls: nat, before: nat, after: nat)
    requires Prefix(db, original, before, after) && stage == Stage(db.schema) >= 2
    ensures Resumable(Finish(db, stage, faults, calls).db, original)
  {
    hide Apply, Stage, Prefix;
    ExecKeeps(db, original, Backfill, faults, calls, before, after);
    var filled := Exec(db, Backfill, faults, calls);
    if filled.ok {
      BackfillKeeps(db, original, before, after);
      if stage == 2 { ExecKeeps(filled.db, original, AddOutcomeCheck, faults, filled.calls, before + 1, after); }
    }
  }

  lemma FromOutboxKeeps(db: Database, original: seq<Row>, stage: int, faults: Faults, calls: nat, before: nat,
      after: nat)
    requires Prefix(db, original, before, after) && stage == Stage(db.schema) >= 1
    ensures Resumable(FromOutbox(db, stage, faults, calls).db, original)
  {
    hide Apply, Finish;
    if stage == 1 {
      ExecKeeps(db, original, AddFailureCode, faults, calls, before, after);
      var added := Advance(db, AddFailureCode, 2, faults, calls);
      if added.ok {
        DdlKeeps(db, original, AddFailureCode, before, after);
        FinishKeeps(added.db, original, 2, faults, added.calls, before, after);
      }
    } else {
      FinishKeeps(db, original, stage, faults, calls, before, after);
    }
  }

  /** A run cut anywhere leaves a resumable state: every DDL statement committed at
      most once and in order, every backfill after its column, and the check only
      after a backfill. */
  lemma RunKeepsPrefix(db: Database, original: seq<Row>, faults: Faults)
    requires Resumable(db, original)
    ensures Resumable(Migrate(db, faults).db, original)
  {
    hide Apply, FromOutbox;
    var before: nat, after: nat :| Prefix(db, original, before, after);
    if Probe(db, faults, 0) == 0 {
      ExecKeeps(db, original, AlterResponses, faults, 1, before, after);
      var altered := Advance(db, AlterResponses, 1, faults, 1);
      if altered.ok {
        DdlKeeps(db, original, AlterResponses, before, after);
        FromOutboxKeeps(altered.db, original, 1, faults, altered.calls, before, after);
      }
    } else if Probe(db, faults, 0) > 0 {
      FromOutboxKeeps(db, original, Stage(db.schema), faults, 1, before, after);
    }
  }

  /** Any number of runs, each with its own faults. */
  function Runs(db: Database, runs: seq<Faults>): Database {
    if runs == [] then db else Migrate(Runs(db, runs[..|runs| - 1]), runs[|runs| - 1]).db
  }

  predicate Fresh(db: Database) {
    Stage(db.schema) == 0 && db.history == [] && AllUnset(db.rows)
  }

  lemma {:induction false} RunsKeepPrefix(db: Database, runs: seq<Faults>)
    requires Fresh(db)
    ensures Resumable(Runs(db, runs), db.rows)
    decreases |runs|
  {
    hide Migrate;
    if runs == [] {
      assert Prefix(db, db.rows, 0, 0);
    } else {
      RunsKeepPrefix(db, runs[..|runs| - 1]);
      RunKeepsPrefix(Runs(db, runs[..|runs| - 1]), db.rows, runs[|runs| - 1]);
    }
  }

  // ----- one run without faults finishes -----

  ghost predicate NoFaults(faults: Faults) {
    forall n: nat :: faults(n) == Fine
  }

  /** What the rows must be before the migration: succeeded with a result, or failed
      without one, under an operation whose error code is a public one or NULL. */
  predicate Fillable(rows: seq<Row>) {
    forall r | r in rows ::
      || (r.state == 2 && r.hasResult)
      || (r.state == 3 && !r.hasResult && (r.errorCode.None? || 1 <= r.errorCode.value <= 5))
  }

  lemma FillableIff(rows: seq<Row>)
    requires AllUnset(rows)
    ensures OutcomesOk(FillRows(rows)) <==> Fillable(rows)
  {
    if OutcomesOk(FillRows(rows)) {
      forall r | r in rows
        ensures (r.state == 2 && r.hasResult) ||
                (r.state == 3 && !r.hasResult && (r.errorCode.None? || 1 <= r.errorCode.value <= 5))
      {
        var i :| 0 <= i < |rows| && r == rows[i];
        assert FillRows(rows)[i] in FillRows(rows);
        OutcomeOkIff(FillRow(r));
      }
    }
    if Fillable(rows) {
      forall f | f in FillRows(rows) ensures OutcomeOk(f) {
        var i :| 0 <= i < |rows| && f == FillRows(rows)[i];
        assert rows[i] in rows;
        OutcomeOkIff(f);
      }
    }
  }

  lemma FromOutboxReaches(db: Database, original: seq<Row>, faults: Faults, calls: nat, before: nat, after: nat)
    requires NoFaults(faults) && Prefix(db, original, before, after) && Stage(db.schema) >= 1
    ensures var r := FromOutbox(db, Stage(db.schema), faults, calls);
            && r.db.rows == FillRows(original) && (r.ok <==> Fillable(original))
            && (r.ok ==> Stage(r.db.schema) == 3) && (!r.ok ==> Stage(r.db.schema) == 2)
  {
    hide Fillable, OutcomesOk;
    FillableIff(original);
  }

  lemma RunReaches(db: Database, original: seq<Row>, faults: Faults)
    requires NoFaults(faults) && Resumable(db, original)
    ensures var r := Migrate(db, faults);
            && r.db.rows == FillRows(original) && (r.ok <==> Fillable(original))
            && (r.ok ==> Stage(r.db.schema) == 3) && (!r.ok ==> Stage(r.db.schema) == 2)
  {
    hide FillRows, FromOutbox;
    var before: nat, after: nat :| Prefix(db, original, before, after);
    if Stage(db.schema) == 0 {
      DdlKeeps(db, original, AlterResponses, before, after);
      FromOutboxReaches(Apply(db, AlterResponses).value, original, faults, 3, before, after);
    } else {
      FromOutboxReaches(db, original, faults, 1, before, after);
    }
  }

  function Count(h: seq<Statement>, s: Statement): nat {
    if h == [] then 0 else Count(h[..|h| - 1], s) + (if h[|h| - 1] == s then 1 else 0)
  }

  lemma {:induction false} CountConcat(a: seq<Statement>, b: seq<Statement>, s: Statement)
    ensures Count(a + b, s) == Count(a, s) + Count(b, s)
    decreases |b|
  {
    if b == [] {
      assert a + b == a;
    } else {
      assert (a + b)[..|a| + |b| - 1] == a + b[..|b| - 1];
      CountConcat(a, b[..|b| - 1], s);
    }
  }

  lemma {:induction false} CountRepeat(n: nat, s: Statement)
    ensures Count(Repeat(n), s) == if s == Backfill then n else 0
    decreases n
  {
    if n > 0 {
      CountRepeat(n - 1, s);
      assert Repeat(n)[..|Repeat(n)| - 1] == Repeat(n - 1);
    }
  }

  /** At the final stage every DDL statement has committed exactly once. */
  lemma EachDdlOnce(before: nat, after: nat, s: Statement)
    requires s != Backfill
    ensures Count(Committed(3, before, after), s) == 1
  {
    var ddl := [AlterResponses, AddFailureCode];
    CountRepeat(before, s);
    CountRepeat(after, s);
    CountConcat(ddl + Repeat(before) + [AddOutcomeCheck], Repeat(after), s);
    CountConcat(ddl + Repeat(before), [AddOutcomeCheck], s);
    CountConcat(ddl, Repeat(before), s);
    assert ddl[..1] == [AlterResponses] && ddl[..1][..0] == [] && [AddOutcomeCheck][..0] == [];
    assert Count(ddl[..1], s) == if s == AlterResponses then 1 else 0;
  }

  /** From a fresh database, after any number of interrupted runs, one run without
      faults succeeds exactly when the original rows are fillable; it then has
      reached the final stage, every DDL statement committed exactly once over the
      whole history, and the rows are the original ones filled once. */
  lemma ResumeAlwaysFinishes(db: Database, runs: seq<Faults>, faults: Faults)
    requires Fresh(db) && NoFaults(faults)
    ensures var r := Migrate(Runs(db, runs), faults);
            && (r.ok <==> Fillable(db.rows)) && r.db.rows == FillRows(db.rows)
            && (r.ok ==> Stage(r.db.schema) == 3 && forall s | s != Backfill :: Count(r.db.history, s) == 1)
  {
    hide Migrate, FillRows, Count, Stage, Committed;
    RunsKeepPrefix(db, runs);
    var d := Runs(db, runs);
    RunReaches(d, db.rows, faults);
    RunKeepsPrefix(d, db.rows, faults);
    var r := Migrate(d, faults);
    var before: nat, after: nat :| Prefix(r.db, db.rows, before, after);
    if r.ok {
      forall s | s != Backfill ensures Count(r.db.history, s) == 1 { EachDdlOnce(before, after, s); }
    }
  }

  /** The check does not force a code on a failed row: where the operation holds none,
      as after its expiry, the code stays NULL and the check is UNKNOWN. It is TRUE of
      every row exactly when the operation of every failed row holds a code. */
  lemma EveryFailureHasACodeIff(db: Database, runs: seq<Faults>, faults: Faults)
    requires Fresh(db) && NoFaults(faults)
    ensures var r := Migrate(Runs(db, runs), faults);
            r.ok ==> ((forall row | row in r.db.rows :: OutcomeTruth(row) == Logic.True) <==>
                      (forall row | row in db.rows && row.state == 3 :: row.errorCode.Some?))
  {
    hide Migrate, OutcomeTruth;
    ResumeAlwaysFinishes(db, runs, faults);
    if Fillable(db.rows) {
      forall i | 0 <= i < |db.rows|
        ensures OutcomeTruth(FillRow(db.rows[i])) == Logic.True <==>
                (db.rows[i].state == 3 ==> db.rows[i].errorCode.Some?)
      {
        FilledTruth(db.rows[i]);
      }
      assert forall i | 0 <= i < |db.rows| :: FillRows(db.rows)[i] in FillRows(db.rows) && db.rows[i] in db.rows;
    }
  }

  lemma FilledTruth(r: Row)
    requires r.failureCode.None? && Fillable([r])
    ensures OutcomeTruth(FillRow(r)) == Logic.True <==> (r.state == 3 ==> r.errorCode.Some?)
  {
    assert r in [r];
  }

  /** A failed row without a code that migrates. */
  lemma FailedRowWithoutCodePasses(db: Database, runs: seq<Faults>, faults: Faults)
    requires Fresh(db) && NoFaults(faults) && db.rows == [Row(3, None, false, None)]
    ensures var r := Migrate(Runs(db, runs), faults);
            && r.ok && r.db.rows == db.rows && OutcomeTruth(r.db.rows[0]) == Logic.Unknown
  {
    hide Migrate;
    ResumeAlwaysFinishes(db, runs, faults);
    assert FillRows(db.rows) == db.rows;
  }

  // ----- what a run that succeeds has done -----

  /** The calls made from one number up to another all worked. */
  ghost predicate AllFine(faults: Faults, from: nat, to: nat) {
    forall n | from <= n < to :: faults(n) == Fine
  }

  lemma ExecWorked(db: Database, s: Statement, faults: Faults, calls: nat)
    requires Exec(db, s, faults, calls).ok
    ensures var done := Exec(db, s, faults, calls);
            faults(calls) == Fine && done.calls == calls + 1 && done.db.history == db.history + [s]
  {
  }

  lemma AdvanceWorked(db: Database, s: Statement, next: int, faults: Faults, calls: nat)
    requires 0 <= next && Advance(db, s, next, faults, calls).ok
    ensures var done := Advance(db, s, next, faults, calls);
            && AllFine(faults, calls, calls + 2) && done.calls == calls + 2
            && done.db.history == db.history + [s] && Stage(done.db.schema) == next
  {
  }

  lemma FinishWorked(db: Database, stage: int, faults: Faults, calls: nat)
    requires 1 < stage && Finish(db, stage, faults, calls).ok
    ensures var done := Finish(db, stage, faults, calls);
            && (stage == 2 || stage == 3)
            && done.calls == calls + (if stage == 2 then 3 else 1) && AllFine(faults, calls, done.calls)
            && done.db.history == db.history + (if stage == 2 then [Backfill] + [AddOutcomeCheck] else [Backfill])
  {
    hide Apply, Stage;
    ExecWorked(db, Backfill, faults, calls);
    var filled := Exec(db, Backfill, faults, calls);
    if stage == 2 { AdvanceWorked(filled.db, AddOutcomeCheck, 3, faults, filled.calls); }
  }

  /** The statements of a run from a stage. */
  function Script(stage: int): seq<Statement> {
    if stage == 0 then [AlterResponses] + [AddFailureCode] + ([Backfill] + [AddOutcomeCheck])
    else if stage == 1 then [AddFailureCode] + ([Backfill] + [AddOutcomeCheck])
    else if stage == 2 then [Backfill] + [AddOutcomeCheck]
    else [Backfill]
  }

  /** A run that succeeds started at a recognised stage, executed the statements left from
      there, the backfill always among them, probed the stage at the start and after each
      DDL statement, and not one of these calls failed. */
  lemma SuccessMakesEveryCall(db: Database, faults: Faults)
    requires Migrate(db, faults).ok
    ensures var done := Migrate(db, faults);
            && 0 <= Stage(db.schema) <= 3
            && done.calls == 8 - 2 * Stage(db.schema) && AllFine(faults, 0, done.calls)
            && done.db.history == db.history + Script(Stage(db.schema))
  {
    hide Advance, Finish, Apply;
    var stage := Probe(db, faults, 0);
    var start := if stage == 0 then Advance(db, AlterResponses, 1, faults, 1) else Outcome(db, 1, true);
    if stage == 0 { AdvanceWorked(db, AlterResponses, 1, faults, 1); }
    var from := if stage == 0 then 1 else stage;
    var added := if from == 1 then Advance(start.db, AddFailureCode, 2, faults, start.calls) else start;
    if from == 1 { AdvanceWorked(start.db, AddFailureCode, 2, faults, start.calls); }
    FinishWorked(added.db, if from == 1 then 2 else from, faults, added.calls);
    var rest := [Backfill] + [AddOutcomeCheck];
    Assoc(db.history, [AlterResponses], [AddFailureCode]);
    Assoc(db.history, [AlterResponses] + [AddFailureCode], rest);
    Assoc(db.history, [AddFailureCode], rest);
  }

  /** A schema that is no stage is left alone, whatever the faults. */
  lemma UnrecognisedExecutesNothing(db: Database, faults: Faults)
    ensures Stage(db.schema) < 0 ==> Migrate(db, faults).db == db && !Migrate(db, faults).ok
    ensures faults(0) != Fine ==> Migrate(db, faults).db == db && !Migrate(db, faults).ok
  {
  }

  // ----- the migration as it is written -----

  /** The connection: executes statements and answers probes, with faults. */
  class Connection {
    var db: Database
    var calls: nat
    const faults: Faults

    constructor (db: Database, faults: Faults)
      ensures this.db == db && this.faults == faults && calls == 0
    {
      this.db := db;
      this.faults := faults;
      calls := 0;
    }

    method Execute(s: Statement) returns (ok: bool)
      modifies this
      ensures Outcome(db, calls, ok) == Exec(old(db), s, faults, old(calls))
    {
      var applied := Apply(db, s);
      var fault := faults(calls);
      calls := calls + 1;
      if fault != Lost && applied.Some? { db := applied.value; }
      ok := fault == Fine && applied.Some?;
    }

    method ProbeStage() returns (stage: int, ok: bool)
      modifies this
      ensures db == old(db) && calls == old(calls) + 1
      ensures (if ok then stage else -1) == Probe(db, faults, old(calls)) && (ok ==> 0 <= stage <= 3)
    {
      var fault := faults(calls);
      calls := calls + 1;
      if fault != Fine { return -1, false; }
      stage := Stage(db.schema);
      ok := stage >= 0;
    }
  }

  method ApplyMigration(c: Connection) returns (ok: bool)
    requires c.calls == 0
    modifies c
    ensures Outcome(c.db, c.calls, ok) == Migrate(old(c.db), c.faults)
  {
    hide Apply, Stage;
    var stage;
    stage, ok := c.ProbeStage();
    if !ok { return false; }
    if stage == 0 {
      ok := c.Execute(AlterResponses);
      if !ok { return false; }
      stage, ok := c.ProbeStage();
      if !ok || stage != 1 { return false; }
    }
    if stage == 1 {
      ok := c.Execute(AddFailureCode);
      if !ok { return false; }
      stage, ok := c.ProbeStage();
      if !ok || stage != 2 { return false; }
    }
    ok := c.Execute(Backfill);
    if !ok { return false; }
    if stage == 2 {
      ok := c.Execute(AddOutcomeCheck);
      if !ok { return false; }
      stage, ok := c.ProbeStage();
      if !ok || stage != 3 { return false; }
    }
    ok := stage == 3;
  }
}
