/** Interrupted runs of the pricing-catalog migration: what any number of them leaves
    behind, and that an undisturbed run finishes the work. */
module CatalogResume {
  import opened Prelude
  import opened CatalogSteps

  /** For each table the number of its new columns that are there, and whether they are
      as the migration defines them. */
  datatype Table = Table(columns: nat, sound: bool)

  /** A call works, is lost before any effect, or takes effect and its answer is lost. */
  datatype Fault = Fine | Lost | Late

  /** The fault of the call made after so many events. */
  type Faults = nat -> Fault

  /** The statement for table i has taken effect by the end of the trace. */
  predicate Committed(faults: Faults, trace: seq<Event>, i: nat) {
    exists k | 0 <= k < |trace| :: trace[k] == Executed(i) && faults(k) != Lost
  }

  /** The table as it is by the end of the trace; the statement makes all its columns. */
  function Now(widths: seq<nat>, tables: seq<Table>, faults: Faults, trace: seq<Event>, i: nat): Table
    requires i < |tables| == |widths|
  {
    if Committed(faults, trace, i) then Table(widths[i], true) else tables[i]
  }

  /** The callbacks over that database. */
  function Over(widths: seq<nat>, tables: seq<Table>, faults: Faults): Callbacks
    requires |tables| == |widths|
  {
    Callbacks(
      (i: nat, trace: seq<Event>) =>
        if i < |tables| && faults(|trace|) == Fine then Some(Now(widths, tables, faults, trace, i).columns) else None,
      (i: nat, trace: seq<Event>) => faults(|trace|) == Fine,
      (i: nat, trace: seq<Event>) =>
        i < |tables| && faults(|trace|) == Fine &&
        var table := Now(widths, tables, faults, trace, i);
        table.sound && table.columns == widths[i])
  }

  function TraceOf(widths: seq<nat>, tables: seq<Table>, faults: Faults): seq<Event>
    requires |tables| == |widths|
  {
    Steps(widths, |widths|, Over(widths, tables, faults)).trace
  }

  /** The database after a run. */
  function Left(widths: seq<nat>, tables: seq<Table>, faults: Faults): (left: seq<Table>)
    requires |tables| == |widths|
    ensures |left| == |tables|
  {
    seq(|tables|, i requires 0 <= i < |tables| =>
      Now(widths, tables, faults, TraceOf(widths, tables, faults), i))
  }

  /** The database after several runs, each with its own faults. */
  function LeftByAll(widths: seq<nat>, tables: seq<Table>, runs: seq<Faults>): (left: seq<Table>)
    requires |tables| == |widths|
    ensures |left| == |tables|
    decreases |runs|
  {
    if runs == [] then tables
    else Left(widths, LeftByAll(widths, tables, runs[..|runs| - 1]), runs[|runs| - 1])
  }

  /** A table the migration can take further: none of its columns, or all of them. */
  predicate Ready(table: Table, width: nat) {
    table.columns == 0 || (table.columns == width && table.sound)
  }

  predicate AllReady(widths: seq<nat>, tables: seq<Table>) {
    |tables| == |widths| && forall i | 0 <= i < |widths| :: Ready(tables[i], widths[i])
  }

  ghost predicate NoFaults(faults: Faults) {
    forall n: nat :: faults(n) == Fine
  }

  /** Runs, however they are cut, never leave a table worse: what was ready stays so, and
      what was complete stays complete. */
  lemma {:induction false} RunsKeepReady(widths: seq<nat>, tables: seq<Table>, runs: seq<Faults>)
    requires AllReady(widths, tables)
    ensures AllReady(widths, LeftByAll(widths, tables, runs))
    ensures forall i | 0 <= i < |widths| && tables[i] == Table(widths[i], true) ::
              LeftByAll(widths, tables, runs)[i] == Table(widths[i], true)
    decreases |runs|
  {
    if runs != [] {
      RunsKeepReady(widths, tables, runs[..|runs| - 1]);
      hide Committed, TraceOf;
    }
  }

  lemma NotYetCommitted(faults: Faults, trace: seq<Event>, n: nat)
    requires Below(trace, n)
    ensures !Committed(faults, trace, n) && !Committed(faults, trace + [Counted(n)], n)
    ensures faults(|trace| + 1) == Fine ==> Committed(faults, trace + [Counted(n), Executed(n)], n)
  {
    forall k | 0 <= k < |trace| ensures trace[k] != Executed(n) { assert trace[k] in trace; }
    assert (trace + [Counted(n), Executed(n)])[|trace| + 1] == Executed(n);
  }

  /** Without faults the first n tables go well exactly when each is ready. */
  lemma {:induction false} UndisturbedSteps(widths: seq<nat>, tables: seq<Table>, faults: Faults, n: nat)
    requires |tables| == |widths| && n <= |widths| && NoFaults(faults)
    ensures Steps(widths, n, Over(widths, tables, faults)).ok <==>
            forall i | 0 <= i < n :: Ready(tables[i], widths[i])
    decreases n
  {
    hide Step, Over, Ready, InOrder, ExecutedOnce, AllAnswered, AllVerified, Below, AtTable;
    if n > 0 {
      var env := Over(widths, tables, faults);
      UndisturbedSteps(widths, tables, faults, n - 1);
      StepsAreSafe(widths, n - 1, env);
      var before := Steps(widths, n - 1, env);
      if before.ok { UndisturbedStep(widths, tables, faults, before.trace, n - 1); }
    }
  }

  lemma UndisturbedStep(widths: seq<nat>, tables: seq<Table>, faults: Faults, trace: seq<Event>, n: nat)
    requires |tables| == |widths| && n < |widths| && NoFaults(faults) && Below(trace, n)
    ensures Step(n, widths[n], trace, Over(widths, tables, faults)).ok <==> Ready(tables[n], widths[n])
  {
    hide Committed, Below;
    NotYetCommitted(faults, trace, n);
    var env, counted := Over(widths, tables, faults), trace + [Counted(n)];
    assert env.count(n, trace) == Some(tables[n].columns);
    assert counted + [Executed(n)] == trace + [Counted(n), Executed(n)];
    assert env.exec(n, counted);
    var done := counted + [Executed(n)];
    assert faults(|trace| + 1) == Fine && Committed(faults, done, n) && faults(|done|) == Fine;
    assert env.verify(n, done);
    assert env.verify(n, counted) <==> tables[n].sound && tables[n].columns == widths[n];
  }

  /** A table that has verified is complete. */
  lemma VerifiedIsComplete(widths: seq<nat>, tables: seq<Table>, faults: Faults, i: nat)
    requires |tables| == |widths| && i < |widths| && NoFaults(faults)
    requires Passed(TraceOf(widths, tables, faults), |TraceOf(widths, tables, faults)|, i)
    ensures Left(widths, tables, faults)[i] == Table(widths[i], true)
  {
    var env, trace := Over(widths, tables, faults), TraceOf(widths, tables, faults);
    StepsAreSafe(widths, |widths|, env);
    var v :| 0 <= v < |trace| && trace[v] == Verified(i, true);
    assert Answered(widths, env, trace, v);
    assert env.verify(i, trace[..v]);
    if Committed(faults, trace[..v], i) {
      var k :| 0 <= k < v && trace[..v][k] == Executed(i) && faults(k) != Lost;
      assert trace[k] == Executed(i);
    }
  }

  /** After any number of runs from tables that are ready, cut at any event or with
      calls lost either way, one undisturbed run succeeds and completes every table. */
  lemma ResumeAlwaysFinishes(widths: seq<nat>, tables: seq<Table>, runs: seq<Faults>, faults: Faults)
    requires AllReady(widths, tables) && NoFaults(faults)
    ensures var left := LeftByAll(widths, tables, runs);
            && Steps(widths, |widths|, Over(widths, left, faults)).ok
            && forall i | 0 <= i < |widths| :: Left(widths, left, faults)[i] == Table(widths[i], true)
  {
    hide Over, Steps, Passed, Left, LeftByAll;
    RunsKeepReady(widths, tables, runs);
    var left := LeftByAll(widths, tables, runs);
    UndisturbedSteps(widths, left, faults, |widths|);
    StepsAreSafe(widths, |widths|, Over(widths, left, faults));
    forall i | 0 <= i < |widths| ensures Left(widths, left, faults)[i] == Table(widths[i], true) {
      assert Passed(TraceOf(widths, left, faults), |TraceOf(widths, left, faults)|, i);
      VerifiedIsComplete(widths, left, faults, i);
    }
  }

  /** And for tables in any state an undisturbed run succeeds exactly when each is ready:
      a table with some of its columns, or with wrong ones, stops it. */
  lemma UndisturbedRunSucceedsIff(widths: seq<nat>, tables: seq<Table>, faults: Faults)
    requires |tables| == |widths| && NoFaults(faults)
    ensures Steps(widths, |widths|, Over(widths, tables, faults)).ok <==> AllReady(widths, tables)
  {
    hide Over, Steps, Ready;
    UndisturbedSteps(widths, tables, faults, |widths|);
  }

  // ----- no statement takes effect twice -----

  /** How often the statement of table i takes effect in a run. */
  function Effects(faults: Faults, trace: seq<Event>, i: nat): nat {
    if trace == [] then 0 else
    var n := |trace| - 1;
    Effects(faults, trace[..n], i) + (if trace[n] == Executed(i) && faults(n) != Lost then 1 else 0)
  }

  function EffectsOfAll(widths: seq<nat>, tables: seq<Table>, runs: seq<Faults>, i: nat): nat
    requires |tables| == |widths|
    decreases |runs|
  {
    if runs == [] then 0 else
    var before := LeftByAll(widths, tables, runs[..|runs| - 1]);
    EffectsOfAll(widths, tables, runs[..|runs| - 1], i) +
    Effects(runs[|runs| - 1], TraceOf(widths, before, runs[|runs| - 1]), i)
  }

  lemma {:induction false} EffectsOnce(faults: Faults, trace: seq<Event>, i: nat)
    requires forall j, k | 0 <= j < k < |trace| && trace[j] == Executed(i) :: trace[k] != Executed(i)
    ensures Effects(faults, trace, i) == if Committed(faults, trace, i) then 1 else 0
    decreases |trace|
  {
    if trace != [] {
      var n := |trace| - 1;
      EffectsOnce(faults, trace[..n], i);
      if Committed(faults, trace[..n], i) {
        var k :| 0 <= k < n && trace[..n][k] == Executed(i) && faults(k) != Lost;
        assert trace[k] == Executed(i);
      }
      if Committed(faults, trace, i) && !(trace[n] == Executed(i) && faults(n) != Lost) {
        var k :| 0 <= k < |trace| && trace[k] == Executed(i) && faults(k) != Lost;
        assert trace[..n][k] == Executed(i);
      }
    }
  }

  lemma SameExecution(trace: seq<Event>, j: nat, k: nat, i: nat)
    requires ExecutedOnce(trace) && j < |trace| && k < |trace| && trace[j] == Executed(i) && trace[k] == Executed(i)
    ensures j == k
  {
  }

  lemma NotCommittedBefore(faults: Faults, trace: seq<Event>, k: nat, i: nat)
    requires ExecutedOnce(trace) && 0 < k < |trace| && trace[k] == Executed(i)
    ensures !Committed(faults, trace[..k - 1], i)
  {
    hide ExecutedOnce;
    if Committed(faults, trace[..k - 1], i) {
      var j: nat :| 0 <= j < k - 1 && trace[..k - 1][j] == Executed(i) && faults(j) != Lost;
      SameExecution(trace, j, k, i);
    }
  }

  lemma ExecutedOnZero(widths: seq<nat>, env: Callbacks, trace: seq<Event>, k: nat, i: nat)
    requires AllAnswered(widths, env, trace) && k < |trace| && trace[k] == Executed(i)
    ensures k > 0 && env.count(i, trace[..k - 1]) == Some(0)
  {
    assert Answered(widths, env, trace, k);
  }

  /** A statement takes effect in a run only on a table without any of its columns. */
  lemma OnlyOnEmpty(widths: seq<nat>, tables: seq<Table>, faults: Faults, i: nat)
    requires |tables| == |widths| && i < |widths|
    ensures var trace := TraceOf(widths, tables, faults);
            && Effects(faults, trace, i) <= 1
            && (Effects(faults, trace, i) == 1 <==> Committed(faults, trace, i))
            && (Committed(faults, trace, i) ==> tables[i].columns == 0)
  {
    hide Steps, AllAnswered, InOrder, Below, AllVerified, AtTable, ExecutedOnce, Effects;
    var env, trace := Over(widths, tables, faults), TraceOf(widths, tables, faults);
    StepsAreSafe(widths, |widths|, env);
    forall j: nat, k: nat | j < k < |trace| && trace[j] == Executed(i) ensures trace[k] != Executed(i) {
      if trace[k] == Executed(i) { SameExecution(trace, j, k, i); }
    }
    EffectsOnce(faults, trace, i);
    if Committed(faults, trace, i) {
      var k: nat :| 0 <= k < |trace| && trace[k] == Executed(i) && faults(k) != Lost;
      ExecutedOnZero(widths, env, trace, k, i);
      NotCommittedBefore(faults, trace, k, i);
      var before := trace[..k - 1];
      assert env.count(i, before) == if faults(|before|) == Fine then Some(tables[i].columns) else None;
    }
  }

  /** Over any number of runs each statement takes effect at most once, and then its
      table is complete. */
  lemma {:induction false} EachStatementOnce(widths: seq<nat>, tables: seq<Table>, runs: seq<Faults>, i: nat)
    requires |tables| == |widths| && i < |widths| && widths[i] > 0
    ensures EffectsOfAll(widths, tables, runs, i) <= 1
    ensures EffectsOfAll(widths, tables, runs, i) == 1 ==> LeftByAll(widths, tables, runs)[i] == Table(widths[i], true)
    decreases |runs|
  {
    if runs != [] {
      EachStatementOnce(widths, tables, runs[..|runs| - 1], i);
      OnlyOnEmpty(widths, LeftByAll(widths, tables, runs[..|runs| - 1]), runs[|runs| - 1], i);
      hide Committed, TraceOf, Effects;
    }
  }
}
