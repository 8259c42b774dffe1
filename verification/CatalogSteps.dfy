/** The step runner of the pricing-catalog migration: for each table count its new
    columns, execute its statement if there are none, and verify it before going on.
    What the callbacks answer may depend on everything done so far. */
module CatalogSteps {
  import opened Prelude

  datatype Event = Counted(table: nat) | Executed(table: nat) | Verified(table: nat, sound: bool)

  /** The callbacks: the number of columns found, whether a statement went through,
      whether a table verified. */
  datatype Callbacks = Callbacks(
    count: (nat, seq<Event>) -> Option<nat>,
    exec: (nat, seq<Event>) -> bool,
    verify: (nat, seq<Event>) -> bool)

  datatype Progress = Progress(trace: seq<Event>, ok: bool)

  function VerifyTable(i: nat, trace: seq<Event>, env: Callbacks): Progress {
    var sound := env.verify(i, trace);
    Progress(trace + [Verified(i, sound)], sound)
  }

  /** One step; `width` is how many columns the table gains. */
  function Step(i: nat, width: nat, trace: seq<Event>, env: Callbacks): Progress {
    var found := env.count(i, trace);
    var counted := trace + [Counted(i)];
    if found.None? then Progress(counted, false)
    else if found.value == 0 then
      if !env.exec(i, counted) then Progress(counted + [Executed(i)], false)
      else VerifyTable(i, counted + [Executed(i)], env)
    else if found.value == width then VerifyTable(i, counted, env)
    else Progress(counted, false)
  }

  /** The first n steps. */
  function Steps(widths: seq<nat>, n: nat, env: Callbacks): Progress
    requires n <= |widths|
  {
    if n == 0 then Progress([], true) else
    var before := Steps(widths, n - 1, env);
    if !before.ok then before else Step(n - 1, widths[n - 1], before.trace, env)
  }

  /** applyPublicPricingCatalogMetadataSteps. */
  method ApplySteps(widths: seq<nat>, env: Callbacks) returns (trace: seq<Event>, ok: bool)
    ensures Progress(trace, ok) == Steps(widths, |widths|, env)
  {
    trace := [];
    for i := 0 to |widths|
      invariant Steps(widths, i, env) == Progress(trace, true)
    {
      var n := env.count(i, trace);
      trace := trace + [Counted(i)];
      if n.None? {
        FailureStays(widths, i + 1, env);
        return trace, false;
      }
      if n.value == 0 {
        var executed := env.exec(i, trace);
        trace := trace + [Executed(i)];
        if !executed {
          FailureStays(widths, i + 1, env);
          return trace, false;
        }
      } else if n.value != widths[i] {
        FailureStays(widths, i + 1, env);
        return trace, false;
      }
      var sound := env.verify(i, trace);
      trace := trace + [Verified(i, sound)];
      if !sound {
        FailureStays(widths, i + 1, env);
        return trace, false;
      }
    }
    return trace, true;
  }

  lemma {:induction false} FailureStays(widths: seq<nat>, n: nat, env: Callbacks)
    requires n <= |widths| && !Steps(widths, n, env).ok
    ensures Steps(widths, |widths|, env) == Steps(widths, n, env)
    decreases |widths| - n
  {
    if n < |widths| { FailureStays(widths, n + 1, env); }
  }

  // ----- what a trace always looks like -----

  /** The first k events hold a successful verification of table i. */
  predicate Passed(trace: seq<Event>, k: nat, i: nat) {
    exists v | 0 <= v < k && v < |trace| :: trace[v] == Verified(i, true)
  }

  /** Before table j is touched at position k every earlier table has been verified. */
  predicate VerifiedBefore(trace: seq<Event>, k: nat) {
    k < |trace| ==> forall i: nat | i < trace[k].table :: Passed(trace, k, i)
  }

  predicate InOrder(trace: seq<Event>) {
    forall k | 0 <= k < |trace| :: VerifiedBefore(trace, k)
  }

  /** Every execution follows the count of its table at once, and is the only one. */
  predicate ExecutedOnce(trace: seq<Event>) {
    && (forall k | 0 <= k < |trace| && trace[k].Executed? :: k > 0 && trace[k - 1] == Counted(trace[k].table))
    && (forall j, k | 0 <= j < k < |trace| && trace[j].Executed? && trace[k].Executed? ::
         trace[j].table != trace[k].table)
  }

  predicate AllVerified(trace: seq<Event>, n: nat) {
    forall i: nat | i < n :: Passed(trace, |trace|, i)
  }

  predicate Below(trace: seq<Event>, n: nat) {
    forall e | e in trace :: e.table < n
  }

  /** The event after k, when there is one and it is about the same table. */
  predicate Then(trace: seq<Event>, k: nat, e: Event) {
    k + 1 < |trace| && trace[k + 1] == e
  }

  /** The event at k is what the callbacks asked for, given everything before it, and so
      is what follows it: a count of 0 leads to the statement, a count of all columns or
      a statement that went through to the verification, and a verification that passed
      to the next table's count. */
  predicate Answered(widths: seq<nat>, env: Callbacks, trace: seq<Event>, k: nat)
    requires k < |trace|
  {
    match trace[k]
    case Counted(i) =>
      && i < |widths|
      && match env.count(i, trace[..k]) {
           case None => !(k + 1 < |trace|)
           case Some(found) =>
             if found == 0 then Then(trace, k, Executed(i))
             else if found == widths[i] then Then(trace, k, Verified(i, env.verify(i, trace[..k + 1])))
             else !(k + 1 < |trace|)
         }
    case Executed(i) =>
      && k > 0 && trace[k - 1] == Counted(i) && env.count(i, trace[..k - 1]) == Some(0)
      && (if env.exec(i, trace[..k]) then Then(trace, k, Verified(i, env.verify(i, trace[..k + 1])))
          else !(k + 1 < |trace|))
    case Verified(i, sound) =>
      && k > 0 && i < |widths| && sound == env.verify(i, trace[..k])
      && (|| (trace[k - 1] == Executed(i) && env.exec(i, trace[..k - 1]))
          || (trace[k - 1] == Counted(i) && env.count(i, trace[..k - 1]) == Some(widths[i])))
      && (k + 1 < |trace| ==> sound && trace[k + 1] == Counted(i + 1))
  }

  predicate AllAnswered(widths: seq<nat>, env: Callbacks, trace: seq<Event>) {
    forall k | 0 <= k < |trace| :: Answered(widths, env, trace, k)
  }

  lemma StillPassed(trace: seq<Event>, more: seq<Event>, k: nat, m: nat, i: nat)
    requires k <= |trace| && k <= m && Passed(trace, k, i)
    ensures Passed(trace + more, m, i)
  {
    var v :| 0 <= v < k && v < |trace| && trace[v] == Verified(i, true);
    assert (trace + more)[v] == trace[v];
  }

  lemma StillBefore(trace: seq<Event>, more: seq<Event>, k: nat)
    requires k < |trace| && VerifiedBefore(trace, k)
    ensures VerifiedBefore(trace + more, k)
  {
    hide Passed;
    assert (trace + more)[k] == trace[k];
    forall i: nat | i < trace[k].table ensures Passed(trace + more, k, i) { StillPassed(trace, more, k, k, i); }
  }

  lemma NowBefore(trace: seq<Event>, more: seq<Event>, n: nat, k: nat)
    requires AllVerified(trace, n) && |trace| <= k < |trace + more| && (trace + more)[k].table == n
    ensures VerifiedBefore(trace + more, k)
  {
    hide Passed;
    forall i: nat | i < n ensures Passed(trace + more, k, i) { StillPassed(trace, more, |trace|, k, i); }
  }

  lemma Extend(trace: seq<Event>, more: seq<Event>, n: nat)
    requires InOrder(trace) && AllVerified(trace, n) && (forall e | e in more :: e.table == n)
    ensures InOrder(trace + more)
  {
    hide VerifiedBefore, AllVerified;
    var all := trace + more;
    forall k | 0 <= k < |all| ensures VerifiedBefore(all, k) {
      if k < |trace| {
        StillBefore(trace, more, k);
      } else {
        assert all[k] == more[k - |trace|] && more[k - |trace|] in more;
        NowBefore(trace, more, n, k);
      }
    }
  }

  /** What a step adds. */
  function Added(i: nat, width: nat, trace: seq<Event>, env: Callbacks): seq<Event> {
    Step(i, width, trace, env).trace[|trace|..]
  }

  lemma StepShape(i: nat, width: nat, trace: seq<Event>, env: Callbacks)
    ensures var s, more := Step(i, width, trace, env), Added(i, width, trace, env);
            && s.trace == trace + more && more != [] && more[0] == Counted(i) && |more| <= 3
            && (forall e | e in more :: e.table == i)
            && (forall k | 0 <= k < |more| && more[k].Executed? :: k == 1)
            && (s.ok ==> more[|more| - 1] == Verified(i, true))
            && (env.count(i, trace) == Some(0) <==> Executed(i) in more)
  {
    var s := Step(i, width, trace, env);
    var found := env.count(i, trace);
    var head := trace + [Counted(i)];
    var more := Added(i, width, trace, env);
    if found.None? || (found.value != 0 && found.value != width) {
      assert more == [Counted(i)];
    } else if found.value != 0 {
      assert more == [Counted(i), Verified(i, s.ok)];
    } else if !env.exec(i, head) {
      assert s.trace == trace + [Counted(i), Executed(i)];
      assert more == [Counted(i), Executed(i)];
    } else {
      assert s.trace == trace + [Counted(i), Executed(i), Verified(i, s.ok)];
      assert more == [Counted(i), Executed(i), Verified(i, s.ok)];
    }
  }

  /** The trace of the first n tables, all of which went well. */
  predicate AtTable(trace: seq<Event>, n: nat) {
    if n == 0 then trace == [] else trace != [] && trace[|trace| - 1] == Verified(n - 1, true)
  }

  lemma StillAnswered(widths: seq<nat>, env: Callbacks, trace: seq<Event>, more: seq<Event>, n: nat, k: nat)
    requires k < |trace| && Answered(widths, env, trace, k)
    requires AtTable(trace, n) && more != [] && more[0] == Counted(n)
    ensures Answered(widths, env, trace + more, k)
  {
    var all := trace + more;
    assert all[..k] == trace[..k] && all[k] == trace[k] && all[..k + 1] == trace[..k + 1];
    if k > 0 { assert all[..k - 1] == trace[..k - 1] && all[k - 1] == trace[k - 1]; }
    assert all[k + 1] == if k + 1 < |trace| then trace[k + 1] else more[0];
  }

  lemma NowAnswered(widths: seq<nat>, env: Callbacks, trace: seq<Event>, n: nat, k: nat)
    requires n < |widths| && |trace| <= k < |Step(n, widths[n], trace, env).trace|
    ensures Answered(widths, env, Step(n, widths[n], trace, env).trace, k)
  {
    var all, t := Step(n, widths[n], trace, env).trace, |trace|;
    assert all[..t] == trace && all[..t + 1] == trace + [Counted(n)];
    if t + 2 < |all| { assert all[..t + 2] == trace + [Counted(n), Executed(n)]; }
  }

  lemma StepAnswered(widths: seq<nat>, env: Callbacks, trace: seq<Event>, n: nat)
    requires n < |widths| && AllAnswered(widths, env, trace) && AtTable(trace, n)
    ensures AllAnswered(widths, env, Step(n, widths[n], trace, env).trace)
    ensures Step(n, widths[n], trace, env).ok ==> AtTable(Step(n, widths[n], trace, env).trace, n + 1)
  {
    hide Step, Answered;
    StepShape(n, widths[n], trace, env);
    var all, more := Step(n, widths[n], trace, env).trace, Added(n, widths[n], trace, env);
    forall k | 0 <= k < |all| ensures Answered(widths, env, all, k) {
      if k < |trace| { StillAnswered(widths, env, trace, more, n, k); } else { NowAnswered(widths, env, trace, n, k); }
    }
  }

  /** On every run, whatever the callbacks answer: no table is touched before all
      earlier ones have verified, a statement runs at most once, every step goes on or
      stops as the answers demand, and success means every table has verified. */
  lemma {:induction false} StepsAreSafe(widths: seq<nat>, n: nat, env: Callbacks)
    requires n <= |widths|
    ensures var p := Steps(widths, n, env);
            && InOrder(p.trace) && ExecutedOnce(p.trace) && AllAnswered(widths, env, p.trace)
            && Below(p.trace, n) && (p.ok ==> AllVerified(p.trace, n) && AtTable(p.trace, n))
    decreases n
  {
    hide Step, InOrder, ExecutedOnce, AllVerified, Below, AllAnswered;
    if n == 0 {
      NothingDone(widths, env);
    } else {
      StepsAreSafe(widths, n - 1, env);
      var before := Steps(widths, n - 1, env);
      if before.ok {
        StepAnswered(widths, env, before.trace, n - 1);
        StepShape(n - 1, widths[n - 1], before.trace, env);
        Extend(before.trace, Added(n - 1, widths[n - 1], before.trace, env), n - 1);
        ExtendOnce(before.trace, n - 1, widths[n - 1], env);
      } else {
        BelowMore(before.trace, n - 1);
      }
    }
  }

  lemma FailedStepShape(i: nat, width: nat, trace: seq<Event>, env: Callbacks)
    requires !Step(i, width, trace, env).ok
    ensures Verified(i, true) !in Added(i, width, trace, env)
  {
    var counted := trace + [Counted(i)];
    var s := Step(i, width, trace, env);
    assert s.trace == counted || s.trace == counted + [Verified(i, false)] || s.trace == counted + [Executed(i)] ||
           s.trace == counted + [Executed(i)] + [Verified(i, false)];
  }

  /** A run succeeds exactly when every table has verified. */
  lemma {:induction false} VerdictIff(widths: seq<nat>, n: nat, env: Callbacks)
    requires n <= |widths|
    ensures Steps(widths, n, env).ok <==> AllVerified(Steps(widths, n, env).trace, n)
    decreases n
  {
    StepsAreSafe(widths, n, env);
    var p := Steps(widths, n, env);
    if !p.ok && n > 0 {
      var before := Steps(widths, n - 1, env);
      VerdictIff(widths, n - 1, env);
      if before.ok {
        StepsAreSafe(widths, n - 1, env);
        StepShape(n - 1, widths[n - 1], before.trace, env);
        FailedStepShape(n - 1, widths[n - 1], before.trace, env);
        LastNotPassed(before.trace, Added(n - 1, widths[n - 1], before.trace, env), n - 1);
      } else {
        FewerVerified(p.trace, n);
      }
    }
  }

  lemma LastNotPassed(trace: seq<Event>, more: seq<Event>, i: nat)
    requires Below(trace, i) && Verified(i, true) !in more
    ensures !AllVerified(trace + more, i + 1)
  {
    var all := trace + more;
    forall v | 0 <= v < |all| ensures all[v] != Verified(i, true) {
      if v < |trace| { assert all[v] in trace; } else { assert all[v] in more; }
    }
    assert !Passed(all, |all|, i);
  }

  lemma FewerVerified(trace: seq<Event>, n: nat)
    requires n > 0
    ensures AllVerified(trace, n) ==> AllVerified(trace, n - 1)
  {
  }

  lemma NothingDone(widths: seq<nat>, env: Callbacks)
    ensures InOrder([]) && ExecutedOnce([]) && AllAnswered(widths, env, []) && Below([], 0) && AllVerified([], 0)
  {
  }

  lemma BelowMore(trace: seq<Event>, n: nat)
    requires Below(trace, n)
    ensures Below(trace, n + 1)
  {
  }

  /** Events of one table n, at most one of them an execution, in second place. */
  predicate OneTable(more: seq<Event>, n: nat) {
    && more != [] && more[0] == Counted(n) && (forall e | e in more :: e.table == n)
    && (forall k | 0 <= k < |more| && more[k].Executed? :: k == 1)
  }

  lemma FollowsCount(trace: seq<Event>, more: seq<Event>, n: nat, k: nat)
    requires ExecutedOnce(trace) && OneTable(more, n) && k < |trace + more| && (trace + more)[k].Executed?
    ensures k > 0 && (trace + more)[k - 1] == Counted((trace + more)[k].table)
  {
    var all, t := trace + more, |trace|;
    if k < t {
      assert all[k] == trace[k];
    } else {
      assert all[k] == more[k - t] && more[k - t] in more && all[t] == more[0];
    }
  }

  lemma OnlyOne(trace: seq<Event>, more: seq<Event>, n: nat, j: nat, k: nat)
    requires OneTable(more, n) && |trace| <= j < |trace + more| && |trace| <= k < |trace + more|
    requires (trace + more)[j].Executed? && (trace + more)[k].Executed?
    ensures j == k
  {
    var t := |trace|;
    assert (trace + more)[j] == more[j - t] && (trace + more)[k] == more[k - t];
  }

  lemma JoinOnce(trace: seq<Event>, more: seq<Event>, n: nat)
    requires ExecutedOnce(trace) && Below(trace, n) && OneTable(more, n)
    ensures ExecutedOnce(trace + more)
  {
    var all, t := trace + more, |trace|;
    forall k | 0 <= k < |all| && all[k].Executed? ensures k > 0 && all[k - 1] == Counted(all[k].table) {
      FollowsCount(trace, more, n, k);
    }
    forall j, k | 0 <= j < k < |all| && all[j].Executed? && all[k].Executed? ensures all[j].table != all[k].table {
      assert j < t ==> all[j] == trace[j] && trace[j] in trace;
      assert k < t ==> all[k] == trace[k];
      assert k >= t ==> all[k] == more[k - t] && more[k - t] in more;
      if j >= t { OnlyOne(trace, more, n, j, k); }
    }
  }

  lemma JoinBelow(trace: seq<Event>, more: seq<Event>, n: nat)
    requires Below(trace, n) && OneTable(more, n)
    ensures Below(trace + more, n + 1)
  {
    forall e | e in trace + more ensures e.table < n + 1 { assert e in trace || e in more; }
  }

  lemma JoinVerified(trace: seq<Event>, more: seq<Event>, n: nat)
    requires AllVerified(trace, n) && more != [] && more[|more| - 1] == Verified(n, true)
    ensures AllVerified(trace + more, n + 1)
  {
    var all := trace + more;
    assert all[|all| - 1] == Verified(n, true);
    assert Passed(all, |all|, n);
    forall i: nat | i < n ensures Passed(all, |all|, i) { StillPassed(trace, more, |trace|, |all|, i); }
  }

  lemma ExtendOnce(trace: seq<Event>, n: nat, width: nat, env: Callbacks)
    requires ExecutedOnce(trace) && Below(trace, n) && AllVerified(trace, n)
    ensures var s := Step(n, width, trace, env);
            ExecutedOnce(s.trace) && Below(s.trace, n + 1) && (s.ok ==> AllVerified(s.trace, n + 1))
  {
    hide Step, ExecutedOnce, Below, AllVerified, Added;
    StepShape(n, width, trace, env);
    var more := Added(n, width, trace, env);
    assert OneTable(more, n);
    JoinOnce(trace, more, n);
    JoinBelow(trace, more, n);
    if Step(n, width, trace, env).ok { JoinVerified(trace, more, n); }
  }
}
