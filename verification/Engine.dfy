/** The router engine of pkg/router/engine.go under one caller at a time: Start,
    its rollback, and Stop, with a failure possible at every external call. */
module Engine {
  import opened Bytes

  /** Go errors as far as errors.Is(err, context.Canceled) looks into them. */
  datatype Error =
    | Canceled
    | Failure(code: int)
    | InvalidConfig
    | AlreadyRunning
    | Wrapped(text: string, cause: Error)
    | RollbackFailed(cause: Error, rollback: Error)

  type Result = Option<Error>

  predicate IsCanceled(e: Error) {
    match e
    case Canceled => true
    case Wrapped(_, cause) => IsCanceled(cause)
    case RollbackFailed(cause, _) => IsCanceled(cause)
    case _ => false
  }

  /** Go's Unwrap takes `e` to `cause`: only the error behind %w counts. */
  predicate Unwraps(e: Error, cause: Error) {
    (e.Wrapped? || e.RollbackFailed?) && e.cause == cause
  }

  predicate CauseChain(e: Error, causes: seq<Error>) {
    && causes != [] && causes[0] == e
    && forall i {:trigger causes[i]} :: 0 < i < |causes| ==> Unwraps(causes[i - 1], causes[i])
  }

  /** Somewhere down the causes of `e` is a cancellation. */
  ghost predicate FromCanceled(e: Error) {
    exists causes :: CauseChain(e, causes) && causes[|causes| - 1] == Canceled
  }

  lemma {:induction false} CanceledHasChain(e: Error) returns (causes: seq<Error>)
    requires IsCanceled(e)
    ensures CauseChain(e, causes) && causes[|causes| - 1] == Canceled
  {
    causes := [e];
    if e != Canceled {
      var rest := CanceledHasChain(e.cause);
      causes := causes + rest;
      forall i {:trigger causes[i]} | 0 < i < |causes| ensures Unwraps(causes[i - 1], causes[i]) {
        if i > 1 { assert rest[i - 1] == causes[i] && rest[i - 2] == causes[i - 1]; }
      }
    }
  }

  lemma {:induction false} ChainIsCanceled(e: Error, causes: seq<Error>)
    requires CauseChain(e, causes) && causes[|causes| - 1] == Canceled
    ensures IsCanceled(e)
    decreases |causes|
  {
    if |causes| > 1 {
      var rest := causes[1..];
      assert Unwraps(causes[0], causes[1]);
      forall i {:trigger rest[i]} | 0 < i < |rest| ensures Unwraps(rest[i - 1], rest[i]) {
        assert rest[i] == causes[i + 1] && rest[i - 1] == causes[i];
      }
      ChainIsCanceled(e.cause, rest);
    }
  }

  /** The test for a cancellation looks down the causes, and nowhere else. */
  lemma IsCanceledExactly(e: Error)
    ensures IsCanceled(e) <==> FromCanceled(e)
  {
    if IsCanceled(e) {
      var causes := CanceledHasChain(e);
    }
    if FromCanceled(e) {
      var causes :| CauseChain(e, causes) && causes[|causes| - 1] == Canceled;
      ChainIsCanceled(e, causes);
    }
  }

  /** Keeps the first error. */
  function First(a: Result, b: Result): Result { if a.Some? then a else b }

  function Wrap(text: string, e: Result): Result {
    if e.Some? then Some(Wrapped(text, e.value)) else None
  }

  const INSTALL := "install nftables rules"
  const REMOVE := "remove nftables rules"
  const REMOVE_AFTER_FAILURE := "remove nftables rules after startup failure"

  /** Runs are numbered in the order they are launched; the number stands for
      the run's runner, cancel function and done channel. */
  type RunId = nat

  /** What the outside has seen. */
  datatype History = History(
    launched: nat,          // worker goroutines started
    setups: seq<string>,    // tables set up successfully
    teardowns: seq<string>, // tables for which a teardown was attempted
    cancels: seq<RunId>,
    stops: seq<RunId>)      // runner.Stop calls

  datatype Fields = Fields(
    runner: Option<RunId>, cancel: Option<RunId>, doneCh: Option<RunId>,
    rules: string, rulesInstalled: bool)

  datatype State = State(f: Fields, h: History)

  datatype Outcome = Outcome(s: State, err: Result)

  function Cleared(f: Fields): Fields {
    f.(runner := None, cancel := None, doneCh := None, rulesInstalled := false)
  }

  /** How the world answers one Start: `early` is a worker result that arrives
      within the grace period. */
  datatype StartAnswers = StartAnswers(
    configErr: Result, factoryErr: Result, setupErr: Result,
    early: Option<Result>, stopErr: Result, teardownErr: Result)

  datatype StopAnswers = StopAnswers(stopErr: Result, workerErr: Result, teardownErr: Result)

  // ----- the calls, piece by piece -----

  /** The rules are in and the worker goroutine is running. */
  function Launched(s: State, table: string): State {
    var run := s.h.launched;
    State(Fields(Some(run), Some(run), Some(run), table, true),
          s.h.(launched := run + 1, setups := s.h.setups + [table]))
  }

  function RunnerStopped(h: History, run: RunId): History { h.(stops := h.stops + [run]) }

  function TornDown(h: History, table: string): History { h.(teardowns := h.teardowns + [table]) }

  function RolledBack(s: State, run: RunId, table: string): State {
    State(Cleared(s.f), TornDown(RunnerStopped(s.h, run), table))
  }

  function RollbackError(stopErr: Result, teardownErr: Result): Result {
    First(stopErr, Wrap(REMOVE_AFTER_FAILURE, teardownErr))
  }

  function StartupError(early: Result, rollback: Result): Result {
    if rollback.None? then early
    else if early.Some? then Some(RollbackFailed(early.value, rollback.value))
    else rollback
  }

  function Start(s: State, table: string, a: StartAnswers): Outcome {
    if a.configErr.Some? then Outcome(s, a.configErr)
    else if s.f.runner.Some? then Outcome(s, Some(AlreadyRunning))
    else if a.factoryErr.Some? then Outcome(s, a.factoryErr)
    else if a.setupErr.Some? then Outcome(s, Wrap(INSTALL, a.setupErr))
    else
      var up := Launched(s, table);
      if a.early.None? then Outcome(up, None)
      else Outcome(RolledBack(up, s.h.launched, table),
                   StartupError(a.early.value, RollbackError(a.stopErr, a.teardownErr)))
  }

  function CancelCalled(f: Fields, h: History): History {
    if f.cancel.Some? then h.(cancels := h.cancels + [f.cancel.value]) else h
  }

  function StopCalled(f: Fields, h: History): History {
    if f.runner.Some? then RunnerStopped(h, f.runner.value) else h
  }

  function TeardownCalled(f: Fields, h: History): History {
    if f.rulesInstalled then TornDown(h, f.rules) else h
  }

  /** The worker's error unless it only says the context was cancelled. */
  function Reported(workerErr: Result): Result {
    if workerErr.Some? && IsCanceled(workerErr.value) then None else workerErr
  }

  function StopError(f: Fields, a: StopAnswers): Result {
    First(First(if f.runner.Some? then a.stopErr else None,
                if f.doneCh.Some? then Reported(a.workerErr) else None),
          if f.rulesInstalled then Wrap(REMOVE, a.teardownErr) else None)
  }

  function Stop(s: State, a: StopAnswers): Outcome {
    Outcome(State(Cleared(s.f), TeardownCalled(s.f, StopCalled(s.f, CancelCalled(s.f, s.h)))),
            StopError(s.f, a))
  }

  // ----- the code -----

  class RouterEngine {
    const table: string
    var runner: Option<RunId>
    var cancel: Option<RunId>
    var doneCh: Option<RunId>
    var rules: string
    var rulesInstalled: bool
    var history: History

    function View(): State
      reads this
    {
      State(Fields(runner, cancel, doneCh, rules, rulesInstalled), history)
    }

    constructor (table: string)
      ensures this.table == table
      ensures View() == State(Fields(None, None, None, "", false), History(0, [], [], [], []))
    {
      this.table := table;
      runner, cancel, doneCh, rules, rulesInstalled := None, None, None, "", false;
      history := History(0, [], [], [], []);
    }

    method RollbackStartup(run: RunId, rules: string, a: StartAnswers) returns (err: Result)
      modifies this
      ensures View() == RolledBack(old(View()), run, rules)
      ensures err == RollbackError(a.stopErr, a.teardownErr)
    {
      runner, cancel, doneCh, rulesInstalled := None, None, None, false;

      err := None;
      history := history.(stops := history.stops + [run]);
      if a.stopErr.Some? {
        err := a.stopErr;
      }
      history := history.(teardowns := history.teardowns + [rules]);
      if a.teardownErr.Some? && err.None? {
        err := Some(Wrapped(REMOVE_AFTER_FAILURE, a.teardownErr.value));
      }
    }

    method StartEngine(a: StartAnswers) returns (err: Result)
      modifies this
      ensures Outcome(View(), err) == Start(old(View()), table, a)
    {
      if a.configErr.Some? {
        return a.configErr;
      }
      var newRules := table;
      if runner.Some? {
        return Some(AlreadyRunning);
      }
      if a.factoryErr.Some? {
        return a.factoryErr;
      }
      if a.setupErr.Some? {
        return Some(Wrapped(INSTALL, a.setupErr.value));
      }
      history := history.(setups := history.setups + [newRules]);

      var run := history.launched;
      runner := Some(run);
      cancel := Some(run);
      doneCh := Some(run);
      rules := newRules;
      rulesInstalled := true;
      history := history.(launched := history.launched + 1);

      if a.early.Some? {
        var early := a.early.value;
        var rollbackErr := RollbackStartup(run, newRules, a);
        if rollbackErr.Some? {
          if early.Some? {
            return Some(RollbackFailed(early.value, rollbackErr.value));
          }
          return rollbackErr;
        }
        return early;
      }
      return None;
    }

    method StopEngine(a: StopAnswers) returns (err: Result)
      modifies this
      ensures Outcome(View(), err) == Stop(old(View()), a)
    {
      var oldRunner, oldCancel, oldDoneCh := runner, cancel, doneCh;
      var oldRules, oldInstalled := rules, rulesInstalled;
      runner := None;
      cancel := None;
      doneCh := None;
      rulesInstalled := false;

      err := None;
      if oldCancel.Some? {
        history := history.(cancels := history.cancels + [oldCancel.value]);
      }
      if oldRunner.Some? {
        history := history.(stops := history.stops + [oldRunner.value]);
        if a.stopErr.Some? {
          err := a.stopErr;
        }
      }
      if oldDoneCh.Some? {
        if a.workerErr.Some? && !IsCanceled(a.workerErr.value) && err.None? {
          err := a.workerErr;
        }
      }
      if oldInstalled {
        history := history.(teardowns := history.teardowns + [oldRules]);
        if a.teardownErr.Some? && err.None? {
          err := Some(Wrapped(REMOVE, a.teardownErr.value));
        }
      }
    }
  }

  // ----- whole runs of calls -----

  datatype Call = StartCall(start: StartAnswers) | StopCall(stop: StopAnswers)

  function Apply(s: State, table: string, c: Call): Outcome {
    match c
    case StartCall(a) => Start(s, table, a)
    case StopCall(a) => Stop(s, a)
  }

  function New(): State { State(Fields(None, None, None, "", false), History(0, [], [], [], [])) }

  function After(table: string, calls: seq<Call>): State {
    if calls == [] then New()
    else Apply(After(table, calls[..|calls| - 1]), table, calls[|calls| - 1]).s
  }

  /** The first `n` run numbers. */
  function UpTo(n: nat): (r: seq<RunId>)
    ensures |r| == n
  {
    seq(n, i => i)
  }

  predicate Increasing(runs: seq<RunId>, bound: nat) {
    && (forall i, j :: 0 <= i < j < |runs| ==> runs[i] < runs[j])
    && (forall run <- runs :: run < bound)
  }

  lemma IncreasingSnoc(runs: seq<RunId>, bound: nat)
    requires Increasing(runs, bound)
    ensures Increasing(runs, bound + 1) && Increasing(runs + [bound], bound + 1)
  {
    forall i, j | 0 <= i < j < |runs| + 1 ensures (runs + [bound])[i] < (runs + [bound])[j] {
      assert runs[i] in runs;
    }
  }

  /** The four fields stand or fall together; every setup but the installed
      one has its teardown, for the same table and in the same order; every
      run but the current one has had its runner stopped, once. */
  predicate Balanced(s: State) {
    && (if s.f.rulesInstalled then
          && s.h.launched > 0
          && s.f.runner == s.f.cancel == s.f.doneCh == Some(s.h.launched - 1)
          && s.h.setups == s.h.teardowns + [s.f.rules]
          && s.h.stops == UpTo(s.h.launched - 1)
        else
          && s.f.runner == s.f.cancel == s.f.doneCh == None
          && s.h.setups == s.h.teardowns
          && s.h.stops == UpTo(s.h.launched))
    && |s.h.setups| == s.h.launched
    && Increasing(s.h.cancels, |s.h.stops|)
  }

  lemma CallKeepsBalance(s: State, table: string, c: Call)
    requires Balanced(s)
    ensures Balanced(Apply(s, table, c).s)
  {
    assert forall n: nat :: UpTo(n + 1) == UpTo(n) + [n];
    IncreasingSnoc(s.h.cancels, |s.h.stops|);
  }

  lemma {:induction false} AlwaysBalanced(table: string, calls: seq<Call>)
    ensures Balanced(After(table, calls))
  {
    if calls != [] {
      AlwaysBalanced(table, calls[..|calls| - 1]);
      CallKeepsBalance(After(table, calls[..|calls| - 1]), table, calls[|calls| - 1]);
    }
  }

  /** Each launched runner is stopped at most once, and exactly once when its
      run is over. */
  lemma RunnersStoppedOnce(table: string, calls: seq<Call>, run: RunId)
    ensures var s := After(table, calls);
            multiset(s.h.stops)[run] ==
            if run < s.h.launched && s.f.runner != Some(run) then 1 else 0
  {
    AlwaysBalanced(table, calls);
    var s := After(table, calls);
    CountUpTo(|s.h.stops|, run);
  }

  lemma {:induction false} CountUpTo(n: nat, run: RunId)
    ensures multiset(UpTo(n))[run] == if run < n then 1 else 0
  {
    if n > 0 {
      CountUpTo(n - 1, run);
      assert UpTo(n) == UpTo(n - 1) + [n - 1];
    }
  }

  /** Start goes as far as launching a worker. */
  predicate Launches(s: State, a: StartAnswers) {
    a.configErr.None? && s.f.runner.None? && a.factoryErr.None? && a.setupErr.None?
  }

  /** Start returns no error and yet leaves nothing running exactly when the
      worker came back with nil within the grace period and the rollback
      succeeded. Rolled back, with or without an error, it leaves the fields
      as it found them, its table torn down and its runner stopped. */
  lemma SilentRollbackExactly(s: State, table: string, a: StartAnswers)
    requires Balanced(s)
    ensures var o := Start(s, table, a);
            && (o.err.None? && !o.s.f.rulesInstalled <==>
                Launches(s, a) && a.early == Some(None) && a.stopErr.None? && a.teardownErr.None?)
            && (o.s.f.rulesInstalled <==> s.f.rulesInstalled || (o.err.None? && a.early.None?))
            && (Launches(s, a) && a.early.Some? ==>
                && o.s.f.(rules := s.f.rules) == s.f && o.s.h.setups == s.h.setups + [table]
                && o.s.h.teardowns == s.h.teardowns + [table] && o.s.h.stops == s.h.stops + [s.h.launched])
  {
  }

  /** What Start answers, case by case: the first failure before the launch,
      which then changes nothing; nil while the worker is still out; and after
      a rollback the worker's error, joined with that of the rollback, where
      the runner's failure to stop comes before the teardown's. */
  lemma StartReports(s: State, table: string, a: StartAnswers)
    ensures var o := Start(s, table, a);
            && (a.configErr.Some? ==> o == Outcome(s, a.configErr))
            && (a.configErr.None? && s.f.runner.Some? ==> o == Outcome(s, Some(AlreadyRunning)))
            && (a.configErr.None? && s.f.runner.None? && a.factoryErr.Some? ==> o == Outcome(s, a.factoryErr))
            && (a.configErr.None? && s.f.runner.None? && a.factoryErr.None? && a.setupErr.Some? ==>
                  o == Outcome(s, Some(Wrapped("install nftables rules", a.setupErr.value))))
            && (Launches(s, a) && a.early.None? ==> o.err.None?)
            && (Launches(s, a) && a.early.Some? ==>
                  var rollback :=
                    if a.stopErr.Some? || a.teardownErr.None? then a.stopErr
                    else Some(Wrapped("remove nftables rules after startup failure", a.teardownErr.value));
                  && (rollback.None? ==> o.err == a.early.value)
                  && (rollback.Some? && a.early.value.None? ==> o.err == rollback)
                  && (rollback.Some? && a.early.value.Some? ==>
                        o.err == Some(RollbackFailed(a.early.value.value, rollback.value))))
  {
  }

  /** A Stop with nothing to stop does nothing and returns nil: so does every
      second Stop. */
  lemma StopTwice(s: State, a: StopAnswers, b: StopAnswers)
    ensures Stop(Stop(s, a).s, b) == Outcome(Stop(s, a).s, None)
  {
  }
}
