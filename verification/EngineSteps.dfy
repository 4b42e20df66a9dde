/** The same engine one step at a time: a sequential caller inside Start or
    Stop, and the worker goroutines of all runs, interleaved freely. */
module EngineSteps {
  import opened Bytes
  import opened Engine

  /** A worker goroutine: inside runner.Start, back from it with a result not
      yet sent, or done. */
  datatype Worker = Running | Returned(result: Result) | Sent(result: Result)

  /** Where the caller is, with the local variables it holds. */
  datatype Pc =
    | Idle(returned: Result)
    | Constructing
    | Installing
    | Publishing
    | Launching(run: RunId)
    | Selecting(run: RunId)
    | RollingBack(run: RunId, early: Result)
    | RollbackStopping(run: RunId, early: Result)
    | RollbackRemoving(run: RunId, early: Result, stopErr: Result)
    | Canceling(held: Fields)
    | Stopping(held: Fields)
    | Receiving(held: Fields, stopErr: Result)
    | Removing(held: Fields, stopErr: Result, workerErr: Result)

  /** `began` is the engine as the current call found it; `chans` holds what
      is buffered in each run's done channel, of capacity one. */
  datatype World = World(
    table: string, f: Fields, h: History, pc: Pc, began: State,
    workers: map<RunId, Worker>, chans: map<RunId, seq<Result>>,
    sends: map<RunId, nat>, receives: map<RunId, nat>)
  {
    function Now(): State { State(f, h) }
  }

  datatype Step =
    | CallStart(configErr: Result)
    | CallStop
    | Construct(factoryErr: Result)
    | Install(setupErr: Result)
    | Publish
    | Launch
    | SelectResult
    | SelectGraceOver
    | ClearFields
    | StopAfterFailure(stopErr: Result)
    | RemoveAfterFailure(teardownErr: Result)
    | CallCancel
    | StopRunner(stopErr: Result)
    | Receive
    | Remove(teardownErr: Result)
    | WorkerReturns(run: RunId, result: Result)
    | WorkerSends(run: RunId)

  function Got(w: World, run: RunId): World
    requires run in w.chans && run in w.receives && w.chans[run] != []
  {
    w.(chans := w.chans[run := w.chans[run][1..]], receives := w.receives[run := w.receives[run] + 1])
  }

  /** A send is possible only into an empty buffer. */
  predicate Enabled(w: World, st: Step) {
    match st
    case CallStart(_) => w.pc.Idle?
    case CallStop => w.pc.Idle?
    case Construct(_) => w.pc.Constructing?
    case Install(_) => w.pc.Installing?
    case Publish => w.pc.Publishing?
    case Launch => w.pc.Launching?
    case SelectResult =>
      w.pc.Selecting? && w.pc.run in w.chans && w.pc.run in w.receives && w.chans[w.pc.run] != []
    case SelectGraceOver => w.pc.Selecting?
    case ClearFields => w.pc.RollingBack?
    case StopAfterFailure(_) => w.pc.RollbackStopping?
    case RemoveAfterFailure(_) => w.pc.RollbackRemoving?
    case CallCancel => w.pc.Canceling?
    case StopRunner(_) => w.pc.Stopping?
    case Receive =>
      && w.pc.Receiving?
      && (w.pc.held.doneCh.Some? ==>
            var run := w.pc.held.doneCh.value;
            run in w.chans && run in w.receives && w.chans[run] != [])
    case Remove(_) => w.pc.Removing?
    case WorkerReturns(run, _) => run in w.workers && w.workers[run].Running?
    case WorkerSends(run) =>
      && run in w.workers && w.workers[run].Returned?
      && run in w.chans && run in w.sends && |w.chans[run]| < 1
  }

  function Next(w: World, st: Step): World
    requires Enabled(w, st)
  {
    match st
    case CallStart(configErr) =>
      var w1 := w.(began := w.Now());
      if configErr.Some? then w1.(pc := Idle(configErr))
      else if w.f.runner.Some? then w1.(pc := Idle(Some(AlreadyRunning)))
      else w1.(pc := Constructing)
    case Construct(factoryErr) =>
      if factoryErr.Some? then w.(pc := Idle(factoryErr)) else w.(pc := Installing)
    case Install(setupErr) =>
      if setupErr.Some? then w.(pc := Idle(Wrap(INSTALL, setupErr)))
      else w.(pc := Publishing, h := w.h.(setups := w.h.setups + [w.table]))
    case Publish =>
      var run := w.h.launched;
      w.(pc := Launching(run), f := Fields(Some(run), Some(run), Some(run), w.table, true),
         chans := w.chans[run := []], sends := w.sends[run := 0], receives := w.receives[run := 0])
    case Launch =>
      w.(pc := Selecting(w.pc.run), h := w.h.(launched := w.pc.run + 1),
         workers := w.workers[w.pc.run := Running])
    case SelectResult => Got(w, w.pc.run).(pc := RollingBack(w.pc.run, w.chans[w.pc.run][0]))
    case SelectGraceOver => w.(pc := Idle(None))
    case ClearFields => w.(pc := RollbackStopping(w.pc.run, w.pc.early), f := Cleared(w.f))
    case StopAfterFailure(stopErr) =>
      w.(pc := RollbackRemoving(w.pc.run, w.pc.early, stopErr), h := RunnerStopped(w.h, w.pc.run))
    case RemoveAfterFailure(teardownErr) =>
      w.(pc := Idle(StartupError(w.pc.early, RollbackError(w.pc.stopErr, teardownErr))),
         h := TornDown(w.h, w.table))
    case CallStop => w.(began := w.Now(), pc := Canceling(w.f), f := Cleared(w.f))
    case CallCancel => w.(pc := Stopping(w.pc.held), h := CancelCalled(w.pc.held, w.h))
    case StopRunner(stopErr) => w.(pc := Receiving(w.pc.held, stopErr), h := StopCalled(w.pc.held, w.h))
    case Receive =>
      if w.pc.held.doneCh.None? then w.(pc := Removing(w.pc.held, w.pc.stopErr, None))
      else
        var run := w.pc.held.doneCh.value;
        Got(w, run).(pc := Removing(w.pc.held, w.pc.stopErr, w.chans[run][0]))
    case Remove(teardownErr) =>
      w.(pc := Idle(StopError(w.pc.held, StopAnswers(w.pc.stopErr, w.pc.workerErr, teardownErr))),
         h := TeardownCalled(w.pc.held, w.h))
    case WorkerReturns(run, result) => w.(workers := w.workers[run := Returned(result)])
    case WorkerSends(run) =>
      var result := w.workers[run].result;
      w.(workers := w.workers[run := Sent(result)], chans := w.chans[run := w.chans[run] + [result]],
         sends := w.sends[run := w.sends[run] + 1])
  }

  predicate Initial(w: World) {
    w.Now() == New() && w.began == New() && w.pc == Idle(None)
    && w.workers == map[] && w.chans == map[] && w.sends == map[] && w.receives == map[]
  }

  predicate Reaches(w0: World, steps: seq<Step>, w: World)
    decreases |steps|
  {
    if steps == [] then w == w0
    else Enabled(w0, steps[0]) && Reaches(Next(w0, steps[0]), steps[1..], w)
  }

  // ----- the done channels -----

  /** How many launched runs there are, the one about to start included. */
  function Runs(w: World): nat {
    if w.pc.Launching? then w.pc.run + 1 else w.h.launched
  }

  /** One worker and its channel: one send when it is done, none before; what
      was sent and not received is in the buffer; at most one receive. */
  predicate ChannelOk(w: World, run: RunId) {
    && run in w.chans && run in w.sends && run in w.receives
    && w.receives[run] <= w.sends[run] <= 1
    && |w.chans[run]| == w.sends[run] - w.receives[run]
    && (w.sends[run] == 1 <==> run in w.workers && w.workers[run].Sent?)
    && (w.chans[run] != [] ==> run in w.workers && w.workers[run].Sent? && w.chans[run][0] == w.workers[run].result)
  }

  ghost predicate Channels(w: World) {
    && (forall run: nat :: run < Runs(w) <==> run in w.chans)
    && (forall run: nat :: run < w.h.launched <==> run in w.workers)
    && (forall run <- w.chans :: ChannelOk(w, run))
  }

  /** The channel the caller or the engine may still receive from: nothing has
      been received from it. */
  function Receivable(w: World): Option<RunId> {
    match w.pc
    case Canceling(held) => held.doneCh
    case Stopping(held) => held.doneCh
    case Receiving(held, _) => held.doneCh
    case Removing(_, _, _) => None
    case RollingBack(_, _) => None
    case _ => w.f.doneCh
  }

  predicate Unreceived(w: World) {
    Receivable(w).Some? ==>
      var run := Receivable(w).value;
      run in w.receives && w.receives[run] == 0
  }

  // ----- the caller -----

  /** The engine a call in progress started from, or the engine at rest. */
  function Base(w: World): State { if w.pc.Idle? then w.Now() else w.began }

  /** Where the call stands, in terms of the engine it found. */
  predicate Stands(w: World) {
    var b := w.began;
    var up := Launched(b, w.table);
    match w.pc
    case Idle(_) => true
    case Constructing => b.f.runner.None? && w.Now() == b
    case Installing => b.f.runner.None? && w.Now() == b
    case Publishing => b.f.runner.None? && w.f == b.f && w.h == b.h.(setups := up.h.setups)
    case Launching(run) =>
      b.f.runner.None? && run == b.h.launched && w.f == up.f && w.h == b.h.(setups := up.h.setups)
    case Selecting(run) => b.f.runner.None? && run == b.h.launched && w.Now() == up
    case RollingBack(run, _) => b.f.runner.None? && run == b.h.launched && w.Now() == up
    case RollbackStopping(run, _) =>
      b.f.runner.None? && run == b.h.launched && w.f == Cleared(up.f) && w.h == up.h
    case RollbackRemoving(run, _, _) =>
      b.f.runner.None? && run == b.h.launched && w.f == Cleared(up.f) && w.h == RunnerStopped(up.h, run)
    case Canceling(held) => held == b.f && w.f == Cleared(held) && w.h == b.h
    case Stopping(held) => held == b.f && w.f == Cleared(held) && w.h == CancelCalled(held, b.h)
    case Receiving(held, _) =>
      held == b.f && w.f == Cleared(held) && w.h == StopCalled(held, CancelCalled(held, b.h))
    case Removing(held, _, _) =>
      held == b.f && w.f == Cleared(held) && w.h == StopCalled(held, CancelCalled(held, b.h))
  }

  predicate CallerOk(w: World) { Stands(w) && Balanced(Base(w)) }

  /** What the caller took from a channel is what that worker returned. */
  predicate Delivered(w: World) {
    match w.pc
    case RollingBack(run, early) => SentBy(w, run, early)
    case RollbackStopping(run, early) => SentBy(w, run, early)
    case RollbackRemoving(run, early, _) => SentBy(w, run, early)
    case Removing(held, _, workerErr) => held.doneCh.Some? ==> SentBy(w, held.doneCh.value, workerErr)
    case _ => true
  }

  predicate SentBy(w: World, run: RunId, result: Result) {
    run in w.workers && w.workers[run] == Sent(result)
  }

  ghost predicate Invariant(w: World) {
    CallerOk(w) && Channels(w) && Unreceived(w) && Delivered(w)
  }

  predicate WorkerStep(st: Step) { st.WorkerReturns? || st.WorkerSends? }

  /** The step that ends a call completes exactly the sequential call, with
      the answers the world gave along the way. */
  lemma CallEndsAs(w: World, st: Step) returns (c: Call)
    requires Stands(w) && Enabled(w, st) && !WorkerStep(st) && Next(w, st).pc.Idle?
    ensures var w' := Next(w, st);
            Outcome(w'.Now(), w'.pc.returned) == Apply(Base(w), w.table, c)
    ensures st.Remove? <==> c.StopCall?
    ensures st.Remove? ==> c.stop == StopAnswers(w.pc.stopErr, w.pc.workerErr, st.teardownErr)
    ensures st.RemoveAfterFailure? ==>
              c.start == StartAnswers(None, None, None, Some(w.pc.early), w.pc.stopErr, st.teardownErr)
  {
    match st
    case CallStart(configErr) =>
      c := StartCall(StartAnswers(configErr, None, None, None, None, None));
    case Construct(factoryErr) =>
      c := StartCall(StartAnswers(None, factoryErr, None, None, None, None));
    case Install(setupErr) =>
      c := StartCall(StartAnswers(None, None, setupErr, None, None, None));
    case SelectGraceOver =>
      c := StartCall(StartAnswers(None, None, None, None, None, None));
    case RemoveAfterFailure(teardownErr) =>
      c := StartCall(StartAnswers(None, None, None, Some(w.pc.early), w.pc.stopErr, teardownErr));
    case Remove(teardownErr) =>
      c := StopCall(StopAnswers(w.pc.stopErr, w.pc.workerErr, teardownErr));
  }

  predicate StopSide(st: Step) {
    st.CallStop? || st.CallCancel? || st.StopRunner? || st.Receive? || st.Remove?
  }

  lemma StopSideStands(w: World, st: Step)
    requires Stands(w) && Enabled(w, st) && StopSide(st)
    ensures Stands(Next(w, st))
  {
  }

  lemma StartSideStands(w: World, st: Step)
    requires Stands(w) && Enabled(w, st) && !StopSide(st) && !WorkerStep(st)
    ensures Stands(Next(w, st))
  {
  }

  lemma StepStands(w: World, st: Step)
    requires Stands(w) && Enabled(w, st)
    ensures Stands(Next(w, st))
  {
    if StopSide(st) {
      StopSideStands(w, st);
    } else if !WorkerStep(st) {
      StartSideStands(w, st);
    }
  }

  lemma TableStays(w: World, st: Step)
    requires Enabled(w, st)
    ensures Next(w, st).table == w.table
  {
  }

  lemma BaseStays(w: World, st: Step)
    requires Enabled(w, st)
    ensures WorkerStep(st) || !Next(w, st).pc.Idle? ==> Base(Next(w, st)) == Base(w)
  {
  }

  lemma CallerStaysOk(w: World, st: Step)
    requires CallerOk(w) && Enabled(w, st)
    ensures CallerOk(Next(w, st)) && Next(w, st).table == w.table
  {
    StepStands(w, st);
    TableStays(w, st);
    BaseStays(w, st);
    if !WorkerStep(st) && Next(w, st).pc.Idle? {
      var c := CallEndsAs(w, st);
      CallKeepsBalance(Base(w), w.table, c);
    }
  }

  /** The run whose worker or channel a step touches. */
  function Touched(w: World, st: Step): Option<RunId>
    requires Enabled(w, st)
  {
    match st
    case Publish => Some(w.h.launched)
    case Launch => Some(w.pc.run)
    case SelectResult => Some(w.pc.run)
    case Receive => w.pc.held.doneCh
    case WorkerReturns(run, _) => Some(run)
    case WorkerSends(run) => Some(run)
    case _ => None
  }

  /** Nothing about run `run` changes. */
  predicate SameRun(w: World, w': World, run: RunId) {
    && (run in w'.chans <==> run in w.chans) && (run in w'.workers <==> run in w.workers)
    && (run in w'.sends <==> run in w.sends) && (run in w'.receives <==> run in w.receives)
    && (run in w.chans ==> w'.chans[run] == w.chans[run])
    && (run in w.workers ==> w'.workers[run] == w.workers[run])
    && (run in w.sends ==> w'.sends[run] == w.sends[run])
    && (run in w.receives ==> w'.receives[run] == w.receives[run])
  }

  lemma OtherRunsStay(w: World, st: Step, run: RunId)
    requires Enabled(w, st) && Touched(w, st) != Some(run)
    ensures SameRun(w, Next(w, st), run)
  {
  }

  lemma OtherChannelsStay(w: World, st: Step, run: RunId)
    requires Enabled(w, st) && Touched(w, st) != Some(run)
    ensures var w' := Next(w, st);
            && (run in w'.chans <==> run in w.chans) && (run in w'.workers <==> run in w.workers)
            && (run in w.chans && ChannelOk(w, run) ==> ChannelOk(w', run))
  {
    OtherRunsStay(w, st, run);
  }

  lemma TouchedChannelStays(w: World, st: Step, run: RunId)
    requires Invariant(w) && Enabled(w, st) && Touched(w, st) == Some(run)
    ensures var w' := Next(w, st);
            && run in w'.chans && ChannelOk(w', run)
            && (run in w'.workers <==> run < w'.h.launched) && run < Runs(w')
  {
    if run in w.chans { assert ChannelOk(w, run); }
  }

  lemma RunsMove(w: World, st: Step)
    requires CallerOk(w) && Enabled(w, st)
    ensures Runs(Next(w, st)) == Runs(w) + (if st.Publish? then 1 else 0)
    ensures Next(w, st).h.launched == w.h.launched + (if st.Launch? then 1 else 0)
    ensures st.Publish? ==> Touched(w, st) == Some(Runs(w))
    ensures st.Launch? ==> Touched(w, st) == Some(w.h.launched)
  {
  }

  lemma ChannelsStayOk(w: World, st: Step)
    requires Invariant(w) && Enabled(w, st)
    ensures Channels(Next(w, st))
  {
    var w' := Next(w, st);
    RunsMove(w, st);
    forall run: nat
      ensures run < Runs(w') <==> run in w'.chans
      ensures run < w'.h.launched <==> run in w'.workers
      ensures run in w'.chans ==> ChannelOk(w', run)
    {
      if Touched(w, st) == Some(run) {
        TouchedChannelStays(w, st, run);
      } else {
        OtherChannelsStay(w, st, run);
      }
    }
  }

  lemma UnreceivedStays(w: World, st: Step)
    requires Unreceived(w) && Stands(w) && Enabled(w, st)
    requires Receivable(w).Some? && Receivable(w).value in w.chans ==> ChannelOk(w, Receivable(w).value)
    ensures Unreceived(Next(w, st))
  {
  }

  lemma DeliveredStays(w: World, st: Step)
    requires Delivered(w) && Enabled(w, st)
    requires forall run <- w.chans :: ChannelOk(w, run)
    ensures Delivered(Next(w, st))
  {
    if st.SelectResult? { assert ChannelOk(w, w.pc.run); }
    if st.Receive? && w.pc.held.doneCh.Some? { assert ChannelOk(w, w.pc.held.doneCh.value); }
  }

  lemma StepKeepsInvariant(w: World, st: Step)
    requires Invariant(w) && Enabled(w, st)
    ensures Invariant(Next(w, st))
  {
    CallerStaysOk(w, st);
    ChannelsStayOk(w, st);
    UnreceivedStays(w, st);
    DeliveredStays(w, st);
  }

  lemma {:induction false} RunKeepsInvariant(w0: World, steps: seq<Step>, w: World)
    requires Invariant(w0) && Reaches(w0, steps, w)
    ensures Invariant(w)
    decreases |steps|
  {
    if steps != [] {
      StepKeepsInvariant(w0, steps[0]);
      RunKeepsInvariant(Next(w0, steps[0]), steps[1..], w);
    }
  }

  // ----- what it comes to -----

  /** In every reachable state: a worker that is back from runner.Start can
      send at once, no run sends twice, and no run is received from twice. */
  lemma OneSendOneReceive(w0: World, steps: seq<Step>, w: World, run: RunId)
    requires Initial(w0) && Reaches(w0, steps, w) && run in w.workers
    ensures w.workers[run].Returned? ==> Enabled(w, WorkerSends(run))
    ensures run in w.sends && w.sends[run] == if w.workers[run].Sent? then 1 else 0
    ensures run in w.receives && w.receives[run] <= 1
  {
    RunKeepsInvariant(w0, steps, w);
    assert ChannelOk(w, run);
  }

  /** A call that ends reports what the world answered at each of its steps;
      the worker result in it is what that run's worker sent. */
  lemma CallEnds(w: World, st: Step) returns (c: Call)
    requires Invariant(w) && Enabled(w, st) && !WorkerStep(st) && Next(w, st).pc.Idle?
    ensures var w' := Next(w, st);
            Outcome(w'.Now(), w'.pc.returned) == Apply(Base(w), w.table, c)
    ensures st.Remove? ==>
              && c == StopCall(StopAnswers(w.pc.stopErr, w.pc.workerErr, st.teardownErr))
              && (w.pc.held.doneCh.Some? ==> SentBy(w, w.pc.held.doneCh.value, w.pc.workerErr))
    ensures st.RemoveAfterFailure? ==>
              && c == StartCall(StartAnswers(None, None, None, Some(w.pc.early), w.pc.stopErr, st.teardownErr))
              && SentBy(w, w.pc.run, w.pc.early)
  {
    c := CallEndsAs(w, st);
  }

  lemma BaseMoves(w: World, st: Step) returns (calls: seq<Call>)
    requires Invariant(w) && Enabled(w, st)
    ensures |calls| <= 1
    ensures calls == [] ==> Base(Next(w, st)) == Base(w)
    ensures calls != [] ==> Base(Next(w, st)) == Apply(Base(w), w.table, calls[0]).s
  {
    if !WorkerStep(st) && Next(w, st).pc.Idle? {
      var c := CallEnds(w, st);
      calls := [c];
    } else {
      BaseStays(w, st);
      calls := [];
    }
  }

  /** Every interleaved run is a run of whole calls: at rest, the engine and
      its history are what the calls made so far leave behind. */
  lemma {:induction false} InterleavingIsSequential(w0: World, steps: seq<Step>, w: World, before: seq<Call>)
    returns (calls: seq<Call>)
    requires Invariant(w0) && Reaches(w0, steps, w) && Base(w0) == After(w0.table, before)
    ensures Base(w) == After(w0.table, calls) && before <= calls
    decreases |steps|
  {
    calls := before;
    if steps != [] {
      var made := BaseMoves(w0, steps[0]);
      StepKeepsInvariant(w0, steps[0]);
      CallerStaysOk(w0, steps[0]);
      if made == [] {
        calls := InterleavingIsSequential(Next(w0, steps[0]), steps[1..], w, before);
      } else {
        assert (before + made)[..|before|] == before && made == [made[0]];
        calls := InterleavingIsSequential(Next(w0, steps[0]), steps[1..], w, before + made);
      }
    }
  }

  /** From a new engine: at rest it is what some sequence of whole calls, each
      with some answers, leaves behind. */
  lemma InterleavedCalls(w0: World, steps: seq<Step>, w: World)
    requires Initial(w0) && Reaches(w0, steps, w) && w.pc.Idle?
    ensures exists calls :: w.Now() == After(w0.table, calls)
  {
    var calls := InterleavingIsSequential(w0, steps, w, []);
  }

  lemma AtRestBalanced(w0: World, steps: seq<Step>, w: World)
    requires Initial(w0) && Reaches(w0, steps, w) && w.pc.Idle?
    ensures Balanced(w.Now())
  {
    RunKeepsInvariant(w0, steps, w);
  }

  /** The fields a Stop in progress took over, or those of the engine. */
  function Held(w: World): Fields {
    match w.pc
    case Canceling(held) => held
    case Stopping(held) => held
    case Receiving(held, _) => held
    case Removing(held, _, _) => held
    case _ => w.f
  }

  /** The engine runs `run` and is at rest, or inside the Stop of that run,
      whose runner answers, or has answered, `stopErr`. */
  predicate Owes(w: World, run: RunId, stopErr: Result) {
    && Held(w).doneCh == Some(run)
    && match w.pc
       case Idle(_) => true
       case Canceling(_) => true
       case Stopping(_) => true
       case Receiving(_, e) => e == stopErr
       case Removing(_, e, _) => e == stopErr
       case _ => false
  }

  lemma OwesStays(w: World, st: Step, run: RunId, stopErr: Result)
    requires Invariant(w) && Enabled(w, st) && Owes(w, run, stopErr)
    requires !st.Remove? && (st.StopRunner? ==> st.stopErr == stopErr)
    ensures var w' := Next(w, st);
            && Owes(w', run, stopErr) && Held(w') == Held(w) && w'.h.teardowns == w.h.teardowns
            && (run in w.workers && !w.workers[run].Running? ==>
                  run in w'.workers && !w'.workers[run].Running? && w'.workers[run].result == w.workers[run].result)
  {
  }

  /** The Remove that ends the Stop. */
  lemma LastStepReports(w: World, teardownErr: Result, run: RunId, stopErr: Result)
    requires Invariant(w) && Enabled(w, Remove(teardownErr)) && Owes(w, run, stopErr)
    ensures var w' := Next(w, Remove(teardownErr));
            && run in w.workers && w.workers[run].Sent? && w'.workers == w.workers
            && w'.h.teardowns == w.h.teardowns + [Held(w).rules] && run in w'.h.cancels && run in w'.h.stops
            && w'.pc == Idle(First(First(stopErr, Reported(w.workers[run].result)), Wrap(REMOVE, teardownErr)))
  {
    assert SentBy(w, run, w.pc.workerErr);
    var held := w.pc.held;
    assert held.rulesInstalled && held.cancel == held.runner == Some(run);
  }

  /** The runner's error, else the worker's unless it comes from a
      cancellation, else the teardown's. */
  ghost predicate ReportsFirst(returned: Result, stopErr: Result, result: Result, teardownErr: Result) {
    && (stopErr.Some? ==> returned == stopErr)
    && (stopErr.None? && result.Some? && !FromCanceled(result.value) ==> returned == result)
    && (stopErr.None? && (result.None? || FromCanceled(result.value)) ==>
          returned == if teardownErr.None? then None
                      else Some(Wrapped("remove nftables rules", teardownErr.value)))
  }

  /** The next Stop reports the worker. Whatever is interleaved until the Stop
      of a running engine ends: its run was cancelled and its runner stopped;
      its worker has sent a result, the one it was already back with if it was;
      the rules are torn down once; and Stop returns the first of the runner's
      error, the worker's unless it comes from a cancellation, and the
      teardown's. */
  lemma {:induction false} NextStopReports(w0: World, steps: seq<Step>, teardownErr: Result, w: World,
                                           run: RunId, stopErr: Result)
    requires Invariant(w0) && Owes(w0, run, stopErr) && Reaches(w0, steps + [Remove(teardownErr)], w)
    requires forall st <- steps :: !st.Remove? && (st.StopRunner? ==> st.stopErr == stopErr)
    ensures run in w.workers && w.workers[run].Sent?
    ensures run in w0.workers && !w0.workers[run].Running? ==> w.workers[run].result == w0.workers[run].result
    ensures w.h.teardowns == w0.h.teardowns + [Held(w0).rules] && run in w.h.cancels && run in w.h.stops
    ensures w.pc.Idle? && ReportsFirst(w.pc.returned, stopErr, w.workers[run].result, teardownErr)
    decreases |steps|
  {
    var all := steps + [Remove(teardownErr)];
    if steps == [] {
      assert all[1..] == [] && Reaches(Next(w0, all[0]), [], w);
      LastStepReports(w0, teardownErr, run, stopErr);
      if w.workers[run].result.Some? { IsCanceledExactly(w.workers[run].result.value); }
    } else {
      assert all[1..] == steps[1..] + [Remove(teardownErr)] && all[0] in steps;
      OwesStays(w0, all[0], run, stopErr);
      StepKeepsInvariant(w0, all[0]);
      NextStopReports(Next(w0, all[0]), steps[1..], teardownErr, w, run, stopErr);
    }
  }

  /** Start has launched `run` and waits for it, or is rolling it back, and the
      runner answers, or has answered, `stopErr` when stopped. */
  predicate RollsBack(w: World, run: RunId, stopErr: Result) {
    match w.pc
    case Selecting(r) => r == run
    case RollingBack(r, _) => r == run
    case RollbackStopping(r, _) => r == run
    case RollbackRemoving(r, _, e) => r == run && e == stopErr
    case _ => false
  }

  lemma RollsBackStays(w: World, st: Step, run: RunId, stopErr: Result)
    requires Enabled(w, st) && RollsBack(w, run, stopErr)
    requires !st.SelectGraceOver? && !st.RemoveAfterFailure? && (st.StopAfterFailure? ==> st.stopErr == stopErr)
    ensures var w' := Next(w, st);
            && RollsBack(w', run, stopErr) && w'.table == w.table && w'.h.teardowns == w.h.teardowns
            && (run in w.workers && !w.workers[run].Running? ==>
                  run in w'.workers && !w'.workers[run].Running? && w'.workers[run].result == w.workers[run].result)
  {
  }

  lemma LastStepRollsBack(w: World, teardownErr: Result, run: RunId, stopErr: Result)
    requires Invariant(w) && Enabled(w, RemoveAfterFailure(teardownErr)) && RollsBack(w, run, stopErr)
    ensures var w' := Next(w, RemoveAfterFailure(teardownErr));
            && run in w.workers && w.workers[run].Sent? && w'.workers == w.workers
            && w'.h.teardowns == w.h.teardowns + [w.table] && run in w'.h.stops
            && w'.f.runner == w'.f.cancel == w'.f.doneCh == None && !w'.f.rulesInstalled
            && w'.pc == Idle(StartupError(w.workers[run].result, RollbackError(stopErr, teardownErr)))
  {
    assert SentBy(w, run, w.pc.early);
  }

  /** A worker that comes back before the grace period is over makes Start roll
      back. Whatever is interleaved until then: its runner is stopped, its
      table is torn down once and the fields are clear; and Start returns the
      worker's result, or what failed in the rollback (the runner before the
      teardown) if the worker came back with nil, or both. */
  lemma {:induction false} EarlyFailureReports(w0: World, steps: seq<Step>, teardownErr: Result, w: World,
                                               run: RunId, stopErr: Result)
    requires Invariant(w0) && RollsBack(w0, run, stopErr)
    requires Reaches(w0, steps + [RemoveAfterFailure(teardownErr)], w)
    requires forall st <- steps ::
               !st.SelectGraceOver? && !st.RemoveAfterFailure? && (st.StopAfterFailure? ==> st.stopErr == stopErr)
    ensures run in w.workers && w.workers[run].Sent?
    ensures run in w0.workers && !w0.workers[run].Running? ==> w.workers[run].result == w0.workers[run].result
    ensures w.h.teardowns == w0.h.teardowns + [w0.table] && run in w.h.stops
    ensures w.f.runner == w.f.cancel == w.f.doneCh == None && !w.f.rulesInstalled
    ensures var early := w.workers[run].result;
            && (stopErr.None? && teardownErr.None? ==> w.pc == Idle(early))
            && (stopErr.Some? && early.None? ==> w.pc == Idle(stopErr))
            && (stopErr.Some? && early.Some? ==> w.pc == Idle(Some(RollbackFailed(early.value, stopErr.value))))
            && (stopErr.None? && teardownErr.Some? ==>
                  var failed := Wrapped("remove nftables rules after startup failure", teardownErr.value);
                  w.pc == Idle(Some(if early.None? then failed else RollbackFailed(early.value, failed))))
    decreases |steps|
  {
    var all := steps + [RemoveAfterFailure(teardownErr)];
    if steps == [] {
      assert all[1..] == [] && Reaches(Next(w0, all[0]), [], w);
      LastStepRollsBack(w0, teardownErr, run, stopErr);
    } else {
      assert all[1..] == steps[1..] + [RemoveAfterFailure(teardownErr)] && all[0] in steps;
      RollsBackStays(w0, all[0], run, stopErr);
      StepKeepsInvariant(w0, all[0]);
      EarlyFailureReports(Next(w0, all[0]), steps[1..], teardownErr, w, run, stopErr);
    }
  }

  /** How far a worker is from having its result in the channel. */
  function Distance(worker: Worker): nat {
    match worker
    case Running => 2
    case Returned(_) => 1
    case Sent(_) => 0
  }

  lemma WaitingForRun(w: World)
    requires Invariant(w) && w.pc.Receiving? && w.pc.held.doneCh.Some?
    ensures var run := w.pc.held.doneCh.value;
            && run in w.workers && run in w.chans && ChannelOk(w, run) && w.receives[run] == 0
            && run in w.h.cancels && run in w.h.stops
  {
    assert w.pc.held.cancel == w.pc.held.runner == w.pc.held.doneCh;
    assert w.pc.held.doneCh.value < w.h.launched;
  }

  /** Either the receive can happen, or the worker's own next step can, and
      brings its result nearer to the channel. */
  predicate CanMove(w: World, run: RunId, result: Result) {
    && run in w.workers
    && match w.workers[run]
       case Sent(_) => Enabled(w, Receive)
       case Returned(_) =>
         Enabled(w, WorkerSends(run)) && Distance(Next(w, WorkerSends(run)).workers[run]) == 0
       case Running =>
         Enabled(w, WorkerReturns(run, result)) && Distance(Next(w, WorkerReturns(run, result)).workers[run]) == 1
  }

  lemma WaitingCanMove(w: World, result: Result)
    requires w.pc.Receiving? && w.pc.held.doneCh.Some?
    requires var run := w.pc.held.doneCh.value;
             run in w.workers && run in w.chans && ChannelOk(w, run) && w.receives[run] == 0
    ensures CanMove(w, w.pc.held.doneCh.value, result)
  {
  }

  /** Stop cannot hang once its worker returns: while Stop waits for a run,
      that run was cancelled and its runner stopped, and the wait can move on
      with whatever result the worker comes back with. */
  lemma StopMakesProgress(w0: World, steps: seq<Step>, w: World, result: Result)
    requires Initial(w0) && Reaches(w0, steps, w)
    requires w.pc.Receiving? && w.pc.held.doneCh.Some?
    ensures var run := w.pc.held.doneCh.value;
            run in w.h.cancels && run in w.h.stops && CanMove(w, run, result)
  {
    RunKeepsInvariant(w0, steps, w);
    WaitingForRun(w);
    WaitingCanMove(w, result);
  }

  /** Steps a Stop in progress still has before it: the caller's own, and its
      worker's. */
  function StopRank(w: World): nat {
    match w.pc
    case Canceling(held) => 4 + WorkerRank(w, held)
    case Stopping(held) => 3 + WorkerRank(w, held)
    case Receiving(held, _) => 2 + WorkerRank(w, held)
    case Removing(_, _, _) => 1
    case _ => 0
  }

  function WorkerRank(w: World, held: Fields): nat {
    if held.doneCh.Some? && held.doneCh.value in w.workers then Distance(w.workers[held.doneCh.value]) else 0
  }

  predicate OwnStep(st: Step, awaited: Option<RunId>) { WorkerStep(st) ==> Some(st.run) == awaited }

  lemma WorkerRankFalls(w: World, st: Step)
    requires Enabled(w, st) && WorkerStep(st) && StopRank(w) > 0
    requires w.pc.Removing? && w.pc.held.doneCh.Some? ==> SentBy(w, w.pc.held.doneCh.value, w.pc.workerErr)
    ensures if Some(st.run) == Held(w).doneCh then StopRank(Next(w, st)) < StopRank(w)
            else StopRank(Next(w, st)) == StopRank(w)
    ensures Next(w, st).pc == w.pc
  {
  }

  lemma CallerRankFalls(w: World, st: Step)
    requires Enabled(w, st) && !WorkerStep(st) && StopRank(w) > 0
    ensures StopRank(Next(w, st)) < StopRank(w)
    ensures StopRank(Next(w, st)) == 0 <==> Next(w, st).pc.Idle?
    ensures StopRank(Next(w, st)) > 0 ==> Held(Next(w, st)) == Held(w)
  {
  }

  /** Every step of the caller or of the awaited worker brings Stop nearer to
      its end, and no step of another worker takes it back. */
  lemma StopRankFalls(w: World, st: Step)
    requires Invariant(w) && Enabled(w, st) && StopRank(w) > 0
    ensures if OwnStep(st, Held(w).doneCh) then StopRank(Next(w, st)) < StopRank(w) <= 6
            else StopRank(Next(w, st)) == StopRank(w)
    ensures StopRank(Next(w, st)) == 0 <==> Next(w, st).pc.Idle?
    ensures StopRank(Next(w, st)) > 0 ==> Held(Next(w, st)) == Held(w)
  {
    if WorkerStep(st) {
      WorkerRankFalls(w, st);
    } else {
      CallerRankFalls(w, st);
    }
  }

  function OwnSteps(steps: seq<Step>, awaited: Option<RunId>): nat {
    if steps == [] then 0
    else (if OwnStep(steps[0], awaited) then 1 else 0) + OwnSteps(steps[1..], awaited)
  }

  /** The Stop in progress is not over before the last of the steps. */
  predicate WithinStop(w0: World, steps: seq<Step>)
    decreases |steps|
  {
    steps == [] || (StopRank(w0) > 0 && Enabled(w0, steps[0]) && WithinStop(Next(w0, steps[0]), steps[1..]))
  }

  lemma {:induction false} OwnStepsAreRanked(w0: World, steps: seq<Step>, w: World)
    requires Invariant(w0) && Reaches(w0, steps, w) && WithinStop(w0, steps)
    ensures OwnSteps(steps, Held(w0).doneCh) + StopRank(w) <= StopRank(w0)
    ensures StopRank(w0) > 0 ==> (StopRank(w) == 0 <==> w.pc.Idle?)
    decreases |steps|
  {
    if steps != [] {
      var w1 := Next(w0, steps[0]);
      StopRankFalls(w0, steps[0]);
      StepKeepsInvariant(w0, steps[0]);
      OwnStepsAreRanked(w1, steps[1..], w);
    }
  }

  /** A Stop takes at most six steps of its caller and its worker, however
      long the other workers run in between. */
  lemma StopEndsWithinSix(w0: World, steps: seq<Step>, w: World)
    requires Invariant(w0) && w0.pc.Idle?
    requires Reaches(Next(w0, CallStop), steps, w) && WithinStop(Next(w0, CallStop), steps)
    ensures OwnSteps(steps, w0.f.doneCh) + StopRank(w) <= 6
    ensures OwnSteps(steps, w0.f.doneCh) == 6 ==> w.pc.Idle?
  {
    StepKeepsInvariant(w0, CallStop);
    OwnStepsAreRanked(Next(w0, CallStop), steps, w);
  }
}
