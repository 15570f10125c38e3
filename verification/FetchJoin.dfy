/** Fetching one block: three workers retry their RPC call independently, and the caller joins
    them through three one-slot channels and one error channel. */
module FetchJoin {
  import opened Chain

  const ATTEMPTS: nat := 10
  const ERR_SLOTS: nat := 4

  /** Worker 0 fetches the block, 1 the block results, 2 the validator set. */
  const BLOCK: nat := 0
  const RESULTS: nat := 1
  const VALIDATORS: nat := 2
  const WORKERS: nat := 3

  datatype Phase =
    | Skipped
    | Trying(attemptsLeft: nat)
    | Delivered
    | Exhausted
    | Reported
    | Stopped(failed: bool)

  /** A worker with its data channel: the buffered values and whether it is closed. */
  datatype Worker<D> = Worker(phase: Phase, out: seq<D>, closed: bool)

  datatype Joiner<D> =
    | Joining(got: seq<Option<D>>)
    | Returned(data: Option<seq<Option<D>>>)

  /** `panicked` records a send on the closed error channel. */
  datatype State<D> = State(workers: seq<Worker<D>>, errs: nat, errClosed: bool, joiner: Joiner<D>, panicked: bool)

  datatype Step<D> =
    | AttemptOk(k: nat, value: D)
    | AttemptFail(k: nat)
    | SendErr(k: nat)
    | CloseOut(k: nat)
    | Join

  function Init<D>(skipValidators: bool): State<D> {
    State(seq(WORKERS, k => Worker(if k == VALIDATORS && skipValidators then Skipped else Trying(ATTEMPTS), [], false)),
          0, false, Joining([]), false)
  }

  predicate Enabled<D>(s: State<D>, step: Step<D>) {
    match step
    case AttemptOk(k, _) => k < |s.workers| && s.workers[k].phase.Trying? && |s.workers[k].out| < 1
    case AttemptFail(k) => k < |s.workers| && s.workers[k].phase.Trying?
    case SendErr(k) => k < |s.workers| && s.workers[k].phase.Exhausted? && (s.errClosed || s.errs < ERR_SLOTS)
    case CloseOut(k) =>
      k < |s.workers| && (s.workers[k].phase.Skipped? || s.workers[k].phase.Delivered? || s.workers[k].phase.Reported?)
    case Join =>
      s.joiner.Joining? &&
      (|s.joiner.got| < |s.workers| ==> s.workers[|s.joiner.got|].out != [] || s.workers[|s.joiner.got|].closed)
  }

  function Apply<D>(s: State<D>, step: Step<D>): State<D>
    requires Enabled(s, step)
  {
    match step
    case AttemptOk(k, value) =>
      s.(workers := s.workers[k := s.workers[k].(phase := Delivered, out := s.workers[k].out + [value])])
    case AttemptFail(k) =>
      var left := s.workers[k].phase.attemptsLeft;
      s.(workers := s.workers[k := s.workers[k].(phase := if left <= 1 then Exhausted else Trying(left - 1))])
    case SendErr(k) =>
      s.(workers := s.workers[k := s.workers[k].(phase := Reported)],
         errs := s.errs + 1, panicked := s.panicked || s.errClosed)
    case CloseOut(k) =>
      s.(workers := s.workers[k := s.workers[k].(phase := Stopped(s.workers[k].phase.Reported?), closed := true)])
    case Join =>
      var got := s.joiner.got;
      if |got| < |s.workers| then
        var w := s.workers[|got|];
        if w.out != [] then
          s.(workers := s.workers[|got| := w.(out := w.out[1..])], joiner := Joining(got + [Some(w.out[0])]))
        else s.(joiner := Joining(got + [None]))
      else if s.errs > 0 then s.(errs := s.errs - 1, joiner := Returned(None))
      else s.(errClosed := true, joiner := Returned(Some(got)))
  }

  // ---------------------------------------------------------------------------

  /** The worker has given up, whether or not it has said so yet. */
  predicate GaveUp<D>(w: Worker<D>) {
    w.phase.Exhausted? || w.phase.Reported? || w.phase == Stopped(true)
  }

  predicate HasReported<D>(w: Worker<D>) {
    w.phase.Reported? || w.phase == Stopped(true)
  }

  function Reports<D>(workers: seq<Worker<D>>): nat {
    if workers == [] then 0
    else (if HasReported(workers[0]) then 1 else 0) + Reports(workers[1..])
  }

  predicate WorkerOk<D>(skips: bool, w: Worker<D>) {
    && (w.closed <==> w.phase.Stopped?)
    && (w.phase.Skipped? ==> skips)
    && (skips ==> w.phase.Skipped? || w.phase == Stopped(false))
    && (w.phase.Trying? ==> 1 <= w.phase.attemptsLeft <= ATTEMPTS)
    && |w.out| <= 1
    && (w.phase.Skipped? || w.phase.Trying? || GaveUp(w) || skips ==> w.out == [])
  }

  /** What the joiner has taken from a worker. */
  predicate GotOk<D>(skips: bool, w: Worker<D>, got: Option<D>) {
    if got.Some? then w.phase.Delivered? || (w.phase == Stopped(false) && !skips)
    else w.phase == Stopped(true) || (w.phase == Stopped(false) && skips)
  }

  predicate Skips(skipValidators: bool, k: int) {
    k == VALIDATORS && skipValidators
  }

  predicate Inv<D>(skipValidators: bool, s: State<D>) {
    && |s.workers| == WORKERS
    && !s.panicked
    && (forall k | 0 <= k < WORKERS :: WorkerOk(Skips(skipValidators, k), s.workers[k]))
    && match s.joiner
       case Joining(got) =>
         && |got| <= WORKERS && !s.errClosed && s.errs == Reports(s.workers)
         && (forall k | 0 <= k < |got| :: GotOk(Skips(skipValidators, k), s.workers[k], got[k]))
         && (forall k | |got| <= k < WORKERS && !Skips(skipValidators, k) ::
               s.workers[k].phase.Delivered? || s.workers[k].phase == Stopped(false) ==> s.workers[k].out != [])
       case Returned(None) =>
         && !s.errClosed && (exists k :: 0 <= k < WORKERS && HasReported(s.workers[k]))
         && (forall k | 0 <= k < WORKERS :: s.workers[k].phase.Delivered? || s.workers[k].phase.Stopped?)
       case Returned(Some(got)) =>
         && |got| == WORKERS && s.errClosed
         && (forall k | 0 <= k < WORKERS :: GotOk(Skips(skipValidators, k), s.workers[k], got[k]))
         && (forall k | 0 <= k < WORKERS :: !GaveUp(s.workers[k]))
  }

  lemma InitHolds<D>(skipValidators: bool)
    ensures Inv<D>(skipValidators, Init<D>(skipValidators))
  {
    var ws := Init<D>(skipValidators).workers;
    ReportsCount(ws);
  }

  lemma {:induction false} ReportsUpdate<D>(workers: seq<Worker<D>>, k: nat, w: Worker<D>)
    requires k < |workers|
    ensures Reports(workers[k := w]) == Reports(workers) - (if HasReported(workers[k]) then 1 else 0)
                                        + (if HasReported(w) then 1 else 0)
  {
    if k == 0 {
      assert workers[k := w][1..] == workers[1..];
    } else {
      assert workers[k := w][1..] == workers[1..][k - 1 := w];
      ReportsUpdate(workers[1..], k - 1, w);
    }
  }

  /** The number of reports tells whether, and how many, workers have reported. */
  lemma {:induction false} ReportsCount<D>(workers: seq<Worker<D>>)
    ensures Reports(workers) <= |workers|
    ensures Reports(workers) > 0 <==> exists k :: 0 <= k < |workers| && HasReported(workers[k])
    ensures (exists k :: 0 <= k < |workers| && !HasReported(workers[k])) ==> Reports(workers) < |workers|
  {
    if workers != [] {
      ReportsCount(workers[1..]);
      if Reports(workers) > 0 {
        if !HasReported(workers[0]) {
          var k :| 0 <= k < |workers[1..]| && HasReported(workers[1..][k]);
          assert HasReported(workers[k + 1]);
        }
      } else {
        forall k | 0 <= k < |workers| ensures !HasReported(workers[k]) {
          assert k > 0 ==> workers[k] == workers[1..][k - 1];
        }
      }
      if k :| 0 <= k < |workers| && !HasReported(workers[k]) {
        if k > 0 {
          assert !HasReported(workers[1..][k - 1]);
        }
      }
    }
  }

  /** What a step of a worker keeps about it. */
  ghost predicate MovesOn<D>(skips: bool, w: Worker<D>, w': Worker<D>) {
    && WorkerOk(skips, w') && !w.phase.Stopped? && PhaseWork(w'.phase) < PhaseWork(w.phase)
    && (HasReported(w) ==> w'.phase == Stopped(true))
    && (w.phase.Delivered? ==> w'.phase == Stopped(false) && w'.out == w.out && !skips)
    && (w'.phase.Delivered? ==> w'.out != [])
    && (w'.phase == Stopped(false) ==> w.phase.Delivered? || skips)
  }

  function Updated<D>(s: State<D>, k: nat, w: Worker<D>): State<D>
    requires k < |s.workers|
  {
    s.(workers := s.workers[k := w],
       errs := s.errs + if HasReported(w) && !HasReported(s.workers[k]) then 1 else 0)
  }

  lemma {:induction false} WorkerMovesOn<D>(skipValidators: bool, s: State<D>, step: Step<D>)
    requires Inv(skipValidators, s) && Enabled(s, step) && !step.Join?
    ensures |s.workers| == |Apply(s, step).workers| == WORKERS && step.k < WORKERS
    ensures MovesOn(Skips(skipValidators, step.k), s.workers[step.k], Apply(s, step).workers[step.k])
    ensures Apply(s, step) == Updated(s, step.k, Apply(s, step).workers[step.k])
  {
    assert WorkerOk(Skips(skipValidators, step.k), s.workers[step.k]);
  }

  lemma {:induction false} UpdateWhileJoining<D>(skipValidators: bool, s: State<D>, k: nat, w: Worker<D>)
    requires Inv(skipValidators, s) && k < WORKERS && MovesOn(Skips(skipValidators, k), s.workers[k], w)
    requires s.joiner.Joining?
    ensures Inv(skipValidators, Updated(s, k, w))
  {
    ReportsUpdate(s.workers, k, w);
    hide WorkerOk, Reports;
  }

  lemma {:induction false} UpdateAfterReturn<D>(skipValidators: bool, s: State<D>, k: nat, w: Worker<D>)
    requires Inv(skipValidators, s) && k < WORKERS && MovesOn(Skips(skipValidators, k), s.workers[k], w)
    requires s.joiner.Returned?
    ensures Inv(skipValidators, Updated(s, k, w))
  {
  }

  lemma {:induction false} WorkerStepKeepsInv<D>(skipValidators: bool, s: State<D>, step: Step<D>)
    requires Inv(skipValidators, s) && Enabled(s, step) && !step.Join?
    ensures Inv(skipValidators, Apply(s, step))
  {
    hide Inv, Apply, MovesOn;
    WorkerMovesOn(skipValidators, s, step);
    var w := Apply(s, step).workers[step.k];
    if s.joiner.Joining? {
      UpdateWhileJoining(skipValidators, s, step.k, w);
    } else {
      UpdateAfterReturn(skipValidators, s, step.k, w);
    }
  }

  /** The joiner takes a value, or sees a closed channel. */
  lemma {:induction false} TakeKeepsInv<D>(skipValidators: bool, s: State<D>)
    requires Inv(skipValidators, s) && Enabled(s, Join) && |s.joiner.got| < WORKERS
    ensures Inv(skipValidators, Apply(s, Join))
  {
    var k := |s.joiner.got|;
    ReportsUpdate(s.workers, k, Apply(s, Join).workers[k]);
  }

  /** The joiner has an answer from each worker, and looks for an error. */
  lemma {:induction false} ReturnKeepsInv<D>(skipValidators: bool, s: State<D>)
    requires Inv(skipValidators, s) && Enabled(s, Join) && |s.joiner.got| == WORKERS
    ensures Inv(skipValidators, Apply(s, Join))
  {
    ReportsCount(s.workers);
    hide Reports, WorkerOk;
  }

  lemma StepKeepsInv<D>(skipValidators: bool, s: State<D>, step: Step<D>)
    requires Inv(skipValidators, s) && Enabled(s, step)
    ensures Inv(skipValidators, Apply(s, step))
  {
    if step.Join? {
      if |s.joiner.got| < WORKERS {
        TakeKeepsInv(skipValidators, s);
      } else {
        ReturnKeepsInv(skipValidators, s);
      }
    } else {
      WorkerStepKeepsInv(skipValidators, s, step);
    }
  }

  predicate IsRun<D(==)>(skipValidators: bool, states: seq<State<D>>, steps: seq<Step<D>>) {
    && |states| == |steps| + 1
    && states[0] == Init(skipValidators)
    && forall i | 0 <= i < |steps| :: Enabled(states[i], steps[i]) && states[i + 1] == Apply(states[i], steps[i])
  }

  lemma {:induction false} RunKeepsInv<D>(skipValidators: bool, states: seq<State<D>>, steps: seq<Step<D>>, i: nat)
    requires IsRun(skipValidators, states, steps) && i < |states|
    ensures Inv(skipValidators, states[i])
  {
    if i == 0 {
      InitHolds<D>(skipValidators);
    } else {
      RunKeepsInv(skipValidators, states, steps, i - 1);
      StepKeepsInv(skipValidators, states[i - 1], steps[i - 1]);
    }
  }

  // ---------------------------------------------------------------------------
  // What a call returns

  /** In every interleaving: the call fails exactly if some worker has used up its attempts, and
      otherwise returns a block, its results, and a validator set unless that is skipped. */
  lemma JoinIsSound<D>(skipValidators: bool, states: seq<State<D>>, steps: seq<Step<D>>)
    requires IsRun(skipValidators, states, steps) && states[|steps|].joiner.Returned?
    ensures var s := states[|steps|];
            && |s.workers| == WORKERS
            && (s.joiner.data.None? <==> exists k :: 0 <= k < WORKERS && GaveUp(s.workers[k]))
    ensures var data := states[|steps|].joiner.data;
            data.Some? ==>
              && |data.value| == WORKERS
              && data.value[BLOCK].Some? && data.value[RESULTS].Some?
              && (data.value[VALIDATORS].Some? <==> !skipValidators)
  {
    RunKeepsInv(skipValidators, states, steps, |steps|);
    var s := states[|steps|];
    if s.joiner.data.None? {
      var k :| 0 <= k < WORKERS && HasReported(s.workers[k]);
      assert GaveUp(s.workers[k]);
    } else {
      assert GotOk(false, s.workers[BLOCK], s.joiner.data.value[BLOCK]);
      assert GotOk(false, s.workers[RESULTS], s.joiner.data.value[RESULTS]);
      assert GotOk(skipValidators, s.workers[VALIDATORS], s.joiner.data.value[VALIDATORS]);
    }
  }

  /** No send ever blocks and nothing is sent on the closed error channel. */
  lemma SendsNeverBlock<D>(skipValidators: bool, states: seq<State<D>>, steps: seq<Step<D>>, k: nat, value: D)
    requires IsRun(skipValidators, states, steps) && k < WORKERS
    ensures var s := states[|steps|];
            && |s.workers| == WORKERS && !s.panicked
            && (s.workers[k].phase.Trying? ==> Enabled(s, AttemptOk(k, value)))
            && (s.workers[k].phase.Exhausted? ==> Enabled(s, SendErr(k)) && !s.errClosed)
  {
    RunKeepsInv(skipValidators, states, steps, |steps|);
    var s := states[|steps|];
    if s.workers[k].phase.Exhausted? {
      assert GaveUp(s.workers[k]) && !HasReported(s.workers[k]);
      ReportsCount(s.workers);
    }
  }

  function PhaseWork(p: Phase): nat {
    match p
    case Skipped => 1
    case Trying(left) => left + 2
    case Delivered => 1
    case Exhausted => 2
    case Reported => 1
    case Stopped(_) => 0
  }

  function Work<D>(s: State<D>): int
    requires |s.workers| == WORKERS
  {
    PhaseWork(s.workers[0].phase) + PhaseWork(s.workers[1].phase) + PhaseWork(s.workers[2].phase)
    + match s.joiner
      case Joining(got) => WORKERS + 1 - |got|
      case Returned(_) => 0
  }

  lemma {:induction false} StepConsumesWork<D>(skipValidators: bool, s: State<D>, step: Step<D>)
    requires Inv(skipValidators, s) && Enabled(s, step)
    ensures |Apply(s, step).workers| == WORKERS && Work(Apply(s, step)) < Work(s)
  {
    hide WorkerOk, Reports, GotOk;
    if !step.Join? {
      WorkerMovesOn(skipValidators, s, step);
      hide Apply, Inv, Enabled;
    }
  }

  lemma {:induction false} WorkBounds<D>(skipValidators: bool, s: State<D>)
    requires Inv(skipValidators, s)
    ensures |s.workers| == WORKERS && 0 <= Work(s)
  {
    hide WorkerOk, Reports, GotOk;
  }

  lemma {:induction false} FirstWork<D>(skipValidators: bool)
    ensures Work(Init<D>(skipValidators)) <= 3 * (ATTEMPTS + 2) + 4
  {
  }

  lemma StepAt<D>(skipValidators: bool, states: seq<State<D>>, steps: seq<Step<D>>, n: nat)
    requires IsRun(skipValidators, states, steps) && n < |steps|
    ensures Enabled(states[n], steps[n]) && states[n + 1] == Apply(states[n], steps[n])
  {
  }

  lemma {:induction false} RunConsumesWork<D>(skipValidators: bool, states: seq<State<D>>, steps: seq<Step<D>>, n: nat)
    requires IsRun(skipValidators, states, steps) && n <= |steps|
    ensures |states[n].workers| == WORKERS && 0 <= Work(states[n]) && n + Work(states[n]) <= 3 * (ATTEMPTS + 2) + 4
  {
    hide Inv, Enabled, Apply, Work, Init;
    RunKeepsInv(skipValidators, states, steps, n);
    WorkBounds(skipValidators, states[n]);
    if n == 0 {
      FirstWork<D>(skipValidators);
    } else {
      RunConsumesWork(skipValidators, states, steps, n - 1);
      RunKeepsInv(skipValidators, states, steps, n - 1);
      StepAt(skipValidators, states, steps, n - 1);
      StepConsumesWork(skipValidators, states[n - 1], steps[n - 1]);
    }
  }

  /** A call always returns: no run is longer than forty steps, and while the joiner waits
      somebody can move. */
  lemma JoinTerminates<D(0)>(skipValidators: bool, states: seq<State<D>>, steps: seq<Step<D>>)
    requires IsRun(skipValidators, states, steps)
    ensures |steps| <= 40
    ensures states[|steps|].joiner.Joining? ==> exists step :: Enabled(states[|steps|], step)
  {
    RunConsumesWork(skipValidators, states, steps, |steps|);
    RunKeepsInv(skipValidators, states, steps, |steps|);
    var s := states[|steps|];
    if s.joiner.Joining? {
      if Enabled(s, Join) {
      } else {
        var k := |s.joiner.got|;
        SomebodyServes(skipValidators, s, k);
      }
    }
  }

  /** A worker whose channel is empty and open can move. */
  lemma SomebodyServes<D>(skipValidators: bool, s: State<D>, k: nat)
    requires Inv(skipValidators, s) && k < WORKERS && s.joiner.Joining? && |s.joiner.got| <= k
    requires s.workers[k].out == [] && !s.workers[k].closed
    ensures exists step :: Enabled(s, step)
  {
    ReportsCount(s.workers);
    match s.workers[k].phase
    case Skipped => assert Enabled(s, CloseOut(k));
    case Trying(_) => assert Enabled(s, AttemptFail(k));
    case Delivered => assert Enabled(s, CloseOut(k));
    case Exhausted => assert Enabled(s, SendErr(k));
    case Reported => assert Enabled(s, CloseOut(k));
    case Stopped(_) => assert false;
  }
}
