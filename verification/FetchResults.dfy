/** What a fetch of one block returns, and how often its workers try, told by the steps of the run. */
module FetchResults {
  import opened Chain
  import opened FetchJoin

  /** How many of the steps are failed attempts of worker `k`. */
  function Failures<D>(steps: seq<Step<D>>, k: nat): nat {
    if steps == [] then 0
    else
      var last := steps[|steps| - 1];
      Failures(steps[..|steps| - 1], k) + if last.AttemptFail? && last.k == k then 1 else 0
  }

  /** The values worker `k` got from its successful attempts. */
  function Fetched<D>(steps: seq<Step<D>>, k: nat): seq<D> {
    if steps == [] then []
    else
      var last := steps[|steps| - 1];
      Fetched(steps[..|steps| - 1], k) + if last.AttemptOk? && last.k == k then [last.value] else []
  }

  lemma {:induction false} FetchedIff<D>(steps: seq<Step<D>>, k: nat)
    ensures forall v :: v in Fetched(steps, k) <==> exists i :: 0 <= i < |steps| && steps[i] == AttemptOk(k, v)
  {
    if steps != [] {
      var init, last := steps[..|steps| - 1], steps[|steps| - 1];
      FetchedIff(init, k);
      forall v ensures v in Fetched(steps, k) <==> exists i :: 0 <= i < |steps| && steps[i] == AttemptOk(k, v) {
        if i :| 0 <= i < |steps| && steps[i] == AttemptOk(k, v) {
          assert i < |init| ==> init[i] == AttemptOk(k, v);
        }
        if v in Fetched(init, k) {
          var i :| 0 <= i < |init| && init[i] == AttemptOk(k, v);
          assert steps[i] == AttemptOk(k, v);
        } else if v in Fetched(steps, k) {
          assert steps[|steps| - 1] == AttemptOk(k, v);
        }
      }
    }
  }

  /** A worker's phase tells its failed attempts, and whether it has a value. */
  predicate Tried<D>(skips: bool, w: Worker<D>, failures: nat, fetched: seq<D>) {
    match w.phase
    case Skipped => failures == 0 && fetched == []
    case Trying(left) => failures + left == 10 && left >= 1 && fetched == []
    case Delivered => failures < 10 && |fetched| == 1
    case Exhausted => failures == 10 && fetched == []
    case Reported => failures == 10 && fetched == []
    case Stopped(true) => failures == 10 && fetched == []
    case Stopped(false) => failures < 10 && |fetched| == if skips then 0 else 1
  }

  function Values<D>(got: Option<D>): seq<D> {
    if got.Some? then [got.value] else []
  }

  /** A fetched value is in the worker's channel, or the joiner has taken it. */
  predicate Passed<D(==)>(joiner: Joiner<D>, k: nat, w: Worker<D>, fetched: seq<D>) {
    match joiner
    case Joining(got) => fetched == (if k < |got| then Values(got[k]) else []) + w.out
    case Returned(Some(got)) => fetched == (if k < |got| then Values(got[k]) else []) + w.out
    case Returned(None) => true
  }

  predicate Told<D(==)>(skipValidators: bool, s: State<D>, k: nat, failures: nat, fetched: seq<D>)
    requires k < |s.workers|
  {
    Tried(Skips(skipValidators, k), s.workers[k], failures, fetched) && Passed(s.joiner, k, s.workers[k], fetched)
  }

  /** The joiner takes from worker |got|, or returns; the other workers stay as they are. */
  lemma {:induction false} JoinEffect<D>(s: State<D>, k: nat)
    requires k < |s.workers| && Enabled(s, Join) && |s.workers[k].out| <= 1
    ensures var t, got, w := Apply(s, Join), s.joiner.got, s.workers[k];
            && |t.workers| == |s.workers| && t.workers[k].phase == w.phase
            && match t.joiner
               case Joining(taken) =>
                 && |taken| == |got| + 1
                 && (if k == |got| then Values(taken[k]) + t.workers[k].out == w.out
                     else t.workers[k] == w && (k < |got| ==> taken[k] == got[k]))
               case Returned(Some(data)) => data == got && t.workers[k] == w
               case Returned(None) => true
  {
    var out := s.workers[k].out;
    if k == |s.joiner.got| && out != [] {
      assert out == [out[0]] + out[1..];
    }
  }

  lemma {:induction false} JoinTells<D>(skipValidators: bool, s: State<D>, k: nat, failures: nat, fetched: seq<D>)
    requires Inv(skipValidators, s) && Enabled(s, Join) && k < WORKERS && Told(skipValidators, s, k, failures, fetched)
    ensures |Apply(s, Join).workers| == WORKERS
    ensures Told(skipValidators, Apply(s, Join), k, failures, fetched)
  {
    assert WorkerOk(Skips(skipValidators, k), s.workers[k]);
    assert s.joiner.Joining?;
    JoinEffect(s, k);
    hide Inv, WorkerOk, Apply, Enabled, Values, Skips;
  }

  /** A worker's own step. */
  lemma {:induction false} OwnStepTells<D>(skips: bool, w: Worker<D>, joiner: Joiner<D>, k: nat, s: State<D>, step: Step<D>,
                                           failures: nat, fetched: seq<D>)
    requires k < |s.workers| && s.workers[k] == w && WorkerOk(skips, w) && Enabled(s, step) && !step.Join? && step.k == k
    requires Tried(skips, w, failures, fetched) && Passed(joiner, k, w, fetched)
    ensures var w', failures' := Apply(s, step).workers[k], failures + if step.AttemptFail? then 1 else 0;
            var fetched' := fetched + if step.AttemptOk? then [step.value] else [];
            Tried(skips, w', failures', fetched') && Passed(joiner, k, w', fetched')
  {
    if step.AttemptOk? {
      assert w.out == [] && fetched == [];
    }
  }

  lemma {:induction false} StepTells<D>(skipValidators: bool, s: State<D>, step: Step<D>, k: nat, failures: nat, fetched: seq<D>)
    requires Inv(skipValidators, s) && Enabled(s, step) && k < WORKERS && Told(skipValidators, s, k, failures, fetched)
    ensures |Apply(s, step).workers| == WORKERS
    ensures Told(skipValidators, Apply(s, step), k,
                 failures + (if step.AttemptFail? && step.k == k then 1 else 0),
                 fetched + if step.AttemptOk? && step.k == k then [step.value] else [])
  {
    assert WorkerOk(Skips(skipValidators, k), s.workers[k]);
    hide Reports, WorkerOk, GotOk, Tried, Passed, Inv, Skips;
    assert fetched + [] == fetched;
    if step.Join? {
      JoinTells(skipValidators, s, k, failures, fetched);
    } else if step.k == k {
      OwnStepTells(Skips(skipValidators, k), s.workers[k], s.joiner, k, s, step, failures, fetched);
    }
  }

  lemma {:induction false} RunTells<D>(skipValidators: bool, states: seq<State<D>>, steps: seq<Step<D>>, k: nat, n: nat)
    requires IsRun(skipValidators, states, steps) && k < WORKERS && n <= |steps|
    ensures |states[n].workers| == WORKERS
    ensures Told(skipValidators, states[n], k, Failures(steps[..n], k), Fetched(steps[..n], k))
  {
    hide Told;
    if n == 0 {
      FirstTells<D>(skipValidators, k);
      assert steps[..0] == [];
    } else {
      RunTells(skipValidators, states, steps, k, n - 1);
      RunKeepsInv(skipValidators, states, steps, n - 1);
      StepAt(skipValidators, states, steps, n - 1);
      hide Inv, Enabled, Apply, Init, IsRun;
      StepTells(skipValidators, states[n - 1], steps[n - 1], k, Failures(steps[..n - 1], k), Fetched(steps[..n - 1], k));
      assert steps[..n][..n - 1] == steps[..n - 1];
    }
  }

  lemma FirstTells<D>(skipValidators: bool, k: nat)
    requires k < WORKERS
    ensures Told(skipValidators, Init<D>(skipValidators), k, 0, [])
  {
  }

  /** A worker gives up exactly when its tenth attempt fails, and not before. */
  lemma GivesUpAfterTen<D>(skipValidators: bool, states: seq<State<D>>, steps: seq<Step<D>>, k: nat)
    requires IsRun(skipValidators, states, steps) && k < WORKERS
    ensures |states[|steps|].workers| == WORKERS && Failures(steps, k) <= 10
    ensures GaveUp(states[|steps|].workers[k]) <==> Failures(steps, k) == 10
  {
    RunTells(skipValidators, states, steps, k, |steps|);
    assert steps[..|steps|] == steps;
  }

  /** The data of a successful call are the values its workers fetched, each at its place; a worker fetches
      at most one. */
  lemma ReturnsWhatWasFetched<D>(skipValidators: bool, states: seq<State<D>>, steps: seq<Step<D>>, k: nat)
    requires IsRun(skipValidators, states, steps) && k < WORKERS
    requires states[|steps|].joiner.Returned? && states[|steps|].joiner.data.Some?
    ensures |states[|steps|].joiner.data.value| == WORKERS
    ensures forall v :: states[|steps|].joiner.data.value[k] == Some(v) <==>
                        exists i :: 0 <= i < |steps| && steps[i] == AttemptOk(k, v)
    ensures forall i, j | 0 <= i < |steps| && 0 <= j < |steps| && steps[i].AttemptOk? && steps[j].AttemptOk?
                          && steps[i].k == steps[j].k == k :: steps[i].value == steps[j].value
  {
    var data := states[|steps|].joiner.data.value;
    RunKeepsInv(skipValidators, states, steps, |steps|);
    RunTells(skipValidators, states, steps, k, |steps|);
    assert steps[..|steps|] == steps;
    FetchedIff(steps, k);
    ValueIsFetched(skipValidators, states[|steps|], k, Failures(steps, k), Fetched(steps, k));
    hide Inv, Told, Enabled, Apply, IsRun;
    forall v ensures data[k] == Some(v) <==> v in Fetched(steps, k) {
    }
    forall i, j | 0 <= i < |steps| && 0 <= j < |steps| && steps[i].AttemptOk? && steps[j].AttemptOk?
                  && steps[i].k == steps[j].k == k ensures steps[i].value == steps[j].value {
      assert steps[i] == AttemptOk(k, steps[i].value) && steps[j] == AttemptOk(k, steps[j].value);
      assert steps[i].value in Fetched(steps, k) && steps[j].value in Fetched(steps, k);
    }
  }

  lemma ValueIsFetched<D>(skipValidators: bool, s: State<D>, k: nat, failures: nat, fetched: seq<D>)
    requires Inv(skipValidators, s) && k < WORKERS && Told(skipValidators, s, k, failures, fetched)
    requires s.joiner.Returned? && s.joiner.data.Some?
    ensures |s.joiner.data.value| == WORKERS && fetched == Values(s.joiner.data.value[k])
  {
    assert GotOk(Skips(skipValidators, k), s.workers[k], s.joiner.data.value[k]);
  }

  /** The call fails exactly if some worker fails ten times. */
  lemma FailsAfterTen<D>(skipValidators: bool, states: seq<State<D>>, steps: seq<Step<D>>)
    requires IsRun(skipValidators, states, steps) && states[|steps|].joiner.Returned?
    ensures states[|steps|].joiner.data.None? <==> exists k :: 0 <= k < WORKERS && Failures(steps, k) == 10
  {
    hide Failures;
    JoinIsSound(skipValidators, states, steps);
    forall k | 0 <= k < WORKERS
      ensures GaveUp(states[|steps|].workers[k]) <==> Failures(steps, k) == 10
    {
      GivesUpAfterTen(skipValidators, states, steps, k);
    }
    if states[|steps|].joiner.data.None? {
      var k :| 0 <= k < WORKERS && GaveUp(states[|steps|].workers[k]);
      assert Failures(steps, k) == 10;
    }
  }
}
