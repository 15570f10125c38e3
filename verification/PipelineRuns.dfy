/** Whole runs of the pipeline: what every reachable state satisfies, and how runs end. */
module PipelineRuns {
  import opened Chain
  import opened Pipeline
  import opened PipelineInvariant

  /** `states` is what an interleaving `steps` goes through from the initial state. */
  predicate IsRun(c: Config, states: seq<State>, steps: seq<Step>) {
    && |states| == |steps| + 1
    && states[0] == Init(c)
    && forall i | 0 <= i < |steps| :: Enabled(c, states[i], steps[i]) && states[i + 1] == Apply(c, states[i], steps[i])
  }

  lemma {:induction false} RunKeepsInv(c: Config, states: seq<State>, steps: seq<Step>, i: nat)
    requires c.init >= 1 && IsRun(c, states, steps) && i < |states|
    ensures Inv(c, states[i])
  {
    if i == 0 {
      InitHolds(c);
    } else {
      RunKeepsInv(c, states, steps, i - 1);
      StepKeepsInv(c, states[i - 1], steps[i - 1]);
    }
  }

  ghost predicate Reachable(c: Config, s: State) {
    exists states: seq<State>, steps: seq<Step> :: IsRun(c, states, steps) && s == states[|steps|]
  }

  lemma ReachableInv(c: Config, s: State)
    requires c.init >= 1 && Reachable(c, s)
    ensures Inv(c, s)
  {
    var states: seq<State>, steps: seq<Step> :| IsRun(c, states, steps) && s == states[|steps|];
    RunKeepsInv(c, states, steps, |steps|);
  }

  // ---------------------------------------------------------------------------
  // Safety

  /** Whatever the interleaving, the channel carries the stream of a sequential fetcher. */
  lemma ChannelIsInOrder(c: Config, s: State)
    requires c.init >= 1 && Reachable(c, s)
    ensures s.sent == c.Stream(|s.sent|)
    ensures c.dir.Backward? ==> |s.sent| <= c.Total()
  {
    ReachableInv(c, s);
  }

  /** Each dispensed height is in exactly one place: being fetched by one job, in the map, or
      taken by the announcer; and no other height is anywhere. */
  lemma HeightsAreConserved(c: Config, s: State, h: int)
    requires c.init >= 1 && Reachable(c, s)
    ensures (if Dispensed(c, s, h) then 1 else 0) ==
            (if InFlight(s, h) then 1 else 0) + (if h in s.buf then 1 else 0) + (if Taken(c, s, h) then 1 else 0)
    ensures forall i, j | 0 <= i < |s.jobs| && 0 <= j < |s.jobs| && s.jobs[i] == s.jobs[j] == Fetching(h) :: i == j
  {
    ReachableInv(c, s);
  }

  /** In backward direction the first height is fetched but never announced. */
  lemma FirstHeightIsNotAnnounced(c: Config, s: State)
    requires c.init >= 1 && Reachable(c, s) && c.dir.Backward? && s.next < c.init
    ensures c.init in s.buf || InFlight(s, c.init)
    ensures forall i | 0 <= i < |s.sent| :: c.StreamHeight(i) != c.init
  {
    ReachableInv(c, s);
    assert Dispensed(c, s, c.init) && !Taken(c, s, c.init);
  }

  lemma BacklogBound(c: Config, s: State)
    requires c.init >= 1 && Reachable(c, s)
    ensures |s.buf| <= 1024 * c.jobs + AsleepCount(s.jobs) <= 1025 * c.jobs
  {
    ReachableInv(c, s);
    AsleepBounds(s.jobs);
  }

  /** While the announcer is parked, the block it waits for is not in the map. */
  lemma WakeupsAreNotLost(c: Config, s: State)
    requires c.init >= 1 && Reachable(c, s) && s.ann.Parked?
    ensures s.ann.want !in s.buf
  {
    ReachableInv(c, s);
  }

  /** The smallest height a state mentions is never negative, so no uint64 height underflows. */
  lemma HeightsDoNotUnderflow(c: Config, s: State)
    requires c.init >= 1 && Reachable(c, s)
    ensures s.next >= 0
    ensures s.ann.Looking? || s.ann.Parked? ==> s.ann.want >= 0
    ensures forall j | 0 <= j < |s.jobs| && s.jobs[j].Fetching? :: s.jobs[j].h >= 1
    ensures s.ann.Sending? ==> s.ann.taken >= 1
    ensures forall h | h in s.buf :: h >= 1
    ensures Faithful(c.serve) ==> s.watch.latest >= 0
  {
    ReachableInv(c, s);
  }

  /** The handler is called with exactly the adjacent pairs of the stream, each once, and the
      last synced height is that of the last handled block. */
  lemma HandledPairs(c: Config, s: State)
    requires c.init >= 1 && Reachable(c, s)
    ensures s.watch.handled == c.Pairs(|s.watch.handled|)
    ensures forall i | 0 <= i < |s.watch.handled| :: Adjacent(s.watch.handled[i])
    ensures Faithful(c.serve) ==>
              s.watch.latest == if s.watch.handled == [] then c.init - 1
                                else if c.dir.Forward? then c.init + |s.watch.handled|
                                else c.init - |s.watch.handled|
    ensures c.dir.Backward? ==> |s.watch.handled| <= if c.Total() == 0 then 0 else c.Total() - 1
  {
    ReachableInv(c, s);
  }

  /** The height-mismatch exit is taken only if the node served a wrong block for one of the two
      heights, so never with a faithful node. */
  lemma MismatchBlamesNode(c: Config, s: State)
    requires c.init >= 1 && Reachable(c, s) && s.watch.halt.HeightMismatch?
    ensures exists h | h == c.StreamHeight(|s.watch.handled|) || h == c.StreamHeight(|s.watch.handled| + 1) ::
              c.serve(h).height != h
    ensures !Faithful(c.serve)
  {
    ReachableInv(c, s);
    var k := |s.watch.handled|;
    assert !Adjacent(c.PairAt(k));
    assert c.serve(c.StreamHeight(k)).height != c.StreamHeight(k)
           || c.serve(c.StreamHeight(k + 1)).height != c.StreamHeight(k + 1);
  }

  // ---------------------------------------------------------------------------
  // Throttle

  /** After its insert, a job goes on at once exactly if the map holds at most 1024 blocks per job; else it
      sleeps. */
  lemma SleepsIffTooMany(c: Config, states: seq<State>, steps: seq<Step>, n: nat, j: nat)
    requires c.init >= 1 && IsRun(c, states, steps) && n < |steps| && steps[n] == FetchOk(j)
    ensures var t := states[n + 1];
            && j < |t.jobs|
            && (t.jobs[j].Ready? <==> |t.buf| <= 1024 * c.jobs)
            && (t.jobs[j].Sleeping? <==> |t.buf| > 1024 * c.jobs)
  {
  }

  /** A job that sleeps has gone to sleep after an insert that left too many blocks in the map, and has not
      drawn, fetched or woken since. */
  lemma {:induction false} SleepHasACause(c: Config, states: seq<State>, steps: seq<Step>, n: nat, j: nat) returns (m: nat)
    requires c.init >= 1 && IsRun(c, states, steps) && n < |states| && j < |states[n].jobs| && states[n].jobs[j].Sleeping?
    ensures m < n && steps[m] == FetchOk(j) && |states[m + 1].buf| > 1024 * c.jobs
    ensures forall i | m < i <= n :: j < |states[i].jobs| && states[i].jobs[j].Sleeping?
  {
    assert n > 0;
    if steps[n - 1] == FetchOk(j) {
      m := n - 1;
    } else {
      KeepsSleeping(c, states[n - 1], steps[n - 1], j);
      m := SleepHasACause(c, states, steps, n - 1, j);
    }
  }

  lemma KeepsSleeping(c: Config, s: State, step: Step, j: nat)
    requires Enabled(c, s, step) && step != FetchOk(j) && j < |Apply(c, s, step).jobs| && Apply(c, s, step).jobs[j].Sleeping?
    ensures j < |s.jobs| && s.jobs[j].Sleeping?
  {
  }

  /** A job may wake exactly when it sleeps and the map holds at most 1024 blocks per job; then nothing but
      waking changes it. */
  lemma WakesIffFew(c: Config, s: State, j: nat)
    requires c.init >= 1 && Reachable(c, s) && s.watch.halt.Running?
    ensures Enabled(c, s, Wake(j)) <==> j < |s.jobs| && s.jobs[j].Sleeping? && |s.buf| <= 1024 * c.jobs
    ensures Enabled(c, s, Wake(j)) ==> !Enabled(c, s, StayAsleep(j)) && Apply(c, s, Wake(j)) == s.(jobs := s.jobs[j := Ready])
  {
    ReachableInv(c, s);
  }

  /** The announcer's send is held back exactly while the channel holds 100 blocks per job. */
  lemma SendBlocksIff(c: Config, s: State)
    requires c.init >= 1 && Reachable(c, s) && s.watch.halt.Running? && s.ann.Sending?
    ensures !Enabled(c, s, Send) <==> |s.chan| == 100 * c.jobs
  {
    ReachableInv(c, s);
  }

  // ---------------------------------------------------------------------------
  // Progress

  /** A step that is not a retry. */
  predicate CanProgress(c: Config, s: State, step: Step) {
    Enabled(c, s, step) && !IsRetry(step)
  }

  /** A backward sync with nothing left to do. */
  predicate Complete(c: Config, s: State) {
    && c.dir.Backward?
    && |s.sent| == c.Total()
    && s.chan == []
    && (forall j | 0 <= j < |s.jobs| :: s.jobs[j].Done?)
    && (if c.Total() > 0 then s.ann.Finished? else s.ann.Parked?)
  }

  /** Nobody can move by drawing, fetching, looking, sending or receiving. */
  predicate Idle(s: State) {
    && s.chan == []
    && !s.ann.Looking? && !s.ann.Sending?
    && forall j | 0 <= j < |s.jobs| :: s.jobs[j].Sleeping? || s.jobs[j].Done?
  }

  /** With everybody else idle, the map holds at most the height that is never announced. */
  lemma IdleBacklogIsSmall(c: Config, s: State)
    requires Inv(c, s) && Idle(s)
    ensures |s.buf| <= 1
  {
    forall h | h in s.buf ensures h == c.init && c.dir.Backward? {
      assert Dispensed(c, s, h) && !Taken(c, s, h);
      if s.ann.Parked? {
        assert !Taken(c, s, s.ann.want) && s.ann.want !in s.buf && !InFlight(s, s.ann.want);
        assert !Dispensed(c, s, s.ann.want);
      }
    }
    assert s.buf.Keys <= {c.init};
    SubsetCardinality(s.buf.Keys, {c.init});
    assert |s.buf.Keys| == |s.buf|;
  }

  lemma NotIdleProgresses(c: Config, s: State)
    requires Inv(c, s) && s.watch.halt.Running? && c.jobs >= 1 && !Idle(s)
    ensures exists step :: CanProgress(c, s, step)
  {
    if s.chan != [] {
      assert CanProgress(c, s, Receive(true));
    } else if s.ann.Looking? {
      assert CanProgress(c, s, Look);
    } else if s.ann.Sending? {
      assert CanProgress(c, s, Send);
    } else {
      var j :| 0 <= j < |s.jobs| && !s.jobs[j].Sleeping? && !s.jobs[j].Done?;
      assert CanProgress(c, s, if s.jobs[j].Ready? then Draw(j) else FetchOk(j));
    }
  }

  lemma AllDoneIsComplete(c: Config, s: State)
    requires Inv(c, s) && Idle(s) && c.jobs >= 1
    requires forall j | 0 <= j < |s.jobs| :: s.jobs[j].Done?
    ensures Complete(c, s)
  {
  }

  /** No stuck state: a pipeline that has not completed can always move, even with every job
      asleep in the backlog throttle; and a completed one cannot. */
  lemma StuckIffComplete(c: Config, s: State)
    requires c.init >= 1 && c.jobs >= 1 && Reachable(c, s) && s.watch.halt.Running?
    ensures Complete(c, s) <==> !exists step :: CanProgress(c, s, step)
  {
    ReachableInv(c, s);
    if !Idle(s) {
      NotIdleProgresses(c, s);
    } else {
      IdleBacklogIsSmall(c, s);
      if j :| 0 <= j < |s.jobs| && s.jobs[j].Sleeping? {
        assert CanProgress(c, s, Wake(j));
      } else {
        AllDoneIsComplete(c, s);
        forall step ensures !CanProgress(c, s, step) {
        }
      }
    }
  }

  function Weight(job: Job): int {
    match job
    case Ready => 1
    case Fetching(_) => 7
    case Sleeping => 2
    case Done => 0
  }

  function AnnouncerWeight(ann: Announcer): int {
    match ann
    case Looking(_) => 1
    case Parked(_) => 0
    case Sending(_, _) => 3
    case Finished => 0
  }

  /** What is left to do; in forward direction, each height drawn counts against it. */
  function Work(c: Config, s: State): int {
    7 * (if c.dir.Forward? then c.init - s.next else if s.next >= c.Lowest() then s.next - c.Lowest() + 1 else 0)
    + JobSum(s.jobs, Weight) + 3 * |s.buf| + AnnouncerWeight(s.ann) + |s.chan|
  }

  lemma WorkBound(c: Config, s: State)
    ensures Work(c, s) >= if c.dir.Forward? then 7 * (c.init - s.next) else 0
  {
    JobSumBounds(s.jobs, Weight, 7);
  }

  lemma JobStepConsumesWork(c: Config, s: State, step: Step, j: nat)
    requires step == Draw(j) || step == FetchOk(j) || step == Wake(j)
    requires Shape(c, s) && Enabled(c, s, step)
    ensures Work(c, Apply(c, s, step)) < Work(c, s)
  {
    var t := Apply(c, s, step);
    assert t.jobs == s.jobs[j := t.jobs[j]];
    JobSumUpdate(s.jobs, j, t.jobs[j], Weight);
    if step.FetchOk? {
      var h := s.jobs[j].h;
      assert t.buf.Keys == s.buf.Keys + {h};
      assert |t.buf.Keys| == |t.buf| && |s.buf.Keys| == |s.buf|;
    }
  }

  /** Every step but a retry strictly reduces the work left. */
  lemma StepConsumesWork(c: Config, s: State, step: Step)
    requires Shape(c, s) && CanProgress(c, s, step)
    ensures Work(c, Apply(c, s, step)) < Work(c, s)
  {
    match step
    case Draw(j) => JobStepConsumesWork(c, s, step, j);
    case FetchOk(j) => JobStepConsumesWork(c, s, step, j);
    case Wake(j) => JobStepConsumesWork(c, s, step, j);
    case Look =>
      var t := Apply(c, s, step);
      if s.ann.want in s.buf {
        assert t.buf.Keys == s.buf.Keys - {s.ann.want};
        assert |t.buf.Keys| == |t.buf| && |s.buf.Keys| == |s.buf|;
      }
    case _ =>
  }

  /** How many of the steps are not retries. */
  function Moves(steps: seq<Step>): nat {
    if steps == [] then 0
    else Moves(steps[..|steps| - 1]) + if IsRetry(steps[|steps| - 1]) then 0 else 1
  }

  lemma RunKeepsShape(c: Config, states: seq<State>, steps: seq<Step>, i: nat)
    requires c.init >= 1 && IsRun(c, states, steps) && i < |states|
    ensures Shape(c, states[i])
  {
    RunKeepsInv(c, states, steps, i);
  }

  lemma {:induction false} MovesConsumeWork(c: Config, states: seq<State>, steps: seq<Step>, n: nat)
    requires c.init >= 1 && IsRun(c, states, steps) && n <= |steps|
    ensures Moves(steps[..n]) + Work(c, states[n]) <= Work(c, states[0])
  {
    if n > 0 {
      MovesConsumeWork(c, states, steps, n - 1);
      RunKeepsShape(c, states, steps, n - 1);
      assert steps[..n][..n - 1] == steps[..n - 1];
      if !IsRetry(steps[n - 1]) {
        StepConsumesWork(c, states[n - 1], steps[n - 1]);
      }
    }
  }

  lemma {:induction false} ReadyJobsWeight(jobs: seq<Job>)
    requires forall j | 0 <= j < |jobs| :: jobs[j].Ready?
    ensures JobSum(jobs, Weight) == |jobs|
  {
    if jobs != [] {
      ReadyJobsWeight(jobs[1..]);
    }
  }

  /** Real termination: a backward run makes at most this many steps besides retries. */
  lemma BackwardRunIsBounded(c: Config, states: seq<State>, steps: seq<Step>)
    requires c.init >= 1 && c.dir.Backward? && IsRun(c, states, steps)
    ensures Moves(steps) <= 7 * (if c.init >= c.Lowest() then c.init - c.Lowest() + 1 else 0) + c.jobs + 1
  {
    MovesConsumeWork(c, states, steps, |steps|);
    assert steps[..|steps|] == steps;
    WorkBound(c, states[|steps|]);
    ReadyJobsWeight(Init(c).jobs);
  }

  function FetchWeight(job: Job): int {
    if job.Fetching? then 1 else 0
  }

  /** How many heights have been drawn. */
  function DrawnCount(c: Config, s: State): int {
    if c.dir.Forward? then s.next - c.init else c.init - s.next
  }

  /** Heights are conserved in number: as many have been drawn as are being fetched, stored or taken. */
  ghost predicate CountsMatch(c: Config, s: State) {
    DrawnCount(c, s) == JobSum(s.jobs, FetchWeight) + |s.buf| + TakenCount(s)
  }

  lemma JobStepKeepsCounts(c: Config, s: State, step: Step, j: nat)
    requires step == Draw(j) || step == FetchOk(j) || step == Wake(j)
    requires FetchesDistinct(c, s) && CountsMatch(c, s) && Enabled(c, s, step)
    ensures CountsMatch(c, Apply(c, s, step))
  {
    var t := Apply(c, s, step);
    assert t.jobs == s.jobs[j := t.jobs[j]];
    JobSumUpdate(s.jobs, j, t.jobs[j], FetchWeight);
    hide JobSum;
    if step.FetchOk? {
      var h := s.jobs[j].h;
      assert h !in s.buf;
      AddedCount(s.buf, h, c.serve(h));
    }
  }

  lemma AddedCount<K, V>(m: map<K, V>, k: K, v: V)
    requires k !in m
    ensures |m[k := v]| == |m| + 1
  {
    assert m[k := v].Keys == m.Keys + {k};
    assert |m[k := v].Keys| == |m[k := v]| && |m.Keys| == |m|;
  }

  lemma RemovedCount<K, V>(m: map<K, V>, k: K)
    requires k in m
    ensures |m - {k}| == |m| - 1
  {
    assert (m - {k}).Keys == m.Keys - {k};
    assert |(m - {k}).Keys| == |m - {k}| && |m.Keys| == |m|;
  }

  lemma StepKeepsCounts(c: Config, s: State, step: Step)
    requires FetchesDistinct(c, s) && CountsMatch(c, s) && Enabled(c, s, step)
    ensures CountsMatch(c, Apply(c, s, step))
  {
    hide FetchesDistinct, JobSum;
    match step
    case Draw(j) => JobStepKeepsCounts(c, s, step, j);
    case FetchOk(j) => JobStepKeepsCounts(c, s, step, j);
    case Wake(j) => JobStepKeepsCounts(c, s, step, j);
    case Look =>
      if s.ann.want in s.buf {
        RemovedCount(s.buf, s.ann.want);
      }
    case _ =>
  }

  lemma {:induction false} ReadyJobsFetchNothing(jobs: seq<Job>)
    requires forall j | 0 <= j < |jobs| :: jobs[j].Ready?
    ensures JobSum(jobs, FetchWeight) == 0
  {
    if jobs != [] {
      ReadyJobsFetchNothing(jobs[1..]);
    }
  }

  lemma {:induction false} RunKeepsCounts(c: Config, states: seq<State>, steps: seq<Step>, i: nat)
    requires c.init >= 1 && IsRun(c, states, steps) && i < |states|
    ensures CountsMatch(c, states[i])
  {
    hide CountsMatch;
    if i == 0 {
      NothingDrawn(c);
    } else {
      RunKeepsCounts(c, states, steps, i - 1);
      RunKeepsInv(c, states, steps, i - 1);
      StepKeepsCounts(c, states[i - 1], steps[i - 1]);
    }
  }

  lemma NothingDrawn(c: Config)
    ensures CountsMatch(c, Init(c))
  {
    ReadyJobsFetchNothing(Init(c).jobs);
  }

  /** The blocks the watch loop has received. */
  function ReceivedCount(s: State): int {
    |s.sent| - |s.chan|
  }

  /** A forward run cannot go on without delivering: besides retries, its steps are bounded by the blocks
      received and the number of jobs. */
  lemma ForwardRunIsBounded(c: Config, states: seq<State>, steps: seq<Step>)
    requires c.init >= 1 && c.dir.Forward? && IsRun(c, states, steps)
    ensures Moves(steps) <= 7 * (ReceivedCount(states[|steps|]) + 1126 * c.jobs + 1) + c.jobs + 1
  {
    var s := states[|steps|];
    MovesConsumeWork(c, states, steps, |steps|);
    assert steps[..|steps|] == steps;
    WorkBound(c, s);
    ReadyJobsWeight(Init(c).jobs);
    DrawnIsBounded(c, states, steps);
  }

  /** No more heights are drawn ahead of the watch loop than jobs, map, announcer and channel can hold. */
  lemma DrawnIsBounded(c: Config, states: seq<State>, steps: seq<Step>)
    requires c.init >= 1 && IsRun(c, states, steps)
    ensures DrawnCount(c, states[|steps|]) <= ReceivedCount(states[|steps|]) + 1126 * c.jobs + 1
  {
    var s := states[|steps|];
    RunKeepsCounts(c, states, steps, |steps|);
    RunKeepsInv(c, states, steps, |steps|);
    AsleepBounds(s.jobs);
    JobSumBounds(s.jobs, FetchWeight, 1);
  }

  /** A run that can no longer move has announced and handled everything: heights init-1 down to
      the lowest height, in pairs. */
  lemma FinishedRunIsExact(c: Config, s: State)
    requires c.init >= 1 && c.jobs >= 1 && Reachable(c, s) && s.watch.halt.Running?
    requires !exists step :: CanProgress(c, s, step)
    ensures c.dir.Backward?
    ensures s.sent == c.Stream(c.Total())
    ensures s.watch.handled == c.Pairs(if c.Total() == 0 then 0 else c.Total() - 1)
  {
    StuckIffComplete(c, s);
    ReachableInv(c, s);
  }
}
