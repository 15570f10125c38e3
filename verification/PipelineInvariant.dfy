/** Every step of the pipeline keeps the invariant, whatever the interleaving. */
module PipelineInvariant {
  import opened Chain
  import opened Pipeline

  lemma {:induction false} JobSumUpdate(jobs: seq<Job>, j: nat, job: Job, weight: Job -> int)
    requires j < |jobs|
    ensures JobSum(jobs[j := job], weight) == JobSum(jobs, weight) - weight(jobs[j]) + weight(job)
  {
    var updated := jobs[j := job];
    if j == 0 {
      assert updated[1..] == jobs[1..];
    } else {
      assert updated[1..] == jobs[1..][j - 1 := job];
      JobSumUpdate(jobs[1..], j - 1, job, weight);
    }
  }

  lemma {:induction false} JobSumBounds(jobs: seq<Job>, weight: Job -> int, top: int)
    requires forall job :: 0 <= weight(job) <= top
    ensures 0 <= JobSum(jobs, weight) <= top * |jobs|
  {
    if jobs != [] {
      JobSumBounds(jobs[1..], weight, top);
    }
  }

  lemma AsleepUpdate(jobs: seq<Job>, j: nat, job: Job)
    requires j < |jobs|
    ensures AsleepCount(jobs[j := job]) ==
            AsleepCount(jobs) - (if jobs[j].Sleeping? then 1 else 0) + (if job.Sleeping? then 1 else 0)
  {
    JobSumUpdate(jobs, j, job, (job: Job) => if job.Sleeping? then 1 else 0);
  }

  lemma AsleepBounds(jobs: seq<Job>)
    ensures 0 <= AsleepCount(jobs) <= |jobs|
  {
    JobSumBounds(jobs, (job: Job) => if job.Sleeping? then 1 else 0, 1);
  }

  lemma {:induction false} ReadyNobodySleeps(jobs: seq<Job>)
    requires forall j | 0 <= j < |jobs| :: jobs[j].Ready?
    ensures AsleepCount(jobs) == 0
  {
    if jobs != [] {
      ReadyNobodySleeps(jobs[1..]);
    }
  }

  lemma InitHolds(c: Config)
    requires c.init >= 1
    ensures Inv(c, Init(c))
  {
    ReadyNobodySleeps(Init(c).jobs);
    assert Init(c).sent == c.Stream(0);
    assert Init(c).watch.handled == c.Pairs(0);
  }

  lemma {:induction false} SubsetCardinality<T>(a: set<T>, b: set<T>)
    requires a <= b
    ensures |a| <= |b|
  {
    if a != {} {
      var x :| x in a;
      SubsetCardinality(a - {x}, b - {x});
    }
  }

  // --- Every dispensed height is in one place ----------------------------------

  /** A step that moves no height keeps the flow. */
  lemma FlowFrame(c: Config, s: State, t: State)
    requires Flow(c, s)
    requires t.next == s.next && t.buf == s.buf && TakenCount(t) == TakenCount(s)
    requires |t.jobs| == |s.jobs|
    requires forall j | 0 <= j < |s.jobs| :: t.jobs[j] == s.jobs[j] || (!t.jobs[j].Fetching? && !s.jobs[j].Fetching?)
    ensures Flow(c, t)
  {
  }

  lemma InFlightFrame(s: State, t: State, h: int)
    requires |t.jobs| == |s.jobs|
    requires forall j | 0 <= j < |s.jobs| && s.jobs[j] == Fetching(h) :: t.jobs[j] == s.jobs[j]
    ensures InFlight(s, h) ==> InFlight(t, h)
  {
  }

  lemma DrawKeepsFlow(c: Config, s: State, j: nat)
    requires Shape(c, s) && Flow(c, s) && Enabled(c, s, Draw(j))
    ensures Flow(c, Apply(c, s, Draw(j)))
  {
    var t := Apply(c, s, Draw(j));
    assert !Dispensed(c, s, s.next);
    assert !Taken(c, s, s.next);
    forall h | Dispensed(c, t, h) ensures Taken(c, t, h) || h in t.buf || InFlight(t, h) {
      if h == s.next {
        assert t.jobs[j] == Fetching(h);
      } else {
        assert Dispensed(c, s, h);
        InFlightFrame(s, t, h);
      }
    }
  }

  lemma FetchKeepsFlow(c: Config, s: State, j: nat)
    requires Flow(c, s) && Enabled(c, s, FetchOk(j))
    ensures Flow(c, Apply(c, s, FetchOk(j)))
  {
    var t := Apply(c, s, FetchOk(j));
    forall h | Dispensed(c, t, h) ensures Taken(c, t, h) || h in t.buf || InFlight(t, h) {
      assert Dispensed(c, s, h);
      if h != s.jobs[j].h {
        InFlightFrame(s, t, h);
      }
    }
  }

  /** The announcer takes only heights of the stream, because everything in the map was dispensed. */
  lemma LookTakesNext(c: Config, s: State)
    requires Shape(c, s) && Flow(c, s) && InOrder(c, s) && s.ann.Looking? && s.ann.want in s.buf
    ensures c.dir.Backward? ==> |s.sent| < c.Total()
  {
  }

  lemma LookKeepsFlow(c: Config, s: State)
    requires Flow(c, s) && InOrder(c, s) && Enabled(c, s, Look)
    ensures Flow(c, Apply(c, s, Look))
  {
    var t := Apply(c, s, Look);
    if s.ann.want in s.buf {
      forall h | Dispensed(c, t, h) ensures Taken(c, t, h) || h in t.buf || InFlight(t, h) {
        assert Dispensed(c, s, h);
        InFlightFrame(s, t, h);
      }
      forall h | Taken(c, t, h) ensures Dispensed(c, t, h) {
        assert h == s.ann.want || Taken(c, s, h);
      }
    } else {
      FlowFrame(c, s, t);
    }
  }

  lemma StepKeepsFlow(c: Config, s: State, step: Step)
    requires Shape(c, s) && Flow(c, s) && InOrder(c, s) && Enabled(c, s, step)
    ensures Flow(c, Apply(c, s, step))
  {
    match step
    case Draw(j) => DrawKeepsFlow(c, s, j);
    case FetchOk(j) => FetchKeepsFlow(c, s, j);
    case Look => LookKeepsFlow(c, s);
    case _ => FlowFrame(c, s, Apply(c, s, step));
  }

  // --- Shape, order and wakeups ---------------------------------------------------

  lemma StepKeepsShape(c: Config, s: State, step: Step)
    requires Shape(c, s) && JobsDone(c, s) && Enabled(c, s, step)
    ensures Shape(c, Apply(c, s, step)) && JobsDone(c, Apply(c, s, step))
  {
  }

  lemma StepKeepsOrder(c: Config, s: State, step: Step)
    requires Shape(c, s) && Flow(c, s) && InOrder(c, s) && Enabled(c, s, step)
    ensures InOrder(c, Apply(c, s, step))
  {
    var t := Apply(c, s, step);
    match step
    case Look =>
      if s.ann.want in s.buf {
        LookTakesNext(c, s);
      }
    case Send =>
      assert t.sent == c.Stream(|t.sent|);
    case _ =>
      assert t.sent == s.sent && TakenCount(t) == TakenCount(s);
  }

  lemma StepKeepsWakeups(c: Config, s: State, step: Step)
    requires NoLostWakeup(s) && Enabled(c, s, step)
    ensures NoLostWakeup(Apply(c, s, step))
  {
  }

  // --- Backlog ------------------------------------------------------------------

  /** A job decides to sleep in the critical section that stores its block, so each block over
      the limit is paid for by one sleeping job. */
  lemma JobStepKeepsBacklog(c: Config, s: State, step: Step, j: nat)
    requires step == Draw(j) || step == FetchOk(j) || step == Wake(j)
    requires BacklogBounded(c, s) && Enabled(c, s, step)
    ensures BacklogBounded(c, Apply(c, s, step))
  {
    var t := Apply(c, s, step);
    assert t.jobs == s.jobs[j := t.jobs[j]];
    AsleepUpdate(s.jobs, j, t.jobs[j]);
    AsleepBounds(t.jobs);
    if step.FetchOk? {
      var h := s.jobs[j].h;
      assert t.buf.Keys == s.buf.Keys + {h};
      assert |t.buf.Keys| == |t.buf| && |s.buf.Keys| == |s.buf|;
    }
  }

  lemma StepKeepsBacklog(c: Config, s: State, step: Step)
    requires BacklogBounded(c, s) && Enabled(c, s, step)
    ensures BacklogBounded(c, Apply(c, s, step))
  {
    match step
    case Draw(j) => JobStepKeepsBacklog(c, s, step, j);
    case FetchOk(j) => JobStepKeepsBacklog(c, s, step, j);
    case Wake(j) => JobStepKeepsBacklog(c, s, step, j);
    case Look =>
      var t := Apply(c, s, step);
      SubsetCardinality(t.buf.Keys, s.buf.Keys);
      assert |t.buf.Keys| == |t.buf| && |s.buf.Keys| == |s.buf|;
    case _ =>
  }

  // --- Watch loop ----------------------------------------------------------------

  lemma WatchStepFollowsStream(c: Config, w: Watch, r: nat, handlerOk: bool)
    requires WatchesStream(c, w, r) && w.halt.Running?
    ensures WatchesStream(c, WatchStep(c.dir, w, c.serve(c.StreamHeight(r)), handlerOk), r + 1)
  {
  }

  lemma ReceiveKeepsWatching(c: Config, s: State, handlerOk: bool)
    requires Watching(c, s) && InOrder(c, s) && Enabled(c, s, Receive(handlerOk))
    ensures Watching(c, Apply(c, s, Receive(handlerOk)))
  {
    var r := |s.sent| - |s.chan|;
    assert s.chan[0] == s.sent[r] == c.serve(c.StreamHeight(r));
    WatchStepFollowsStream(c, s.watch, r, handlerOk);
    hide WatchesStream, WatchStep, InOrder;
  }

  lemma SendKeepsWatching(c: Config, s: State)
    requires Watching(c, s) && Enabled(c, s, Send)
    ensures Watching(c, Apply(c, s, Send))
  {
    hide WatchesStream;
    var t := Apply(c, s, Send);
    assert |t.sent| - |t.chan| == |s.sent| - |s.chan|;
  }

  lemma StepKeepsWatching(c: Config, s: State, step: Step)
    requires Watching(c, s) && InOrder(c, s) && Enabled(c, s, step)
    ensures Watching(c, Apply(c, s, step))
  {
    hide WatchesStream, InOrder;
    match step
    case Receive(handlerOk) => ReceiveKeepsWatching(c, s, handlerOk);
    case Send => SendKeepsWatching(c, s);
    case _ =>
  }

  lemma StepKeepsInv(c: Config, s: State, step: Step)
    requires Inv(c, s) && Enabled(c, s, step)
    ensures Inv(c, Apply(c, s, step))
  {
    StepKeepsShape(c, s, step);
    StepKeepsFlow(c, s, step);
    StepKeepsOrder(c, s, step);
    StepKeepsWakeups(c, s, step);
    StepKeepsBacklog(c, s, step);
    StepKeepsWatching(c, s, step);
  }
}
