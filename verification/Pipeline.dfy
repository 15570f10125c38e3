/** The parallel block fetch pipeline as a state machine.

    Jobs draw heights from a shared counter, fetch them concurrently and store the
    results in a shared map; one announcer drains the map in order into a bounded
    channel; the watch loop pairs adjacent blocks and calls the block handler. Each
    `Step` is one critical section or channel operation of one goroutine, so a run is an
    arbitrary interleaving of any number of jobs, the announcer and the watch loop. */
module Pipeline {
  import opened Chain

  const BACKLOG_PER_JOB: nat := 1024
  const CHANNEL_PER_JOB: nat := 100

  datatype Direction = Forward | Backward

  datatype Config = Config(jobs: nat, init: int, stopHeight: nat, dir: Direction, serve: Serve) {
    function Lowest(): (h: int)
      ensures h >= 1
    {
      LowestHeight(stopHeight)
    }

    function Limit(): nat { BACKLOG_PER_JOB * jobs }

    function ChannelSize(): nat { CHANNEL_PER_JOB * jobs }

    /** The height announced at position `i` of the channel. */
    function StreamHeight(i: int): int {
      if dir.Forward? then init + i else init - 1 - i
    }

    /** How many blocks a backward sync announces. */
    function Total(): nat {
      if init > Lowest() then init - Lowest() else 0
    }

    /** The first `n` blocks of the channel as a single sequential fetcher would produce them. */
    ghost function Stream(n: nat): (s: seq<Block>)
      ensures |s| == n
    {
      seq(n, i => serve(StreamHeight(i)))
    }

    /** The `i`-th (previous, next) pair given to the block handler. */
    function PairAt(i: int): (Block, Block) {
      if dir.Forward? then (serve(init + i), serve(init + i + 1))
      else (serve(init - 2 - i), serve(init - 1 - i))
    }

    ghost function Pairs(n: nat): (s: seq<(Block, Block)>)
      ensures |s| == n
    {
      seq(n, i => PairAt(i))
    }
  }

  /** The height a getter starts from, given the rewind argument and the chain head. */
  function InitHeight(rewindTo: nat, head: nat): (init: nat)
    ensures init >= 1
    ensures rewindTo != 0 ==> init == rewindTo
    ensures rewindTo == 0 ==> init == head + 1
  {
    var synced := if rewindTo >= head then 0 else head;
    (if rewindTo != 0 then rewindTo - 1 else synced) + 1
  }

  datatype Job = Ready | Fetching(h: int) | Sleeping | Done

  datatype Announcer = Looking(want: int) | Parked(want: int) | Sending(taken: int, item: Block) | Finished

  datatype Halt = Running | HeightMismatch | HandlerFailed

  /** The watch loop: the block kept for the next iteration, the last synced height and
      the history of handler calls that succeeded. */
  datatype Watch = Watch(held: Option<Block>, latest: int, handled: seq<(Block, Block)>, halt: Halt)

  /** `sent` is a history variable: everything ever put on the channel. */
  datatype State = State(next: int, jobs: seq<Job>, buf: map<int, Block>, ann: Announcer,
                         chan: seq<Block>, sent: seq<Block>, watch: Watch)

  datatype Step =
    | Draw(j: nat)
    | FetchOk(j: nat)
    | FetchFail(j: nat)
    | Wake(j: nat)
    | StayAsleep(j: nat)
    | Look
    | Send
    | Receive(handlerOk: bool)

  function Init(c: Config): State {
    State(c.init, seq(c.jobs, _ => Ready), map[], Looking(c.StreamHeight(0)), [], [],
          Watch(None, c.init - 1, [], Running))
  }

  function WatchStep(dir: Direction, w: Watch, b: Block, handlerOk: bool): Watch {
    match w.held
    case None => w.(held := Some(b))
    case Some(kept) =>
      var (prev, next) := if dir.Forward? then (kept, b) else (b, kept);
      if prev.height != next.height - 1 then w.(halt := HeightMismatch)
      else if !handlerOk then w.(halt := HandlerFailed)
      else Watch(Some(b), next.height, w.handled + [(prev, next)], Running)
  }

  /** A failed fetch and a look at a backlog that is still too long change nothing. */
  predicate IsRetry(step: Step) {
    step.FetchFail? || step.StayAsleep?
  }

  predicate IsJob(s: State, j: nat) {
    j < |s.jobs|
  }

  predicate Enabled(c: Config, s: State, step: Step) {
    && s.watch.halt.Running?
    && match step
       case Draw(j) => IsJob(s, j) && s.jobs[j].Ready?
       case FetchOk(j) => IsJob(s, j) && s.jobs[j].Fetching?
       case FetchFail(j) => IsJob(s, j) && s.jobs[j].Fetching?
       case Wake(j) => IsJob(s, j) && s.jobs[j].Sleeping? && |s.buf| <= c.Limit()
       case StayAsleep(j) => IsJob(s, j) && s.jobs[j].Sleeping? && |s.buf| > c.Limit()
       case Look => s.ann.Looking?
       case Send => s.ann.Sending? && |s.chan| < c.ChannelSize()
       case Receive(_) => s.chan != []
  }

  function Apply(c: Config, s: State, step: Step): State
    requires Enabled(c, s, step)
  {
    match step
    case Draw(j) =>
      if c.dir.Forward? then s.(next := s.next + 1, jobs := s.jobs[j := Fetching(s.next)])
      else if s.next < c.Lowest() then s.(jobs := s.jobs[j := Done])
      else s.(next := s.next - 1, jobs := s.jobs[j := Fetching(s.next)])
    case FetchOk(j) =>
      var h := s.jobs[j].h;
      var buf := s.buf[h := c.serve(h)];
      s.(buf := buf,
         ann := if s.ann.Parked? then Looking(s.ann.want) else s.ann,
         jobs := s.jobs[j := if |buf| > c.Limit() then Sleeping else Ready])
    case Wake(j) => s.(jobs := s.jobs[j := Ready])
    case FetchFail(_) => s
    case StayAsleep(_) => s
    case Look =>
      var w := s.ann.want;
      if w in s.buf then s.(buf := s.buf - {w}, ann := Sending(w, s.buf[w]))
      else s.(ann := Parked(w))
    case Send =>
      s.(chan := s.chan + [s.ann.item], sent := s.sent + [s.ann.item],
         ann := if c.dir.Forward? then Looking(s.ann.taken + 1)
                else if s.ann.taken <= c.Lowest() then Finished
                else Looking(s.ann.taken - 1))
    case Receive(handlerOk) =>
      s.(chan := s.chan[1..], watch := WatchStep(c.dir, s.watch, s.chan[0], handlerOk))
  }

  // ---------------------------------------------------------------------------
  // Invariant

  /** How many blocks the announcer has removed from the map. */
  function TakenCount(s: State): nat {
    |s.sent| + if s.ann.Sending? then 1 else 0
  }

  predicate Dispensed(c: Config, s: State, h: int) {
    if c.dir.Forward? then c.init <= h < s.next else s.next < h <= c.init
  }

  predicate Taken(c: Config, s: State, h: int) {
    if c.dir.Forward? then c.init <= h < c.init + TakenCount(s)
    else c.init - 1 - TakenCount(s) < h <= c.init - 1
  }

  ghost predicate InFlight(s: State, h: int) {
    exists j :: 0 <= j < |s.jobs| && s.jobs[j] == Fetching(h)
  }

  predicate Shape(c: Config, s: State) {
    && c.init >= 1
    && |s.jobs| == c.jobs
    && |s.chan| <= c.ChannelSize()
    && (if c.dir.Forward? then c.init <= s.next else 0 <= s.next <= c.init)
    && (c.dir.Backward? && c.init >= c.Lowest() ==> c.Lowest() - 1 <= s.next)
    && (c.dir.Backward? && c.init < c.Lowest() ==> s.next == c.init)
  }

  predicate JobsDone(c: Config, s: State) {
    forall j | 0 <= j < |s.jobs| && s.jobs[j].Done? :: c.dir.Backward? && s.next < c.Lowest()
  }

  ghost predicate FetchesDistinct(c: Config, s: State) {
    && (forall j | 0 <= j < |s.jobs| && s.jobs[j].Fetching? ::
          Dispensed(c, s, s.jobs[j].h) && s.jobs[j].h !in s.buf && !Taken(c, s, s.jobs[j].h))
    && (forall i, j | 0 <= i < j < |s.jobs| && s.jobs[i].Fetching? && s.jobs[j].Fetching? ::
          s.jobs[i].h != s.jobs[j].h)
  }

  ghost predicate BufferSound(c: Config, s: State) {
    forall h | h in s.buf :: Dispensed(c, s, h) && !Taken(c, s, h) && s.buf[h] == c.serve(h)
  }

  ghost predicate NothingLost(c: Config, s: State) {
    && (forall h | Dispensed(c, s, h) :: Taken(c, s, h) || h in s.buf || InFlight(s, h))
    && (forall h | Taken(c, s, h) :: Dispensed(c, s, h))
  }

  /** The channel history is the sequential stream, and the announcer stands right behind it. */
  ghost predicate InOrder(c: Config, s: State) {
    && s.sent == c.Stream(|s.sent|)
    && (c.dir.Backward? ==> TakenCount(s) <= c.Total())
    && match s.ann
       case Looking(w) => w == c.StreamHeight(|s.sent|) && (c.dir.Backward? && c.Total() > 0 ==> |s.sent| < c.Total())
       case Parked(w) => w == c.StreamHeight(|s.sent|) && (c.dir.Backward? && c.Total() > 0 ==> |s.sent| < c.Total())
       case Sending(h, b) => h == c.StreamHeight(|s.sent|) && b == c.serve(h)
       case Finished => c.dir.Backward? && |s.sent| == c.Total() > 0
  }

  predicate NoLostWakeup(s: State) {
    s.ann.Parked? ==> s.ann.want !in s.buf
  }

  function JobSum(jobs: seq<Job>, weight: Job -> int): int {
    if jobs == [] then 0 else weight(jobs[0]) + JobSum(jobs[1..], weight)
  }

  function AsleepCount(jobs: seq<Job>): int {
    JobSum(jobs, (job: Job) => if job.Sleeping? then 1 else 0)
  }

  predicate BacklogBounded(c: Config, s: State) {
    |s.buf| <= c.Limit() + AsleepCount(s.jobs)
  }

  predicate Adjacent(pair: (Block, Block)) {
    pair.0.height == pair.1.height - 1
  }

  /** What the watch loop holds after receiving the first `r` blocks of the stream. */
  ghost predicate WatchesStream(c: Config, w: Watch, r: nat) {
    var k := |w.handled|;
    && w.handled == c.Pairs(k)
    && (forall i | 0 <= i < k :: Adjacent(c.PairAt(i)))
    && (w.latest == if k == 0 then c.init - 1 else c.PairAt(k - 1).1.height)
    && (w.held == if r == 0 then None
                  else if w.halt.Running? then Some(c.serve(c.StreamHeight(r - 1)))
                  else Some(c.serve(c.StreamHeight(r - 2))))
    && match w.halt
       case Running => k == if r == 0 then 0 else r - 1
       case HeightMismatch => r >= 2 && k == r - 2 && !Adjacent(c.PairAt(k))
       case HandlerFailed => r >= 2 && k == r - 2 && Adjacent(c.PairAt(k))
  }

  ghost predicate Watching(c: Config, s: State) {
    && |s.chan| <= |s.sent|
    && s.chan == s.sent[|s.sent| - |s.chan|..]
    && WatchesStream(c, s.watch, |s.sent| - |s.chan|)
  }

  ghost predicate Flow(c: Config, s: State) {
    && FetchesDistinct(c, s)
    && BufferSound(c, s)
    && NothingLost(c, s)
  }

  ghost predicate Inv(c: Config, s: State) {
    && Shape(c, s)
    && JobsDone(c, s)
    && Flow(c, s)
    && InOrder(c, s)
    && NoLostWakeup(s)
    && BacklogBounded(c, s)
    && Watching(c, s)
  }
}
