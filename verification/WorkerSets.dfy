/** A worker set serving a queue (engine/api/worker.py, engine/api/hosts.py, engine/api/job_queue.py): the
    hosts' collectives driven by the queue's rows, among calls of the API, crashes and restarts. The set
    refines the one worker of `WorkerRuns`, whatever its number of hosts. */
module WorkerSets {
  import opened Wrappers
  import opened JobTables
  import opened Hosts
  import W = WorkerRuns

  /** A row its set closed, from what, and whether its result could be stored. */
  datatype RowClosed = RowClosed(n: nat, outcomes: seq<Outcome>, storable: bool)

  /** The queue file, the set that serves it, the rows claimed so far and those closed from outcomes, by this
      set and those before it. */
  datatype Service = Service(workers: WorkerSet, store: Store, claims: seq<nat>, closings: seq<RowClosed>)

  /** A collective completes under what the primary sees of its surroundings: its parent, the drain option, a
      purge that is due, the clock, and its own report of the job. */
  datatype ServeEvent =
    | Call(api: W.Event)
    | Restart(count: nat, now: real)
    | Collective(alive: bool, drain: bool, purge: Option<real>, worker: string, now: real, report: Report)

  function MessageOf(j: Job): Message {
    Message(j.id, j.kind, j.request)
  }

  /** `cancel_requested`. */
  function Flagged(s: Store, id: string): bool {
    var rows := Rows(s.jobs, (j: Job) => j.id == id);
    rows != {} && s.jobs[First(rows)].cancelRequested
  }

  function Called(s: Store, api: W.Event): Store {
    match api
    case ApiSubmit(id, request, kind, key, sha256, keep, now) =>
      Submit(s, id, request, kind, key, sha256, keep, now).0
    case ApiCancel(id, now) => Cancel(s, id, now).0
    case _ => s
  }

  /** A new set, once the lock is free: several hosts put back what the set before was running. */
  function Restarted(s: Store, count: nat, now: real): Store {
    Interrupt(if count > 1 then Requeue(s, now).0 else s, now).0
  }

  function PurgedIfDue(s: Store, purge: Option<real>): Store {
    match purge case Some(before) => Purge(s, before).0 case None => s
  }

  const NOTHING := Input(Idle, false)

  /** `_Claims.next` shared with every host. */
  function HeaderRound(p: Program, x: Service, e: ServeEvent): Service
    requires e.Collective?
  {
    if !e.alive then x.(workers := Round(p, x.workers, Input(Stop, false)))
    else
      var s := PurgedIfDue(x.store, e.purge);
      var (s', n) := Claim(s, e.worker, e.now);
      match n
      case Some(row) =>
        Service(Round(p, x.workers, Input(RunJob(MessageOf(s'.jobs[row])), false)), s', x.claims + [row], x.closings)
      case None => x.(workers := Round(p, x.workers, Input(if e.drain then Stop else Idle, false)), store := s)
  }

  /** The row the set is running. */
  function Row(x: Service): nat {
    if |x.claims| == 0 then 0 else x.claims[|x.claims| - 1]
  }

  function Step(p: Program, x: Service, e: ServeEvent): Service {
    match e
    case Call(api) => x.(store := Called(x.store, api))
    case Restart(count, now) =>
      if count == 0 then x else x.(workers := Started(count), store := Restarted(x.store, count, now))
    case Collective(_, _, _, _, now, report) =>
      if |x.workers.hosts| == 0 || AnyCrashed(x.workers.hosts) then x
      else match x.workers.hosts[0].at
           case InHeader => HeaderRound(p, x, e)
           case InFlag(job, _) => x.(workers := Round(p, x.workers, Input(Idle, Flagged(x.store, job.id))))
           case InGather(job, _, stoppedAt) =>
             var outcomes := Outcomes(x.workers.hosts);
             Service(Round(p, x.workers, NOTHING), CloseOutcomes(x.store, job.id, outcomes, stoppedAt, report, now),
                     x.claims, x.closings + [RowClosed(Row(x), outcomes, report.storable)])
           case _ => x.(workers := Round(p, x.workers, NOTHING))
  }

  function Serve(p: Program, x: Service, events: seq<ServeEvent>): Service {
    if |events| == 0 then x else Step(p, Serve(p, x, events[..|events| - 1]), events[|events| - 1])
  }

  /** A new queue file that no set serves yet. */
  const UNSERVED := Service(WorkerSet([], [], [], []), Store(map[], 0, map[]), [], [])

  // ----- the one worker a set is ---------------------------------------------------------------

  function JobId(x: Service): string {
    if |x.workers.shared| == 0 then "" else x.workers.shared[|x.workers.shared| - 1].id
  }

  /** Where the set's primary is as the one worker. */
  function PhaseOf(x: Service): W.Phase {
    if |x.workers.hosts| == 0 || AnyCrashed(x.workers.hosts) then W.Down
    else match x.workers.hosts[0].at
         case InHeader => W.Serving
         case InChunk(_, _) => W.Pricing(Row(x), JobId(x))
         case InFlag(_, _) => W.Pricing(Row(x), JobId(x))
         case InGather(_, outcome, stoppedAt) =>
           if outcome.CANCELLED? then W.Finishing(Row(x), JobId(x), W.EndCancelled(stoppedAt))
           else W.Pricing(Row(x), JobId(x))
         case _ => W.Down
  }

  function Worker(x: Service): W.System {
    W.System(x.store, PhaseOf(x), x.claims)
  }

  /** How the outcomes end the job for the one worker. */
  function EndingOf(outcomes: seq<Outcome>, r: Report): W.Ending
    requires |outcomes| > 0
  {
    if Mixed(outcomes) then W.EndFailed(Infrastructure, ENDED_DIFFERENTLY)
    else match outcomes[0]
         case DONE => W.EndDone(r.result, r.artifacts)
         case FAILED => W.EndFailed(r.failure, r.error)
         case CANCELLED => W.EndCancelled("")
  }

  /** The one worker's steps in a header round ... */
  function HeaderTrace(x: Service, e: ServeEvent): seq<W.Event>
    requires e.Collective?
  {
    if !e.alive then [W.Leave]
    else
      var purge := match e.purge case Some(before) => [W.PurgeOld(before)] case None => [];
      if Claim(PurgedIfDue(x.store, e.purge), e.worker, e.now).1.Some? then purge + [W.ClaimNext(e.worker, e.now)]
      else if e.drain then purge + [W.Leave] else purge
  }

  /** ... at a phase boundary ... */
  function FlagTrace(p: Program, x: Service, job: Message, passed: nat): seq<W.Event>
    requires |x.workers.hosts| > 0
  {
    if AnyCrashed(Round(p, x.workers, Input(Idle, Flagged(x.store, job.id))).hosts) then [W.Leave]
    else [W.Boundary(BoundaryName(p.behaves(0, job), passed))]
  }

  /** ... and at the end of a job. */
  function GatherTrace(x: Service, outcome: Outcome, r: Report, now: real): seq<W.Event>
    requires |x.workers.hosts| > 0
  {
    var close := W.CloseRow(now, r.storable, r.compiles);
    if outcome.CANCELLED? then [close] else [W.Priced(EndingOf(Outcomes(x.workers.hosts), r)), close, close]
  }

  function RestartTrace(count: nat, now: real): seq<W.Event> {
    [W.Leave, W.TakeLock(count > 1)] + (if count > 1 then [W.RequeueRunning(now)] else []) + [W.InterruptRunning(now)]
  }

  function Trace(p: Program, x: Service, e: ServeEvent): seq<W.Event> {
    match e
    case Call(api) => if api.ApiSubmit? || api.ApiCancel? then [api] else []
    case Restart(count, now) => if count == 0 then [] else RestartTrace(count, now)
    case Collective(_, _, _, _, now, report) =>
      if |x.workers.hosts| == 0 || AnyCrashed(x.workers.hosts) then []
      else match x.workers.hosts[0].at
           case InHeader => HeaderTrace(x, e)
           case InFlag(job, passed) => FlagTrace(p, x, job, passed)
           case InGather(_, outcome, _) => GatherTrace(x, outcome, report, now)
           case _ => []
  }

  // ----- what every run of a set keeps ---------------------------------------------------------

  predicate InJob(at: At) {
    at.InChunk? || at.InFlag? || at.InGather?
  }

  /** The job being shared or run is the claimed row. */
  ghost predicate CarriesRow(x: Service) {
    && |x.claims| > 0 && |x.workers.shared| > 0 && Row(x) in x.store.jobs
    && MessageOf(x.store.jobs[Row(x)]) == x.workers.shared[|x.workers.shared| - 1]
  }

  predicate Lives(x: Service) {
    |x.workers.hosts| > 0 && !AnyCrashed(x.workers.hosts)
  }

  ghost predicate Coherent(p: Program, phases: Message -> seq<string>, x: Service) {
    && W.SystemValid(Worker(x))
    && (Lives(x) ==> Lockstep(p, phases, x.workers) && (InJob(x.workers.hosts[0].at) ==> CarriesRow(x)))
  }

  // ----- each step refines the one worker ------------------------------------------------------

  lemma RunOne(x: W.System, a: W.Event)
    ensures W.Run(x, [a]) == W.Next(x, a)
  {
    assert [a][1..] == [];
  }

  lemma RunTwo(x: W.System, a: W.Event, b: W.Event)
    ensures W.Run(x, [a, b]) == W.Next(W.Next(x, a), b)
  {
    assert [a, b][1..] == [b];
    RunOne(W.Next(x, a), b);
  }

  lemma RunThree(x: W.System, a: W.Event, b: W.Event, c: W.Event)
    ensures W.Run(x, [a, b, c]) == W.Next(W.Next(W.Next(x, a), b), c)
  {
    assert [a, b, c][1..] == [b, c];
    RunTwo(W.Next(x, a), b, c);
  }

  lemma CallRefines(p: Program, x: Service, api: W.Event)
    requires api.ApiSubmit? || api.ApiCancel?
    ensures Worker(Step(p, x, Call(api))) == W.Next(Worker(x), api)
  {
  }

  lemma RestartRefines(p: Program, x: Service, count: nat, now: real)
    requires count > 0
    ensures Worker(Step(p, x, Restart(count, now))) == W.Run(Worker(x), RestartTrace(count, now))
  {
    var y := W.Next(W.Next(Worker(x), W.Leave), W.TakeLock(count > 1));
    assert y == W.System(x.store, W.Locked(count > 1), x.claims);
    if count > 1 {
      assert RestartTrace(count, now) == [W.Leave] + [W.TakeLock(true), W.RequeueRunning(now), W.InterruptRunning(now)];
      RunThree(W.Next(Worker(x), W.Leave), W.TakeLock(true), W.RequeueRunning(now), W.InterruptRunning(now));
    } else {
      assert RestartTrace(count, now) == [W.Leave, W.TakeLock(false), W.InterruptRunning(now)];
      RunThree(Worker(x), W.Leave, W.TakeLock(false), W.InterruptRunning(now));
    }
    assert !AnyCrashed(Started(count).hosts);
  }

  /** A header round takes every host to the same place, and none of them stops on its own. */
  lemma HeaderHosts(p: Program, phases: Message -> seq<string>, x: WorkerSet, input: Input)
    requires Lockstep(p, phases, x) && ProgramOk(p, phases) && x.hosts[0].at.InHeader? && !AnyCrashed(x.hosts)
    ensures var y := Round(p, x, input);
            && !AnyCrashed(y.hosts) && |y.hosts| == |x.hosts|
            && (input.command.Stop? ==> y.hosts[0].at.Exited?)
            && (input.command.Idle? ==> y.hosts[0].at.InHeader?)
            && (input.command.RunJob? ==> y.hosts[0].at.InChunk? && y.shared == x.shared + [input.command.job])
            && (!input.command.RunJob? ==> y.shared == x.shared)
  {
    forall h | 0 <= h < |x.hosts| ensures x.hosts[h].at.InHeader? {
      assert Abreast(x.hosts[0].at, x.hosts[h].at);
    }
    if input.command.RunJob? {
      assert |Encode(input.command.job, p.dumps)| > 0;
    }
  }

  lemma ChunkHosts(p: Program, phases: Message -> seq<string>, x: WorkerSet)
    requires Lockstep(p, phases, x) && ProgramOk(p, phases) && x.hosts[0].at.InChunk? && !AnyCrashed(x.hosts)
    ensures var y := Round(p, x, NOTHING);
            && !AnyCrashed(y.hosts) && |y.hosts| == |x.hosts| && y.shared == x.shared
            && (y.hosts[0].at.InChunk? || y.hosts[0].at.InFlag?)
  {
    forall h | 0 <= h < |x.hosts| ensures x.hosts[h].at == x.hosts[0].at {
      assert Abreast(x.hosts[0].at, x.hosts[h].at);
    }
    ChunkStep(p, x.payload, x.hosts[0].at.received, x.shared[|x.shared| - 1]);
  }

  lemma FlagHosts(p: Program, phases: Message -> seq<string>, x: WorkerSet, flagged: bool)
    requires Lockstep(p, phases, x) && ProgramOk(p, phases) && x.hosts[0].at.InFlag? && !AnyCrashed(x.hosts)
    ensures var y := Round(p, x, Input(Idle, flagged));
            var job, passed := x.hosts[0].at.job, x.hosts[0].at.passed;
            && |y.hosts| == |x.hosts| && y.shared == x.shared
            && (flagged ==> !AnyCrashed(y.hosts)
                            && y.hosts[0].at == InGather(job, CANCELLED, BoundaryName(p.behaves(0, job), passed)))
            && (!flagged && !AnyCrashed(y.hosts) ==>
                  y.hosts[0].at.InFlag? || (y.hosts[0].at.InGather? && !y.hosts[0].at.outcome.CANCELLED?))
  {
    var job, passed := x.hosts[0].at.job, x.hosts[0].at.passed;
    CancelIsUnanimous(p, phases, x, Input(Idle, flagged));
    BoundaryStep(p, phases, 0, job, passed, flagged);
  }

  lemma GatherHosts(p: Program, phases: Message -> seq<string>, x: WorkerSet)
    requires Lockstep(p, phases, x) && x.hosts[0].at.InGather? && !AnyCrashed(x.hosts)
    ensures var y := Round(p, x, NOTHING);
            !AnyCrashed(y.hosts) && |y.hosts| == |x.hosts| && y.hosts[0].at.InHeader? && y.shared == x.shared
  {
    forall h | 0 <= h < |x.hosts| ensures x.hosts[h].at.InGather? {
      assert Abreast(x.hosts[0].at, x.hosts[h].at);
    }
  }

  /** A gather's outcomes are all cancelled, or none is. */
  ghost predicate AllOrNone(outcomes: seq<Outcome>) {
    forall h :: 0 <= h < |outcomes| ==> (outcomes[h].CANCELLED? <==> outcomes[0].CANCELLED?)
  }

  lemma GatheredTogether(p: Program, phases: Message -> seq<string>, x: WorkerSet)
    requires Lockstep(p, phases, x) && x.hosts[0].at.InGather?
    ensures var outcomes := Outcomes(x.hosts);
            && |outcomes| > 0 && AllOrNone(outcomes) && outcomes[0] == x.hosts[0].at.outcome
            && (outcomes[0].CANCELLED? ==> !Mixed(outcomes))
  {
    forall h | 0 <= h < |x.hosts|
      ensures x.hosts[h].at.InGather?
      ensures x.hosts[h].at.outcome.CANCELLED? <==> x.hosts[0].at.outcome.CANCELLED?
    {
      assert Abreast(x.hosts[0].at, x.hosts[h].at);
    }
  }

  // ----- the steps in which the set runs ------------------------------------------------------

  /** The set's hosts are together. */
  ghost predicate Together(p: Program, phases: Message -> seq<string>, x: Service) {
    ProgramOk(p, phases) && Lives(x) && Lockstep(p, phases, x.workers)
  }

  lemma HeaderRefines(p: Program, phases: Message -> seq<string>, x: Service, e: ServeEvent)
    requires Together(p, phases, x) && e.Collective? && x.workers.hosts[0].at.InHeader?
    ensures Worker(HeaderRound(p, x, e)) == W.Run(Worker(x), HeaderTrace(x, e))
  {
    if !e.alive {
      HeaderHosts(p, phases, x.workers, Input(Stop, false));
      RunOne(Worker(x), W.Leave);
    } else {
      ClaimingRefines(p, phases, x, e);
    }
  }

  lemma ClaimingRefines(p: Program, phases: Message -> seq<string>, x: Service, e: ServeEvent)
    requires Together(p, phases, x) && e.Collective? && e.alive && x.workers.hosts[0].at.InHeader?
    ensures Worker(HeaderRound(p, x, e)) == W.Run(Worker(x), HeaderTrace(x, e))
  {
    var s := PurgedIfDue(x.store, e.purge);
    var purged := W.System(s, W.Serving, x.claims);
    var last := LastOfHeader(p, phases, x, e, s);
    match e.purge
    case None =>
      assert HeaderTrace(x, e) == last;
    case Some(before) =>
      assert W.Next(Worker(x), W.PurgeOld(before)) == purged;
      assert HeaderTrace(x, e) == [W.PurgeOld(before)] + last;
      assert HeaderTrace(x, e)[1..] == last;
  }

  /** What follows the purge. */
  lemma LastOfHeader(p: Program, phases: Message -> seq<string>, x: Service, e: ServeEvent, s: Store)
    returns (last: seq<W.Event>)
    requires Together(p, phases, x) && e.Collective? && e.alive && x.workers.hosts[0].at.InHeader?
    requires s == PurgedIfDue(x.store, e.purge)
    ensures last == if Claim(s, e.worker, e.now).1.Some? then [W.ClaimNext(e.worker, e.now)]
                    else if e.drain then [W.Leave] else []
    ensures Worker(HeaderRound(p, x, e)) == W.Run(W.System(s, W.Serving, x.claims), last)
  {
    var purged := W.System(s, W.Serving, x.claims);
    var (s', n) := Claim(s, e.worker, e.now);
    if n.Some? {
      last := [W.ClaimNext(e.worker, e.now)];
      HeaderHosts(p, phases, x.workers, Input(RunJob(MessageOf(s'.jobs[n.value])), false));
      RunOne(purged, last[0]);
    } else if e.drain {
      last := [W.Leave];
      HeaderHosts(p, phases, x.workers, Input(Stop, false));
      RunOne(purged, last[0]);
    } else {
      last := [];
      HeaderHosts(p, phases, x.workers, NOTHING);
    }
  }

  lemma FlagOfRow(s: Store, n: nat, id: string)
    requires Valid(s) && n in s.jobs && s.jobs[n].id == id
    ensures Flagged(s, id) <==> s.jobs[n].cancelRequested
  {
    var rows := Rows(s.jobs, (j: Job) => j.id == id);
    assert n in rows && First(rows) == n;
  }

  lemma FlagRefines(p: Program, phases: Message -> seq<string>, x: Service, job: Message, passed: nat)
    requires Together(p, phases, x) && Valid(x.store) && CarriesRow(x)
    requires x.workers.hosts[0].at == InFlag(job, passed)
    ensures var y := x.(workers := Round(p, x.workers, Input(Idle, Flagged(x.store, job.id))));
            Worker(y) == W.Run(Worker(x), FlagTrace(p, x, job, passed))
  {
    var flagged := Flagged(x.store, job.id);
    FlagOfRow(x.store, Row(x), job.id);
    FlagHosts(p, phases, x.workers, flagged);
    if AnyCrashed(Round(p, x.workers, Input(Idle, flagged)).hosts) {
      RunOne(Worker(x), W.Leave);
    } else {
      BoundaryRefines(p, phases, x, flagged);
      RunOne(Worker(x), W.Boundary(BoundaryName(p.behaves(0, job), passed)));
    }
  }

  /** A boundary that no host crashes at: the one worker's, whether or not a cancel has reached the row. */
  lemma BoundaryRefines(p: Program, phases: Message -> seq<string>, x: Service, flagged: bool)
    requires Together(p, phases, x) && CarriesRow(x) && x.workers.hosts[0].at.InFlag?
    requires flagged == x.store.jobs[Row(x)].cancelRequested
    requires !AnyCrashed(Round(p, x.workers, Input(Idle, flagged)).hosts)
    ensures var job, passed := x.workers.hosts[0].at.job, x.workers.hosts[0].at.passed;
            Worker(x.(workers := Round(p, x.workers, Input(Idle, flagged))))
            == W.Next(Worker(x), W.Boundary(BoundaryName(p.behaves(0, job), passed)))
  {
    FlagHosts(p, phases, x.workers, flagged);
  }

  lemma ChunkRefines(p: Program, phases: Message -> seq<string>, x: Service)
    requires Together(p, phases, x) && x.workers.hosts[0].at.InChunk?
    ensures Worker(x.(workers := Round(p, x.workers, NOTHING))) == Worker(x)
  {
    ChunkHosts(p, phases, x.workers);
  }

  /** One closing of a running row, as the one worker's last step with a job. */
  lemma CloseRowIs(s: Store, n: nat, id: string, ending: W.Ending, now: real, storable: bool, compiles: Option<nat>,
                   claims: seq<nat>)
    requires W.CloseWith(s, id, ending, now, storable, compiles).Some?
    ensures var close := W.CloseRow(now, storable, compiles);
            var after := W.System(W.CloseWith(s, id, ending, now, storable, compiles).value, W.Serving, claims);
            && W.Next(W.System(s, W.Finishing(n, id, ending), claims), close) == after
            && W.Next(after, close) == after
  {
  }

  /** On the store, closing from the outcomes is the one worker's ending of the job. */
  lemma ClosingRefines(s: Store, n: nat, id: string, outcomes: seq<Outcome>, stoppedAt: string, r: Report, now: real,
                       claims: seq<nat>)
    requires Valid(s) && RunningRow(s, n, id)
    requires |outcomes| > 0 && (outcomes[0].CANCELLED? ==> !Mixed(outcomes))
    ensures var close := W.CloseRow(now, r.storable, r.compiles);
            var after := W.System(CloseOutcomes(s, id, outcomes, stoppedAt, r, now), W.Serving, claims);
            if outcomes[0].CANCELLED? then
              W.Next(W.System(s, W.Finishing(n, id, W.EndCancelled(stoppedAt)), claims), close) == after
            else
              W.Next(W.Next(W.System(s, W.Finishing(n, id, EndingOf(outcomes, r)), claims), close), close) == after
  {
    if outcomes[0].CANCELLED? {
      CloseWrites(s, n, id, Closing(Cancelled, None, None, Some(stoppedAt), r.compiles), now);
      CloseRowIs(s, n, id, W.EndCancelled(stoppedAt), now, r.storable, r.compiles, claims);
    } else if outcomes[0].DONE? && !Mixed(outcomes) {
      StoringRefines(s, n, id, outcomes, stoppedAt, r, now, claims);
    } else {
      FailingRefines(s, n, id, outcomes, stoppedAt, r, now, claims);
    }
  }

  lemma FailingRefines(s: Store, n: nat, id: string, outcomes: seq<Outcome>, stoppedAt: string, r: Report, now: real,
                       claims: seq<nat>)
    requires Valid(s) && RunningRow(s, n, id) && |outcomes| > 0 && (Mixed(outcomes) || outcomes[0].FAILED?)
    ensures var close := W.CloseRow(now, r.storable, r.compiles);
            W.Next(W.Next(W.System(s, W.Finishing(n, id, EndingOf(outcomes, r)), claims), close), close)
            == W.System(CloseOutcomes(s, id, outcomes, stoppedAt, r, now), W.Serving, claims)
  {
    var ending := EndingOf(outcomes, r);
    CloseWrites(s, n, id, Closing(Failed, None, Some(ending.failureClass), Some(ending.error), r.compiles), now);
    CloseRowIs(s, n, id, ending, now, r.storable, r.compiles, claims);
  }

  lemma StoringRefines(s: Store, n: nat, id: string, outcomes: seq<Outcome>, stoppedAt: string, r: Report, now: real,
                       claims: seq<nat>)
    requires Valid(s) && RunningRow(s, n, id) && |outcomes| > 0 && outcomes[0].DONE? && !Mixed(outcomes)
    ensures var close := W.CloseRow(now, r.storable, r.compiles);
            W.Next(W.Next(W.System(s, W.Finishing(n, id, EndingOf(outcomes, r)), claims), close), close)
            == W.System(CloseOutcomes(s, id, outcomes, stoppedAt, r, now), W.Serving, claims)
  {
    hide Finish, Close, Valid;
    FinishWrites(s, n, id, r, now);
    CloseWrites(s, n, id, Closing(Failed, None, Some(Infrastructure), Some(STORING_FAILED), r.compiles), now);
  }

  lemma GatherRefines(p: Program, phases: Message -> seq<string>, x: Service, e: ServeEvent)
    requires Together(p, phases, x) && e.Collective? && x.workers.hosts[0].at.InGather?
    requires Valid(x.store) && W.OneRunning(x.store.jobs) && RunningRow(x.store, Row(x), JobId(x))
    ensures Worker(Step(p, x, e))
            == W.Run(Worker(x), GatherTrace(x, x.workers.hosts[0].at.outcome, e.report, e.now))
  {
    hide CloseOutcomes, Valid;
    var at, outcomes := x.workers.hosts[0].at, Outcomes(x.workers.hosts);
    var close := W.CloseRow(e.now, e.report.storable, e.report.compiles);
    GatherHosts(p, phases, x.workers);
    GatheredTogether(p, phases, x.workers);
    ClosingRefines(x.store, Row(x), at.job.id, outcomes, at.stoppedAt, e.report, e.now, x.claims);
    if at.outcome.CANCELLED? {
      RunOne(Worker(x), close);
    } else {
      RunThree(Worker(x), W.Priced(EndingOf(outcomes, e.report)), close, close);
    }
  }

  /** Every step of a served queue, whatever the number of hosts, is a few steps of the one worker. */
  lemma StepRefines(p: Program, phases: Message -> seq<string>, x: Service, e: ServeEvent)
    requires Coherent(p, phases, x) && ProgramOk(p, phases)
    ensures Worker(Step(p, x, e)) == W.Run(Worker(x), Trace(p, x, e))
  {
    match e
    case Call(api) =>
      if api.ApiSubmit? || api.ApiCancel? {
        CallRefines(p, x, api);
        RunOne(Worker(x), api);
      }
    case Restart(count, now) =>
      if count > 0 {
        RestartRefines(p, x, count, now);
      }
    case Collective(_, _, _, _, _, _) =>
      if Lives(x) {
        CollectiveRefines(p, phases, x, e);
      }
  }

  lemma CollectiveRefines(p: Program, phases: Message -> seq<string>, x: Service, e: ServeEvent)
    requires Coherent(p, phases, x) && ProgramOk(p, phases) && Lives(x) && e.Collective?
    ensures Worker(Step(p, x, e)) == W.Run(Worker(x), Trace(p, x, e))
  {
    match x.workers.hosts[0].at
    case InHeader => HeaderRefines(p, phases, x, e);
    case InChunk(_, _) => ChunkRefines(p, phases, x);
    case InFlag(job, passed) => FlagRefines(p, phases, x, job, passed);
    case InGather(_, _, _) => GatherRefines(p, phases, x, e);
    case _ => ExitedStays(p, phases, x);
  }

  lemma ExitedStays(p: Program, phases: Message -> seq<string>, x: Service)
    requires Together(p, phases, x) && !x.workers.hosts[0].at.InHeader? && !InJob(x.workers.hosts[0].at)
    ensures Worker(x.(workers := Round(p, x.workers, NOTHING))) == Worker(x)
  {
  }

  // ----- and keeps the set coherent ------------------------------------------------------------

  lemma CallKeepsRow(p: Program, phases: Message -> seq<string>, x: Service, api: W.Event)
    requires Coherent(p, phases, x) && (api.ApiSubmit? || api.ApiCancel?) && CarriesRow(x)
    ensures CarriesRow(Step(p, x, Call(api)))
  {
    hide Submit, Cancel, Valid;
    W.NextSteady(Worker(x), api);
    CallRefines(p, x, api);
  }

  lemma HeaderCarries(p: Program, phases: Message -> seq<string>, x: Service, e: ServeEvent)
    requires Together(p, phases, x) && e.Collective? && x.workers.hosts[0].at.InHeader?
    ensures var y := HeaderRound(p, x, e); InJob(y.workers.hosts[0].at) ==> CarriesRow(y)
  {
    var s := PurgedIfDue(x.store, e.purge);
    var (s', n) := Claim(s, e.worker, e.now);
    if e.alive && n.Some? {
      W.ClaimIs(s, e.worker, e.now);
      HeaderHosts(p, phases, x.workers, Input(RunJob(MessageOf(s'.jobs[n.value])), false));
    } else {
      HeaderHosts(p, phases, x.workers, Input(Stop, false));
      HeaderHosts(p, phases, x.workers, NOTHING);
    }
  }

  lemma RowStays(x: Service, y: Service)
    requires CarriesRow(x) && y.store == x.store && y.claims == x.claims && y.workers.shared == x.workers.shared
    ensures CarriesRow(y)
  {
  }

  lemma ChunkCarries(p: Program, phases: Message -> seq<string>, x: Service, e: ServeEvent)
    requires Together(p, phases, x) && CarriesRow(x) && e.Collective? && x.workers.hosts[0].at.InChunk?
    ensures CarriesRow(Step(p, x, e))
  {
    ChunkHosts(p, phases, x.workers);
    RowStays(x, Step(p, x, e));
  }

  lemma FlagCarries(p: Program, phases: Message -> seq<string>, x: Service, e: ServeEvent)
    requires Together(p, phases, x) && CarriesRow(x) && e.Collective? && x.workers.hosts[0].at.InFlag?
    ensures CarriesRow(Step(p, x, e))
  {
    FlagHosts(p, phases, x.workers, Flagged(x.store, x.workers.hosts[0].at.job.id));
    RowStays(x, Step(p, x, e));
  }

  lemma ExitedCarries(p: Program, phases: Message -> seq<string>, x: Service, e: ServeEvent)
    requires Together(p, phases, x) && e.Collective?
    requires !x.workers.hosts[0].at.InHeader? && !InJob(x.workers.hosts[0].at)
    ensures !InJob(Step(p, x, e).workers.hosts[0].at)
  {
  }

  lemma CollectiveCarries(p: Program, phases: Message -> seq<string>, x: Service, e: ServeEvent)
    requires Coherent(p, phases, x) && ProgramOk(p, phases) && Lives(x) && e.Collective?
    ensures var y := Step(p, x, e); Lives(y) && InJob(y.workers.hosts[0].at) ==> CarriesRow(y)
  {
    hide Valid;
    match x.workers.hosts[0].at
    case InHeader => HeaderCarries(p, phases, x, e);
    case InChunk(_, _) => ChunkCarries(p, phases, x, e);
    case InFlag(_, _) => FlagCarries(p, phases, x, e);
    case InGather(_, _, _) => GatherHosts(p, phases, x.workers);
    case _ => ExitedCarries(p, phases, x, e);
  }

  /** A step of the set as a round of its hosts. */
  lemma CollectiveIsRound(p: Program, x: Service, e: ServeEvent) returns (input: Input)
    requires Lives(x) && e.Collective?
    ensures Step(p, x, e).workers == Round(p, x.workers, input)
  {
    match x.workers.hosts[0].at
    case InHeader =>
      var s := PurgedIfDue(x.store, e.purge);
      var (s', n) := Claim(s, e.worker, e.now);
      input := if !e.alive then Input(Stop, false)
               else if n.Some? then Input(RunJob(MessageOf(s'.jobs[n.value])), false)
               else Input(if e.drain then Stop else Idle, false);
    case InFlag(job, _) => input := Input(Idle, Flagged(x.store, job.id));
    case _ => input := NOTHING;
  }

  lemma StartedTogether(p: Program, phases: Message -> seq<string>, count: nat)
    requires count > 0
    ensures Lockstep(p, phases, Started(count)) && !AnyCrashed(Started(count).hosts)
  {
  }

  lemma StepCoherent(p: Program, phases: Message -> seq<string>, x: Service, e: ServeEvent)
    requires Coherent(p, phases, x) && ProgramOk(p, phases)
    ensures Coherent(p, phases, Step(p, x, e))
  {
    StepRefines(p, phases, x, e);
    W.RunValid(Worker(x), Trace(p, x, e));
    StepTogether(p, phases, x, e);
  }

  lemma StepTogether(p: Program, phases: Message -> seq<string>, x: Service, e: ServeEvent)
    requires Coherent(p, phases, x) && ProgramOk(p, phases)
    ensures var y := Step(p, x, e);
            Lives(y) ==> Lockstep(p, phases, y.workers) && (InJob(y.workers.hosts[0].at) ==> CarriesRow(y))
  {
    match e
    case Call(api) =>
      if Lives(x) && InJob(x.workers.hosts[0].at) && (api.ApiSubmit? || api.ApiCancel?) {
        CallKeepsRow(p, phases, x, api);
      }
    case Restart(count, _) =>
      if count > 0 {
        StartedTogether(p, phases, count);
      }
    case Collective(_, _, _, _, _, _) =>
      if Lives(x) {
        var input := CollectiveIsRound(p, x, e);
        RoundLockstep(p, phases, x.workers, input);
        CollectiveCarries(p, phases, x, e);
      }
  }

  // ----- rows are closed once, and read what their outcomes say --------------------------------

  /** The row of a closing, as long as it is stored, reads what its outcomes say. */
  ghost predicate ClosingStands(x: Service, c: RowClosed) {
    && |c.outcomes| > 0 && AllOrNone(c.outcomes) && c.n <= x.store.lastNumber
    && (c.n in x.store.jobs ==> x.store.jobs[c.n].status == ClosingStatus(c.outcomes, c.storable))
  }

  ghost predicate ClosedOnce(closings: seq<RowClosed>) {
    forall i, j :: 0 <= i < j < |closings| ==> closings[i].n != closings[j].n
  }

  ghost predicate WasClosed(closings: seq<RowClosed>, n: nat) {
    exists i :: 0 <= i < |closings| && closings[i].n == n
  }

  ghost predicate ClosingsValid(x: Service) {
    && (forall i :: 0 <= i < |x.closings| ==> ClosingStands(x, x.closings[i]))
    && ClosedOnce(x.closings)
    && (forall n :: n in x.store.jobs && x.store.jobs[n].status.Done? ==> WasClosed(x.closings, n))
  }

  lemma ClosingIsTerminal(outcomes: seq<Outcome>, storable: bool)
    requires |outcomes| > 0
    ensures ClosingStatus(outcomes, storable).Terminal()
  {
  }

  /** Ended rows read the same for as long as they are stored, and deleted keys stay unused. */
  ghost predicate Final(s: Store, s': Store) {
    && s'.lastNumber >= s.lastNumber
    && (forall n :: n in s.jobs && s.jobs[n].status.Terminal() && n in s'.jobs ==> s'.jobs[n] == s.jobs[n])
    && (forall n: nat :: n <= s.lastNumber && n !in s.jobs ==> n !in s'.jobs)
  }

  ghost predicate NoNewlyDone(s: Store, s': Store) {
    forall n :: n in s'.jobs && s'.jobs[n].status.Done? ==> n in s.jobs && s.jobs[n].status.Done?
  }

  lemma NextIsFinal(x: W.System, e: W.Event)
    requires W.SystemValid(x)
    ensures Final(x.store, W.Next(x, e).store)
    ensures !e.CloseRow? ==> NoNewlyDone(x.store, W.Next(x, e).store)
  {
    W.NextRows(x, e);
    forall n: nat | n <= x.store.lastNumber && n !in x.store.jobs ensures n !in W.Next(x, e).store.jobs {
      W.NoRevival(x, e, n);
    }
    forall n | !e.CloseRow? && n in W.Next(x, e).store.jobs && W.Next(x, e).store.jobs[n].status.Done?
      ensures n in x.store.jobs && x.store.jobs[n].status.Done?
    {
      W.DoneWas(x, e, n);
    }
  }

  lemma FinalSteps(a: Store, b: Store, c: Store)
    requires Final(a, b) && Final(b, c) && forall n :: n in a.jobs ==> n <= a.lastNumber
    ensures Final(a, c)
    ensures NoNewlyDone(a, b) && NoNewlyDone(b, c) ==> NoNewlyDone(a, c)
  {
  }

  lemma {:induction false} RunIsFinal(x: W.System, events: seq<W.Event>)
    requires W.SystemValid(x)
    ensures Final(x.store, W.Run(x, events).store)
    ensures (forall i :: 0 <= i < |events| ==> !events[i].CloseRow?) ==> NoNewlyDone(x.store, W.Run(x, events).store)
    decreases |events|
  {
    if |events| > 0 {
      W.NextValid(x, events[0]);
      NextIsFinal(x, events[0]);
      RunIsFinal(W.Next(x, events[0]), events[1..]);
      FinalSteps(x.store, W.Next(x, events[0]).store, W.Run(x, events).store);
    }
  }

  lemma FinalKeepsClosings(x: Service, y: Service)
    requires ClosingsValid(x) && y.closings == x.closings && Final(x.store, y.store) && NoNewlyDone(x.store, y.store)
    ensures ClosingsValid(y)
  {
    forall i | 0 <= i < |y.closings| ensures ClosingStands(y, y.closings[i]) {
      assert ClosingStands(x, x.closings[i]);
      ClosingIsTerminal(x.closings[i].outcomes, x.closings[i].storable);
    }
  }

  lemma OpenStep(p: Program, x: Service, e: ServeEvent)
    requires !(e.Collective? && Lives(x) && x.workers.hosts[0].at.InGather?)
    ensures Step(p, x, e).closings == x.closings
    ensures forall i :: 0 <= i < |Trace(p, x, e)| ==> !Trace(p, x, e)[i].CloseRow?
  {
  }

  lemma OpenStepKeepsClosings(p: Program, phases: Message -> seq<string>, x: Service, e: ServeEvent)
    requires Coherent(p, phases, x) && ProgramOk(p, phases) && ClosingsValid(x)
    requires !(e.Collective? && Lives(x) && x.workers.hosts[0].at.InGather?)
    ensures ClosingsValid(Step(p, x, e))
  {
    StepRefines(p, phases, x, e);
    OpenStep(p, x, e);
    RunIsFinal(Worker(x), Trace(p, x, e));
    FinalKeepsClosings(x, Step(p, x, e));
  }

  lemma GatherKeepsClosings(p: Program, phases: Message -> seq<string>, x: Service, e: ServeEvent)
    requires Coherent(p, phases, x) && ProgramOk(p, phases) && ClosingsValid(x)
    requires e.Collective? && Lives(x) && x.workers.hosts[0].at.InGather?
    ensures ClosingsValid(Step(p, x, e))
  {
    hide CloseOutcomes, Valid, ClosingsValid;
    var y, at, n, outcomes := Step(p, x, e), x.workers.hosts[0].at, Row(x), Outcomes(x.workers.hosts);
    GatheredTogether(p, phases, x.workers);
    OutcomesCloseTheRow(x.store, n, at.job.id, outcomes, at.stoppedAt, e.report, e.now);
    assert y.closings == x.closings + [RowClosed(n, outcomes, e.report.storable)];
    ClosingAppended(x, y, n, outcomes, at.stoppedAt, e.report, e.now);
  }

  lemma ClosingAppended(x: Service, y: Service, n: nat, outcomes: seq<Outcome>, stoppedAt: string, r: Report,
                        now: real)
    requires ClosingsValid(x) && Valid(x.store) && n in x.store.jobs && x.store.jobs[n].status.Running?
    requires |outcomes| > 0 && AllOrNone(outcomes) && ClosedAs(x.store, y.store, n, outcomes, stoppedAt, r, now)
    requires y.closings == x.closings + [RowClosed(n, outcomes, r.storable)]
    ensures ClosingsValid(y)
  {
    forall i | 0 <= i < |x.closings| ensures x.closings[i].n != n && ClosingStands(y, x.closings[i]) {
      assert ClosingStands(x, x.closings[i]);
      ClosingIsTerminal(x.closings[i].outcomes, x.closings[i].storable);
    }
    forall m | m in y.store.jobs && y.store.jobs[m].status.Done? ensures WasClosed(y.closings, m) {
      if m == n {
        assert y.closings[|x.closings|].n == m;
      } else {
        var i :| 0 <= i < |x.closings| && x.closings[i].n == m;
        assert y.closings[i].n == m;
      }
    }
  }

  // ----- every run ------------------------------------------------------------------------------

  lemma UnservedIsCoherent(p: Program, phases: Message -> seq<string>)
    ensures Coherent(p, phases, UNSERVED) && ClosingsValid(UNSERVED) && Worker(UNSERVED) == W.EMPTY
  {
    assert forall n: nat :: W.Times([], n) == 0;
  }

  lemma {:induction false} ServeCoherent(p: Program, phases: Message -> seq<string>, events: seq<ServeEvent>)
    requires ProgramOk(p, phases)
    ensures Coherent(p, phases, Serve(p, UNSERVED, events)) && ClosingsValid(Serve(p, UNSERVED, events))
  {
    if |events| == 0 {
      UnservedIsCoherent(p, phases);
    } else {
      var x, e := Serve(p, UNSERVED, events[..|events| - 1]), events[|events| - 1];
      ServeCoherent(p, phases, events[..|events| - 1]);
      StepCoherent(p, phases, x, e);
      if e.Collective? && Lives(x) && x.workers.hosts[0].at.InGather? {
        GatherKeepsClosings(p, phases, x, e);
      } else {
        OpenStepKeepsClosings(p, phases, x, e);
      }
    }
  }

  /** The one worker's whole run. */
  function ServeTrace(p: Program, events: seq<ServeEvent>): seq<W.Event> {
    if |events| == 0 then []
    else
      ServeTrace(p, events[..|events| - 1])
      + Trace(p, Serve(p, UNSERVED, events[..|events| - 1]), events[|events| - 1])
  }

  lemma {:induction false} RunJoin(x: W.System, a: seq<W.Event>, b: seq<W.Event>)
    ensures W.Run(x, a + b) == W.Run(W.Run(x, a), b)
    decreases |a|
  {
    if |a| == 0 {
      assert a + b == b;
    } else {
      assert (a + b)[1..] == a[1..] + b;
      RunJoin(W.Next(x, a[0]), a[1..], b);
    }
  }

  /** Sets of hosts, with their crashes and restarts, serve a queue as the one worker does: what holds of
      every run of it holds of every run of them. */
  lemma {:induction false} SetsRefineTheWorker(p: Program, phases: Message -> seq<string>, events: seq<ServeEvent>)
    requires ProgramOk(p, phases)
    ensures Worker(Serve(p, UNSERVED, events)) == W.Run(W.EMPTY, ServeTrace(p, events))
  {
    if |events| == 0 {
      UnservedIsCoherent(p, phases);
    } else {
      var init := events[..|events| - 1];
      SetsRefineTheWorker(p, phases, init);
      ServeCoherent(p, phases, init);
      StepRefines(p, phases, Serve(p, UNSERVED, init), events[|events| - 1]);
      RunJoin(W.EMPTY, ServeTrace(p, init), Trace(p, Serve(p, UNSERVED, init), events[|events| - 1]));
    }
  }

  /** In every run, over all sets that served the queue: no row is closed from outcomes twice, the outcomes of
      a closing are all cancelled or none is, and a stored row reads done if and only if it was closed with
      every host's outcome DONE and its result stored, cancelled by its set if and only if all stopped. */
  lemma RowsReadTheirOutcomes(p: Program, phases: Message -> seq<string>, events: seq<ServeEvent>)
    requires ProgramOk(p, phases)
    ensures var y := Serve(p, UNSERVED, events);
            && ClosedOnce(y.closings)
            && (forall i :: 0 <= i < |y.closings| ==> AllOrNone(y.closings[i].outcomes))
            && (forall n :: n in y.store.jobs ==> (y.store.jobs[n].status.Done? <==> ClosedDone(y.closings, n)))
            && (forall i :: 0 <= i < |y.closings| && y.closings[i].n in y.store.jobs ==>
                  (y.store.jobs[y.closings[i].n].status.Cancelled? <==> AllCancelled(y.closings[i].outcomes)))
  {
    var y := Serve(p, UNSERVED, events);
    ServeCoherent(p, phases, events);
    forall i | 0 <= i < |y.closings|
      ensures AllOrNone(y.closings[i].outcomes)
      ensures y.closings[i].n in y.store.jobs ==>
                var status := y.store.jobs[y.closings[i].n].status;
                && (status.Done? <==> IsDone(y.closings[i]))
                && (status.Cancelled? <==> AllCancelled(y.closings[i].outcomes))
    {
      assert ClosingStands(y, y.closings[i]);
      DoneMeansAllDone(y.closings[i].outcomes, y.closings[i].storable);
    }
    forall n | n in y.store.jobs ensures y.store.jobs[n].status.Done? <==> ClosedDone(y.closings, n) {
      if y.store.jobs[n].status.Done? {
        var i :| 0 <= i < |y.closings| && y.closings[i].n == n;
        assert IsDone(y.closings[i]);
      }
    }
  }

  ghost predicate IsDone(c: RowClosed) {
    c.storable && forall h :: 0 <= h < |c.outcomes| ==> c.outcomes[h].DONE?
  }

  ghost predicate AllCancelled(outcomes: seq<Outcome>) {
    forall h :: 0 <= h < |outcomes| ==> outcomes[h].CANCELLED?
  }

  ghost predicate ClosedDone(closings: seq<RowClosed>, n: nat) {
    exists i :: 0 <= i < |closings| && closings[i].n == n && IsDone(closings[i])
  }

  lemma QuietTrace(p: Program, x: Service, e: ServeEvent)
    requires !e.Restart? && !(e.Collective? && Lives(x) && x.workers.hosts[0].at.InGather?)
    ensures forall i :: 0 <= i < |Trace(p, x, e)| ==> !W.MayStop(Trace(p, x, e)[i])
  {
  }

  /** In every run, as long as no set starts, a row leaves running in one way: the set that runs it gathers its
      hosts' outcomes and closes it. With closings made once, a set ends each job handed out once. */
  lemma OnlyItsClosingEndsARun(p: Program, phases: Message -> seq<string>, events: seq<ServeEvent>, e: ServeEvent,
                               n: nat)
    requires ProgramOk(p, phases) && !e.Restart?
    requires var x := Serve(p, UNSERVED, events); n in x.store.jobs && x.store.jobs[n].status.Running?
    requires var y := Step(p, Serve(p, UNSERVED, events), e);
             !(n in y.store.jobs && y.store.jobs[n].status.Running?)
    ensures var x := Serve(p, UNSERVED, events);
            && e.Collective? && Lives(x) && x.workers.hosts[0].at.InGather? && n == Row(x)
            && Step(p, x, e).closings
               == x.closings + [RowClosed(n, Outcomes(x.workers.hosts), e.report.storable)]
  {
    hide Valid, Trace;
    var x := Serve(p, UNSERVED, events);
    ServeCoherent(p, phases, events);
    StepRefines(p, phases, x, e);
    if !(e.Collective? && Lives(x) && x.workers.hosts[0].at.InGather?) {
      QuietTrace(p, x, e);
      W.RunStillRunning(Worker(x), Trace(p, x, e), n);
    }
  }

  /** In every run, every host that shares, runs or has run a job has the claimed row's own id, kind and
      request, and that row is running. */
  lemma SharedJobArrives(p: Program, phases: Message -> seq<string>, events: seq<ServeEvent>, h: nat)
    requires ProgramOk(p, phases)
    ensures var y := Serve(p, UNSERVED, events);
            Lives(y) && h < |y.workers.hosts| ==>
              match y.workers.hosts[h].at
              case InFlag(job, _) => RunsRow(y, job)
              case InGather(job, _, _) => RunsRow(y, job)
              case _ => true
  {
    var y := Serve(p, UNSERVED, events);
    ServeCoherent(p, phases, events);
    if Lives(y) && h < |y.workers.hosts| {
      assert Abreast(y.workers.hosts[0].at, y.workers.hosts[h].at);
    }
  }

  ghost predicate RunsRow(y: Service, job: Message) {
    Row(y) in y.store.jobs && y.store.jobs[Row(y)].status.Running? && MessageOf(y.store.jobs[Row(y)]) == job
  }

  /** None of the worker's own steps submits. */
  predicate SubmitsNothing(trace: seq<W.Event>) {
    forall i :: 0 <= i < |trace| ==> !trace[i].ApiSubmit?
  }

  lemma CollectiveSubmitsNothing(p: Program, x: Service, e: ServeEvent)
    requires e.Collective?
    ensures SubmitsNothing(Trace(p, x, e))
  {
    hide Claim, Round, AnyCrashed, Outcomes, EndingOf, PurgedIfDue, Flagged;
  }

  lemma RestartSubmitsNothing(count: nat, now: real)
    ensures SubmitsNothing(RestartTrace(count, now))
  {
  }

  lemma OnlyCallsSubmit(p: Program, x: Service, e: ServeEvent, api: W.Event)
    requires api.ApiSubmit? && api in Trace(p, x, e)
    ensures e == Call(api)
  {
    hide HeaderTrace, FlagTrace, GatherTrace, RestartTrace;
    if e.Collective? {
      CollectiveSubmitsNothing(p, x, e);
    } else if e.Restart? {
      RestartSubmitsNothing(e.count, e.now);
    }
  }

  /** The worker's run has the sets' calls and no others. */
  lemma {:induction false} CallsAreTraced(p: Program, events: seq<ServeEvent>, api: W.Event)
    requires api.ApiSubmit? && api in ServeTrace(p, events)
    ensures Call(api) in events
  {
    hide Trace, Serve;
    var init, last := events[..|events| - 1], events[|events| - 1];
    if api in ServeTrace(p, init) {
      CallsAreTraced(p, init, api);
    } else {
      OnlyCallsSubmit(p, Serve(p, UNSERVED, init), last, api);
    }
  }

  ghost predicate SubmittedIn(job: Message, events: seq<ServeEvent>) {
    exists api: W.Event :: api.ApiSubmit? && Call(api) in events && job == Message(api.id, api.kind, api.request)
  }

  lemma RowsMessageIsSubmitted(p: Program, phases: Message -> seq<string>, events: seq<ServeEvent>, n: nat)
    requires ProgramOk(p, phases) && n in Serve(p, UNSERVED, events).store.jobs
    ensures SubmittedIn(MessageOf(Serve(p, UNSERVED, events).store.jobs[n]), events)
  {
    SetsRefineTheWorker(p, phases, events);
    UnservedIsCoherent(p, phases);
    W.RowsAreSubmissions(W.EMPTY, ServeTrace(p, events), n);
    var api :| api in ServeTrace(p, events) && W.SubmittedBy(Serve(p, UNSERVED, events).store.jobs[n], api);
    CallsAreTraced(p, events, api);
  }

  /** The job a host runs or has run and not yet gathered. */
  function Runs(h: Host): Option<Message> {
    match h.at
    case InFlag(job, _) => Some(job)
    case InGather(job, _, _) => Some(job)
    case _ => None
  }

  /** In every run, what a host runs is a call of the API, byte for byte: its id, kind and request body. */
  lemma HostsRunWhatWasSubmitted(p: Program, phases: Message -> seq<string>, events: seq<ServeEvent>, h: nat)
    requires ProgramOk(p, phases)
    ensures var y := Serve(p, UNSERVED, events);
            Lives(y) && h < |y.workers.hosts| && Runs(y.workers.hosts[h]).Some? ==>
              SubmittedIn(Runs(y.workers.hosts[h]).value, events)
  {
    var y := Serve(p, UNSERVED, events);
    SharedJobArrives(p, phases, events, h);
    if Row(y) in y.store.jobs {
      RowsMessageIsSubmitted(p, phases, events, Row(y));
    }
  }

  /** In every run, at every phase boundary: a cancel that has reached the running row stops every host there,
      at the same boundary; without one none stops as cancelled. */
  lemma CancelReachesEveryHost(p: Program, phases: Message -> seq<string>, events: seq<ServeEvent>, e: ServeEvent)
    requires ProgramOk(p, phases) && e.Collective?
    ensures var y := Serve(p, UNSERVED, events);
            Lives(y) && y.workers.hosts[0].at.InFlag? ==>
              var z := Step(p, y, e);
              if CancelReached(y) then StoppedTogether(z.workers.hosts)
              else forall h :: 0 <= h < |z.workers.hosts| ==> !HostCancelled(z.workers.hosts[h])
  {
    hide Valid;
    var y := Serve(p, UNSERVED, events);
    ServeCoherent(p, phases, events);
    if Lives(y) && y.workers.hosts[0].at.InFlag? {
      var job := y.workers.hosts[0].at.job;
      FlagOfRow(y.store, Row(y), job.id);
      CancelIsUnanimous(p, phases, y.workers, Input(Idle, Flagged(y.store, job.id)));
    }
  }

  ghost predicate CancelReached(x: Service) {
    Row(x) in x.store.jobs && x.store.jobs[Row(x)].cancelRequested
  }

  ghost predicate HostCancelled(h: Host) {
    h.at.InGather? && h.at.outcome.CANCELLED?
  }

  ghost predicate StoppedTogether(hosts: seq<Host>) {
    forall h :: 0 <= h < |hosts| ==> HostCancelled(hosts[h]) && hosts[h].at == hosts[0].at
  }
}
