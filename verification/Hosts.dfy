/** The hosts one worker set runs each job on (engine/api/hosts.py, engine/api/worker.py): every
    message is a collective that all hosts must enter together. */
module Hosts {
  import opened Wrappers
  import opened JobTables
  import JobQueue

  // ----- a job as one message -----------------------------------------------------------------

  const NEWLINE: bv8 := 10

  /** A JSON codec for the message's head: its text has no newline, and reading undoes writing. */
  ghost predicate IsJson(dumps: (string, Kind) -> Bytes, loads: Bytes -> (string, Kind)) {
    forall id, kind :: NEWLINE !in dumps(id, kind) && loads(dumps(id, kind)) == (id, kind)
  }

  /** What a host needs of a job to run it. */
  datatype Message = Message(id: string, kind: Kind, request: Bytes)

  function Encode(job: Message, dumps: (string, Kind) -> Bytes): Bytes {
    dumps(job.id, job.kind) + [NEWLINE] + job.request
  }

  /** The index of the first newline, or the length without one. */
  function FirstNewline(b: Bytes): (i: nat)
    ensures i <= |b| && (forall k :: 0 <= k < i ==> b[k] != NEWLINE) && (i < |b| ==> b[i] == NEWLINE)
  {
    if |b| == 0 || b[0] == NEWLINE then 0 else 1 + FirstNewline(b[1..])
  }

  /** The head up to the first newline, and the body after it; None where there is no newline. */
  function Decode(b: Bytes, loads: Bytes -> (string, Kind)): Option<Message> {
    var i := FirstNewline(b);
    if i == |b| then None
    else
      var (id, kind) := loads(b[..i]);
      Some(Message(id, kind, b[i + 1..]))
  }

  /** Whatever the body holds, newlines included, decoding gives back the job encoded. */
  lemma DecodeEncode(job: Message, dumps: (string, Kind) -> Bytes, loads: Bytes -> (string, Kind))
    requires IsJson(dumps, loads)
    ensures Decode(Encode(job, dumps), loads) == Some(job)
  {
    var head := dumps(job.id, job.kind);
    var b := Encode(job, dumps);
    assert b[|head|] == NEWLINE;
    assert forall k :: 0 <= k < |head| ==> b[k] == head[k] && b[k] in head;
    assert FirstNewline(b) == |head|;
    assert b[..|head|] == head;
  }

  // ----- the message in chunks of one fixed shape ---------------------------------------------

  /** The chunk a host enters a broadcast with: the primary's bytes from `start`, zero-padded. */
  function PaddedChunk(payload: Bytes, start: nat, width: nat): (chunk: Bytes)
    requires width > 0
    ensures |chunk| == width
    ensures forall k :: 0 <= k < width && start + k < |payload| ==> chunk[k] == payload[start + k]
  {
    seq(width, k requires 0 <= k < width => if start + k < |payload| then payload[start + k] else 0)
  }

  function Smaller(a: nat, b: nat): nat {
    if a <= b then a else b
  }

  /** What every host keeps of a broadcast: all of the chunk but the padding. */
  function Kept(chunk: Bytes, size: nat, start: nat): Bytes
    requires start <= size
  {
    chunk[..Smaller(|chunk|, size - start)]
  }

  lemma KeptExtends(payload: Bytes, start: nat, width: nat)
    requires start < |payload| && width > 0
    ensures payload[..start] + Kept(PaddedChunk(payload, start, width), |payload|, start) ==
            payload[..Smaller(start + width, |payload|)]
  {
  }

  /** `share`'s loop as every host runs it, each broadcast giving it the primary's chunk: the bytes
      joined are the primary's payload, whatever its length. */
  method ShareBytes(payload: Bytes, width: nat) returns (message: Bytes, ghost broadcasts: nat)
    requires width > 0
    ensures message == payload
    ensures broadcasts * width >= |payload| && (broadcasts > 0 ==> (broadcasts - 1) * width < |payload|)
  {
    message, broadcasts := [], 0;
    var size, start := |payload|, 0;
    while start < size
      invariant start == broadcasts * width && message == payload[..Smaller(start, size)]
      invariant broadcasts > 0 ==> (broadcasts - 1) * width < size
      decreases size - start
    {
      var chunk := PaddedChunk(payload, start, width);
      KeptExtends(payload, start, width);
      message := message + Kept(chunk, size, start);
      start, broadcasts := start + width, broadcasts + 1;
    }
  }

  // ----- every host runs one program, collective by collective --------------------------------

  datatype Outcome = DONE | FAILED | CANCELLED

  datatype Command = Idle | Stop | RunJob(job: Message)

  /** How a job runs on one host: the phase boundaries it passes, and how it ends there. A failure of
      the class `infrastructure` stops the host's process. */
  datatype Behaviour = Behaviour(phases: seq<string>, end: End)
  datatype End = Finishes | Fails(failureClass: FailureClass)

  /** The collective a host waits in, with what fixes its shape. */
  datatype Collective = Header | Chunk | Flag | Gather

  /** Where a host is in `serve`. */
  datatype At =
    | InHeader
    | InChunk(size: nat, received: Bytes)
    | InFlag(job: Message, passed: nat)
    | InGather(job: Message, outcome: Outcome, stoppedAt: string)
    | Exited
    | Crashed

  /** A host with the collectives it has entered so far. */
  datatype Host = Host(at: At, trace: seq<Collective>)

  /** The primary's answers to the one collective the set is in: its next command, and whether a
      cancel has reached the job it runs. */
  datatype Input = Input(command: Command, flagged: bool)

  /** The set: its hosts (the primary first), the payload being shared, the command it came from, and
      the jobs handed out and rows closed so far, with every host's outcome. */
  datatype WorkerSet = WorkerSet(hosts: seq<Host>, payload: Bytes, shared: seq<Message>,
                                 closed: seq<(Message, seq<Outcome>)>)

  /** The parameters every host's program is built with. */
  datatype Program = Program(width: nat, dumps: (string, Kind) -> Bytes, loads: Bytes -> (string, Kind),
                             behaves: (nat, Message) -> Behaviour)

  function Waits(at: At): Option<Collective> {
    match at
    case InHeader => Some(Header)
    case InChunk(_, _) => Some(Chunk)
    case InFlag(_, _) => Some(Flag)
    case InGather(_, _, _) => Some(Gather)
    case _ => None
  }

  function BoundaryName(b: Behaviour, passed: nat): string {
    if passed == 0 || passed > |b.phases| then "start" else b.phases[passed - 1]
  }

  /** A host that has a job's whole message runs it to the first boundary. */
  function AfterMessage(p: Program, size: nat, received: Bytes): At {
    if |received| < size then InChunk(size, received)
    else match Decode(received, p.loads) case Some(job) => InFlag(job, 0) case None => Crashed
  }

  /** A host past a boundary runs to the next, or to the job's end. One of several hosts stops its process
      for a failure that may be its own; a lone host reports it. */
  function AfterBoundary(p: Program, h: nat, several: bool, job: Message, passed: nat): At {
    var b := p.behaves(h, job);
    if passed < |b.phases| then InFlag(job, passed + 1)
    else match b.end
         case Finishes => InGather(job, DONE, "")
         case Fails(failureClass) => if several && failureClass.Infrastructure? then Crashed
                                  else InGather(job, FAILED, "")
  }

  /** One host's step once the collective it is in completes: a function of its own place and of what
      the collective gives every host. */
  function HostStep(p: Program, h: nat, several: bool, at: At, input: Input, payload: Bytes): At {
    match at
    case InHeader =>
      (match input.command
       case Idle => InHeader
       case Stop => Exited
       case RunJob(job) => AfterMessage(p, |payload|, []))
    case InChunk(size, received) =>
      if |received| <= size && p.width > 0
      then AfterMessage(p, size, received + Kept(PaddedChunk(payload, |received|, p.width), size, |received|))
      else Crashed
    case InFlag(job, passed) =>
      if input.flagged then InGather(job, CANCELLED, BoundaryName(p.behaves(h, job), passed))
      else AfterBoundary(p, h, several, job, passed)
    case InGather(_, _, _) => InHeader
    case _ => at
  }

  function Entered(x: Host): Host {
    match Waits(x.at) case Some(c) => x.(trace := x.trace + [c]) case None => x
  }

  /** The outcomes a gather gives the primary, by host. */
  function Outcomes(hosts: seq<Host>): seq<Outcome> {
    seq(|hosts|, h requires 0 <= h < |hosts| => if hosts[h].at.InGather? then hosts[h].at.outcome else FAILED)
  }

  /** The set's next state: the collective all hosts wait in completes. A crash of one host stops the
      whole set, which then stays as it is. */
  function Round(p: Program, x: WorkerSet, input: Input): WorkerSet {
    if |x.hosts| == 0 || AnyCrashed(x.hosts) then x
    else
      var primary := x.hosts[0].at;
      var payload :=
        if primary.InHeader? && input.command.RunJob? then Encode(input.command.job, p.dumps) else x.payload;
      var shared := if primary.InHeader? && input.command.RunJob? then x.shared + [input.command.job] else x.shared;
      var closed := if primary.InGather? then x.closed + [(primary.job, Outcomes(x.hosts))] else x.closed;
      WorkerSet(seq(|x.hosts|, h requires 0 <= h < |x.hosts| =>
                      Host(HostStep(p, h, |x.hosts| > 1, x.hosts[h].at, input, payload), Entered(x.hosts[h]).trace)),
                payload, shared, closed)
  }

  predicate AnyCrashed(hosts: seq<Host>) {
    exists h :: 0 <= h < |hosts| && hosts[h].at.Crashed?
  }

  function Rounds(p: Program, x: WorkerSet, inputs: seq<Input>): WorkerSet {
    if |inputs| == 0 then x
    else Round(p, Rounds(p, x, inputs[..|inputs| - 1]), inputs[|inputs| - 1])
  }

  /** `count` hosts at the start of `serve`. */
  function Started(count: nat): WorkerSet {
    WorkerSet(seq(count, h => Host(InHeader, [])), [], [], [])
  }

  // ----- lockstep -----------------------------------------------------------------------------

  /** What SPMD asks of a job: it passes the same phases on every host, unless a failure of the
      host's own stops it on the way. How it ends there may differ. */
  ghost predicate SamePhases(p: Program, phases: Message -> seq<string>) {
    forall h, job :: p.behaves(h, job).phases == phases(job) ||
                     (p.behaves(h, job).phases <= phases(job) && p.behaves(h, job).end == Fails(Infrastructure))
  }

  /** Two hosts at the same collective of the same job. */
  ghost predicate Abreast(a: At, b: At) {
    match a
    case InGather(job, outcome, stoppedAt) =>
      b.InGather? && b.job == job && (outcome.CANCELLED? <==> b.outcome.CANCELLED?) && b.stoppedAt == stoppedAt
    case _ => b == a
  }

  /** Every host has entered the same collectives and waits in the same one; a message under way is a
      prefix of the primary's; each job handed out is closed, but the one running. */
  ghost predicate Lockstep(p: Program, phases: Message -> seq<string>, x: WorkerSet) {
    && |x.hosts| > 0
    && (forall h :: 0 <= h < |x.hosts| ==>
          x.hosts[h].trace == x.hosts[0].trace && Abreast(x.hosts[0].at, x.hosts[h].at))
    && (match x.hosts[0].at
        case InChunk(size, received) =>
          |x.shared| > 0 && x.payload == Encode(x.shared[|x.shared| - 1], p.dumps) && size == |x.payload| &&
          |received| < size && received == x.payload[..|received|] && |x.closed| + 1 == |x.shared|
        case InFlag(job, passed) =>
          |x.shared| > 0 && job == x.shared[|x.shared| - 1] &&
          passed <= |phases(job)| && |x.closed| + 1 == |x.shared| &&
          (forall h: nat :: h < |x.hosts| ==> passed <= |p.behaves(h, job).phases|)
        case InGather(job, _, _) =>
          |x.shared| > 0 && job == x.shared[|x.shared| - 1] && |x.closed| + 1 == |x.shared|
        case InHeader => |x.closed| == |x.shared|
        case Exited => |x.closed| == |x.shared|
        case Crashed => true)
    && |x.closed| <= |x.shared| && forall i :: 0 <= i < |x.closed| ==> x.closed[i].0 == x.shared[i]
  }

  /** The programs the set may run. */
  ghost predicate ProgramOk(p: Program, phases: Message -> seq<string>) {
    p.width > 0 && IsJson(p.dumps, p.loads) && SamePhases(p, phases)
  }

  /** One chunk further, or the whole job: the same on every host, and the job the primary encoded. */
  lemma ChunkStep(p: Program, payload: Bytes, received: Bytes, job: Message)
    requires p.width > 0 && IsJson(p.dumps, p.loads) && payload == Encode(job, p.dumps)
    requires |received| < |payload| && received == payload[..|received|]
    ensures var r := received + Kept(PaddedChunk(payload, |received|, p.width), |payload|, |received|);
            && |received| < |r| <= |payload| && r == payload[..|r|]
            && AfterMessage(p, |payload|, r) == if |r| < |payload| then InChunk(|payload|, r) else InFlag(job, 0)
  {
    KeptExtends(payload, |received|, p.width);
    DecodeEncode(job, p.dumps, p.loads);
    assert payload[..|payload|] == payload;
  }

  /** Past a boundary, two hosts that have not crashed are at the same next collective. */
  lemma BoundaryStep(p: Program, phases: Message -> seq<string>, h: nat, job: Message, passed: nat, flagged: bool)
    requires SamePhases(p, phases) && passed <= |p.behaves(h, job).phases|
    ensures passed <= |phases(job)|
    ensures BoundaryName(p.behaves(h, job), passed) == BoundaryName(Behaviour(phases(job), Finishes), passed)
    ensures var at := AfterBoundary(p, h, true, job, passed);
            !at.Crashed? ==>
              if passed < |phases(job)| then at == InFlag(job, passed + 1) && passed < |p.behaves(h, job).phases|
              else at.InGather? && at.job == job && !at.outcome.CANCELLED? && at.stoppedAt == ""
  {
    var b := p.behaves(h, job);
    assert b.phases == phases(job) || (b.phases <= phases(job) && b.end == Fails(Infrastructure));
  }

  /** A lone host past a boundary is at the job's next one, or at its end. */
  lemma LoneStep(p: Program, phases: Message -> seq<string>, job: Message, passed: nat)
    requires SamePhases(p, phases) && passed <= |p.behaves(0, job).phases|
    ensures var at := AfterBoundary(p, 0, false, job, passed);
            if passed < |p.behaves(0, job).phases| then at == InFlag(job, passed + 1) && passed < |phases(job)|
            else at.InGather? && at.job == job && !at.outcome.CANCELLED? && at.stoppedAt == ""
  {
    BoundaryStep(p, phases, 0, job, passed, false);
  }

  lemma RoundFromHeader(p: Program, phases: Message -> seq<string>, x: WorkerSet, input: Input)
    requires Lockstep(p, phases, x) && ProgramOk(p, phases) && x.hosts[0].at.InHeader?
    ensures Lockstep(p, phases, Round(p, x, input))
  {
    if input.command.RunJob? {
      var payload := Encode(input.command.job, p.dumps);
      assert |payload| > 0;
    }
  }

  lemma RoundFromChunk(p: Program, phases: Message -> seq<string>, x: WorkerSet, input: Input)
    requires Lockstep(p, phases, x) && ProgramOk(p, phases) && x.hosts[0].at.InChunk?
    ensures Lockstep(p, phases, Round(p, x, input))
  {
    ChunkStep(p, x.payload, x.hosts[0].at.received, x.shared[|x.shared| - 1]);
  }

  lemma RoundFromFlag(p: Program, phases: Message -> seq<string>, x: WorkerSet, input: Input)
    requires Lockstep(p, phases, x) && ProgramOk(p, phases) && x.hosts[0].at.InFlag?
    ensures AnyCrashed(Round(p, x, input).hosts) || Lockstep(p, phases, Round(p, x, input))
  {
    var job, passed := x.hosts[0].at.job, x.hosts[0].at.passed;
    var y := Round(p, x, input);
    forall h: nat | h < |x.hosts|
      ensures y.hosts[h].trace == y.hosts[0].trace
      ensures AnyCrashed(y.hosts) || Abreast(y.hosts[0].at, y.hosts[h].at)
      ensures y.hosts[h].at.InFlag? ==> y.hosts[h].at.passed <= |p.behaves(h, job).phases|
    {
      BoundaryStep(p, phases, 0, job, passed, input.flagged);
      BoundaryStep(p, phases, h, job, passed, input.flagged);
      LoneStep(p, phases, job, passed);
    }
  }

  lemma RoundFromGather(p: Program, phases: Message -> seq<string>, x: WorkerSet, input: Input)
    requires Lockstep(p, phases, x) && x.hosts[0].at.InGather?
    ensures Lockstep(p, phases, Round(p, x, input))
  {
  }

  lemma RoundLockstep(p: Program, phases: Message -> seq<string>, x: WorkerSet, input: Input)
    requires Lockstep(p, phases, x) && ProgramOk(p, phases)
    ensures AnyCrashed(Round(p, x, input).hosts) || Lockstep(p, phases, Round(p, x, input))
  {
    if !AnyCrashed(x.hosts) {
      match x.hosts[0].at
      case InHeader => RoundFromHeader(p, phases, x, input);
      case InChunk(_, _) => RoundFromChunk(p, phases, x, input);
      case InFlag(_, _) => RoundFromFlag(p, phases, x, input);
      case InGather(_, _, _) => RoundFromGather(p, phases, x, input);
      case _ =>
    }
  }

  /** In every run of any number of hosts, whatever the primary's queue says and wherever a cancel or
      a failure falls: until a host crashes, all have entered the same sequence of collectives and
      wait in the same one, and each job handed out was closed once, in order, but the one running. */
  lemma {:induction false} EveryRunIsLockstep(p: Program, phases: Message -> seq<string>, count: nat,
                                              inputs: seq<Input>)
    requires ProgramOk(p, phases) && count > 0
    ensures var y := Rounds(p, Started(count), inputs); AnyCrashed(y.hosts) || Lockstep(p, phases, y)
  {
    if |inputs| > 0 {
      EveryRunIsLockstep(p, phases, count, inputs[..|inputs| - 1]);
      var x := Rounds(p, Started(count), inputs[..|inputs| - 1]);
      if !AnyCrashed(x.hosts) {
        RoundLockstep(p, phases, x, inputs[|inputs| - 1]);
      }
    }
  }

  /** A cancel the primary sees at a boundary stops every host at that boundary; one it does not see
      stops none. */
  lemma CancelIsUnanimous(p: Program, phases: Message -> seq<string>, x: WorkerSet, input: Input)
    requires Lockstep(p, phases, x) && ProgramOk(p, phases) && !AnyCrashed(x.hosts) && x.hosts[0].at.InFlag?
    ensures var y := Round(p, x, input);
            var job, passed := x.hosts[0].at.job, x.hosts[0].at.passed;
            var name := if passed == 0 then "start" else phases(job)[passed - 1];
            forall h :: 0 <= h < |y.hosts| ==>
              if input.flagged then y.hosts[h].at == InGather(job, CANCELLED, name)
              else !(y.hosts[h].at.InGather? && y.hosts[h].at.outcome.CANCELLED?)
  {
    var job, passed := x.hosts[0].at.job, x.hosts[0].at.passed;
    forall h: nat | h < |x.hosts|
      ensures BoundaryName(p.behaves(h, job), passed) == BoundaryName(Behaviour(phases(job), Finishes), passed)
    {
      BoundaryStep(p, phases, h, job, passed, input.flagged);
    }
  }

  // ----- the primary closes the row -----------------------------------------------------------

  /** How the outcomes of all hosts close the job's row; `own` is the primary's failure. */
  function ClosingStatus(outcomes: seq<Outcome>, storable: bool): Status
    requires |outcomes| > 0
  {
    if exists h :: 0 <= h < |outcomes| && outcomes[h] != outcomes[0] then Failed
    else match outcomes[0]
         case CANCELLED => Cancelled
         case FAILED => Failed
         case DONE => if storable then Done else Failed
  }

  /** What the primary has to close a row with: its own result or failure, and whether the result can be
      stored. */
  datatype Report = Report(result: string, artifacts: map<string, seq<Bytes>>, storable: bool,
                           failure: FailureClass, error: string, compiles: Option<nat>)

  predicate Mixed(outcomes: seq<Outcome>)
    requires |outcomes| > 0
  {
    exists h :: 0 <= h < |outcomes| && outcomes[h] != outcomes[0]
  }

  function Fail(s: Store, id: string, failure: FailureClass, error: string, r: Report, now: real): Store {
    WrittenOr(s, Close(s, id, Closing(Failed, None, Some(failure), Some(error), r.compiles), now))
  }

  /** A result stored with its artifacts, or the job failed where that cannot be. */
  function Stored(s: Store, id: string, r: Report, now: real): Store {
    var finished := if r.storable then Finish(s, id, r.result, r.compiles, r.artifacts, now) else None;
    if finished.Some? then finished.value else Fail(s, id, Infrastructure, STORING_FAILED, r, now)
  }

  /** The file once the primary has closed the job's row from all outcomes. */
  function CloseOutcomes(s: Store, id: string, outcomes: seq<Outcome>, stoppedAt: string, r: Report, now: real): Store
    requires |outcomes| > 0
  {
    if Mixed(outcomes) then Fail(s, id, Infrastructure, ENDED_DIFFERENTLY, r, now)
    else match outcomes[0]
         case CANCELLED => WrittenOr(s, Close(s, id, Closing(Cancelled, None, None, Some(stoppedAt), r.compiles), now))
         case FAILED => Fail(s, id, r.failure, r.error, r, now)
         case DONE => Stored(s, id, r, now)
  }

  /** The row of the running job `n` and what of it the closing leaves. */
  ghost predicate ClosedAs(s: Store, s': Store, n: nat, outcomes: seq<Outcome>, stoppedAt: string, r: Report,
                           now: real)
    requires |outcomes| > 0 && n in s.jobs
  {
    && s'.jobs.Keys == s.jobs.Keys && s'.lastNumber == s.lastNumber
    && s'.jobs[n].status == ClosingStatus(outcomes, r.storable)
    && (forall m :: m in s.jobs && m != n ==> s'.jobs[m] == s.jobs[m])
    && (s'.jobs[n].status.Failed? ==>
          s'.jobs[n].failureClass
          == Some(if (forall h :: 0 <= h < |outcomes| ==> outcomes[h] == FAILED) then r.failure else Infrastructure))
    && (s'.chunks != s.chunks ==> ClosingStatus(outcomes, r.storable).Done?)
    && ReportedIn(s'.jobs[n], outcomes, stoppedAt, r, now)
  }

  /** What the closed row says: the result of a done job, where a cancelled one stopped, or why it failed; and
      when, after how many compiles. */
  ghost predicate ReportedIn(j: Job, outcomes: seq<Outcome>, stoppedAt: string, r: Report, now: real)
    requires |outcomes| > 0
  {
    && j.finished == Some(now) && j.compiles == r.compiles
    && j.result == (if j.status.Done? then Some(r.result) else None)
    && (j.status.Done? ==> j.error.None?)
    && (AllAre(outcomes, CANCELLED) ==> j.error == Some(stoppedAt))
    && (AllAre(outcomes, FAILED) ==> j.error == Some(r.error))
    && (AllAre(outcomes, DONE) && !j.status.Done? ==> j.error == Some(STORING_FAILED))
    && (Mixed(outcomes) ==> j.error == Some(ENDED_DIFFERENTLY))
  }

  ghost predicate AllAre(outcomes: seq<Outcome>, outcome: Outcome) {
    forall h :: 0 <= h < |outcomes| ==> outcomes[h] == outcome
  }

  ghost predicate RunningRow(s: Store, n: nat, id: string) {
    n in s.jobs && s.jobs[n].id == id && s.jobs[n].status.Running?
  }

  /** Closing a running row writes it and no other. */
  lemma CloseWrites(s: Store, n: nat, id: string, c: Closing, now: real)
    requires Valid(s) && RunningRow(s, n, id)
    ensures Close(s, id, c, now).Some?
    ensures var s' := Close(s, id, c, now).value;
            && s'.jobs.Keys == s.jobs.Keys && s'.lastNumber == s.lastNumber && s'.chunks == s.chunks
            && s'.jobs[n] == s.jobs[n].(status := c.status, result := c.result, failureClass := c.failureClass,
                                        error := c.error, compiles := c.compiles, finished := Some(now))
            && (forall m :: m in s.jobs && m != n ==> s'.jobs[m] == s.jobs[m])
  {
    assert n in Rows(s.jobs, (j: Job) => j.id == id && j.status.Running?);
  }

  lemma FinishWrites(s: Store, n: nat, id: string, r: Report, now: real)
    requires Valid(s) && RunningRow(s, n, id)
    ensures var f := Finish(s, id, r.result, r.compiles, r.artifacts, now);
            && f.Some?
            && f.value.jobs.Keys == s.jobs.Keys && f.value.lastNumber == s.lastNumber
            && f.value.jobs[n] == s.jobs[n].(status := Done, result := Some(r.result), failureClass := None,
                                             error := None, compiles := r.compiles, finished := Some(now))
            && (forall m :: m in s.jobs && m != n ==> f.value.jobs[m] == s.jobs[m])
  {
    JobQueue.FinishesIfRunning(s, id, r.result, r.compiles, r.artifacts, now);
  }

  /** Only the row of `n` is written, and how. */
  ghost predicate WritesRow(s: Store, s': Store, n: nat, status: Status) {
    && n in s.jobs && s'.jobs.Keys == s.jobs.Keys && s'.lastNumber == s.lastNumber
    && s'.jobs[n].status == status && (forall m :: m in s.jobs && m != n ==> s'.jobs[m] == s.jobs[m])
    && (s'.chunks != s.chunks ==> status.Done?)
  }

  lemma FailWrites(s: Store, n: nat, id: string, failure: FailureClass, error: string, r: Report, now: real)
    requires Valid(s) && RunningRow(s, n, id)
    ensures var s' := Fail(s, id, failure, error, r, now);
            && WritesRow(s, s', n, Failed)
            && s'.jobs[n].failureClass == Some(failure) && s'.jobs[n].error == Some(error)
            && s'.jobs[n].result.None? && s'.jobs[n].finished == Some(now) && s'.jobs[n].compiles == r.compiles
  {
    CloseWrites(s, n, id, Closing(Failed, None, Some(failure), Some(error), r.compiles), now);
  }

  lemma StoredWrites(s: Store, n: nat, id: string, r: Report, now: real)
    requires Valid(s) && RunningRow(s, n, id)
    ensures var s' := Stored(s, id, r, now);
            && WritesRow(s, s', n, if r.storable then Done else Failed)
            && s'.jobs[n].finished == Some(now) && s'.jobs[n].compiles == r.compiles
            && (if r.storable then s'.jobs[n].result == Some(r.result) && s'.jobs[n].error.None?
                else s'.jobs[n].failureClass == Some(Infrastructure) && s'.jobs[n].result.None?
                     && s'.jobs[n].error == Some(STORING_FAILED))
  {
    FinishWrites(s, n, id, r, now);
    FailWrites(s, n, id, Infrastructure, STORING_FAILED, r, now);
  }

  /** All outcomes together close the one row: done if and only if all are and the result is stored,
      cancelled if and only if all are, and failed otherwise, with the class that they say. */
  lemma OutcomesCloseTheRow(s: Store, n: nat, id: string, outcomes: seq<Outcome>, stoppedAt: string, r: Report,
                            now: real)
    requires Valid(s) && RunningRow(s, n, id) && |outcomes| > 0
    ensures ClosedAs(s, CloseOutcomes(s, id, outcomes, stoppedAt, r, now), n, outcomes, stoppedAt, r, now)
  {
    if Mixed(outcomes) {
      FailWrites(s, n, id, Infrastructure, ENDED_DIFFERENTLY, r, now);
    } else if outcomes[0].CANCELLED? {
      CloseWrites(s, n, id, Closing(Cancelled, None, None, Some(stoppedAt), r.compiles), now);
    } else if outcomes[0].FAILED? {
      FailWrites(s, n, id, r.failure, r.error, r, now);
    } else {
      StoredWrites(s, n, id, r, now);
    }
  }

  /** The end of `run_job` on the primary: one closing of the row, and done only if every host was. */
  method CloseJob(queue: JobQueue.JobQueue, id: string, outcomes: seq<Outcome>, stoppedAt: string, r: Report, now: real,
                  ghost n: nat)
    requires queue.IsValid() && |outcomes| > 0 && RunningRow(queue.File(), n, id)
    modifies queue
    ensures queue.IsValid() && queue.File() == CloseOutcomes(old(queue.File()), id, outcomes, stoppedAt, r, now)
    ensures ClosedAs(old(queue.File()), queue.File(), n, outcomes, stoppedAt, r, now)
  {
    hide Valid;
    OutcomesCloseTheRow(queue.File(), n, id, outcomes, stoppedAt, r, now);
    var ok;
    if Mixed(outcomes) {
      ok := queue.FailJob(id, Infrastructure, ENDED_DIFFERENTLY, r.compiles, now);
    } else if outcomes[0].CANCELLED? {
      ok := queue.CancelRunning(id, stoppedAt, r.compiles, now);
    } else if outcomes[0].FAILED? {
      ok := queue.FailJob(id, r.failure, r.error, r.compiles, now);
    } else {
      ok := false;
      if r.storable {
        ok := queue.FinishJob(id, r.result, r.compiles, r.artifacts, now);
      }
      if !ok {
        ok := queue.FailJob(id, Infrastructure, STORING_FAILED, r.compiles, now);
      }
    }
  }

  /** The row reads done only if every host's outcome was, and cancelled only if every host stopped. */
  lemma DoneMeansAllDone(outcomes: seq<Outcome>, storable: bool)
    requires |outcomes| > 0
    ensures ClosingStatus(outcomes, storable).Done? <==>
            storable && forall h :: 0 <= h < |outcomes| ==> outcomes[h].DONE?
    ensures ClosingStatus(outcomes, storable).Cancelled? <==> forall h :: 0 <= h < |outcomes| ==> outcomes[h].CANCELLED?
  {
    assert outcomes[0] == outcomes[0];
  }
}
