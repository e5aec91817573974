/** The durable job queue (engine/api/job_queue.py): its tables, and each transaction on them. */
module JobTables {
  import opened Wrappers

  type Bytes = seq<bv8>

  datatype Kind = Run | Portfolio | MarketRisk

  datatype Status = Pending | Running | Done | Failed | Interrupted | Cancelled {
    predicate Terminal() {
      !Pending? && !Running?
    }
  }

  datatype FailureClass = BadTerms | MissingMarketData | UnsupportedProduct | NumericalFailure | Infrastructure

  /** One row of the jobs table but its primary key, which numbers the rows in submission order. */
  datatype Job = Job(
    id: string, kind: Kind, request: Bytes, status: Status, failureClass: Option<FailureClass>,
    error: Option<string>, result: Option<string>, worker: Option<string>, compiles: Option<nat>,
    submitted: real, started: Option<real>, finished: Option<real>, key: Option<string>, sha256: Option<string>,
    cancelRequested: bool, keep: bool, attempts: nat)

  /** A chunk of a job's artifact. */
  datatype ChunkKey = ChunkKey(jobId: string, name: string, chunk: nat)

  /** The queue file. `lastNumber` is the highest primary key ever given out (AUTOINCREMENT). */
  datatype Store = Store(jobs: map<nat, Job>, lastNumber: nat, chunks: map<ChunkKey, Bytes>)

  /** How many times a job may be claimed when its worker set may run it again. */
  const MAX_ATTEMPTS: nat := 2

  const INTERRUPTED_ERROR := "the engine worker stopped while running this job"
  const RETIRED_ROUTE_ERROR := "this job was submitted to a route that was removed and never ran"
  const STORING_FAILED := "storing the result failed"
  const ENDED_DIFFERENTLY := "the hosts ended the job differently"
  const CANCELLED_PENDING := "cancelled before it started"
  const CANCELLED_STOPPED := "cancelled: the engine worker stopped before the cancel's phase boundary"

  // ----- statements ---------------------------------------------------------------------------

  /** `UPDATE jobs SET ... WHERE ...`, the assignment and the condition as functions of the row. */
  function Update(jobs: map<nat, Job>, where: Job -> bool, assign: Job -> Job): map<nat, Job> {
    map n | n in jobs :: if where(jobs[n]) then assign(jobs[n]) else jobs[n]
  }

  /** The rows a condition selects. */
  function Rows(jobs: map<nat, Job>, where: Job -> bool): set<nat> {
    set n | n in jobs && where(jobs[n])
  }

  ghost predicate IsLeast(s: set<nat>, n: nat) {
    n in s && forall m :: m in s ==> n <= m
  }

  lemma LeastExists(s: set<nat>) returns (n: nat)
    requires s != {}
    ensures IsLeast(s, n)
  {
    n :| n in s;
    if s != {n} {
      var m := LeastExists(s - {n});
      assert forall k :: k in s ==> k == n || k in s - {n};
      n := if n <= m then n else m;
    }
  }

  /** `... ORDER BY seq LIMIT 1`. */
  function First(s: set<nat>): (n: nat)
    requires s != {}
    ensures n in s && forall m :: m in s ==> n <= m
  {
    assert exists n :: n in s && forall m :: m in s ==> n <= m by {
      var n := LeastExists(s);
    }
    var n :| n in s && forall m :: m in s ==> n <= m;
    n
  }

  predicate IsRunning(j: Job) {
    j.status.Running?
  }

  predicate IsPending(j: Job) {
    j.status.Pending?
  }

  // ----- transactions -------------------------------------------------------------------------

  /** A submission is given its job's id, or refused: another body under the same key, or a call
      that cannot be queued. */
  datatype Submission = Accepted(id: string) | Conflict(existing: string) | Refused

  function Submit(s: Store, id: string, request: Bytes, kind: Kind, key: Option<string>, sha256: Option<string>,
                  keep: bool, now: real): (r: (Store, Submission))
  {
    if kind != Run || (key.Some? && sha256.None?) then (s, Refused)
    else
      var keyed := Rows(s.jobs, (j: Job) => key.Some? && j.key == key);
      if keyed != {} then
        var job := s.jobs[First(keyed)];
        (s, if job.sha256 != sha256 then Conflict(job.id) else Accepted(job.id))
      else if Rows(s.jobs, (j: Job) => j.id == id) != {} then (s, Refused)
      else
        var job := Job(id, kind, request, Pending, None, None, None, None, None, now, None, None, key, sha256,
                       false, keep, 0);
        (s.(jobs := s.jobs[s.lastNumber + 1 := job], lastNumber := s.lastNumber + 1), Accepted(id))
  }

  function Claim(s: Store, worker: string, now: real): (Store, Option<nat>) {
    var pending := Rows(s.jobs, IsPending);
    if pending == {} then (s, None)
    else
      var n := First(pending);
      var job := s.jobs[n];
      (s.(jobs := s.jobs[n := job.(status := Running, worker := Some(worker), started := Some(now),
                                   attempts := job.attempts + 1)]), Some(n))
  }

  /** How a running job's row is closed. */
  datatype Closing = Closing(status: Status, result: Option<string>, failureClass: Option<FailureClass>,
                             error: Option<string>, compiles: Option<nat>)

  /** None where the job is not running: the call raises and nothing is written. */
  function Close(s: Store, id: string, c: Closing, now: real): Option<Store> {
    var rows := Rows(s.jobs, (j: Job) => j.id == id && j.status.Running?);
    if rows == {} then None
    else Some(s.(jobs := Update(s.jobs, (j: Job) => j.id == id && j.status.Running?,
                                (j: Job) => j.(status := c.status, result := c.result, failureClass := c.failureClass,
                                               error := c.error, compiles := c.compiles, finished := Some(now)))))
  }

  /** The file after a call that raises where it cannot write: as it was. */
  function WrittenOr(s: Store, written: Option<Store>): Store {
    match written case Some(s') => s' case None => s
  }

  /** The chunk rows a job's artifacts become, numbered from 0 in order. */
  function ChunkRows(id: string, artifacts: map<string, seq<Bytes>>): map<ChunkKey, Bytes> {
    map name, i | name in artifacts && 0 <= i < |artifacts[name]| :: ChunkKey(id, name, i) := artifacts[name][i]
  }

  /** The artifacts and the closing in one transaction: a chunk already stored or a job not running
      leaves the file as it was. */
  function Finish(s: Store, id: string, result: string, compiles: Option<nat>, artifacts: map<string, seq<Bytes>>,
                  now: real): Option<Store>
  {
    var rows := ChunkRows(id, artifacts);
    if rows.Keys * s.chunks.Keys != {} then None
    else Close(s.(chunks := s.chunks + rows), id, Closing(Done, Some(result), None, None, compiles), now)
  }

  /** A row a cancel reaches: a pending one is closed, a running one flagged for its worker. */
  function CancelledRow(j: Job, now: real): Job {
    match j.status
    case Pending => j.(status := Cancelled, error := Some(CANCELLED_PENDING), finished := Some(now))
    case Running => j.(cancelRequested := true)
    case _ => j
  }

  function Cancel(s: Store, id: string, now: real): (Store, Option<Status>) {
    var rows := Rows(s.jobs, (j: Job) => j.id == id);
    if rows == {} then (s, None)
    else
      var n := First(rows);
      (s.(jobs := s.jobs[n := CancelledRow(s.jobs[n], now)]), Some(CancelledRow(s.jobs[n], now).status))
  }

  predicate Reached(j: Job) {
    j.status.Running? && j.cancelRequested
  }

  predicate MayRunAgain(j: Job) {
    j.status.Running? && j.attempts < MAX_ATTEMPTS
  }

  /** Running rows a cancel had reached are cancelled ... */
  function StopReached(s: Store, now: real): Store {
    s.(jobs := Update(s.jobs, Reached, (j: Job) => j.(status := Cancelled, error := Some(CANCELLED_STOPPED),
                                                      finished := Some(now))))
  }

  /** ... and those that may run again are put back ... */
  function PutBack(s: Store): Store {
    s.(jobs := Update(s.jobs, MayRunAgain, (j: Job) => j.(status := Pending, worker := None, started := None)))
  }

  /** ... in one transaction; the number put back. */
  function Requeue(s: Store, now: real): (Store, nat) {
    (PutBack(StopReached(s, now)), |Rows(StopReached(s, now).jobs, MayRunAgain)|)
  }

  function Interrupt(s: Store, now: real): (Store, nat) {
    (s.(jobs := Update(s.jobs, IsRunning, (j: Job) => j.(status := Interrupted, error := Some(INTERRUPTED_ERROR),
                                                         finished := Some(now)))),
     |Rows(s.jobs, IsRunning)|)
  }

  predicate Expired(j: Job, before: real) {
    j.status.Terminal() && !j.keep && j.finished.Some? && j.finished.value < before
  }

  function Purge(s: Store, before: real): (Store, nat) {
    var gone := Rows(s.jobs, (j: Job) => Expired(j, before));
    var ids := set n | n in gone :: s.jobs[n].id;
    (s.(jobs := s.jobs - gone, chunks := map k | k in s.chunks && k.jobId !in ids :: s.chunks[k]), |gone|)
  }

  // ----- what every transaction keeps ---------------------------------------------------------

  ghost predicate RowValid(n: nat, j: Job) {
    && j.attempts <= MAX_ATTEMPTS
    && (j.status.Pending? ==> j.attempts < MAX_ATTEMPTS && !j.cancelRequested && j.started.None?)
    && (j.status.Running? ==> j.attempts > 0 && j.started.Some?)
    && (j.status.Terminal() ==> j.finished.Some?)
    && (j.key.Some? ==> j.sha256.Some?)
  }

  /** Every chunk belongs to a done job, and the chunks of an artifact are numbered 0, 1, ... */
  ghost predicate ChunksValid(s: Store) {
    forall k :: k in s.chunks ==>
      && (exists n :: n in s.jobs && s.jobs[n].id == k.jobId && s.jobs[n].status.Done?)
      && (forall i :: 0 <= i < k.chunk ==> ChunkKey(k.jobId, k.name, i) in s.chunks)
  }

  ghost predicate Valid(s: Store) {
    && (forall n :: n in s.jobs ==> n <= s.lastNumber && RowValid(n, s.jobs[n]))
    && (forall n, m :: n in s.jobs && m in s.jobs && n != m ==>
          s.jobs[n].id != s.jobs[m].id && (s.jobs[n].key.Some? ==> s.jobs[n].key != s.jobs[m].key))
    && ChunksValid(s)
  }

  lemma SubmitValid(s: Store, id: string, request: Bytes, kind: Kind, key: Option<string>, sha256: Option<string>,
                    keep: bool, now: real)
    requires Valid(s)
    ensures Valid(Submit(s, id, request, kind, key, sha256, keep, now).0)
  {
    hide ChunksValid;
    var s' := Submit(s, id, request, kind, key, sha256, keep, now).0;
    if s' != s {
      var n := s.lastNumber + 1;
      forall m | m in s.jobs ensures s.jobs[m].id != id && (key.Some? ==> s.jobs[m].key != key) {
        assert m !in Rows(s.jobs, (j: Job) => j.id == id);
        assert m !in Rows(s.jobs, (j: Job) => key.Some? && j.key == key);
      }
      RowAdded(s, n, s'.jobs[n]);
    }
  }

  /** A new row leaves every chunk with its job. */
  lemma RowAdded(s: Store, n: nat, job: Job)
    requires ChunksValid(s) && n !in s.jobs
    ensures ChunksValid(s.(jobs := s.jobs[n := job], lastNumber := n))
  {
    var s' := s.(jobs := s.jobs[n := job], lastNumber := n);
    forall k | k in s'.chunks ensures exists m :: m in s'.jobs && s'.jobs[m].id == k.jobId && s'.jobs[m].status.Done? {
      var m :| m in s.jobs && s.jobs[m].id == k.jobId && s.jobs[m].status.Done?;
      assert m in s'.jobs && s'.jobs[m] == s.jobs[m];
    }
  }

  /** Statements that change statuses without creating, deleting or undoing a done row, or renaming. */
  ghost predicate RowwiseStep(s: Store, s': Store) {
    && s'.jobs.Keys == s.jobs.Keys && s'.lastNumber == s.lastNumber && s'.chunks == s.chunks
    && forall n :: n in s.jobs ==>
         && s'.jobs[n].id == s.jobs[n].id && s'.jobs[n].key == s.jobs[n].key
         && (s.jobs[n].status.Done? ==> s'.jobs[n].status.Done?)
         && RowValid(n, s'.jobs[n])
  }

  lemma RowwiseValid(s: Store, s': Store)
    requires Valid(s) && RowwiseStep(s, s')
    ensures Valid(s')
  {
    forall k | k in s'.chunks ensures exists n :: n in s'.jobs && s'.jobs[n].id == k.jobId && s'.jobs[n].status.Done? {
      var n :| n in s.jobs && s.jobs[n].id == k.jobId && s.jobs[n].status.Done?;
      assert s'.jobs[n].status.Done?;
    }
    forall n | n in s'.jobs ensures n <= s'.lastNumber {
      assert n in s.jobs;
    }
  }

  lemma ClaimRowwise(s: Store, worker: string, now: real)
    requires Valid(s) && Rows(s.jobs, IsPending) != {}
    ensures RowwiseStep(s, Claim(s, worker, now).0)
  {
    hide ChunksValid;
    assert First(Rows(s.jobs, IsPending)) in s.jobs;
  }

  lemma ClaimValid(s: Store, worker: string, now: real)
    requires Valid(s)
    ensures Valid(Claim(s, worker, now).0)
  {
    hide Valid, RowwiseStep;
    if Rows(s.jobs, IsPending) != {} {
      ClaimRowwise(s, worker, now);
      RowwiseValid(s, Claim(s, worker, now).0);
    }
  }

  lemma CloseValid(s: Store, id: string, c: Closing, now: real)
    requires Valid(s) && c.status.Terminal()
    ensures Close(s, id, c, now).Some? ==> Valid(Close(s, id, c, now).value)
  {
    if Close(s, id, c, now).Some? {
      RowwiseValid(s, Close(s, id, c, now).value);
    }
  }

  lemma ChunksAdded(s: Store, rows: map<ChunkKey, Bytes>, n: nat)
    requires ChunksValid(s) && n in s.jobs && s.jobs[n].status.Done?
    requires forall k :: k in rows ==>
               k.jobId == s.jobs[n].id && forall i :: 0 <= i < k.chunk ==> ChunkKey(k.jobId, k.name, i) in rows
    ensures ChunksValid(s.(chunks := s.chunks + rows))
  {
  }

  /** A finish closes the row and adds the chunks. */
  lemma FinishIsClose(s: Store, id: string, result: string, compiles: Option<nat>,
                      artifacts: map<string, seq<Bytes>>, now: real)
    requires Finish(s, id, result, compiles, artifacts, now).Some?
    ensures var closed := Close(s, id, Closing(Done, Some(result), None, None, compiles), now);
            && closed.Some?
            && Finish(s, id, result, compiles, artifacts, now).value
               == closed.value.(chunks := closed.value.chunks + ChunkRows(id, artifacts))
  {
  }

  lemma ClosedRow(s: Store, id: string, c: Closing, now: real) returns (n: nat)
    requires Close(s, id, c, now).Some?
    ensures var s' := Close(s, id, c, now).value;
            n in s'.jobs && s'.jobs[n].id == id && s'.jobs[n].status == c.status
  {
    n :| n in Rows(s.jobs, (j: Job) => j.id == id && j.status.Running?);
  }

  lemma FinishValid(s: Store, id: string, result: string, compiles: Option<nat>,
                    artifacts: map<string, seq<Bytes>>, now: real)
    requires Valid(s)
    ensures Finish(s, id, result, compiles, artifacts, now).Some? ==>
              Valid(Finish(s, id, result, compiles, artifacts, now).value)
  {
    hide Close, Finish, RowValid, ChunksValid;
    if Finish(s, id, result, compiles, artifacts, now).Some? {
      var c := Closing(Done, Some(result), None, None, compiles);
      FinishIsClose(s, id, result, compiles, artifacts, now);
      CloseValid(s, id, c, now);
      var n := ClosedRow(s, id, c, now);
      ChunksAdded(Close(s, id, c, now).value, ChunkRows(id, artifacts), n);
    }
  }

  lemma CancelValid(s: Store, id: string, now: real)
    requires Valid(s)
    ensures Valid(Cancel(s, id, now).0)
  {
    var rows := Rows(s.jobs, (j: Job) => j.id == id);
    if rows != {} {
      var n := First(rows);
      assert RowValid(n, CancelledRow(s.jobs[n], now));
      RowwiseValid(s, s.(jobs := s.jobs[n := CancelledRow(s.jobs[n], now)]));
    }
  }

  ghost predicate NoneReached(s: Store) {
    forall n :: n in s.jobs ==> !Reached(s.jobs[n])
  }

  lemma StopReachedValid(s: Store, now: real)
    requires Valid(s)
    ensures Valid(StopReached(s, now)) && NoneReached(StopReached(s, now))
  {
    RowwiseValid(s, StopReached(s, now));
  }

  lemma PutBackValid(s: Store)
    requires Valid(s) && NoneReached(s)
    ensures Valid(PutBack(s))
  {
    RowwiseValid(s, PutBack(s));
  }

  lemma RequeueValid(s: Store, now: real)
    requires Valid(s)
    ensures Valid(Requeue(s, now).0)
  {
    StopReachedValid(s, now);
    PutBackValid(StopReached(s, now));
  }

  lemma InterruptValid(s: Store, now: real)
    requires Valid(s)
    ensures Valid(Interrupt(s, now).0)
  {
    RowwiseValid(s, Interrupt(s, now).0);
  }

  lemma PurgeValid(s: Store, before: real)
    requires Valid(s)
    ensures Valid(Purge(s, before).0)
  {
    var s' := Purge(s, before).0;
    forall k | k in s'.chunks ensures exists n :: n in s'.jobs && s'.jobs[n].id == k.jobId && s'.jobs[n].status.Done? {
      var n :| n in s.jobs && s.jobs[n].id == k.jobId && s.jobs[n].status.Done?;
      assert n in s'.jobs;
    }
  }

  // ----- what a submission stores -------------------------------------------------------------

  ghost predicate KeyStored(s: Store, key: Option<string>) {
    key.Some? && exists n :: n in s.jobs && s.jobs[n].key == key
  }

  ghost predicate IdStored(s: Store, id: string) {
    exists n :: n in s.jobs && s.jobs[n].id == id
  }

  /** A row as it is queued: what was submitted, and nothing run yet. */
  predicate IsQueued(j: Job, id: string, request: Bytes, kind: Kind, key: Option<string>, sha256: Option<string>,
                     keep: bool, now: real)
  {
    && j.id == id && j.request == request && j.kind == kind && j.key == key && j.sha256 == sha256 && j.keep == keep
    && j.submitted == now && j.status.Pending? && j.attempts == 0 && !j.cancelRequested
    && j.worker.None? && j.started.None? && j.finished.None?
    && j.result.None? && j.failureClass.None? && j.error.None? && j.compiles.None?
  }

  /** One row more, under the next number, as it was submitted. */
  ghost predicate Queues(s: Store, s': Store, id: string, request: Bytes, kind: Kind, key: Option<string>,
                         sha256: Option<string>, keep: bool, now: real)
  {
    && s'.lastNumber == s.lastNumber + 1 && s'.chunks == s.chunks
    && s'.lastNumber !in s.jobs && s'.jobs.Keys == s.jobs.Keys + {s'.lastNumber}
    && (forall n :: n in s.jobs ==> s'.jobs[n] == s.jobs[n])
    && IsQueued(s'.jobs[s'.lastNumber], id, request, kind, key, sha256, keep, now)
  }

  /** What a call does with the file: nothing where it is refused or its key is stored, a new row otherwise. */
  ghost predicate Submits(s: Store, s': Store, r: Submission, id: string, request: Bytes, kind: Kind,
                          key: Option<string>, sha256: Option<string>, keep: bool, now: real)
  {
    if kind != Run || (key.Some? && sha256.None?) then s' == s && r.Refused?
    else if KeyStored(s, key) then s' == s && !r.Refused?
    else if IdStored(s, id) then s' == s && r.Refused?
    else r == Accepted(id) && Queues(s, s', id, request, kind, key, sha256, keep, now)
  }

  lemma SubmitQueues(s: Store, id: string, request: Bytes, kind: Kind, key: Option<string>, sha256: Option<string>,
                     keep: bool, now: real)
    requires Valid(s)
    ensures var (s', r) := Submit(s, id, request, kind, key, sha256, keep, now);
            Submits(s, s', r, id, request, kind, key, sha256, keep, now)
  {
    var keyed, named := Rows(s.jobs, (j: Job) => key.Some? && j.key == key), Rows(s.jobs, (j: Job) => j.id == id);
    assert forall n :: n in keyed <==> n in s.jobs && key.Some? && s.jobs[n].key == key;
    assert forall n :: n in named <==> n in s.jobs && s.jobs[n].id == id;
  }

  // ----- idempotent submission ----------------------------------------------------------------

  /** A key that names a stored job: the same body is that job again, another body a conflict, and
      nothing is written either way. */
  lemma KeyNamesOneJob(s: Store, n: nat, id: string, request: Bytes, sha256: string, keep: bool, now: real)
    requires Valid(s) && n in s.jobs && s.jobs[n].key.Some?
    ensures Submit(s, id, request, Run, s.jobs[n].key, Some(sha256), keep, now) ==
            (s, if s.jobs[n].sha256 == Some(sha256) then Accepted(s.jobs[n].id) else Conflict(s.jobs[n].id))
  {
    var keyed := Rows(s.jobs, (j: Job) => s.jobs[n].key.Some? && j.key == s.jobs[n].key);
    assert n in keyed;
    assert First(keyed) == n;
  }

  /** Submitting twice is submitting once: the first call's job is the second call's. */
  lemma SubmitTwice(s: Store, id: string, id': string, request: Bytes, request': Bytes, key: string, sha256: string,
                    keep: bool, keep': bool, now: real, now': real)
    requires Valid(s)
    ensures var (s1, r1) := Submit(s, id, request, Run, Some(key), Some(sha256), keep, now);
            r1.Accepted? ==> Submit(s1, id', request', Run, Some(key), Some(sha256), keep', now') == (s1, r1)
  {
    var (s1, r1) := Submit(s, id, request, Run, Some(key), Some(sha256), keep, now);
    if r1.Accepted? {
      SubmitValid(s, id, request, Run, Some(key), Some(sha256), keep, now);
      var n :=
        if s1 == s then First(Rows(s.jobs, (j: Job) => Some(key).Some? && j.key == Some(key))) else s1.lastNumber;
      assert s1 == s ==> n in Rows(s.jobs, (j: Job) => Some(key).Some? && j.key == Some(key));
      KeyNamesOneJob(s1, n, id', request', sha256, keep', now');
    }
  }

  // ----- migrations ---------------------------------------------------------------------------

  /** A row of schema version 1 or 2; version 1 had no kind, its rows were portfolio jobs. */
  datatype LegacyRow = LegacyRow(
    id: string, kind: Option<Kind>, request: Bytes, status: Status, failureClass: Option<FailureClass>,
    error: Option<string>, result: Option<string>, worker: Option<string>, compiles: Option<nat>,
    submitted: real, started: Option<real>, finished: Option<real>)

  /** A row copied into the rebuilt table; a job that had not ended is interrupted, its route gone. */
  function MigratedRow(r: LegacyRow): Job {
    var kind := if r.kind.Some? then r.kind.value else Portfolio;
    var job := Job(r.id, kind, r.request, r.status, r.failureClass, r.error, r.result, r.worker, r.compiles,
                   r.submitted, r.started, r.finished, None, None, false, false, 0);
    if r.status.Pending? || r.status.Running?
    then job.(status := Interrupted, error := Some(RETIRED_ROUTE_ERROR), finished := Some(r.submitted)) else job
  }

  function MigrateLegacy(rows: map<nat, LegacyRow>, last: nat, chunks: map<ChunkKey, Bytes>): Store {
    Store(map n | n in rows :: MigratedRow(rows[n]), last, chunks)
  }

  /** Version 3 gains the attempts column: a job has been claimed once if it has started. */
  function MigrateV3(s: Store): Store {
    s.(jobs := map n | n in s.jobs :: s.jobs[n].(attempts := if s.jobs[n].started.Some? then 1 else 0))
  }

  /** What a file of version 1 or 2 holds: distinct ids, ended rows dated, chunks of done rows only. */
  ghost predicate LegacyValid(rows: map<nat, LegacyRow>, last: nat, chunks: map<ChunkKey, Bytes>) {
    && (forall n :: n in rows ==> n <= last)
    && (forall n, m :: n in rows && m in rows && n != m ==> rows[n].id != rows[m].id)
    && (forall n :: n in rows && rows[n].status.Terminal() ==> rows[n].finished.Some?)
    && (forall k :: k in chunks ==>
          && (exists n :: n in rows && rows[n].id == k.jobId && rows[n].status.Done?)
          && (forall i :: 0 <= i < k.chunk ==> ChunkKey(k.jobId, k.name, i) in chunks))
  }

  /** What a file of version 3 holds: the same rows, but nothing said of attempts; a job is put back
      to pending by no version-3 worker, so a pending one has neither started nor been flagged. */
  ghost predicate V3Valid(s: Store) {
    && Valid(s.(jobs := map n | n in s.jobs :: s.jobs[n].(attempts := if s.jobs[n].status.Running? then 1 else 0)))
  }

  /** An old row as it is kept: never claimed, without a key, unprotected, and interrupted when it was submitted
      if it had not ended. */
  ghost predicate IsMigrated(r: LegacyRow, j: Job) {
    && j.id == r.id && j.request == r.request && j.submitted == r.submitted && j.started == r.started
    && j.worker == r.worker && j.compiles == r.compiles && j.failureClass == r.failureClass && j.result == r.result
    && (if r.kind.Some? then r.kind == Some(j.kind) else j.kind.Portfolio?)
    && j.key.None? && j.sha256.None? && !j.keep && !j.cancelRequested && j.attempts == 0
    && if r.status.Terminal() then j.status == r.status && j.error == r.error && j.finished == r.finished
       else j.status.Interrupted? && j.error == Some(RETIRED_ROUTE_ERROR) && j.finished == Some(r.submitted)
  }

  /** Every migration ends in a valid queue file; from versions 1 and 2 no row is left to run, every
      id and done row is kept, and every job of version 3 may still be claimed as the bound allows. */
  lemma MigrationsEstablishValid(rows: map<nat, LegacyRow>, last: nat, chunks: map<ChunkKey, Bytes>, s: Store)
    requires LegacyValid(rows, last, chunks) && V3Valid(s)
    ensures Valid(Store(map[], 0, map[]))
    ensures Valid(MigrateLegacy(rows, last, chunks)) && Valid(MigrateV3(s))
    ensures MigrateLegacy(rows, last, chunks).jobs.Keys == rows.Keys
    ensures forall n :: n in rows ==> IsMigrated(rows[n], MigrateLegacy(rows, last, chunks).jobs[n])
    ensures MigrateV3(s).jobs.Keys == s.jobs.Keys
  {
    hide Valid, LegacyValid, V3Valid, MigratedRow;
    forall n | n in rows ensures IsMigrated(rows[n], MigratedRow(rows[n])) {
      MigratedRowIs(rows[n]);
    }
    NewFileValid();
    LegacyMigrates(rows, last, chunks);
    V3Migrates(s);
  }

  lemma MigratedRowIs(r: LegacyRow)
    ensures IsMigrated(r, MigratedRow(r))
  {
  }

  lemma NewFileValid()
    ensures Valid(Store(map[], 0, map[]))
  {
  }

  lemma LegacyMigrates(rows: map<nat, LegacyRow>, last: nat, chunks: map<ChunkKey, Bytes>)
    requires LegacyValid(rows, last, chunks)
    ensures Valid(MigrateLegacy(rows, last, chunks))
  {
    var s := MigrateLegacy(rows, last, chunks);
    forall n | n in s.jobs ensures RowValid(n, s.jobs[n]) && s.jobs[n].id == rows[n].id && s.jobs[n].key.None? {
      MigratedRowValid(n, rows[n]);
    }
    LegacyChunks(rows, chunks, s);
  }

  lemma MigratedRowValid(n: nat, r: LegacyRow)
    requires r.status.Terminal() ==> r.finished.Some?
    ensures RowValid(n, MigratedRow(r)) && MigratedRow(r).id == r.id && MigratedRow(r).key.None?
    ensures r.status.Done? ==> MigratedRow(r).status.Done?
  {
  }

  lemma LegacyChunks(rows: map<nat, LegacyRow>, chunks: map<ChunkKey, Bytes>, s: Store)
    requires s.jobs.Keys == rows.Keys && s.chunks == chunks
    requires forall n :: n in rows ==> s.jobs[n].id == rows[n].id && (rows[n].status.Done? ==> s.jobs[n].status.Done?)
    requires forall k :: k in chunks ==>
               && (exists n :: n in rows && rows[n].id == k.jobId && rows[n].status.Done?)
               && (forall i :: 0 <= i < k.chunk ==> ChunkKey(k.jobId, k.name, i) in chunks)
    ensures ChunksValid(s)
  {
    forall k | k in s.chunks ensures exists n :: n in s.jobs && s.jobs[n].id == k.jobId && s.jobs[n].status.Done? {
      var n :| n in rows && rows[n].id == k.jobId && rows[n].status.Done?;
      assert s.jobs[n].status.Done?;
    }
  }

  lemma V3Migrates(s: Store)
    requires V3Valid(s)
    ensures Valid(MigrateV3(s))
  {
    var v := s.(jobs := map n | n in s.jobs :: s.jobs[n].(attempts := if s.jobs[n].status.Running? then 1 else 0));
    assert v.jobs.Keys == s.jobs.Keys;
    forall n | n in s.jobs ensures RowValid(n, MigrateV3(s).jobs[n]) {
      assert RowValid(n, v.jobs[n]);
    }
    RowwiseValid(v, MigrateV3(s));
  }
}

/** The queue as the API and the worker call it: a file of two tables, each call one transaction. */
module JobQueue {
  import opened Wrappers
  import opened JobTables

  class JobQueue {
    var jobs: map<nat, Job>
    var lastNumber: nat
    var chunks: map<ChunkKey, Bytes>

    function File(): Store
      reads this
    {
      Store(jobs, lastNumber, chunks)
    }

    ghost predicate IsValid()
      reads this
    {
      Valid(File())
    }

    /** A new file. */
    constructor ()
      ensures IsValid() && File() == Store(map[], 0, map[])
    {
      jobs, lastNumber, chunks := map[], 0, map[];
    }

    method Write(s: Store)
      modifies this
      ensures File() == s
    {
      jobs, lastNumber, chunks := s.jobs, s.lastNumber, s.chunks;
    }

    method SubmitJob(id: string, request: Bytes, kind: Kind, key: Option<string>, sha256: Option<string>, keep: bool,
                     now: real) returns (r: Submission)
      requires IsValid()
      modifies this
      ensures IsValid() && (File(), r) == Submit(old(File()), id, request, kind, key, sha256, keep, now)
      ensures r.Accepted? ==> exists n :: n in jobs && jobs[n].id == r.id && jobs[n].key == key
      ensures !r.Accepted? ==> File() == old(File())
      ensures Submits(old(File()), File(), r, id, request, kind, key, sha256, keep, now)
    {
      SubmitQueues(File(), id, request, kind, key, sha256, keep, now);
      SubmitValid(File(), id, request, kind, key, sha256, keep, now);
      var (s, submission) := Submit(File(), id, request, kind, key, sha256, keep, now);
      if submission.Accepted? && s == File() {
        assert First(Rows(jobs, (j: Job) => key.Some? && j.key == key))
            in Rows(jobs, (j: Job) => key.Some? && j.key == key);
      }
      Write(s);
      r := submission;
      assert s != old(File()) ==> lastNumber in jobs && jobs[lastNumber].id == id;
    }

    /** The oldest pending job, now running. */
    method ClaimJob(worker: string, now: real) returns (job: Option<Job>)
      requires IsValid()
      modifies this
      ensures IsValid() && File() == Claim(old(File()), worker, now).0
      ensures job.None? <==> forall n :: n in old(jobs) ==> !old(jobs)[n].status.Pending?
      ensures job.None? ==> File() == old(File())
      ensures job.Some? ==> exists n :: TookOldest(old(jobs), jobs, n, job.value, worker, now)
    {
      ClaimValid(File(), worker, now);
      ghost var pending := Rows(jobs, IsPending);
      assert forall n :: n in jobs && jobs[n].status.Pending? <==> n in pending;
      var (s, n) := Claim(File(), worker, now);
      Write(s);
      job := if n.Some? then Some(jobs[n.value]) else None;
      assert n.Some? ==> TookOldest(old(jobs), jobs, n.value, jobs[n.value], worker, now);
    }

    /** The running job done, its result and artifacts stored together; false where the call raises. */
    method FinishJob(id: string, result: string, compiles: Option<nat>, artifacts: map<string, seq<Bytes>>, now: real)
      returns (ok: bool)
      requires IsValid()
      modifies this
      ensures IsValid() && ok == Finish(old(File()), id, result, compiles, artifacts, now).Some?
      ensures ok ==> Some(File()) == Finish(old(File()), id, result, compiles, artifacts, now)
      ensures Closed(old(File()), File().(chunks := old(chunks)), id, Closing(Done, Some(result), None, None, compiles),
                     now, ok)
      ensures !ok ==> File() == old(File())
      ensures ok ==> chunks == old(chunks) + ChunkRows(id, artifacts)
    {
      FinishValid(File(), id, result, compiles, artifacts, now);
      FinishesIfRunning(File(), id, result, compiles, artifacts, now);
      var finished := Finish(File(), id, result, compiles, artifacts, now);
      ok := finished.Some?;
      if ok {
        Write(finished.value);
      }
    }

    method FailJob(id: string, failureClass: FailureClass, error: string, compiles: Option<nat>, now: real)
      returns (ok: bool)
      requires IsValid()
      modifies this
      ensures IsValid()
      ensures Closed(old(File()), File(), id, Closing(Failed, None, Some(failureClass), Some(error), compiles), now, ok)
      ensures var c := Closing(Failed, None, Some(failureClass), Some(error), compiles);
              File() == WrittenOr(old(File()), Close(old(File()), id, c, now))
    {
      ok := CloseRunning(id, Closing(Failed, None, Some(failureClass), Some(error), compiles), now);
    }

    /** The running job cancelled, stopped at a phase boundary. */
    method CancelRunning(id: string, error: string, compiles: Option<nat>, now: real) returns (ok: bool)
      requires IsValid()
      modifies this
      ensures IsValid()
      ensures Closed(old(File()), File(), id, Closing(Cancelled, None, None, Some(error), compiles), now, ok)
      ensures var c := Closing(Cancelled, None, None, Some(error), compiles);
              File() == WrittenOr(old(File()), Close(old(File()), id, c, now))
    {
      ok := CloseRunning(id, Closing(Cancelled, None, None, Some(error), compiles), now);
    }

    method CloseRunning(id: string, c: Closing, now: real) returns (ok: bool)
      requires IsValid() && c.status.Terminal()
      modifies this
      ensures IsValid() && Closed(old(File()), File(), id, c, now, ok)
      ensures File() == WrittenOr(old(File()), Close(old(File()), id, c, now))
    {
      CloseValid(File(), id, c, now);
      ghost var running := Rows(jobs, (j: Job) => j.id == id && j.status.Running?);
      assert forall n :: n in jobs && jobs[n].id == id && jobs[n].status.Running? <==> n in running;
      var closed := Close(File(), id, c, now);
      ok := closed.Some?;
      if ok {
        Write(closed.value);
      }
    }

    /** A pending job is cancelled at once, a running one flagged; the status after the call. */
    method CancelJob(id: string, now: real) returns (status: Option<Status>)
      requires IsValid()
      modifies this
      ensures IsValid() && File() == Cancel(old(File()), id, now).0
      ensures status.None? <==> forall n :: n in old(jobs) ==> old(jobs)[n].id != id
      ensures jobs.Keys == old(jobs).Keys && forall n :: n in jobs && jobs[n].id != id ==> jobs[n] == old(jobs)[n]
      ensures forall n :: n in jobs && jobs[n].id == id ==>
                status == Some(jobs[n].status) && IsCancelled(old(jobs)[n], jobs[n], now)
    {
      CancelValid(File(), id, now);
      ghost var rows := Rows(jobs, (j: Job) => j.id == id);
      assert forall n :: n in jobs && jobs[n].id == id <==> n in rows;
      var (s, after) := Cancel(File(), id, now);
      Write(s);
      status := after;
    }

    /** Whether a cancel has reached the job: the worker's look at each phase boundary. */
    method CancelRequested(id: string) returns (flagged: bool)
      requires IsValid()
      ensures flagged <==> exists n :: n in jobs && jobs[n].id == id && jobs[n].cancelRequested
    {
      var rows := Rows(jobs, (j: Job) => j.id == id);
      assert forall n :: n in jobs && jobs[n].id == id <==> n in rows;
      flagged := rows != {} && jobs[First(rows)].cancelRequested;
    }

    /** Put every running job claimed too few times back, cancel one a cancel had reached. */
    method RequeueRunning(now: real) returns (count: nat)
      requires IsValid()
      modifies this
      ensures IsValid() && (File(), count) == Requeue(old(File()), now)
      ensures jobs.Keys == old(jobs).Keys
      ensures forall n :: n in old(jobs) ==> IsRequeued(old(jobs)[n], jobs[n], now)
      ensures count == |set n | n in jobs && old(jobs)[n].status.Running? && jobs[n].status.Pending?|
    {
      RequeueValid(File(), now);
      RequeueCounts(File(), now);
      var (s, put) := Requeue(File(), now);
      Write(s);
      count := put;
    }

    /** Mark every running job interrupted. */
    method InterruptRunning(now: real) returns (count: nat)
      requires IsValid()
      modifies this
      ensures IsValid() && (File(), count) == Interrupt(old(File()), now)
      ensures jobs.Keys == old(jobs).Keys
      ensures forall n :: n in jobs && old(jobs)[n].status.Running? ==>
                IsEnded(old(jobs)[n], jobs[n], Interrupted, INTERRUPTED_ERROR, now)
      ensures count == |set n | n in jobs && old(jobs)[n].status.Running?|
      ensures forall n :: n in jobs && !old(jobs)[n].status.Running? ==> jobs[n] == old(jobs)[n]
    {
      InterruptValid(File(), now);
      InterruptCounts(File(), now);
      var (s, marked) := Interrupt(File(), now);
      Write(s);
      count := marked;
    }

    /** Delete exactly the ended, unprotected jobs past the cutoff, with exactly their chunks. */
    method PurgeJobs(before: real) returns (count: nat)
      requires IsValid()
      modifies this
      ensures IsValid() && (File(), count) == Purge(old(File()), before)
      ensures forall n :: n in jobs <==> n in old(jobs) && !Expired(old(jobs)[n], before)
      ensures |jobs| + count == |old(jobs)|
      ensures forall n :: n in jobs ==> jobs[n] == old(jobs)[n]
      ensures forall k :: k in chunks <==> k in old(chunks) && exists n :: n in jobs && jobs[n].id == k.jobId
    {
      PurgeValid(File(), before);
      PurgeChunks(File(), before);
      PurgeCounts(File(), before);
      var (s, deleted) := Purge(File(), before);
      Write(s);
      count := deleted;
    }
  }

  /** A row ended now, with a reason, and otherwise as it was. */
  ghost predicate IsEnded(j: Job, j': Job, status: Status, error: string, now: real) {
    j' == j.(status := status, error := Some(error), finished := Some(now))
  }

  /** A cancel ends a waiting row, flags a running one and leaves an ended one. */
  ghost predicate IsCancelled(j: Job, j': Job, now: real) {
    if j.status.Pending? then IsEnded(j, j', Cancelled, CANCELLED_PENDING, now)
    else if j.status.Running? then j' == j.(cancelRequested := true)
    else j' == j
  }

  /** A running row is cancelled where flagged, waits again where it was claimed once, and stays otherwise. */
  ghost predicate IsRequeued(j: Job, j': Job, now: real) {
    if !j.status.Running? then j' == j
    else if j.cancelRequested then IsEnded(j, j', Cancelled, CANCELLED_STOPPED, now)
    else if j.attempts < 2 then j' == j.(status := Pending, worker := None, started := None)
    else j' == j
  }

  lemma RequeueCounts(s: Store, now: real)
    ensures var (s', count) := Requeue(s, now);
            && s'.jobs.Keys == s.jobs.Keys
            && (forall n :: n in s.jobs ==> IsRequeued(s.jobs[n], s'.jobs[n], now))
            && count == |set n | n in s.jobs && s.jobs[n].status.Running? && s'.jobs[n].status.Pending?|
  {
    var (s', count) := Requeue(s, now);
    var put := set n | n in s.jobs && s.jobs[n].status.Running? && s'.jobs[n].status.Pending?;
    assert Rows(StopReached(s, now).jobs, MayRunAgain) == put;
  }

  lemma InterruptCounts(s: Store, now: real)
    ensures Interrupt(s, now).1 == |set n | n in s.jobs && s.jobs[n].status.Running?|
  {
    assert Rows(s.jobs, IsRunning) == set n | n in s.jobs && s.jobs[n].status.Running?;
  }

  lemma PurgeCounts(s: Store, before: real)
    ensures |Purge(s, before).0.jobs| + Purge(s, before).1 == |s.jobs|
  {
    var gone := Rows(s.jobs, (j: Job) => Expired(j, before));
    assert (s.jobs - gone).Keys == s.jobs.Keys - gone;
    assert s.jobs.Keys == (s.jobs.Keys - gone) + gone;
  }

  ghost predicate TookOldest(jobs: map<nat, Job>, jobs': map<nat, Job>, n: nat, job: Job, worker: string, now: real) {
    && n in jobs && jobs[n].status.Pending? && (forall m :: m in jobs && m < n ==> !jobs[m].status.Pending?)
    && job == jobs[n].(status := Running, worker := Some(worker), started := Some(now),
                       attempts := jobs[n].attempts + 1)
    && jobs' == jobs[n := job]
  }

  /** The running row is closed and no other row touched; without one, nothing is written. */
  ghost predicate Closed(s: Store, s': Store, id: string, c: Closing, now: real, ok: bool) {
    && (ok <==> exists n :: n in s.jobs && s.jobs[n].id == id && s.jobs[n].status.Running?)
    && (!ok ==> s' == s)
    && s'.jobs.Keys == s.jobs.Keys && s'.lastNumber == s.lastNumber && s'.chunks == s.chunks
    && forall n :: n in s.jobs ==>
         if s.jobs[n].id == id && s.jobs[n].status.Running?
         then s'.jobs[n] == s.jobs[n].(status := c.status, result := c.result, failureClass := c.failureClass,
                                       error := c.error, compiles := c.compiles, finished := Some(now))
         else s'.jobs[n] == s.jobs[n]
  }

  /** Storing a running job's artifacts cannot collide with a stored chunk. */
  lemma RunningHasNoChunks(s: Store, id: string, artifacts: map<string, seq<Bytes>>)
    requires Valid(s)
    ensures (exists n :: n in s.jobs && s.jobs[n].id == id && s.jobs[n].status.Running?) ==>
              ChunkRows(id, artifacts).Keys * s.chunks.Keys == {}
  {
  }

  lemma FinishesIfRunning(s: Store, id: string, result: string, compiles: Option<nat>,
                          artifacts: map<string, seq<Bytes>>, now: real)
    requires Valid(s)
    ensures Finish(s, id, result, compiles, artifacts, now).Some? <==>
              exists n :: n in s.jobs && s.jobs[n].id == id && s.jobs[n].status.Running?
  {
    RunningHasNoChunks(s, id, artifacts);
    var running := Rows(s.jobs, (j: Job) => j.id == id && j.status.Running?);
    assert forall n :: n in s.jobs && s.jobs[n].id == id && s.jobs[n].status.Running? <==> n in running;
  }

  lemma PurgeChunks(s: Store, before: real)
    requires Valid(s)
    ensures var s' := Purge(s, before).0;
            forall k :: k in s'.chunks <==> k in s.chunks && exists n :: n in s'.jobs && s'.jobs[n].id == k.jobId
  {
    var s' := Purge(s, before).0;
    forall k | k in s.chunks
      ensures k in s'.chunks <==> exists n :: n in s'.jobs && s'.jobs[n].id == k.jobId
    {
      var n :| n in s.jobs && s.jobs[n].id == k.jobId && s.jobs[n].status.Done?;
      assert n in s'.jobs ==> k in s'.chunks;
    }
  }
}
