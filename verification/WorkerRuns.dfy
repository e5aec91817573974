/** Every interleaving of the API with one engine worker at a time (engine/api/worker.py,
    engine/api/job_queue.py): each step is one transaction, one look at the cancel flag, or the
    start, exit or crash of the process that holds the host's lock. */
module WorkerRuns {
  import opened Wrappers
  import opened JobTables

  /** How the worker is about to close the job it ran. */
  datatype Ending =
    | EndDone(result: string, artifacts: map<string, seq<Bytes>>)
    | EndFailed(failureClass: FailureClass, error: string)
    | EndCancelled(error: string)

  /** Where the holder of the lock is in `serve`; `Down` when nobody holds it. */
  datatype Phase =
    | Down
    | Locked(several: bool)
    | Requeued
    | Serving
    | Pricing(n: nat, id: string)
    | Finishing(n: nat, id: string, ending: Ending)

  /** The queue file, the worker, and the primary keys claimed so far. */
  datatype System = System(store: Store, phase: Phase, claims: seq<nat>)

  datatype Event =
    | ApiSubmit(id: string, request: Bytes, kind: Kind, key: Option<string>, sha256: Option<string>, keep: bool,
                now: real)
    | ApiCancel(id: string, now: real)
    | TakeLock(several: bool)
    | RequeueRunning(now: real)
    | InterruptRunning(now: real)
    | PurgeOld(before: real)
    | ClaimNext(worker: string, now: real)
    | Boundary(name: string)
    | Priced(ending: Ending)
    | CloseRow(now: real, storable: bool, compiles: Option<nat>)
    | Leave

  /** The row closed by an ending; None where the transaction raises. */
  function CloseWith(s: Store, id: string, ending: Ending, now: real, storable: bool, compiles: Option<nat>)
    : Option<Store>
  {
    match ending
    case EndDone(result, artifacts) =>
      if storable then Finish(s, id, result, compiles, artifacts, now) else None
    case EndFailed(failureClass, error) =>
      Close(s, id, Closing(Failed, None, Some(failureClass), Some(error), compiles), now)
    case EndCancelled(error) =>
      Close(s, id, Closing(Cancelled, None, None, Some(error), compiles), now)
  }

  /** One step. An event that is not possible where the worker is changes nothing. `Leave` is a
      clean exit and a crash alike: the operating system frees the lock, the row stays. */
  function Next(x: System, e: Event): System {
    match e
    case ApiSubmit(id, request, kind, key, sha256, keep, now) =>
      x.(store := Submit(x.store, id, request, kind, key, sha256, keep, now).0)
    case ApiCancel(id, now) =>
      x.(store := Cancel(x.store, id, now).0)
    case TakeLock(several) =>
      if x.phase.Down? then x.(phase := Locked(several)) else x
    case RequeueRunning(now) =>
      if x.phase == Locked(true) then x.(store := Requeue(x.store, now).0, phase := Requeued) else x
    case InterruptRunning(now) =>
      if x.phase == Locked(false) || x.phase.Requeued?
      then x.(store := Interrupt(x.store, now).0, phase := Serving) else x
    case PurgeOld(before) =>
      if x.phase.Serving? then x.(store := Purge(x.store, before).0) else x
    case ClaimNext(worker, now) =>
      if x.phase.Serving? && Claim(x.store, worker, now).1.Some? then
        var (store, n) := Claim(x.store, worker, now);
        System(store, Pricing(n.value, store.jobs[n.value].id), x.claims + [n.value])
      else x
    case Boundary(name) =>
      if x.phase.Pricing? && x.phase.n in x.store.jobs && x.store.jobs[x.phase.n].cancelRequested
      then x.(phase := Finishing(x.phase.n, x.phase.id, EndCancelled(name))) else x
    case Priced(ending) =>
      if x.phase.Pricing? && !ending.EndCancelled? then x.(phase := Finishing(x.phase.n, x.phase.id, ending)) else x
    case CloseRow(now, storable, compiles) =>
      if !x.phase.Finishing? then x
      else
        (match CloseWith(x.store, x.phase.id, x.phase.ending, now, storable, compiles)
         case Some(store) => x.(store := store, phase := Serving)
         case None =>
           if x.phase.ending.EndDone?
           then x.(phase := x.phase.(ending := EndFailed(Infrastructure, STORING_FAILED)))
           else x.(phase := Down))
    case Leave => x.(phase := Down)
  }

  function Run(x: System, events: seq<Event>): System
    decreases |events|
  {
    if |events| == 0 then x else Run(Next(x, events[0]), events[1..])
  }

  // ----- the invariant of every run -----------------------------------------------------------

  ghost predicate OneRunning(jobs: map<nat, Job>) {
    forall n, m :: n in jobs && m in jobs && jobs[n].status.Running? && jobs[m].status.Running? ==> n == m
  }

  ghost predicate NoneRunning(jobs: map<nat, Job>) {
    forall n :: n in jobs ==> !jobs[n].status.Running?
  }

  /** Every job submitted before the running one has ended. */
  ghost predicate InOrder(jobs: map<nat, Job>) {
    forall n, m :: n in jobs && m in jobs && n < m && jobs[m].status.Running? ==> jobs[n].status.Terminal()
  }

  /** Every stored job below `n` has ended. */
  ghost predicate EndedBelow(jobs: map<nat, Job>, n: nat) {
    forall m :: m in jobs && m < n ==> jobs[m].status.Terminal()
  }

  ghost predicate PhaseValid(x: System) {
    match x.phase
    case Serving => NoneRunning(x.store.jobs)
    case Pricing(n, id) => n in x.store.jobs && x.store.jobs[n].status.Running? && x.store.jobs[n].id == id
    case Finishing(n, id, _) => n in x.store.jobs && x.store.jobs[n].status.Running? && x.store.jobs[n].id == id
    case _ => true
  }

  /** How often `n` was claimed. */
  function Times(claims: seq<nat>, n: nat): nat {
    if |claims| == 0 then 0
    else Times(claims[..|claims| - 1], n) + if claims[|claims| - 1] == n then 1 else 0
  }

  lemma TimesAppend(claims: seq<nat>, c: nat, n: nat)
    ensures Times(claims + [c], n) == Times(claims, n) + if c == n then 1 else 0
  {
    assert (claims + [c])[..|claims|] == claims;
  }

  lemma {:induction false} TimesAbsent(claims: seq<nat>, n: nat)
    requires n !in claims
    ensures Times(claims, n) == 0
  {
    if |claims| > 0 {
      TimesAbsent(claims[..|claims| - 1], n);
    }
  }

  ghost predicate Nondecreasing(claims: seq<nat>) {
    forall i, j :: 0 <= i < j < |claims| ==> claims[i] <= claims[j]
  }

  /** No job claimed too often, stored or purged; a stored one counts its claims. */
  ghost predicate Counted(claims: seq<nat>, s: Store) {
    && (forall n :: n in s.jobs ==> Times(claims, n) <= s.jobs[n].attempts)
    && (forall n: nat :: Times(claims, n) <= MAX_ATTEMPTS)
  }

  ghost predicate ClaimsValid(claims: seq<nat>, s: Store) {
    && (forall i :: 0 <= i < |claims| ==> claims[i] <= s.lastNumber)
    && Nondecreasing(claims)
    && (|claims| > 0 ==> EndedBelow(s.jobs, claims[|claims| - 1]))
    && Counted(claims, s)
  }

  ghost predicate SystemValid(x: System) {
    && Valid(x.store) && OneRunning(x.store.jobs) && InOrder(x.store.jobs)
    && PhaseValid(x) && ClaimsValid(x.claims, x.store)
  }

  /** Steps under which no row's status rises from ended or pending to running, and no attempt is
      counted: everything but a claim. */
  ghost predicate Quiet(s: Store, s': Store) {
    && s'.lastNumber >= s.lastNumber
    && (forall n :: n in s'.jobs && n !in s.jobs ==> n > s.lastNumber && s'.jobs[n].status.Pending?)
    && (forall n :: n in s'.jobs && n in s.jobs ==>
          && s'.jobs[n].attempts == s.jobs[n].attempts
          && (s'.jobs[n].status.Running? ==> s.jobs[n].status.Running?)
          && (s.jobs[n].status.Terminal() ==> s'.jobs[n].status.Terminal()))
  }

  lemma QuietKeeps(x: System, s': Store)
    requires SystemValid(x) && Valid(s') && Quiet(x.store, s')
    ensures OneRunning(s'.jobs) && InOrder(s'.jobs) && ClaimsValid(x.claims, s')
    ensures NoneRunning(x.store.jobs) ==> NoneRunning(s'.jobs)
  {
    forall n | n in s'.jobs && n !in x.store.jobs ensures Times(x.claims, n) == 0 {
      TimesAbsent(x.claims, n);
    }
  }

  lemma SubmitQuiet(s: Store, e: Event)
    requires Valid(s) && e.ApiSubmit?
    ensures Quiet(s, Submit(s, e.id, e.request, e.kind, e.key, e.sha256, e.keep, e.now).0)
  {
    var s' := Submit(s, e.id, e.request, e.kind, e.key, e.sha256, e.keep, e.now).0;
    assert s' != s ==> s'.jobs.Keys == s.jobs.Keys + {s.lastNumber + 1};
  }

  /** A submission leaves every row and adds at most one, waiting, under a new key. */
  lemma SubmitKeepsRows(s: Store, e: Event)
    requires Valid(s) && e.ApiSubmit?
    ensures var s' := Submit(s, e.id, e.request, e.kind, e.key, e.sha256, e.keep, e.now).0;
            && s'.lastNumber >= s.lastNumber
            && (forall n :: n in s.jobs ==> n in s'.jobs && s'.jobs[n] == s.jobs[n])
            && (forall n :: n in s'.jobs && n !in s.jobs ==> n > s.lastNumber && s'.jobs[n].status.Pending?)
  {
    SubmitQuiet(s, e);
  }

  lemma CancelQuiet(s: Store, id: string, now: real)
    ensures Quiet(s, Cancel(s, id, now).0)
  {
    var s' := Cancel(s, id, now).0;
    if s' != s {
      var n := First(Rows(s.jobs, (j: Job) => j.id == id));
      assert s'.jobs == s.jobs[n := CancelledRow(s.jobs[n], now)];
    }
  }

  lemma RequeueQuiet(s: Store, now: real)
    requires Valid(s)
    ensures Quiet(s, Requeue(s, now).0)
  {
    StopQuiet(s, now);
    PutBackQuiet(StopReached(s, now));
  }

  lemma StopQuiet(s: Store, now: real)
    ensures Quiet(s, StopReached(s, now)) && StopReached(s, now).jobs.Keys == s.jobs.Keys
  {
  }

  lemma PutBackQuiet(s: Store)
    ensures Quiet(s, PutBack(s)) && PutBack(s).jobs.Keys == s.jobs.Keys
  {
  }

  lemma InterruptQuiet(s: Store, now: real)
    ensures Quiet(s, Interrupt(s, now).0) && NoneRunning(Interrupt(s, now).0.jobs)
  {
  }

  lemma PurgeQuiet(s: Store, before: real)
    ensures Quiet(s, Purge(s, before).0)
  {
  }

  ghost predicate Closable(s: Store, n: nat, id: string) {
    n in s.jobs && s.jobs[n].status.Running? && s.jobs[n].id == id
  }

  lemma CloseQuiet(s: Store, n: nat, id: string, c: Closing, now: real)
    requires Valid(s) && OneRunning(s.jobs) && Closable(s, n, id) && c.status.Terminal()
    ensures Close(s, id, c, now).Some?
    ensures var s' := Close(s, id, c, now).value; Valid(s') && Quiet(s, s') && NoneRunning(s'.jobs)
  {
    assert n in Rows(s.jobs, (j: Job) => j.id == id && j.status.Running?);
    CloseValid(s, id, c, now);
  }

  lemma CloseWithQuiet(s: Store, n: nat, id: string, ending: Ending, now: real, storable: bool, compiles: Option<nat>)
    requires Valid(s) && OneRunning(s.jobs) && Closable(s, n, id)
    ensures !ending.EndDone? ==> CloseWith(s, id, ending, now, storable, compiles).Some?
    ensures CloseWith(s, id, ending, now, storable, compiles).Some? ==>
              var s' := CloseWith(s, id, ending, now, storable, compiles).value;
              Valid(s') && Quiet(s, s') && NoneRunning(s'.jobs)
  {
    match ending
    case EndDone(result, artifacts) =>
      FinishValid(s, id, result, compiles, artifacts, now);
      if Finish(s, id, result, compiles, artifacts, now).Some? {
        FinishIsClose(s, id, result, compiles, artifacts, now);
        CloseQuiet(s, n, id, Closing(Done, Some(result), None, None, compiles), now);
      }
    case EndFailed(failureClass, error) =>
      CloseQuiet(s, n, id, Closing(Failed, None, Some(failureClass), Some(error), compiles), now);
    case EndCancelled(error) =>
      CloseQuiet(s, n, id, Closing(Cancelled, None, None, Some(error), compiles), now);
  }

  /** The claimed row: the least pending one, nothing else changed. */
  ghost predicate Claims(s: Store, s': Store, n: nat) {
    && n in s.jobs && s.jobs[n].status.Pending? && EndedOrPending(s.jobs, n)
    && s'.lastNumber == s.lastNumber && s'.jobs.Keys == s.jobs.Keys
    && (forall m :: m in s.jobs && m != n ==> s'.jobs[m] == s.jobs[m])
    && s'.jobs[n].status.Running? && s'.jobs[n].attempts == s.jobs[n].attempts + 1 && s'.jobs[n].id == s.jobs[n].id
  }

  ghost predicate EndedOrPending(jobs: map<nat, Job>, n: nat) {
    forall m :: m in jobs && m < n ==> !jobs[m].status.Pending?
  }

  lemma ClaimIs(s: Store, worker: string, now: real)
    requires Claim(s, worker, now).1.Some?
    ensures Claims(s, Claim(s, worker, now).0, Claim(s, worker, now).1.value)
  {
    var n := First(Rows(s.jobs, IsPending));
    assert n in Rows(s.jobs, IsPending);
    forall m | m in s.jobs && m < n ensures !s.jobs[m].status.Pending? {
      assert m !in Rows(s.jobs, IsPending);
    }
  }

  lemma ClaimOrder(x: System, s': Store, n: nat)
    requires SystemValid(x) && NoneRunning(x.store.jobs) && Claims(x.store, s', n)
    ensures OneRunning(s'.jobs) && InOrder(s'.jobs) && EndedBelow(s'.jobs, n)
    ensures forall c :: c in x.claims ==> c <= n
  {
    hide RowValid, ChunksValid;
    if |x.claims| > 0 {
      var last := x.claims[|x.claims| - 1];
      assert last <= n;
      forall c | c in x.claims ensures c <= n {
        var i :| 0 <= i < |x.claims| && x.claims[i] == c;
      }
    }
  }

  lemma ClaimCounts(claims: seq<nat>, s: Store, s': Store, n: nat)
    requires Counted(claims, s) && Valid(s) && Claims(s, s', n)
    ensures Counted(claims + [n], s')
  {
    forall m: nat ensures Times(claims + [n], m) <= MAX_ATTEMPTS
                  ensures m in s'.jobs ==> Times(claims + [n], m) <= s'.jobs[m].attempts
    {
      TimesAppend(claims, n, m);
    }
  }

  lemma ClaimKeeps(x: System, worker: string, now: real)
    requires SystemValid(x)
    ensures SystemValid(Next(x, ClaimNext(worker, now)))
  {
    if x.phase.Serving? && Claim(x.store, worker, now).1.Some? {
      ClaimIs(x.store, worker, now);
      ClaimValid(x.store, worker, now);
      ClaimedKeeps(x, Claim(x.store, worker, now).0, Claim(x.store, worker, now).1.value);
    }
  }

  lemma ClaimedKeeps(x: System, s': Store, n: nat)
    requires SystemValid(x) && x.phase.Serving? && Valid(s') && Claims(x.store, s', n)
    ensures SystemValid(System(s', Pricing(n, s'.jobs[n].id), x.claims + [n]))
  {
    ClaimOrder(x, s', n);
    ClaimedClaims(x, s', n);
  }

  lemma ClaimedClaims(x: System, s': Store, n: nat)
    requires SystemValid(x) && NoneRunning(x.store.jobs) && Claims(x.store, s', n)
    ensures ClaimsValid(x.claims + [n], s')
  {
    hide RowValid, ChunksValid;
    ClaimOrder(x, s', n);
    ClaimCounts(x.claims, x.store, s', n);
  }

  /** The API's calls leave the running row running. */
  lemma ApiKeeps(x: System, e: Event)
    requires SystemValid(x) && (e.ApiSubmit? || e.ApiCancel?)
    ensures SystemValid(Next(x, e))
  {
    if e.ApiSubmit? {
      SubmitValid(x.store, e.id, e.request, e.kind, e.key, e.sha256, e.keep, e.now);
      SubmitQuiet(x.store, e);
    } else {
      CancelValid(x.store, e.id, e.now);
      CancelQuiet(x.store, e.id, e.now);
    }
    QuietKeeps(x, Next(x, e).store);
    ApiKeepsPhase(x, e);
  }

  lemma ApiKeepsPhase(x: System, e: Event)
    requires SystemValid(x) && (e.ApiSubmit? || e.ApiCancel?)
    requires NoneRunning(x.store.jobs) ==> NoneRunning(Next(x, e).store.jobs)
    ensures PhaseValid(Next(x, e))
  {
  }

  lemma QuietSystem(x: System, s': Store, phase: Phase)
    requires SystemValid(x) && Valid(s') && Quiet(x.store, s') && PhaseValid(System(s', phase, x.claims))
    ensures SystemValid(System(s', phase, x.claims))
  {
    QuietKeeps(x, s');
  }

  lemma RequeueKeeps(x: System, now: real)
    requires SystemValid(x)
    ensures SystemValid(Next(x, RequeueRunning(now)))
  {
    if x.phase == Locked(true) {
      RequeueValid(x.store, now);
      RequeueQuiet(x.store, now);
      QuietSystem(x, Requeue(x.store, now).0, Requeued);
    }
  }

  lemma InterruptKeeps(x: System, now: real)
    requires SystemValid(x)
    ensures SystemValid(Next(x, InterruptRunning(now)))
  {
    if x.phase == Locked(false) || x.phase.Requeued? {
      InterruptValid(x.store, now);
      InterruptQuiet(x.store, now);
      QuietSystem(x, Interrupt(x.store, now).0, Serving);
    }
  }

  lemma PurgeKeeps(x: System, before: real)
    requires SystemValid(x)
    ensures SystemValid(Next(x, PurgeOld(before)))
  {
    if x.phase.Serving? {
      PurgeValid(x.store, before);
      PurgeQuiet(x.store, before);
      QuietKeeps(x, Purge(x.store, before).0);
      QuietSystem(x, Purge(x.store, before).0, Serving);
    }
  }

  lemma CloseKeeps(x: System, now: real, storable: bool, compiles: Option<nat>)
    requires SystemValid(x)
    ensures SystemValid(Next(x, CloseRow(now, storable, compiles)))
  {
    if x.phase.Finishing? {
      CloseWithQuiet(x.store, x.phase.n, x.phase.id, x.phase.ending, now, storable, compiles);
      var closed := CloseWith(x.store, x.phase.id, x.phase.ending, now, storable, compiles);
      if closed.Some? {
        QuietKeeps(x, closed.value);
      }
    }
  }

  /** Every step keeps the invariant ... */
  lemma NextValid(x: System, e: Event)
    requires SystemValid(x)
    ensures SystemValid(Next(x, e))
  {
    match e
    case ApiSubmit(_, _, _, _, _, _, _) => ApiKeeps(x, e);
    case ApiCancel(_, _) => ApiKeeps(x, e);
    case RequeueRunning(now) => RequeueKeeps(x, now);
    case InterruptRunning(now) => InterruptKeeps(x, now);
    case PurgeOld(before) => PurgeKeeps(x, before);
    case ClaimNext(worker, now) => ClaimKeeps(x, worker, now);
    case CloseRow(now, storable, compiles) => CloseKeeps(x, now, storable, compiles);
    case _ =>
  }

  /** ... so it holds throughout every run. */
  lemma {:induction false} RunValid(x: System, events: seq<Event>)
    requires SystemValid(x)
    ensures SystemValid(Run(x, events))
    decreases |events|
  {
    if |events| > 0 {
      NextValid(x, events[0]);
      RunValid(Next(x, events[0]), events[1..]);
    }
  }

  // ----- what that means for whole runs -------------------------------------------------------

  /** A new queue file, no worker. */
  const EMPTY := System(Store(map[], 0, map[]), Down, [])

  lemma UnclaimedFile(s: Store)
    requires Valid(s) && OneRunning(s.jobs) && InOrder(s.jobs)
    ensures SystemValid(System(s, Down, []))
  {
    assert forall n: nat :: Times([], n) == 0;
  }

  /** Every migrated file may be served: one of version 1 or 2 has nothing left to run, and one of version 3
      keeps the one running row and the order its own workers left it with. */
  lemma MigratedFilesAreServed(rows: map<nat, LegacyRow>, last: nat, chunks: map<ChunkKey, Bytes>, s: Store)
    requires LegacyValid(rows, last, chunks) && V3Valid(s) && OneRunning(s.jobs) && InOrder(s.jobs)
    ensures SystemValid(System(MigrateLegacy(rows, last, chunks), Down, []))
    ensures NoneRunning(MigrateLegacy(rows, last, chunks).jobs)
    ensures SystemValid(System(MigrateV3(s), Down, []))
    ensures forall n :: n in s.jobs ==>
              MigrateV3(s).jobs[n] == s.jobs[n].(attempts := MigrateV3(s).jobs[n].attempts)
              && (MigrateV3(s).jobs[n].attempts == 1 <==> s.jobs[n].started.Some?)
  {
    MigrationsEstablishValid(rows, last, chunks, s);
    UnclaimedFile(MigrateLegacy(rows, last, chunks));
    UnclaimedFile(MigrateV3(s));
  }

  /** From a new file, whatever the API, the workers and the crashes do: one job runs at a time,
      none is claimed more than MAX_ATTEMPTS times (purged ones included), claims follow the order
      of submission, and every job submitted before the running one has ended. */
  lemma EveryRun(events: seq<Event>)
    ensures var y := Run(EMPTY, events);
            && OneRunning(y.store.jobs) && InOrder(y.store.jobs)
            && (forall n: nat :: Times(y.claims, n) <= MAX_ATTEMPTS == 2)
            && Nondecreasing(y.claims)
            && ChunksValid(y.store)
            && (forall n :: n in y.store.jobs && y.store.jobs[n].status.Pending? ==>
                  y.store.jobs[n].attempts < MAX_ATTEMPTS && !y.store.jobs[n].cancelRequested)
  {
    assert forall n: nat :: Times([], n) == 0;
    RunValid(EMPTY, events);
    var y := Run(EMPTY, events);
    forall n | n in y.store.jobs && y.store.jobs[n].status.Pending?
      ensures y.store.jobs[n].attempts < MAX_ATTEMPTS && !y.store.jobs[n].cancelRequested
    {
      assert RowValid(n, y.store.jobs[n]);
    }
  }

  /** A job no worker may claim any more: ended, deleted, or running with a cancel accepted. */
  ghost predicate Retired(s: Store, n: nat) {
    n <= s.lastNumber && (n in s.jobs ==> s.jobs[n].status.Terminal() || Reached(s.jobs[n]))
  }

  lemma NextRetired(x: System, e: Event, n: nat)
    requires SystemValid(x) && Retired(x.store, n)
    ensures Retired(Next(x, e).store, n) && Times(Next(x, e).claims, n) == Times(x.claims, n)
  {
    match e
    case ApiSubmit(_, _, _, _, _, _, _) => SubmitKeepsRows(x.store, e);
    case ApiCancel(id, now) => CancelRetired(x.store, id, now, n);
    case RequeueRunning(now) => RequeueRetired(x.store, now, n);
    case InterruptRunning(now) => InterruptRetired(x.store, now, n);
    case PurgeOld(before) => PurgeRetired(x.store, before, n);
    case ClaimNext(worker, now) => ClaimRetired(x, worker, now, n);
    case CloseRow(now, storable, compiles) =>
      if x.phase.Finishing? {
        CloseWithSteady(x.store, x.phase.id, x.phase.ending, now, storable, compiles);
        CloseRetired(x.store, x.phase.n, x.phase.id, x.phase.ending, now, storable, compiles, n);
      }
    case _ =>
  }

  lemma ClaimRetired(x: System, worker: string, now: real, n: nat)
    requires SystemValid(x) && Retired(x.store, n)
    ensures var y := Next(x, ClaimNext(worker, now));
            Retired(y.store, n) && Times(y.claims, n) == Times(x.claims, n)
  {
    if x.phase.Serving? && Claim(x.store, worker, now).1.Some? {
      ClaimIs(x.store, worker, now);
      TimesAppend(x.claims, Claim(x.store, worker, now).1.value, n);
    }
  }

  lemma RequeueRetired(s: Store, now: real, n: nat)
    requires Retired(s, n)
    ensures Retired(Requeue(s, now).0, n)
  {
    StopRetired(s, now, n);
    PutBackRetired(StopReached(s, now), n);
  }

  /** Ended or deleted. */
  ghost predicate Over(s: Store, n: nat) {
    n <= s.lastNumber && (n in s.jobs ==> s.jobs[n].status.Terminal())
  }

  lemma StopRetired(s: Store, now: real, n: nat)
    requires Retired(s, n)
    ensures Over(StopReached(s, now), n)
  {
  }

  lemma PutBackRetired(s: Store, n: nat)
    requires Over(s, n)
    ensures Over(PutBack(s), n)
  {
  }

  lemma InterruptRetired(s: Store, now: real, n: nat)
    requires Retired(s, n)
    ensures Retired(Interrupt(s, now).0, n)
  {
  }

  lemma PurgeRetired(s: Store, before: real, n: nat)
    requires Retired(s, n)
    ensures Retired(Purge(s, before).0, n)
  {
  }

  lemma CloseRetired(s: Store, m: nat, id: string, ending: Ending, now: real, storable: bool, compiles: Option<nat>,
                     n: nat)
    requires Valid(s) && OneRunning(s.jobs) && Closable(s, m, id) && Retired(s, n)
    ensures CloseWith(s, id, ending, now, storable, compiles).Some? ==>
              Retired(CloseWith(s, id, ending, now, storable, compiles).value, n)
  {
    CloseWithQuiet(s, m, id, ending, now, storable, compiles);
    CloseKeepsWaiting(s, id, ending, now, storable, compiles);
    if CloseWith(s, id, ending, now, storable, compiles).Some? {
      var jobs := CloseWith(s, id, ending, now, storable, compiles).value.jobs;
      assert n in jobs ==> !jobs[n].status.Running?;
      assert n in jobs && n in s.jobs ==> !jobs[n].status.Pending?;
    }
  }

  /** Closing makes no row wait. */
  lemma CloseKeepsWaiting(s: Store, id: string, ending: Ending, now: real, storable: bool, compiles: Option<nat>)
    ensures CloseWith(s, id, ending, now, storable, compiles).Some? ==>
              forall n :: n in CloseWith(s, id, ending, now, storable, compiles).value.jobs
                          && CloseWith(s, id, ending, now, storable, compiles).value.jobs[n].status.Pending? ==>
                n in s.jobs && s.jobs[n].status.Pending?
  {
  }

  lemma CancelRetired(s: Store, id: string, now: real, n: nat)
    requires Retired(s, n)
    ensures Retired(Cancel(s, id, now).0, n)
  {
    var rows := Rows(s.jobs, (j: Job) => j.id == id);
    if rows != {} {
      var m := First(rows);
      assert Cancel(s, id, now).0.jobs == s.jobs[m := CancelledRow(s.jobs[m], now)];
    }
  }

  lemma {:induction false} RunRetired(x: System, events: seq<Event>, n: nat)
    requires SystemValid(x) && Retired(x.store, n)
    ensures Times(Run(x, events).claims, n) == Times(x.claims, n)
    decreases |events|
  {
    if |events| > 0 {
      NextValid(x, events[0]);
      NextRetired(x, events[0], n);
      RunRetired(Next(x, events[0]), events[1..], n);
    }
  }

  /** Once a cancel of a stored job was accepted, whether it was waiting or running, no worker of
      any later run claims it: not after a crash, nor when a worker set puts its jobs back. */
  lemma CancelledIsNeverClaimedAgain(x: System, n: nat, now: real, events: seq<Event>)
    requires SystemValid(x) && n in x.store.jobs
    ensures var y := Next(x, ApiCancel(x.store.jobs[n].id, now));
            Times(Run(y, events).claims, n) == Times(x.claims, n)
  {
    var id := x.store.jobs[n].id;
    var y := Next(x, ApiCancel(id, now));
    NextValid(x, ApiCancel(id, now));
    var rows := Rows(x.store.jobs, (j: Job) => j.id == id);
    assert n in rows;
    assert First(rows) == n;
    assert y.store.jobs[n] == CancelledRow(x.store.jobs[n], now);
    RunRetired(y, events, n);
  }

  // ----- rows: what identifies a job never changes, what has ended stays as it ended ----------

  ghost predicate SameSubmission(j: Job, j': Job) {
    && j'.id == j.id && j'.kind == j.kind && j'.request == j.request && j'.submitted == j.submitted
    && j'.key == j.key && j'.sha256 == j.sha256 && j'.keep == j.keep
  }

  /** A stored row keeps its submission and, once ended, everything, unless it is deleted; and only
      a purge deletes it, ended, unprotected and past the cutoff. */
  ghost predicate RowSteps(s: Store, s': Store, e: Event) {
    forall n :: n in s.jobs ==>
      && (n in s'.jobs ==>
            SameSubmission(s.jobs[n], s'.jobs[n]) && (s.jobs[n].status.Terminal() ==> s'.jobs[n] == s.jobs[n]))
      && (n !in s'.jobs ==> e.PurgeOld? && Expired(s.jobs[n], e.before))
  }

  /** Rows stay, with their submission and their ends. */
  ghost predicate Steady(s: Store, s': Store) {
    forall n :: n in s.jobs ==>
      n in s'.jobs && SameSubmission(s.jobs[n], s'.jobs[n]) && (s.jobs[n].status.Terminal() ==> s'.jobs[n] == s.jobs[n])
  }

  ghost predicate NoNewDone(s: Store, s': Store) {
    forall n :: n in s.jobs && n in s'.jobs && s'.jobs[n].status.Done? ==> s.jobs[n].status.Done?
  }

  lemma SubmitSteady(s: Store, e: Event)
    requires Valid(s) && e.ApiSubmit?
    ensures var s' := Submit(s, e.id, e.request, e.kind, e.key, e.sha256, e.keep, e.now).0;
            SteadyStep(s, s') && NoNewDone(s, s')
  {
    SubmitKeepsRows(s, e);
  }

  lemma CancelSteady(s: Store, id: string, now: real)
    ensures Steady(s, Cancel(s, id, now).0) && NoNewDone(s, Cancel(s, id, now).0)
  {
    var rows := Rows(s.jobs, (j: Job) => j.id == id);
    if rows != {} {
      var m := First(rows);
      assert Cancel(s, id, now).0.jobs == s.jobs[m := CancelledRow(s.jobs[m], now)];
    }
  }

  lemma RequeueSteady(s: Store, now: real)
    ensures Steady(s, Requeue(s, now).0) && NoNewDone(s, Requeue(s, now).0)
  {
    StopSteady(s, now);
    PutBackSteady(StopReached(s, now));
  }

  lemma StopSteady(s: Store, now: real)
    ensures Steady(s, StopReached(s, now)) && NoNewDone(s, StopReached(s, now))
  {
  }

  lemma PutBackSteady(s: Store)
    ensures Steady(s, PutBack(s)) && NoNewDone(s, PutBack(s))
  {
  }

  lemma InterruptSteady(s: Store, now: real)
    ensures Steady(s, Interrupt(s, now).0) && NoNewDone(s, Interrupt(s, now).0)
  {
  }

  lemma ClaimSteady(s: Store, worker: string, now: real)
    ensures Steady(s, Claim(s, worker, now).0) && NoNewDone(s, Claim(s, worker, now).0)
  {
    if Claim(s, worker, now).1.Some? {
      ClaimIs(s, worker, now);
    }
  }

  lemma CloseSteady(s: Store, id: string, c: Closing, now: real)
    ensures Close(s, id, c, now).Some? ==> Steady(s, Close(s, id, c, now).value)
    ensures Close(s, id, c, now).Some? && !c.status.Done? ==> NoNewDone(s, Close(s, id, c, now).value)
  {
  }

  lemma CloseWithSteady(s: Store, id: string, ending: Ending, now: real, storable: bool, compiles: Option<nat>)
    ensures CloseWith(s, id, ending, now, storable, compiles).Some? ==>
              var s' := CloseWith(s, id, ending, now, storable, compiles).value;
              Steady(s, s') && (!ending.EndDone? ==> NoNewDone(s, s')) && s'.lastNumber == s.lastNumber
  {
    match ending
    case EndDone(result, artifacts) =>
      if storable && Finish(s, id, result, compiles, artifacts, now).Some? {
        FinishIsClose(s, id, result, compiles, artifacts, now);
        CloseSteady(s, id, Closing(Done, Some(result), None, None, compiles), now);
      }
    case EndFailed(failureClass, error) =>
      CloseSteady(s, id, Closing(Failed, None, Some(failureClass), Some(error), compiles), now);
    case EndCancelled(error) =>
      CloseSteady(s, id, Closing(Cancelled, None, None, Some(error), compiles), now);
  }

  /** What every step but a purge does to the rows stored before it. */
  ghost predicate SteadyStep(s: Store, s': Store) {
    Steady(s, s') && s'.lastNumber >= s.lastNumber
  }

  lemma NextSteady(x: System, e: Event)
    requires SystemValid(x) && !e.PurgeOld?
    ensures SteadyStep(x.store, Next(x, e).store)
    ensures !ClosesDone(x, e) ==> NoNewDone(x.store, Next(x, e).store)
  {
    match e
    case ApiSubmit(_, _, _, _, _, _, _) => SubmitSteady(x.store, e);
    case ApiCancel(id, now) => CancelSteady(x.store, id, now);
    case RequeueRunning(now) => RequeueRowsSteady(x, now);
    case InterruptRunning(now) => InterruptRowsSteady(x, now);
    case ClaimNext(worker, now) => ClaimRowsSteady(x, worker, now);
    case CloseRow(now, storable, compiles) => CloseRowSteady(x, now, storable, compiles);
    case _ => NothingStored(x.store);
  }

  lemma NothingStored(s: Store)
    ensures SteadyStep(s, s) && NoNewDone(s, s)
  {
  }

  lemma RequeueRowsSteady(x: System, now: real)
    ensures var y := Next(x, RequeueRunning(now)); SteadyStep(x.store, y.store) && NoNewDone(x.store, y.store)
  {
    hide Steady, NoNewDone;
    NothingStored(x.store);
    RequeueSteady(x.store, now);
  }

  lemma InterruptRowsSteady(x: System, now: real)
    ensures var y := Next(x, InterruptRunning(now)); SteadyStep(x.store, y.store) && NoNewDone(x.store, y.store)
  {
    hide Steady, NoNewDone;
    NothingStored(x.store);
    InterruptSteady(x.store, now);
  }

  lemma ClaimRowsSteady(x: System, worker: string, now: real)
    ensures var y := Next(x, ClaimNext(worker, now)); SteadyStep(x.store, y.store) && NoNewDone(x.store, y.store)
  {
    hide Steady, NoNewDone;
    NothingStored(x.store);
    ClaimSteady(x.store, worker, now);
  }

  /** The step that stores a result. */
  predicate ClosesDone(x: System, e: Event) {
    e.CloseRow? && x.phase.Finishing? && x.phase.ending.EndDone?
  }

  lemma CloseRowSteady(x: System, now: real, storable: bool, compiles: Option<nat>)
    ensures var y := Next(x, CloseRow(now, storable, compiles));
            && SteadyStep(x.store, y.store)
            && (!ClosesDone(x, CloseRow(now, storable, compiles)) ==> NoNewDone(x.store, y.store))
  {
    if x.phase.Finishing? {
      CloseWithSteady(x.store, x.phase.id, x.phase.ending, now, storable, compiles);
    }
  }

  lemma NextRows(x: System, e: Event)
    requires SystemValid(x)
    ensures RowSteps(x.store, Next(x, e).store, e) && Next(x, e).store.lastNumber >= x.store.lastNumber
  {
    if !e.PurgeOld? {
      NextSteady(x, e);
    }
  }

  /** A job that has ended reads the same until it is deleted, in every run; a kept one stays. */
  lemma {:induction false} EndedJobsStay(x: System, events: seq<Event>, n: nat)
    requires SystemValid(x) && n in x.store.jobs && x.store.jobs[n].status.Terminal()
    ensures var y := Run(x, events);
            && (n in y.store.jobs ==> y.store.jobs[n] == x.store.jobs[n])
            && (x.store.jobs[n].keep ==> n in y.store.jobs)
    decreases |events|
  {
    if |events| > 0 {
      var x' := Next(x, events[0]);
      NextValid(x, events[0]);
      NextRows(x, events[0]);
      if n in x'.store.jobs {
        EndedJobsStay(x', events[1..], n);
      } else {
        GoneForGood(x', events[1..], n);
      }
    }
  }

  /** Primary keys are not used again. */
  lemma {:induction false} GoneForGood(x: System, events: seq<Event>, n: nat)
    requires SystemValid(x) && n !in x.store.jobs && n <= x.store.lastNumber
    ensures n !in Run(x, events).store.jobs
    decreases |events|
  {
    if |events| > 0 {
      NextValid(x, events[0]);
      NextRows(x, events[0]);
      NoRevival(x, events[0], n);
      GoneForGood(Next(x, events[0]), events[1..], n);
    }
  }

  lemma NoRevival(x: System, e: Event, n: nat)
    requires SystemValid(x) && n !in x.store.jobs && n <= x.store.lastNumber
    ensures n !in Next(x, e).store.jobs
  {
    if e.ClaimNext? && Claim(x.store, e.worker, e.now).1.Some? {
      ClaimIs(x.store, e.worker, e.now);
    }
  }

  /** No submitted job is lost: in every run it is stored with its submission unchanged, or some
      purge found it ended, unprotected and past its cutoff. */
  lemma {:induction false} NoJobIsLost(x: System, events: seq<Event>, n: nat)
    requires SystemValid(x) && n in x.store.jobs
    ensures var y := Run(x, events);
            if n in y.store.jobs then SameSubmission(x.store.jobs[n], y.store.jobs[n])
            else exists k :: 0 <= k < |events| && PurgedAt(x, events, n, k)
    decreases |events|
  {
    if |events| > 0 {
      var x' := Next(x, events[0]);
      NextValid(x, events[0]);
      NextRows(x, events[0]);
      assert events[..0] == [];
      if n in x'.store.jobs {
        NoJobIsLost(x', events[1..], n);
        if n !in Run(x, events).store.jobs {
          var k :| 0 <= k < |events[1..]| && PurgedAt(x', events[1..], n, k);
          PurgedLater(x, events, n, k);
        }
      } else {
        GoneForGood(x', events[1..], n);
        assert PurgedAt(x, events, n, 0);
      }
    }
  }

  lemma PurgedLater(x: System, events: seq<Event>, n: nat, k: nat)
    requires k + 1 < |events| && PurgedAt(Next(x, events[0]), events[1..], n, k)
    ensures PurgedAt(x, events, n, k + 1)
  {
    assert events[..k + 1][1..] == events[1..][..k];
  }

  ghost predicate PurgedAt(x: System, events: seq<Event>, n: nat, k: int)
    requires 0 <= k < |events|
  {
    var jobs := Run(x, events[..k]).store.jobs;
    events[k].PurgeOld? && n in jobs && Expired(jobs[n], events[k].before)
  }

  /** The steps that may end a running row: its closing, and those of a worker that starts. */
  predicate MayStop(e: Event) {
    e.CloseRow? || e.RequeueRunning? || e.InterruptRunning?
  }

  lemma StillRunning(x: System, e: Event, n: nat)
    requires SystemValid(x) && n in x.store.jobs && x.store.jobs[n].status.Running? && !MayStop(e)
    ensures n in Next(x, e).store.jobs && Next(x, e).store.jobs[n].status.Running?
  {
    match e
    case ApiSubmit(_, _, _, _, _, _, _) => SubmitKeepsRows(x.store, e);
    case ApiCancel(id, now) => CancelLeavesRunning(x.store, id, now, n);
    case ClaimNext(worker, now) => ClaimLeavesRunning(x, worker, now, n);
    case PurgeOld(before) => PurgeLeavesRunning(x, before, n);
    case _ =>
  }

  lemma CancelLeavesRunning(s: Store, id: string, now: real, n: nat)
    requires n in s.jobs && s.jobs[n].status.Running?
    ensures n in Cancel(s, id, now).0.jobs && Cancel(s, id, now).0.jobs[n].status.Running?
  {
    var rows := Rows(s.jobs, (j: Job) => j.id == id);
    if rows != {} {
      var m := First(rows);
      assert Cancel(s, id, now).0.jobs == s.jobs[m := CancelledRow(s.jobs[m], now)];
    }
  }

  lemma ClaimLeavesRunning(x: System, worker: string, now: real, n: nat)
    requires n in x.store.jobs && x.store.jobs[n].status.Running?
    ensures var y := Next(x, ClaimNext(worker, now)); n in y.store.jobs && y.store.jobs[n].status.Running?
  {
    if Claim(x.store, worker, now).1.Some? {
      ClaimIs(x.store, worker, now);
    }
  }

  lemma PurgeLeavesRunning(x: System, before: real, n: nat)
    requires n in x.store.jobs && x.store.jobs[n].status.Running?
    ensures var y := Next(x, PurgeOld(before)); n in y.store.jobs && y.store.jobs[n].status.Running?
  {
  }

  lemma {:induction false} RunStillRunning(x: System, events: seq<Event>, n: nat)
    requires SystemValid(x) && n in x.store.jobs && x.store.jobs[n].status.Running?
    requires forall i :: 0 <= i < |events| ==> !MayStop(events[i])
    ensures n in Run(x, events).store.jobs && Run(x, events).store.jobs[n].status.Running?
    decreases |events|
  {
    if |events| > 0 {
      NextValid(x, events[0]);
      StillRunning(x, events[0], n);
      RunStillRunning(Next(x, events[0]), events[1..], n);
    }
  }

  // ----- done means done, with its artifacts --------------------------------------------------

  /** A row becomes done in one way: its worker's DONE ending is stored, result and artifacts in one
      transaction, the chunks of each artifact numbered from 0 as the job gave them, and none but
      these under the job's id. */
  lemma DoneIsAtomic(x: System, e: Event, n: nat)
    requires SystemValid(x) && n in x.store.jobs && !x.store.jobs[n].status.Done?
    requires n in Next(x, e).store.jobs && Next(x, e).store.jobs[n].status.Done?
    ensures e.CloseRow? && e.storable && x.phase.Finishing? && x.phase.n == n && x.phase.ending.EndDone?
    ensures Next(x, e).store.jobs[n].result == Some(x.phase.ending.result)
    ensures HoldsExactly(Next(x, e).store.chunks, x.store.jobs[n].id, x.phase.ending.artifacts)
  {
    hide HoldsExactly, RowValid, ChunksValid;
    if !e.PurgeOld? {
      NextSteady(x, e);
    }
    var ending := x.phase.ending;
    FinishRow(x.store, x.phase.n, n, x.phase.id, ending.result, e.compiles, ending.artifacts, e.now);
  }

  /** The stored chunks of job `id` are those of `artifacts`, numbered from 0. */
  ghost predicate HoldsExactly(chunks: map<ChunkKey, Bytes>, id: string, artifacts: map<string, seq<Bytes>>) {
    forall name: string, i: nat :: (ChunkKey(id, name, i) in chunks <==> name in artifacts && i < |artifacts[name]|) &&
                      (ChunkKey(id, name, i) in chunks ==> chunks[ChunkKey(id, name, i)] == artifacts[name][i])
  }

  lemma FinishRow(s: Store, m: nat, n: nat, id: string, result: string, compiles: Option<nat>,
                  artifacts: map<string, seq<Bytes>>, now: real)
    requires Valid(s) && Closable(s, m, id) && n in s.jobs && !s.jobs[n].status.Done?
    requires var f := Finish(s, id, result, compiles, artifacts, now); f.Some? && f.value.jobs[n].status.Done?
    ensures n == m
    ensures var s' := Finish(s, id, result, compiles, artifacts, now).value;
            s'.jobs[n].result == Some(result) && HoldsExactly(s'.chunks, id, artifacts)
  {
    var s' := Finish(s, id, result, compiles, artifacts, now).value;
    forall k: ChunkKey | k.jobId == id ensures k !in s.chunks {
    }
    assert s'.chunks == s.chunks + ChunkRows(id, artifacts);
  }

  // ----- a done job's artifacts stay as finished ----------------------------------------------

  /** The same chunks under job `id`, with the same bytes. */
  ghost predicate SameChunks(a: map<ChunkKey, Bytes>, b: map<ChunkKey, Bytes>, id: string) {
    forall k: ChunkKey | k.jobId == id :: (k in a <==> k in b) && (k in a ==> b[k] == a[k])
  }

  lemma PurgeKeepsChunks(s: Store, before: real, n: nat)
    requires Valid(s) && n in s.jobs && n in Purge(s, before).0.jobs
    ensures SameChunks(s.chunks, Purge(s, before).0.chunks, s.jobs[n].id)
  {
  }

  lemma CloseKeepsChunks(s: Store, m: nat, id: string, ending: Ending, now: real, storable: bool,
                         compiles: Option<nat>, n: nat)
    requires Valid(s) && Closable(s, m, id) && n in s.jobs && s.jobs[n].status.Terminal()
    ensures CloseWith(s, id, ending, now, storable, compiles).Some? ==>
              SameChunks(s.chunks, CloseWith(s, id, ending, now, storable, compiles).value.chunks, s.jobs[n].id)
  {
    assert s.jobs[n].id != id;
  }

  lemma ChunksUntouched(x: System, e: Event)
    requires !e.PurgeOld? && !e.CloseRow?
    ensures Next(x, e).store.chunks == x.store.chunks
  {
  }

  lemma NextChunks(x: System, e: Event, n: nat)
    requires SystemValid(x) && n in x.store.jobs && x.store.jobs[n].status.Terminal() && n in Next(x, e).store.jobs
    ensures SameChunks(x.store.chunks, Next(x, e).store.chunks, x.store.jobs[n].id)
  {
    if e.PurgeOld? {
      PurgeRunChunks(x, e.before, n);
    } else if e.CloseRow? {
      CloseRowChunks(x, e.now, e.storable, e.compiles, n);
    } else {
      ChunksUntouched(x, e);
    }
  }

  lemma PurgeRunChunks(x: System, before: real, n: nat)
    requires Valid(x.store) && n in x.store.jobs && n in Next(x, PurgeOld(before)).store.jobs
    ensures SameChunks(x.store.chunks, Next(x, PurgeOld(before)).store.chunks, x.store.jobs[n].id)
  {
    if x.phase.Serving? {
      PurgeKeepsChunks(x.store, before, n);
    }
  }

  lemma CloseRowChunks(x: System, now: real, storable: bool, compiles: Option<nat>, n: nat)
    requires Valid(x.store) && PhaseValid(x) && n in x.store.jobs && x.store.jobs[n].status.Terminal()
    ensures SameChunks(x.store.chunks, Next(x, CloseRow(now, storable, compiles)).store.chunks, x.store.jobs[n].id)
  {
    if x.phase.Finishing? {
      CloseKeepsChunks(x.store, x.phase.n, x.phase.id, x.phase.ending, now, storable, compiles, n);
    }
  }

  /** As long as an ended job is stored, its chunks are those it had when it ended, byte for byte, and no
      others: in every run. */
  lemma {:induction false} EndedChunksStay(x: System, events: seq<Event>, n: nat)
    requires SystemValid(x) && n in x.store.jobs && x.store.jobs[n].status.Terminal()
    requires n in Run(x, events).store.jobs
    ensures SameChunks(x.store.chunks, Run(x, events).store.chunks, x.store.jobs[n].id)
    decreases |events|
  {
    if |events| > 0 {
      var x' := Next(x, events[0]);
      NextValid(x, events[0]);
      NextRows(x, events[0]);
      if n !in x'.store.jobs {
        GoneForGood(x', events[1..], n);
      } else {
        NextChunks(x, events[0], n);
        EndedChunksStay(x', events[1..], n);
      }
    }
  }

  lemma {:induction false} RunLast(x: System, events: seq<Event>)
    requires |events| > 0
    ensures Run(x, events) == Next(Run(x, events[..|events| - 1]), events[|events| - 1])
    decreases |events|
  {
    if |events| > 1 {
      RunLast(Next(x, events[0]), events[1..]);
      assert events[1..][..|events| - 2] == events[..|events| - 1][1..];
    }
  }

  /** A row that reads done after a step that stores no result read done before it. */
  lemma DoneWas(x: System, e: Event, n: nat)
    requires SystemValid(x) && n in Next(x, e).store.jobs && Next(x, e).store.jobs[n].status.Done?
    ensures n in x.store.jobs
    ensures !ClosesDone(x, e) ==> x.store.jobs[n].status.Done?
  {
    StoredWas(x, e, n);
    if !e.PurgeOld? {
      NextSteady(x, e);
    }
  }

  lemma StoredWas(x: System, e: Event, n: nat)
    requires SystemValid(x) && n in Next(x, e).store.jobs && !Next(x, e).store.jobs[n].status.Pending?
    ensures n in x.store.jobs
  {
    match e
    case ApiSubmit(_, _, _, _, _, _, _) => SubmitKeepsRows(x.store, e);
    case ApiCancel(id, now) => CancelQuiet(x.store, id, now);
    case ClaimNext(worker, now) => ClaimAddsNone(x, worker, now);
    case _ => NextAddsNone(x, e);
  }

  lemma ClaimAddsNone(x: System, worker: string, now: real)
    ensures Next(x, ClaimNext(worker, now)).store.jobs.Keys <= x.store.jobs.Keys
  {
    if Claim(x.store, worker, now).1.Some? {
      ClaimIs(x.store, worker, now);
    }
  }

  lemma NextAddsNone(x: System, e: Event)
    requires !e.ApiSubmit? && !e.ApiCancel? && !e.ClaimNext?
    ensures Next(x, e).store.jobs.Keys <= x.store.jobs.Keys
  {
  }

  /** At event `k` the worker finished job `n`, and the job's result and artifacts at the end of the run
      are those it finished with. */
  ghost predicate FinishedAt(x: System, events: seq<Event>, n: nat, k: int)
    requires 0 <= k < |events|
  {
    var before, after := Run(x, events[..k]), Run(x, events).store;
    && events[k].CloseRow? && events[k].storable
    && before.phase.Finishing? && before.phase.n == n && before.phase.ending.EndDone?
    && n in after.jobs && after.jobs[n].result == Some(before.phase.ending.result)
    && HoldsExactly(after.chunks, after.jobs[n].id, before.phase.ending.artifacts)
  }

  lemma FinishStays(x: System, events: seq<Event>, n: nat, k: nat)
    requires SystemValid(x) && |events| > 0 && k < |events| - 1
    requires FinishedAt(x, events[..|events| - 1], n, k)
    requires Run(x, events[..|events| - 1]).store.jobs[n].status.Done? && n in Run(x, events).store.jobs
    ensures FinishedAt(x, events, n, k)
  {
    var init, last := events[..|events| - 1], events[|events| - 1];
    assert init[..k] == events[..k];
    RunLast(x, events);
    RunValid(x, init);
    NextRows(Run(x, init), last);
    NextChunks(Run(x, init), last, n);
  }

  /** In every run, every done job still stored, unless it was done at the start, was finished by its worker
      once, and holds the result and exactly the chunks, numbered from 0, that it was finished with. */
  lemma {:induction false} DoneJobsHoldTheirArtifacts(x: System, events: seq<Event>, n: nat)
    requires SystemValid(x) && !(n in x.store.jobs && x.store.jobs[n].status.Done?)
    requires n in Run(x, events).store.jobs && Run(x, events).store.jobs[n].status.Done?
    ensures exists k :: 0 <= k < |events| && FinishedAt(x, events, n, k)
    decreases |events|
  {
    if |events| > 0 {
      var init, last := events[..|events| - 1], events[|events| - 1];
      var y := Run(x, init);
      RunLast(x, events);
      RunValid(x, init);
      DoneWas(y, last, n);
      if y.store.jobs[n].status.Done? {
        DoneJobsHoldTheirArtifacts(x, init, n);
        var k :| 0 <= k < |init| && FinishedAt(x, init, n, k);
        FinishStays(x, events, n, k);
      } else {
        DoneIsAtomic(y, last, n);
        NextRows(y, last);
        assert FinishedAt(x, events, n, |events| - 1);
      }
    }
  }

  // ----- rows are what the API was given, dated when they ended -------------------------------

  /** The row holds what the call submitted, and when. */
  ghost predicate SubmittedBy(j: Job, e: Event) {
    && e.ApiSubmit? && j.id == e.id && j.request == e.request && j.kind == e.kind && j.key == e.key
    && j.sha256 == e.sha256 && j.keep == e.keep && j.submitted == e.now
  }

  lemma NewRowIsSubmitted(x: System, e: Event, n: nat)
    requires SystemValid(x) && n !in x.store.jobs && n in Next(x, e).store.jobs
    ensures SubmittedBy(Next(x, e).store.jobs[n], e)
  {
    match e
    case ApiSubmit(id, request, kind, key, sha256, keep, now) =>
      SubmitQueues(x.store, id, request, kind, key, sha256, keep, now);
    case ApiCancel(id, now) => CancelQuiet(x.store, id, now);
    case ClaimNext(worker, now) => ClaimAddsNone(x, worker, now);
    case _ => NextAddsNone(x, e);
  }

  /** In every run, a stored row holds exactly what some call of the API submitted: its body byte for byte, its
      kind, key, hash and protection, dated at the call. */
  lemma {:induction false} RowsAreSubmissions(x: System, events: seq<Event>, n: nat)
    requires SystemValid(x) && n !in x.store.jobs && n in Run(x, events).store.jobs
    ensures exists e :: e in events && SubmittedBy(Run(x, events).store.jobs[n], e)
    decreases |events|
  {
    if |events| > 0 {
      var init, last := events[..|events| - 1], events[|events| - 1];
      var y := Run(x, init);
      RunLast(x, events);
      RunValid(x, init);
      if n in y.store.jobs {
        RowsAreSubmissions(x, init, n);
        var e :| e in init && SubmittedBy(y.store.jobs[n], e);
        NextRows(y, last);
        assert e in events && SubmittedBy(Run(x, events).store.jobs[n], e);
      } else {
        NewRowIsSubmitted(y, last, n);
        assert last in events && SubmittedBy(Run(x, events).store.jobs[n], last);
      }
    }
  }

  /** What a new worker makes of the job the last one was running: a set of several hosts puts it back once,
      cancels it where a cancel had reached it and interrupts it after that; a lone worker interrupts it. */
  lemma RestartDecides(x: System, several: bool, now: real, n: nat)
    requires n in x.store.jobs && x.store.jobs[n].status.Running?
    ensures var j, s := x.store.jobs[n], Taken(x, several, now).store;
            n in s.jobs
            && s.jobs[n].status == (if several && j.cancelRequested then Cancelled
                                    else if several && j.attempts < 2 then Pending else Interrupted)
  {
  }

  /** The worker is gone, and the next one, alone or several, has the lock and looks after the file. */
  function Taken(x: System, several: bool, now: real): System {
    var y := Next(Next(x, Leave), TakeLock(several));
    Next(Next(y, RequeueRunning(now)), InterruptRunning(now))
  }

  /** When a step happens, for those that can end a row. */
  function TimeOf(e: Event): Option<real> {
    match e
    case ApiCancel(_, now) => Some(now)
    case RequeueRunning(now) => Some(now)
    case InterruptRunning(now) => Some(now)
    case CloseRow(now, _, _) => Some(now)
    case _ => None
  }

  /** A row that a step ends is dated at that step, whoever ends it. */
  lemma EndsAreDated(x: System, e: Event, n: nat)
    requires SystemValid(x) && n in x.store.jobs && !x.store.jobs[n].status.Terminal()
    requires n in Next(x, e).store.jobs && Next(x, e).store.jobs[n].status.Terminal()
    ensures TimeOf(e).Some? && Next(x, e).store.jobs[n].finished == TimeOf(e)
  {
    hide Submit, Cancel, Requeue, Interrupt, CloseWith, Claim, RowValid, ChunksValid;
    match e
    case ApiSubmit(_, _, _, _, _, _, _) => SubmitKeepsRows(x.store, e);
    case ApiCancel(id, now) => CancelDates(x.store, id, now, n);
    case RequeueRunning(now) => RequeueDates(x.store, now, n);
    case InterruptRunning(now) => InterruptDates(x.store, now, n);
    case CloseRow(now, storable, compiles) =>
      if x.phase.Finishing? {
        CloseDates(x.store, x.phase.id, x.phase.ending, now, storable, compiles, n);
      }
    case ClaimNext(worker, now) => ClaimEndsNone(x, worker, now, n);
    case _ =>
  }

  lemma CancelDates(s: Store, id: string, now: real, n: nat)
    requires n in s.jobs && !s.jobs[n].status.Terminal()
    ensures n in Cancel(s, id, now).0.jobs
    ensures Cancel(s, id, now).0.jobs[n].status.Terminal() ==> Cancel(s, id, now).0.jobs[n].finished == Some(now)
  {
  }

  lemma RequeueDates(s: Store, now: real, n: nat)
    requires n in s.jobs && !s.jobs[n].status.Terminal()
    ensures n in Requeue(s, now).0.jobs
    ensures Requeue(s, now).0.jobs[n].status.Terminal() ==> Requeue(s, now).0.jobs[n].finished == Some(now)
  {
  }

  lemma InterruptDates(s: Store, now: real, n: nat)
    requires n in s.jobs && !s.jobs[n].status.Terminal()
    ensures n in Interrupt(s, now).0.jobs
    ensures Interrupt(s, now).0.jobs[n].status.Terminal() ==> Interrupt(s, now).0.jobs[n].finished == Some(now)
  {
  }

  lemma CloseDates(s: Store, id: string, ending: Ending, now: real, storable: bool, compiles: Option<nat>, n: nat)
    requires n in s.jobs && !s.jobs[n].status.Terminal()
    ensures var closed := CloseWith(s, id, ending, now, storable, compiles);
            closed.Some? && n in closed.value.jobs && closed.value.jobs[n].status.Terminal() ==>
              closed.value.jobs[n].finished == Some(now)
  {
  }

  lemma ClaimEndsNone(x: System, worker: string, now: real, n: nat)
    requires n in x.store.jobs && !x.store.jobs[n].status.Terminal()
    ensures var y := Next(x, ClaimNext(worker, now)); n in y.store.jobs && !y.store.jobs[n].status.Terminal()
  {
    if Claim(x.store, worker, now).1.Some? {
      ClaimIs(x.store, worker, now);
    }
  }

  /** A purge leaves every row that has not ended, is protected, or ended at the cutoff or after it. */
  lemma PurgeSpares(x: System, before: real, n: nat)
    requires n in x.store.jobs
    ensures var y := Next(x, PurgeOld(before));
            n in y.store.jobs <==>
            !x.phase.Serving? || !x.store.jobs[n].status.Terminal() || x.store.jobs[n].keep
            || x.store.jobs[n].finished.None? || x.store.jobs[n].finished.value >= before
  {
  }

  // ----- one host: a job that stopped its worker is never run again ---------------------------

  /** No worker set of several hosts has the lock, and no waiting job was ever claimed. */
  ghost predicate OneHost(x: System) {
    && x.phase != Locked(true) && !x.phase.Requeued?
    && (forall n :: n in x.store.jobs && x.store.jobs[n].status.Pending? ==> Times(x.claims, n) == 0)
    && (forall n: nat :: Times(x.claims, n) <= 1)
  }

  lemma NextOneHost(x: System, e: Event)
    requires SystemValid(x) && OneHost(x) && e != TakeLock(true)
    ensures OneHost(Next(x, e))
  {
    if e.ClaimNext? {
      ClaimOneHost(x, e.worker, e.now);
    } else {
      NoneRevived(x, e);
      TimesNew(x);
    }
  }

  lemma TimesNew(x: System)
    requires SystemValid(x)
    ensures forall n: nat :: n > x.store.lastNumber ==> Times(x.claims, n) == 0
  {
    forall n: nat | n > x.store.lastNumber ensures Times(x.claims, n) == 0 {
      TimesAbsent(x.claims, n);
    }
  }

  /** Without a worker set's requeue, only a submission makes a row pending. */
  ghost predicate OnlyNewWaits(s: Store, s': Store) {
    forall n :: n in s'.jobs && s'.jobs[n].status.Pending? ==>
      n > s.lastNumber || (n in s.jobs && s.jobs[n].status.Pending?)
  }

  lemma NoneRevived(x: System, e: Event)
    requires SystemValid(x) && OneHost(x) && !e.ClaimNext?
    ensures OnlyNewWaits(x.store, Next(x, e).store)
  {
    hide Cancel, Interrupt, Purge, CloseWith, Valid;
    match e
    case ApiSubmit(_, _, _, _, _, _, _) => SubmitKeepsRows(x.store, e);
    case ApiCancel(id, now) => CancelOnlyEnds(x.store, id, now);
    case InterruptRunning(now) => InterruptOnlyEnds(x.store, now);
    case PurgeOld(before) => PurgeOnlyDeletes(x.store, before);
    case CloseRow(now, storable, compiles) =>
      if x.phase.Finishing? {
        CloseKeepsWaiting(x.store, x.phase.id, x.phase.ending, now, storable, compiles);
      }
    case _ =>
  }

  lemma CancelOnlyEnds(s: Store, id: string, now: real)
    ensures OnlyNewWaits(s, Cancel(s, id, now).0)
  {
    var rows := Rows(s.jobs, (j: Job) => j.id == id);
    if rows != {} {
      var m := First(rows);
      assert Cancel(s, id, now).0.jobs == s.jobs[m := CancelledRow(s.jobs[m], now)];
    }
  }

  lemma InterruptOnlyEnds(s: Store, now: real)
    ensures OnlyNewWaits(s, Interrupt(s, now).0)
  {
  }

  lemma PurgeOnlyDeletes(s: Store, before: real)
    ensures OnlyNewWaits(s, Purge(s, before).0)
  {
  }

  lemma ClaimOneHost(x: System, worker: string, now: real)
    requires SystemValid(x) && OneHost(x)
    ensures OneHost(Next(x, ClaimNext(worker, now)))
  {
    if x.phase.Serving? && Claim(x.store, worker, now).1.Some? {
      ClaimIs(x.store, worker, now);
      var c := Claim(x.store, worker, now).1.value;
      forall n: nat ensures Times(x.claims + [c], n) == Times(x.claims, n) + if c == n then 1 else 0 {
        TimesAppend(x.claims, c, n);
      }
    }
  }

  /** Under one-host workers every job is claimed at most once, however often they crash: a job that
      kills its worker cannot make it crash again. */
  lemma {:induction false} OneHostClaimsOnce(x: System, events: seq<Event>)
    requires SystemValid(x) && OneHost(x) && forall i :: 0 <= i < |events| ==> events[i] != TakeLock(true)
    ensures forall n: nat :: Times(Run(x, events).claims, n) <= 1
    decreases |events|
  {
    if |events| > 0 {
      NextValid(x, events[0]);
      NextOneHost(x, events[0]);
      OneHostClaimsOnce(Next(x, events[0]), events[1..]);
    }
  }
}
