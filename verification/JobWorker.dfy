/** The queue's methods and the worker's polling loop as imperative code over one shared store.

    Each queue method is one step of the transition system in JobQueue; the worker is shown to take
    only such steps, so what is proved there over all interleavings covers it. */
module JobWorker {
  import opened JobQueue
  import opened Options

  /** What executing a job does before it ends: progress updates and result rows. */
  datatype Work = Report(pct: int) | Keep(strategy: string)

  /** How the dispatched engine ends: it returns, raises, or the database connection fails, in which
      case `fail` raises as well. */
  datatype Ending = Returns | Raises(message: string) | DatabaseFails

  datatype Outcome = Outcome(work: seq<Work>, ending: Ending)

  predicate HasEngine(kind: string) {
    kind == "single" || kind == "composite" || kind == "grid_search" || kind == "portfolio"
  }

  /** The records a piece of work adds for job `j`. */
  function Kept(j: JobId, work: seq<Work>): seq<Record> {
    if work == [] then [] else Kept(j, work[..|work| - 1]) + KeptBy(j, work[|work| - 1])
  }

  function KeptBy(j: JobId, w: Work): seq<Record> {
    match w
    case Keep(s) => [Record(j, s)]
    case Report(_) => []
  }

  /** The last progress the row shows, starting from `pct`. */
  function LastProgress(pct: int, work: seq<Work>): int {
    if work == [] then pct
    else match work[|work| - 1]
         case Report(p) => Capped(p)
         case Keep(_) => LastProgress(pct, work[..|work| - 1])
  }

  /** Whether the engines run the job to its end, or `fail` is called with a message. */
  function Failure(kind: string, o: Outcome): Option<string> {
    if !HasEngine(kind) then Some("ValueError: Unknown job_type: '" + kind + "'")
    else match o.ending case Raises(m) => Some(m) case _ => None
  }

  /** Work of an unknown kind is never started. */
  function Done(kind: string, o: Outcome): seq<Work> {
    if HasEngine(kind) then o.work else []
  }

  /** The row a worker commits for a job. */
  function FinishedRow(row: Job, o: Outcome): Job {
    match Failure(row.kind, o)
    case None => row.(status := Completed, result := Some("done"), progress := 100)
    case Some(m) => row.(status := Failed, error := Some(Truncated(m)),
                         progress := LastProgress(10, Done(row.kind, o)))
  }

  /** How a claimed row ends when the database holds: completed if an engine ran it to its end, otherwise failed
      with the first 1000 characters of the exception's message; the job asked for stays what it was. */
  ghost predicate EndsAs(row: Job, o: Outcome, end: Job) {
    && end.kind == row.kind && end.priority == row.priority && end.createdAt == row.createdAt
    && (end.status == Completed <==> HasEngine(row.kind) && o.ending.Returns?)
    && (end.status == Failed <==> !HasEngine(row.kind) || o.ending.Raises?)
    && (end.status == Completed ==> end.progress == 100 && end.result == Some("done") && end.error == row.error)
    && (end.status == Failed ==>
          var message := if HasEngine(row.kind) then o.ending.message
                         else "ValueError: Unknown job_type: '" + row.kind + "'";
          && end.result == row.result
          && end.error.Some? && end.error.value <= message
          && |end.error.value| == if |message| < 1000 then |message| else 1000)
  }

  lemma FinishedRowEnds(row: Job, o: Outcome)
    requires !HasEngine(row.kind) || o.ending != DatabaseFails
    ensures EndsAs(row, o, FinishedRow(row.(status := Running), o))
  {
  }

  ghost function Waiting(db: Db): set<JobId> {
    set j | j in db.jobs && Claimable(db, j)
  }

  lemma NoneWaiting(db: Db)
    ensures Waiting(db) == {} <==> forall j :: j in db.jobs && db.jobs[j].status == Pending ==> Locked(db, j)
  {
    if j :| j in db.jobs && db.jobs[j].status == Pending && !Locked(db, j) { assert j in Waiting(db); }
  }

  class Store {
    var jobs: map<JobId, Job>
    var records: seq<Record>
    var txs: map<TxId, Tx>
    var nextId: nat

    function State(): Db
      reads this
    {
      Db(jobs, records, txs, nextId)
    }

    constructor ()
      ensures State() == EMPTY
    {
      jobs, records, txs, nextId := map[], [], map[], 0;
    }

    method Insert(tx: TxId, kind: string, priority: int, now: int) returns (id: JobId)
      requires Enabled(State(), Enqueue(tx, kind, priority, now))
      modifies this
      ensures id == old(nextId)
      ensures State() == Step(old(State()), Enqueue(tx, kind, priority, now))
    {
      id := nextId;
      nextId := nextId + 1;
      txs := txs[tx := Enqueuing(id, Job(kind, priority, now, Pending, 0, None, None))];
    }

    /** The SELECT ... FOR UPDATE SKIP LOCKED, as a scan that keeps the best row seen. */
    method FindNext() returns (best: Option<JobId>)
      ensures best.Some? ==> best.value in jobs && IsNext(State(), best.value)
      ensures best.None? ==> forall j :: j in jobs && jobs[j].status == Pending ==> Locked(State(), j)
    {
      best := None;
      var rest := jobs.Keys;
      while rest != {}
        invariant rest <= jobs.Keys
        invariant best.Some? ==> best.value in jobs && Claimable(State(), best.value)
        invariant forall k :: k in jobs && k !in rest && Claimable(State(), k) ==>
                    best.Some? && NotBehind(jobs[best.value], jobs[k])
        decreases rest
      {
        var j :| j in rest;
        rest := rest - {j};
        if Claimable(State(), j) {
          if best.None? || jobs[j].priority > jobs[best.value].priority
             || (jobs[j].priority == jobs[best.value].priority && jobs[j].createdAt < jobs[best.value].createdAt) {
            best := Some(j);
          }
        }
      }
    }

    method ClaimNext(tx: TxId) returns (job: Option<JobId>)
      requires tx !in txs
      modifies this
      ensures job.None? ==>
                State() == old(State()) && forall j :: j in jobs && jobs[j].status == Pending ==> Locked(State(), j)
      ensures job.Some? ==>
                && Enabled(old(State()), Claim(tx, job.value))
                && State() == Step(old(State()), Claim(tx, job.value))
    {
      job := FindNext();
      if job.None? { return; }
      txs := txs[tx := Working(job.value, jobs[job.value].(status := Running), [], false)];
    }

    method UpdateProgress(tx: TxId, pct: int)
      requires Executing(State(), tx)
      modifies this`txs
      ensures State() == Step(old(State()), Progress(tx, pct))
    {
      var w := txs[tx];
      txs := txs[tx := w.(row := w.row.(progress := if pct < 100 then pct else 100))];
    }

    method SaveRecord(tx: TxId, strategy: string)
      requires Executing(State(), tx)
      modifies this`txs
      ensures State() == Step(old(State()), Save(tx, strategy))
    {
      var w := txs[tx];
      txs := txs[tx := w.(records := w.records + [Record(w.id, strategy)])];
    }

    method MarkCompleted(tx: TxId, payload: string)
      requires Executing(State(), tx)
      modifies this`txs
      ensures State() == Step(old(State()), Complete(tx, payload))
    {
      var w := txs[tx];
      var row := w.row.(status := Completed, result := Some(payload), progress := 100);
      txs := txs[tx := w.(row := row, done := true)];
    }

    method MarkFailed(tx: TxId, message: string)
      requires Executing(State(), tx)
      modifies this`txs
      ensures State() == Step(old(State()), Fail(tx, message))
    {
      var w := txs[tx];
      var cut := if |message| > 1000 then message[..1000] else message;
      var row := w.row.(status := Failed, error := Some(cut));
      txs := txs[tx := w.(row := row, done := true)];
    }

    /** `cancel` and, when it matched a row, the API's commit. */
    method CancelJob(tx: TxId, job: JobId) returns (cancelled: bool)
      requires Enabled(State(), Cancel(tx, job))
      modifies this
      ensures cancelled <==> Cancellable(old(State()), job)
      ensures txs == old(txs) && records == old(records) && nextId == old(nextId)
      ensures jobs == if cancelled then old(jobs)[job := old(jobs)[job].(status := Cancelled)] else old(jobs)
    {
      cancelled := job in jobs && jobs[job].status == Pending;
      if !cancelled { return; }
      txs := txs[tx := Cancelling(job, jobs[job].(status := Cancelled))];
      CommitTx(tx);
    }

    method CommitTx(tx: TxId)
      requires Enabled(State(), Commit(tx))
      modifies this
      ensures State() == Step(old(State()), Commit(tx))
    {
      var t := txs[tx];
      jobs := jobs[t.id := t.row];
      if t.Working? { records := records + t.records; }
      txs := txs - {tx};
    }

    method RollbackTx(tx: TxId)
      requires tx in txs
      modifies this`txs
      ensures State() == Step(old(State()), Rollback(tx))
    {
      txs := txs - {tx};
    }

    /** The engine's work on behalf of a job, as steps of the transition system. */
    method Perform(tx: TxId, work: seq<Work>, ghost start: Db, ghost acts: seq<Action>)
      returns (ghost more: seq<Action>)
      requires Runs(start, acts) && State() == After(start, acts)
      requires tx in txs && txs[tx].Working? && !txs[tx].done && txs[tx].records == []
      requires forall a :: a in acts ==> a.tx == tx
      modifies this`txs
      ensures Runs(start, more) && State() == After(start, more)
      ensures forall a :: a in more ==> a.tx == tx
      ensures tx in txs && txs == old(txs)[tx := txs[tx]]
      ensures var w := old(txs[tx]);
              txs[tx] == Working(w.id, w.row.(progress := LastProgress(w.row.progress, work)), Kept(w.id, work), false)
    {
      hide Runs, After;
      more := acts;
      ghost var w := txs[tx];
      for i := 0 to |work|
        invariant Runs(start, more) && State() == After(start, more)
        invariant forall a :: a in more ==> a.tx == tx
        invariant tx in txs && txs == old(txs)[tx := txs[tx]]
        invariant txs[tx] == Working(w.id, w.row.(progress := LastProgress(w.row.progress, work[..i])),
                                     Kept(w.id, work[..i]), false)
      {
        assert work[..i + 1][..i] == work[..i];
        match work[i] {
          case Report(pct) =>
            more := Extend(start, more, Progress(tx, pct));
            UpdateProgress(tx, pct);
          case Keep(strategy) =>
            more := Extend(start, more, Save(tx, strategy));
            SaveRecord(tx, strategy);
        }
      }
      assert work[..|work|] == work;
    }

    /** How `_execute_job` ends when the exception, if any, is handled: `complete` or `fail`. */
    method Conclude(tx: TxId, failure: Option<string>, ghost start: Db, ghost acts: seq<Action>)
      returns (ghost more: seq<Action>)
      requires Runs(start, acts) && State() == After(start, acts)
      requires tx in txs && txs[tx].Working? && !txs[tx].done
      requires forall a :: a in acts ==> a.tx == tx
      modifies this`txs
      ensures Runs(start, more) && State() == After(start, more)
      ensures forall a :: a in more ==> a.tx == tx
      ensures var w := old(txs[tx]);
              var row := match failure
                         case None => w.row.(status := Completed, result := Some("done"), progress := 100)
                         case Some(m) => w.row.(status := Failed, error := Some(Truncated(m)));
              txs == old(txs)[tx := w.(row := row, done := true)]
    {
      if failure.Some? {
        more := Extend(start, acts, Fail(tx, failure.value));
        MarkFailed(tx, failure.value);
      } else {
        more := Extend(start, acts, Progress(tx, 90));
        UpdateProgress(tx, 90);
        more := Extend(start, more, Complete(tx, "done"));
        MarkCompleted(tx, "done");
      }
    }

    /** `_execute_job`. `raised` says that the exception left the method, so the caller must not commit.
        The steps it took are handed back as a run of the transition system. */
    method ExecuteJob(tx: TxId, o: Outcome) returns (raised: bool, ghost acts: seq<Action>)
      requires tx in txs && txs[tx].Working? && !txs[tx].done && txs[tx].records == []
      modifies this`txs
      ensures Runs(old(State()), acts) && State() == After(old(State()), acts)
      ensures forall a :: a in acts ==> a.tx == tx
      ensures raised == (HasEngine(old(txs[tx].row.kind)) && o.ending == DatabaseFails)
      ensures tx in txs && txs == old(txs)[tx := txs[tx]]
      ensures txs[tx].Working? && txs[tx].id == old(txs[tx].id)
      ensures !raised ==>
                var w := old(txs[tx]);
                txs[tx] == Working(w.id, FinishedRow(w.row, o),
                                      if HasEngine(w.row.kind) then Kept(w.id, o.work) else [], true)
    {
      ghost var start := State();
      var kind := txs[tx].row.kind;
      acts := Extend(start, [], Progress(tx, 10));
      UpdateProgress(tx, 10);
      raised := false;
      var failure := None;
      if kind == "single" || kind == "composite" || kind == "grid_search" || kind == "portfolio" {
        acts := Perform(tx, o.work, start, acts);
        match o.ending {
          case Returns =>
          case Raises(m) => failure := Some(m);
          case DatabaseFails => return true, acts;
        }
      } else {
        failure := Some("ValueError: Unknown job_type: '" + kind + "'");
      }
      acts := Conclude(tx, failure, start, acts);
    }

    /** One turn of `_poll_loop` with nobody else acting in between: claim, execute, then commit, or roll
        back if the exception escaped. */
    method PollOnce(tx: TxId, o: Outcome) returns (job: Option<JobId>)
      requires tx !in txs
      modifies this
      ensures txs == old(txs) && nextId == old(nextId)
      ensures job.None? ==>
                && jobs == old(jobs) && records == old(records)
                && forall j :: j in jobs && jobs[j].status == Pending ==> Locked(State(), j)
      ensures job.Some? ==> job.value in old(jobs) && IsNext(old(State()), job.value)
      ensures job.Some? ==>
                var j := job.value; var row := old(jobs)[j];
                if HasEngine(row.kind) && o.ending == DatabaseFails then jobs == old(jobs) && records == old(records)
                else
                  && jobs == old(jobs)[j := FinishedRow(row.(status := Running), o)]
                  && EndsAs(row, o, jobs[j])
                  && records == old(records) + if HasEngine(row.kind) then Kept(j, o.work) else []
    {
      hide EndsAs, FinishedRow;
      job := ClaimNext(tx);
      if job.None? { return; }
      ghost var row := old(jobs)[job.value];
      if !HasEngine(row.kind) || o.ending != DatabaseFails { FinishedRowEnds(row, o); }
      var raised, acts := ExecuteJob(tx, o);
      if raised {
        RollbackTx(tx);
      } else {
        CommitTx(tx);
      }
      assert txs == old(txs);
    }

    /** The loop itself, for as many turns as the environment grants before shutdown: if the database
        never fails, enough turns leave nothing waiting. */
    method PollLoop(tx: TxId, outcomes: seq<Outcome>)
      requires tx !in txs
      modifies this
      ensures txs == old(txs)
      ensures (forall i :: 0 <= i < |outcomes| ==> outcomes[i].ending != DatabaseFails)
              && |outcomes| >= |Waiting(old(State()))|
              ==> forall j :: j in jobs && jobs[j].status == Pending ==> Locked(State(), j)
    {
      ghost var waiting := Waiting(State());
      ghost var healthy := forall i :: 0 <= i < |outcomes| ==> outcomes[i].ending != DatabaseFails;
      for i := 0 to |outcomes|
        invariant txs == old(txs)
        invariant healthy ==> Waiting(State()) == {} || |Waiting(State())| <= |waiting| - i
      {
        ghost var before := State();
        var job := PollOnce(tx, outcomes[i]);
        NoneWaiting(State());
        if job.Some? && healthy {
          assert Waiting(State()) == Waiting(before) - {job.value};
        }
      }
      NoneWaiting(State());
    }
  }
}
