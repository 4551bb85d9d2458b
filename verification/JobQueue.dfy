/** The backtest job queue as a transition system: one committed table, any number of transactions with
    private writes and row locks, and the steps that workers and API callers take, in any order.

    Isolation is PostgreSQL READ COMMITTED: a statement sees committed rows, an UPDATE of a row locked
    by another transaction waits, and `SKIP LOCKED` passes such rows over.  Job configuration and
    timestamps other than `created_at` are not modelled. */
module JobQueue {
  import opened Options

  type JobId = nat
  type TxId = nat

  datatype Status = Pending | Running | Completed | Failed | Cancelled

  datatype Job = Job(kind: string, priority: int, createdAt: int, status: Status, progress: int,
                     result: Option<string>, error: Option<string>)

  /** A `BacktestResultRecord` row. */
  datatype Record = Record(job: JobId, strategy: string)

  /** An open transaction: what it has written but not committed.  `Working` and `Cancelling` hold the
      row lock of their job. */
  datatype Tx =
    | Enqueuing(id: JobId, row: Job)
    | Working(id: JobId, row: Job, records: seq<Record>, done: bool)
    | Cancelling(id: JobId, row: Job)
  {
    predicate Locks(j: JobId) {
      !Enqueuing? && id == j
    }
  }

  datatype Db = Db(jobs: map<JobId, Job>, records: seq<Record>, txs: map<TxId, Tx>, nextId: nat)

  const EMPTY := Db(map[], [], map[], 0)

  datatype Action =
    | Enqueue(tx: TxId, kind: string, priority: int, now: int)
    | Claim(tx: TxId, job: JobId)
    | Progress(tx: TxId, pct: int)
    | Save(tx: TxId, strategy: string)
    | Complete(tx: TxId, payload: string)
    | Fail(tx: TxId, message: string)
    | Cancel(tx: TxId, job: JobId)
    | Commit(tx: TxId)
    | Rollback(tx: TxId)

  predicate Locked(db: Db, j: JobId) {
    exists t :: t in db.txs && db.txs[t].Locks(j)
  }

  /** A row the claiming SELECT can return. */
  predicate Claimable(db: Db, j: JobId) {
    j in db.jobs && db.jobs[j].status == Pending && !Locked(db, j)
  }

  /** ORDER BY priority DESC, created_at ASC. */
  predicate NotBehind(a: Job, b: Job) {
    a.priority > b.priority || (a.priority == b.priority && a.createdAt <= b.createdAt)
  }

  /** `j` may be the one row the SELECT returns. */
  predicate IsNext(db: Db, j: JobId) {
    Claimable(db, j) && forall k :: k in db.jobs && Claimable(db, k) ==> NotBehind(db.jobs[j], db.jobs[k])
  }

  /** The job is pending and no open transaction holds its row. */
  ghost predicate Waits(db: Db, j: JobId) {
    && j in db.jobs && db.jobs[j].status == Pending
    && forall t :: t in db.txs && db.txs[t].id == j ==> db.txs[t].Enqueuing?
  }

  /** A claim returns a waiting job; no other has a higher priority, and none of the same priority is older. */
  lemma NextMeans(db: Db, j: JobId)
    ensures IsNext(db, j) <==>
              && Waits(db, j)
              && forall k :: Waits(db, k) ==>
                   && db.jobs[k].priority <= db.jobs[j].priority
                   && (db.jobs[k].priority == db.jobs[j].priority ==> db.jobs[j].createdAt <= db.jobs[k].createdAt)
  {
    assert forall k :: Waits(db, k) <==> Claimable(db, k);
  }

  function NewJob(kind: string, priority: int, now: int): Job {
    Job(kind, priority, now, Pending, 0, None, None)
  }

  function Capped(pct: int): int {
    if pct < 100 then pct else 100
  }

  function Truncated(s: string): string {
    if |s| > 1000 then s[..1000] else s
  }

  /** The rows a transaction makes visible when it commits. */
  function Publish(db: Db, t: Tx): Db {
    match t
    case Enqueuing(id, row) => db.(jobs := db.jobs[id := row])
    case Working(id, row, records, _) => db.(jobs := db.jobs[id := row], records := db.records + records)
    case Cancelling(id, row) => db.(jobs := db.jobs[id := row])
  }

  /** A worker transaction still executing its job. */
  predicate Executing(db: Db, t: TxId) {
    t in db.txs && db.txs[t].Working? && !db.txs[t].done
  }

  predicate Enabled(db: Db, a: Action) {
    match a
    case Enqueue(t, _, _, _) => t !in db.txs
    case Claim(t, j) => t !in db.txs && IsNext(db, j)
    case Progress(t, _) => Executing(db, t)
    case Save(t, _) => Executing(db, t)
    case Complete(t, _) => Executing(db, t)
    case Fail(t, _) => Executing(db, t)
    case Cancel(t, j) => t !in db.txs && !Locked(db, j)
    case Commit(t) => t in db.txs && (db.txs[t].Working? ==> db.txs[t].done)
    case Rollback(t) => t in db.txs
  }

  function Step(db: Db, a: Action): Db
    requires Enabled(db, a)
  {
    match a
    case Enqueue(t, kind, priority, now) =>
      db.(txs := db.txs[t := Enqueuing(db.nextId, NewJob(kind, priority, now))], nextId := db.nextId + 1)
    case Claim(t, j) =>
      db.(txs := db.txs[t := Working(j, db.jobs[j].(status := Running), [], false)])
    case Progress(t, pct) =>
      var w := db.txs[t];
      db.(txs := db.txs[t := w.(row := w.row.(progress := Capped(pct)))])
    case Save(t, strategy) =>
      var w := db.txs[t];
      db.(txs := db.txs[t := w.(records := w.records + [Record(w.id, strategy)])])
    case Complete(t, payload) =>
      var w := db.txs[t];
      var row := w.row.(status := Completed, result := Some(payload), progress := 100);
      db.(txs := db.txs[t := w.(row := row, done := true)])
    case Fail(t, message) =>
      var w := db.txs[t];
      var row := w.row.(status := Failed, error := Some(Truncated(message)));
      db.(txs := db.txs[t := w.(row := row, done := true)])
    case Cancel(t, j) =>
      if Cancellable(db, j) then db.(txs := db.txs[t := Cancelling(j, db.jobs[j].(status := Cancelled))]) else db
    case Commit(t) =>
      Publish(db, db.txs[t]).(txs := db.txs - {t})
    case Rollback(t) =>
      db.(txs := db.txs - {t})
  }

  /** The UPDATE of `cancel` matches a row (and the API call then answers 204 instead of 409). */
  predicate Cancellable(db: Db, j: JobId) {
    j in db.jobs && db.jobs[j].status == Pending
  }

  // ----- runs

  ghost predicate Runs(db: Db, acts: seq<Action>)
    decreases |acts|, 0
  {
    acts == [] || (Runs(db, acts[..|acts| - 1]) && Enabled(After(db, acts[..|acts| - 1]), acts[|acts| - 1]))
  }

  ghost function After(db: Db, acts: seq<Action>): Db
    requires Runs(db, acts)
    decreases |acts|, 1
  {
    if acts == [] then db else Step(After(db, acts[..|acts| - 1]), acts[|acts| - 1])
  }

  /** How often a worker's run of job `j` has committed. */
  ghost function Effects(db: Db, acts: seq<Action>, j: JobId): nat
    requires Runs(db, acts)
    decreases |acts|
  {
    if acts == [] then 0
    else
      var n := |acts| - 1;
      var before := After(db, acts[..n]);
      Effects(db, acts[..n], j)
      + if acts[n].Commit? && before.txs[acts[n].tx].Working? && before.txs[acts[n].tx].id == j then 1 else 0
  }

  // ----- the invariant

  ghost predicate RowOk(row: Job) {
    && row.status != Running
    && (row.status == Pending ==> row.progress == 0 && row.result.None? && row.error.None?)
    && (row.status == Cancelled ==> row.progress == 0 && row.result.None? && row.error.None?)
    && (row.status == Completed ==> row.progress == 100 && row.result.Some?)
    && (row.status == Failed ==> row.error.Some? && |row.error.value| <= 1000)
  }

  ghost predicate TxOk(db: Db, t: Tx) {
    match t
    case Enqueuing(id, row) => id !in db.jobs && id < db.nextId && row.status == Pending && RowOk(row)
    case Cancelling(id, row) =>
      Cancellable(db, id) && row == db.jobs[id].(status := Cancelled)
    case Working(id, row, records, done) =>
      && Cancellable(db, id)
      && (forall i :: 0 <= i < |records| ==> records[i].job == id)
      && if done then row.status in {Completed, Failed} && RowOk(row) else row.status == Running
  }

  ghost predicate Exclusive(db: Db) {
    forall t, u :: t in db.txs && u in db.txs && t != u ==> db.txs[t].id != db.txs[u].id
  }

  ghost predicate Inv(db: Db) {
    && (forall j :: j in db.jobs ==> j < db.nextId && RowOk(db.jobs[j]))
    && (forall t :: t in db.txs ==> TxOk(db, db.txs[t]))
    && Exclusive(db)
    && (forall i :: 0 <= i < |db.records| ==>
          db.records[i].job in db.jobs && db.jobs[db.records[i].job].status in {Completed, Failed})
  }

  lemma WritingKeepsInv(db: Db, t: TxId, w: Tx)
    requires Inv(db) && t in db.txs && w.id == db.txs[t].id && TxOk(db, w)
    ensures Inv(db.(txs := db.txs[t := w]))
  {
  }

  lemma OpeningKeepsInv(db: Db, t: TxId, w: Tx)
    requires Inv(db) && t !in db.txs && TxOk(db, w)
    requires forall u :: u in db.txs ==> db.txs[u].id != w.id
    ensures Inv(db.(txs := db.txs[t := w]))
  {
  }

  lemma CommittingKeepsInv(db: Db, t: TxId)
    requires Inv(db) && Enabled(db, Commit(t))
    ensures Inv(Step(db, Commit(t)))
  {
    var db' := Step(db, Commit(t));
    forall u | u in db'.txs ensures TxOk(db', db'.txs[u]) {
      assert db.txs[u].id != db.txs[t].id;
    }
  }

  lemma OpeningStepKeepsInv(db: Db, a: Action)
    requires Inv(db) && Enabled(db, a) && (a.Enqueue? || a.Claim? || a.Cancel?)
    ensures Inv(Step(db, a))
  {
    match a {
      case Enqueue(t, kind, priority, now) =>
        var w := Enqueuing(db.nextId, NewJob(kind, priority, now));
        assert Inv(db.(nextId := db.nextId + 1));
        OpeningKeepsInv(db.(nextId := db.nextId + 1), t, w);
      case Claim(t, j) =>
        OpeningKeepsInv(db, t, Working(j, db.jobs[j].(status := Running), [], false));
      case Cancel(t, j) =>
        if Cancellable(db, j) { OpeningKeepsInv(db, t, Cancelling(j, db.jobs[j].(status := Cancelled))); }
    }
  }

  lemma WorkKeepsInv(db: Db, a: Action)
    requires Inv(db) && Enabled(db, a) && (a.Progress? || a.Save? || a.Complete? || a.Fail?)
    ensures Inv(Step(db, a))
  {
    WritingKeepsInv(db, a.tx, Step(db, a).txs[a.tx]);
  }

  lemma RollbackKeepsInv(db: Db, t: TxId)
    requires Inv(db) && t in db.txs
    ensures Inv(Step(db, Rollback(t)))
  {
  }

  /** Every step of every worker and caller keeps the invariant. */
  lemma StepKeepsInv(db: Db, a: Action)
    requires Inv(db) && Enabled(db, a)
    ensures Inv(Step(db, a))
  {
    hide Inv, Step;
    match a {
      case Enqueue(_, _, _, _) => OpeningStepKeepsInv(db, a);
      case Claim(_, _) => OpeningStepKeepsInv(db, a);
      case Cancel(_, _) => OpeningStepKeepsInv(db, a);
      case Commit(t) => CommittingKeepsInv(db, t);
      case Rollback(t) => RollbackKeepsInv(db, t);
      case _ => WorkKeepsInv(db, a);
    }
  }

  lemma {:induction false} RunKeepsInv(db: Db, acts: seq<Action>)
    requires Inv(db) && Runs(db, acts)
    ensures Inv(After(db, acts))
    decreases |acts|
  {
    if acts != [] {
      RunKeepsInv(db, acts[..|acts| - 1]);
      StepKeepsInv(After(db, acts[..|acts| - 1]), acts[|acts| - 1]);
    }
  }

  // ----- what one step can do to the committed table

  ghost predicate Terminal(s: Status) {
    s in {Completed, Failed, Cancelled}
  }

  /** No row disappears; a finished row never changes again; a pending row stays as it is or becomes
      finished; records only accumulate. */
  ghost predicate Advances(db: Db, db': Db) {
    && (forall j :: j in db.jobs ==>
          && j in db'.jobs
          && (db'.jobs[j] == db.jobs[j] || (db.jobs[j].status == Pending && Terminal(db'.jobs[j].status))))
    && db.records <= db'.records
  }

  lemma StepAdvances(db: Db, a: Action)
    requires Inv(db) && Enabled(db, a)
    ensures Advances(db, Step(db, a))
  {
  }

  /** From any moment of a run to any later one: statuses only move pending -> finished, once. */
  lemma {:induction false} RunAdvances(db: Db, acts: seq<Action>)
    requires Inv(db) && Runs(db, acts)
    ensures Advances(db, After(db, acts))
    decreases |acts|
  {
    if acts != [] {
      RunAdvances(db, acts[..|acts| - 1]);
      RunKeepsInv(db, acts[..|acts| - 1]);
      var middle := After(db, acts[..|acts| - 1]);
      StepAdvances(middle, acts[|acts| - 1]);
      assert middle.records <= After(db, acts).records;
    }
  }

  /** Over every interleaving from the empty queue, a job's run commits at most once: once if its
      committed status is completed or failed, never otherwise. */
  lemma {:induction false} EffectsCommitOnce(acts: seq<Action>, j: JobId)
    requires Runs(EMPTY, acts)
    ensures var db := After(EMPTY, acts);
            Effects(EMPTY, acts, j) == if j in db.jobs && db.jobs[j].status in {Completed, Failed} then 1 else 0
    decreases |acts|
  {
    if acts != [] {
      var n := |acts| - 1;
      EffectsCommitOnce(acts[..n], j);
      RunKeepsInv(EMPTY, acts[..n]);
      EffectOfStep(After(EMPTY, acts[..n]), acts[n], j);
    }
  }

  /** A step finishes job `j` with an effect exactly when it commits the worker holding `j`. */
  lemma EffectOfStep(db: Db, a: Action, j: JobId)
    requires Inv(db) && Enabled(db, a)
    ensures var db' := Step(db, a);
            var ran := j in db.jobs && db.jobs[j].status in {Completed, Failed};
            var ran' := j in db'.jobs && db'.jobs[j].status in {Completed, Failed};
            if a.Commit? && db.txs[a.tx].Working? && db.txs[a.tx].id == j then !ran && ran' else ran' == ran
  {
  }

  /** A cancelled job (and a pending one) has no committed effect: no run of it ever committed and it
      has no result record. */
  lemma CancelledHasNoEffect(acts: seq<Action>, j: JobId)
    requires Runs(EMPTY, acts)
    requires var db := After(EMPTY, acts); j in db.jobs && db.jobs[j].status in {Cancelled, Pending}
    ensures Effects(EMPTY, acts, j) == 0
    ensures forall i :: 0 <= i < |After(EMPTY, acts).records| ==> After(EMPTY, acts).records[i].job != j
  {
    EffectsCommitOnce(acts, j);
    RunKeepsInv(EMPTY, acts);
  }

  // ----- claiming

  /** No job is lost: a committed job is finished, or it is pending and then either held by exactly one
      open transaction or claimable right now. */
  lemma EveryJobIsAccountedFor(acts: seq<Action>, j: JobId)
    requires Runs(EMPTY, acts) && j in After(EMPTY, acts).jobs
    ensures var db := After(EMPTY, acts);
            || Terminal(db.jobs[j].status)
            || Claimable(db, j)
            || (exists t :: t in db.txs && db.txs[t].Locks(j)
                  && forall u :: u in db.txs && db.txs[u].Locks(j) ==> u == t)
  {
    RunKeepsInv(EMPTY, acts);
    var db := After(EMPTY, acts);
    if !Terminal(db.jobs[j].status) && !Claimable(db, j) {
      var t :| t in db.txs && db.txs[t].Locks(j);
      assert forall u :: u in db.txs && db.txs[u].Locks(j) ==> u == t;
    }
  }

  /** Whenever some job is claimable, a claim succeeds. */
  lemma SomeJobIsNext(db: Db, j: JobId)
    requires Claimable(db, j)
    ensures exists k :: k in db.jobs && IsNext(db, k)
  {
    var ids := set k | k in db.jobs && Claimable(db, k);
    assert j in ids;
    var k := BestOf(db.jobs, ids);
    assert IsNext(db, k);
  }

  lemma BestOf(jobs: map<JobId, Job>, ids: set<JobId>) returns (best: JobId)
    requires ids != {} && ids <= jobs.Keys
    ensures best in ids && forall k :: k in ids ==> NotBehind(jobs[best], jobs[k])
  {
    var first :| first in ids;
    var rest := ids - {first};
    best := first;
    if rest != {} {
      var other := BestOf(jobs, rest);
      if !NotBehind(jobs[first], jobs[other]) { best := other; }
    }
    assert forall k :: k in ids ==> k == first || k in rest;
  }

  /** Rolling a claim back, at whatever point of the execution, leaves the table and the records as
      they were and the job claimable again. */
  lemma RolledBackJobIsClaimable(db: Db, t: TxId)
    requires Inv(db) && t in db.txs && db.txs[t].Working?
    ensures Enabled(db, Rollback(t))
    ensures var db' := Step(db, Rollback(t));
            && db'.jobs == db.jobs && db'.records == db.records
            && Claimable(db', db.txs[t].id)
  {
  }

  /** No two open transactions hold the same job, so two workers never execute it at the same time. */
  lemma OneHolderPerJob(acts: seq<Action>, t: TxId, u: TxId, j: JobId)
    requires Runs(EMPTY, acts)
    requires var db := After(EMPTY, acts);
             t in db.txs && u in db.txs && db.txs[t].Locks(j) && db.txs[u].Locks(j)
    ensures t == u
  {
    RunKeepsInv(EMPTY, acts);
  }

  /** Committed rows never say "running", and an unfinished one never shows progress: other sessions
      see a job's run only when it is over. */
  lemma RunsAreInvisibleUntilCommitted(acts: seq<Action>)
    requires Runs(EMPTY, acts)
    ensures var jobs := After(EMPTY, acts).jobs;
            forall j :: j in jobs ==>
              && jobs[j].status != Running
              && (jobs[j].status == Pending ==> jobs[j].progress == 0)
              && (jobs[j].status == Completed ==> jobs[j].progress == 100 && jobs[j].result.Some?)
              && (jobs[j].status == Failed ==> jobs[j].error.Some? && |jobs[j].error.value| <= 1000)
  {
    RunKeepsInv(EMPTY, acts);
  }

  // ----- which jobs have ever run

  /** How often job `j` has been claimed, and so handed to a worker. */
  function Claims(acts: seq<Action>, j: JobId): nat {
    if acts == [] then 0
    else
      var last := acts[|acts| - 1];
      Claims(acts[..|acts| - 1], j) + if last.Claim? && last.job == j then 1 else 0
  }

  /** The step ends the transaction of a worker holding `j`. */
  predicate EndsWork(db: Db, t: TxId, j: JobId) {
    t in db.txs && db.txs[t].Working? && db.txs[t].id == j
  }

  /** How often a worker's transaction on job `j` has been rolled back. */
  ghost function RolledBack(db: Db, acts: seq<Action>, j: JobId): nat
    requires Runs(db, acts)
    decreases |acts|
  {
    if acts == [] then 0
    else
      var n := |acts| - 1;
      RolledBack(db, acts[..n], j)
      + if acts[n].Rollback? && EndsWork(After(db, acts[..n]), acts[n].tx, j) then 1 else 0
  }

  /** A worker holds the job. */
  ghost predicate Held(db: Db, j: JobId) {
    exists t :: EndsWork(db, t, j)
  }

  /** A claim takes a free job; only the holder's commit or rollback frees it. */
  lemma HeldAfterStep(db: Db, a: Action, j: JobId)
    requires Inv(db) && Enabled(db, a)
    ensures a.Claim? && a.job == j ==> !Held(db, j)
    ensures (a.Commit? || a.Rollback?) && EndsWork(db, a.tx, j) ==> Held(db, j)
    ensures Held(Step(db, a), j) <==>
              || (a.Claim? && a.job == j)
              || (Held(db, j) && !((a.Commit? || a.Rollback?) && EndsWork(db, a.tx, j)))
  {
    var db' := Step(db, a);
    if Held(db, j) {
      var t :| EndsWork(db, t, j);
      assert db.txs[t].Locks(j);
      if !((a.Commit? || a.Rollback?) && EndsWork(db, a.tx, j)) { assert EndsWork(db', t, j); }
    }
    if Held(db', j) {
      var t :| EndsWork(db', t, j);
      assert (a.Claim? && a.job == j) || EndsWork(db, t, j);
    }
    if a.Claim? && a.job == j { assert EndsWork(db', a.tx, j); }
  }

  /** Every claim of a job has ended in a commit or a rollback, or is the one still open. */
  lemma {:induction false} EveryClaimEnds(acts: seq<Action>, j: JobId)
    requires Runs(EMPTY, acts)
    ensures Claims(acts, j)
            == Effects(EMPTY, acts, j) + RolledBack(EMPTY, acts, j) + if Held(After(EMPTY, acts), j) then 1 else 0
    decreases |acts|
  {
    if acts != [] {
      var n := |acts| - 1;
      EveryClaimEnds(acts[..n], j);
      RunKeepsInv(EMPTY, acts[..n]);
      HeldAfterStep(After(EMPTY, acts[..n]), acts[n], j);
      hide Held, Inv, Step, Enabled;
    }
  }

  /** How often a job has run, over every interleaving: a finished job once more than it was rolled back, a
      cancelled one exactly as often, a pending one exactly as often unless it is running now. */
  lemma ClaimsByStatus(acts: seq<Action>, j: JobId)
    requires Runs(EMPTY, acts) && j in After(EMPTY, acts).jobs
    ensures var db := After(EMPTY, acts);
            var ended := db.jobs[j].status in {Completed, Failed};
            var runs := db.jobs[j].status == Pending && Held(db, j);
            Claims(acts, j) == RolledBack(EMPTY, acts, j) + if ended || runs then 1 else 0
  {
    EveryClaimEnds(acts, j);
    EffectsCommitOnce(acts, j);
    RunKeepsInv(EMPTY, acts);
    if Held(After(EMPTY, acts), j) { var t :| EndsWork(After(EMPTY, acts), t, j); }
  }

  /** A cancelled job never ran if and only if no worker's transaction on it was ever rolled back. */
  lemma CancelledNeverRanIff(acts: seq<Action>, j: JobId)
    requires Runs(EMPTY, acts)
    requires var db := After(EMPTY, acts); j in db.jobs && db.jobs[j].status == Cancelled
    ensures Claims(acts, j) == 0 <==> RolledBack(EMPTY, acts, j) == 0
  {
    ClaimsByStatus(acts, j);
  }

  /** Such a rollback can happen: here a cancelled job has been claimed and has saved a record.  What a
      successful cancel guarantees is the absence of effects, not that no code ran. */
  lemma CancelledJobMayHaveBeenExecuted()
    ensures exists acts: seq<Action> ::
              && Runs(EMPTY, acts)
              && Claim(1, 0) in acts && Save(1, "rsi") in acts
              && 0 in After(EMPTY, acts).jobs && After(EMPTY, acts).jobs[0].status == Cancelled
  {
    var a1 := Extend(EMPTY, [], Enqueue(0, "single", 0, 0));
    var a2 := Extend(EMPTY, a1, Commit(0));
    var db2 := After(EMPTY, a2);
    assert db2.txs == map[] && db2.jobs == map[0 := NewJob("single", 0, 0)];
    assert IsNext(db2, 0);
    var a3 := Extend(EMPTY, a2, Claim(1, 0));
    var a4 := Extend(EMPTY, a3, Save(1, "rsi"));
    var a5 := Extend(EMPTY, a4, Rollback(1));
    assert After(EMPTY, a5).txs == map[];
    var a6 := Extend(EMPTY, a5, Cancel(2, 0));
    var a7 := Extend(EMPTY, a6, Commit(2));
    assert a7[2] == Claim(1, 0) && a7[3] == Save(1, "rsi");
  }

  lemma Extend(db: Db, acts: seq<Action>, a: Action) returns (more: seq<Action>)
    requires Runs(db, acts) && Enabled(After(db, acts), a)
    ensures more == acts + [a] && Runs(db, more) && After(db, more) == Step(After(db, acts), a)
  {
    more := acts + [a];
    assert more[..|acts|] == acts;
  }
}
