/** The embedding outbox: transactions on facts, jobs and stored vectors, for one embedding spec. */
module EmbeddingJobs {
  import opened Prelude

  // The functions are the committed transactions on the tables as a value; the classes run them in
  // place. A job is keyed by its fact, as the unique (fact_id, document_identity) index makes it.

  type FactId = nat
  type Token = nat
  /** A hexadecimal content digest. */
  type Digest = string
  /** A stored vector, as the blob the writer encodes it to. */
  type Vector = seq<bv8>

  /** The content digest and the embedding model, as functions of the text they are given. */
  datatype Model = Model(digest: string -> Digest, embed: string -> Vector)

  datatype Fact = Fact(content: string, invalid: bool, superseded: bool, conflicted: bool) {
    predicate Active() {
      !invalid && !superseded && !conflicted
    }
  }

  datatype Status = Pending | Processing | Completed | DeadLetter

  datatype Job = Job(
    jobId: nat,
    digest: Digest,
    status: Status,
    attempts: nat,
    availableAt: real,
    leaseToken: Option<Token>,
    leaseExpiresAt: Option<real>)

  datatype Store = Store(facts: map<FactId, Fact>, jobs: map<FactId, Job>, vectors: map<FactId, Vector>, nextJob: nat) {
    predicate IsActive(f: FactId) {
      f in facts && facts[f].Active()
    }

    /** The job can still produce a vector. */
    predicate Viable(f: FactId) {
      f in jobs && (jobs[f].status == Pending || jobs[f].status == Processing)
    }

    predicate Leased(f: FactId, token: Token) {
      f in jobs && jobs[f].status == Processing && jobs[f].leaseToken == Some(token)
    }
  }

  datatype Config = Config(leaseSeconds: real, maxAttempts: nat) {
    predicate Valid() {
      leaseSeconds >= 1.0 && maxAttempts >= 1
    }
  }

  datatype Handle = Handle(fact: FactId, attempts: nat, token: Token)

  /** The digest and the vector a worker computed outside any transaction. */
  datatype Prepared = Prepared(handle: Handle, digest: Digest, vector: Vector)

  /** The job's lease is released and its status set. */
  function Released(job: Job, status: Status): Job {
    job.(status := status, leaseToken := None, leaseExpiresAt := None)
  }

  function Fresh(jobId: nat, digest: Digest, now: real): Job {
    Job(jobId, digest, Pending, 0, now, None, None)
  }

  /** The upsert shared by enqueue and backfill: insert a job, or restart a completed one. */
  function Queued(m: Model, st: Store, f: FactId, now: real): Store
    requires f in st.facts
  {
    var digest := m.digest(st.facts[f].content);
    if f !in st.jobs then st.(jobs := st.jobs[f := Fresh(st.nextJob, digest, now)], nextJob := st.nextJob + 1)
    else if st.jobs[f].status == Completed then st.(jobs := st.jobs[f := Fresh(st.jobs[f].jobId, digest, now)])
    else st
  }

  /** `enqueue_in_transaction`: a completed job restarts only when its vector is missing. */
  function Enqueued(m: Model, st: Store, f: FactId, now: real): Store
    requires f in st.facts
  {
    if f in st.jobs && st.jobs[f].status == Completed && f in st.vectors then st else Queued(m, st, f, now)
  }

  predicate Missing(st: Store, f: FactId) {
    st.IsActive(f) && f !in st.vectors
  }

  /** The health counts, and whether the index may be activated. */
  datatype Health = Health(pending: nat, processing: nat, completed: nat, deadLetter: nat, uncovered: nat,
    activationSafe: bool)

  function JobsWith(st: Store, status: Status): set<FactId> {
    set f | f in st.jobs && st.jobs[f].status == status
  }

  function Uncovered(st: Store): set<FactId> {
    set f | f in st.facts && Missing(st, f) && !st.Viable(f)
  }

  function HealthOf(st: Store): Health {
    Health(|JobsWith(st, Pending)|, |JobsWith(st, Processing)|, |JobsWith(st, Completed)|,
           |JobsWith(st, DeadLetter)|, |Uncovered(st)|,
           |Uncovered(st)| == 0 && |JobsWith(st, DeadLetter)| == 0)
  }

  predicate Expired(at: Option<real>, now: real) {
    at.None? || at.value <= now
  }

  predicate Exhausted(job: Job, now: real, cfg: Config) {
    && job.attempts >= cfg.maxAttempts
    && (job.status == Pending || (job.status == Processing && Expired(job.leaseExpiresAt, now)))
  }

  predicate Claimable(job: Job, now: real, cfg: Config) {
    && job.attempts < cfg.maxAttempts
    && ((job.status == Pending && job.availableAt <= now)
        || (job.status == Processing && job.leaseExpiresAt.Some? && job.leaseExpiresAt.value <= now))
  }

  function Sweep(st: Store, now: real, cfg: Config): Store {
    st.(jobs := map f | f in st.jobs ::
      if Exhausted(st.jobs[f], now, cfg) then Released(st.jobs[f], DeadLetter) else st.jobs[f])
  }

  /** The claimable job with the smallest job id. */
  function OldestDue(jobs: map<FactId, Job>, now: real, cfg: Config): (due: Option<FactId>)
    ensures due.None? ==> forall f :: f in jobs ==> !Claimable(jobs[f], now, cfg)
    ensures due.Some? ==>
      && due.value in jobs && Claimable(jobs[due.value], now, cfg)
      && forall f :: f in jobs && Claimable(jobs[f], now, cfg) ==> jobs[due.value].jobId <= jobs[f].jobId
  {
    var ids := set f | f in jobs && Claimable(jobs[f], now, cfg) :: jobs[f].jobId;
    if ids == {} then
      assert forall f :: f in jobs && Claimable(jobs[f], now, cfg) ==> jobs[f].jobId in ids;
      None
    else
      var owners := set f | f in jobs && Claimable(jobs[f], now, cfg) && jobs[f].jobId == Least(ids);
      assert owners != {} by {
        var f :| f in jobs && Claimable(jobs[f], now, cfg) && jobs[f].jobId == Least(ids);
        assert f in owners;
      }
      assert forall f :: f in jobs && Claimable(jobs[f], now, cfg) ==> jobs[f].jobId in ids;
      Some(Least(owners))
  }

  function Leased(job: Job, now: real, cfg: Config, token: Token): Job {
    job.(status := Processing, attempts := job.attempts + 1,
         leaseToken := Some(token), leaseExpiresAt := Some(now + cfg.leaseSeconds))
  }

  /** `claim`: bury exhausted jobs, then lease the oldest claimable one. */
  function Claim(st: Store, now: real, cfg: Config, token: Token): (Store, Option<Handle>) {
    var swept := Sweep(st, now, cfg);
    match OldestDue(swept.jobs, now, cfg)
    case None => (swept, None)
    case Some(f) =>
      var job := Leased(swept.jobs[f], now, cfg, token);
      (swept.(jobs := swept.jobs[f := job]), Some(Handle(f, job.attempts, token)))
  }

  /** The job waits for a worker: it has attempts left, its time has come, and nobody holds it any more. */
  ghost predicate Waits(job: Job, now: real, cfg: Config) {
    && job.status != Completed && job.status != DeadLetter && job.attempts < cfg.maxAttempts
    && (job.status == Pending ==> job.availableAt <= now)
    && (job.status == Processing ==> job.leaseExpiresAt.Some? && job.leaseExpiresAt.value <= now)
  }

  /** The job has no attempt left and nobody holds it. */
  ghost predicate Spent(job: Job, now: real, cfg: Config) {
    && job.status != Completed && job.status != DeadLetter && cfg.maxAttempts <= job.attempts
    && (job.status == Processing && job.leaseExpiresAt.Some? ==> job.leaseExpiresAt.value <= now)
  }

  /** What a claim leaves of a job that it does not take. */
  ghost predicate PassedOver(was: Job, job: Job, now: real, cfg: Config) {
    job == if Spent(was, now, cfg)
      then Job(was.jobId, was.digest, DeadLetter, was.attempts, was.availableAt, None, None)
           else was
  }

  /** What a claim leaves of the job that it takes. */
  ghost predicate Taken(was: Job, job: Job, now: real, cfg: Config, token: Token) {
    job == Job(was.jobId, was.digest, Processing, was.attempts + 1, was.availableAt, Some(token),
               Some(now + cfg.leaseSeconds))
  }

  /**
  A claim takes the job with the least id of those that wait, and none exactly when none waits. A job
  with no attempt left that nobody holds goes to the dead letters; every other job stays as it is.
  */
  lemma ClaimTakesOldestWaiting(st: Store, now: real, cfg: Config, token: Token)
    ensures var (after, h) := Claim(st, now, cfg, token);
      && after == st.(jobs := after.jobs) && after.jobs.Keys == st.jobs.Keys
      && (h.None? <==> forall f :: f in st.jobs ==> !Waits(st.jobs[f], now, cfg))
      && (forall f :: f in st.jobs && (h.Some? ==> f != h.value.fact) ==>
            PassedOver(st.jobs[f], after.jobs[f], now, cfg))
      && (h.Some? ==>
            var f := h.value.fact;
            && f in st.jobs && Waits(st.jobs[f], now, cfg)
            && Taken(st.jobs[f], after.jobs[f], now, cfg, token)
            && (forall g :: g in st.jobs && Waits(st.jobs[g], now, cfg) ==> st.jobs[f].jobId <= st.jobs[g].jobId)
            && h.value == Handle(f, st.jobs[f].attempts + 1, token))
  {
    var swept := Sweep(st, now, cfg).jobs;
    assert forall f :: f in swept ==>
      PassedOver(st.jobs[f], swept[f], now, cfg) && (Claimable(swept[f], now, cfg) <==> Waits(st.jobs[f], now, cfg));
    assert forall f :: f in st.jobs ==> f in swept;
  }

  /** `_settle_inactive`: skip an inactive fact, or requeue it if it became active meanwhile. */
  function Settled(m: Model, st: Store, h: Handle, now: real): Store {
    if !st.Leased(h.fact, h.token) then st
    else if st.IsActive(h.fact) then
      st.(jobs := st.jobs[h.fact := Released(st.jobs[h.fact], Pending)
            .(digest := m.digest(st.facts[h.fact].content), availableAt := now)])
    else st.(jobs := st.jobs[h.fact := Released(st.jobs[h.fact], Completed)])
  }

  datatype Outcome = LeaseLost | SkippedStale | RequeuedChanged | Embedded

  /** `_commit_prepared`: recheck the lease and the fact after the model call, then store. */
  function Committed(m: Model, st: Store, p: Prepared, now: real): (Store, Outcome) {
    var f := p.handle.fact;
    if !st.Leased(f, p.handle.token) then (st, LeaseLost)
    else if !st.IsActive(f) then (st.(jobs := st.jobs[f := Released(st.jobs[f], Completed)]), SkippedStale)
    else
      var actual := m.digest(st.facts[f].content);
      if actual != p.digest then
        (st.(jobs := st.jobs[f := Released(st.jobs[f], Pending).(digest := actual, availableAt := now)]),
          RequeuedChanged)
      else
        (st.(vectors := st.vectors[f := p.vector],
             jobs := st.jobs[f := Released(st.jobs[f], Completed).(digest := actual)]), Embedded)
  }

  function Backoff(attempts: nat): real {
    if Pow2(attempts) >= 300 then 300.0 else Pow2(attempts) as real
  }

  /** `_fail`: retry later, or dead-letter on the last attempt. */
  function Failed(st: Store, h: Handle, now: real, cfg: Config): Store {
    if !st.Leased(h.fact, h.token) then st
    else
      var status := if h.attempts >= cfg.maxAttempts then DeadLetter else Pending;
      st.(jobs := st.jobs[h.fact := Released(st.jobs[h.fact], status).(availableAt := now + Backoff(h.attempts))])
  }

  /** The placeholder content and the job digest an erasure leaves behind. */
  datatype Erasure = Erasure(placeholder: string, digest: Digest)

  /** The steps of `erase_fact` on facts, vectors and jobs: scrub, invalidate, drop the vector, fence the job. */
  function Erased(st: Store, f: FactId, e: Erasure): Store
    requires f in st.facts
  {
    st.(facts := st.facts[f := st.facts[f].(content := e.placeholder, invalid := true, conflicted := false)],
        vectors := st.vectors - {f},
        jobs := if f in st.jobs then st.jobs[f := Released(st.jobs[f], Completed).(digest := e.digest)] else st.jobs)
  }

  // ------------------------------------------------------------------
  // Backfill
  // ------------------------------------------------------------------

  /** What one job becomes when the facts of `done` are queued. */
  ghost predicate JobQueued(m: Model, before: Store, f: FactId, job: Job, done: set<FactId>, now: real) {
    if f in before.jobs && (f !in done || before.jobs[f].status != Completed)
    then job == before.jobs[f]
    else f in before.facts && job == Fresh(job.jobId, m.digest(before.facts[f].content), now)
  }

  /** The tables after the facts of `done` were queued, defined row by row and without reference to their order. */
  ghost predicate QueuedAll(m: Model, before: Store, after: Store, done: set<FactId>, now: real) {
    && after.facts == before.facts && after.vectors == before.vectors
    && after.jobs.Keys == before.jobs.Keys + done
    && (forall f :: f in after.jobs ==> JobQueued(m, before, f, after.jobs[f], done, now))
  }

  /** The facts that get a first job. */
  function NewFacts(before: Store, done: set<FactId>): set<FactId> {
    set f | f in done && f !in before.jobs
  }

  /** The facts whose job was inserted or restarted. */
  function Restarted(before: Store, done: set<FactId>): set<FactId> {
    set f | f in done && (f !in before.jobs || before.jobs[f].status == Completed)
  }

  ghost predicate KeepsId(before: Store, after: Store, f: FactId) {
    f in before.jobs && f in after.jobs ==> after.jobs[f].jobId == before.jobs[f].jobId
  }

  ghost predicate HasNewId(before: Store, after: Store, f: FactId) {
    f in after.jobs && before.nextJob <= after.jobs[f].jobId < after.nextJob
  }

  ghost predicate NumberedBefore(after: Store, f: FactId, g: FactId) {
    f in after.jobs && g in after.jobs && after.jobs[f].jobId < after.jobs[g].jobId
  }

  /** Old jobs keep their ids; new ones are numbered in the order of their facts, from the first free id. */
  ghost predicate Numbered(before: Store, after: Store, done: set<FactId>) {
    && after.nextJob == before.nextJob + |NewFacts(before, done)|
    && (forall f {:trigger KeepsId(before, after, f)} :: KeepsId(before, after, f))
    && (forall f {:trigger HasNewId(before, after, f)} :: f in NewFacts(before, done) ==> HasNewId(before, after, f))
    && (forall f, g {:trigger NumberedBefore(after, f, g)} ::
          f in NewFacts(before, done) && g in NewFacts(before, done) && f < g ==> NumberedBefore(after, f, g))
  }

  lemma NewFactsOneMore(before: Store, done: set<FactId>, f: FactId)
    requires f !in done
    ensures NewFacts(before, done + {f}) == NewFacts(before, done) + if f in before.jobs then {} else {f}
    ensures |NewFacts(before, done + {f})| == |NewFacts(before, done)| + if f in before.jobs then 0 else 1
  {
    assert NewFacts(before, done + {f}) == NewFacts(before, done) + if f in before.jobs then {} else {f};
  }

  /** A job for `f` was made sure of: old ids stay, a new job takes the next one. */
  ghost predicate OneMoreJob(st: Store, after: Store, f: FactId) {
    && after.jobs.Keys == st.jobs.Keys + {f}
    && (forall g {:trigger KeepsId(st, after, g)} :: KeepsId(st, after, g))
    && after.nextJob == st.nextJob + (if f in st.jobs then 0 else 1)
    && (f !in st.jobs ==> after.jobs[f].jobId == st.nextJob)
  }

  lemma QueuedIsOneMoreJob(m: Model, st: Store, f: FactId, now: real)
    requires f in st.facts
    ensures OneMoreJob(st, Queued(m, st, f, now), f)
  {
  }

  lemma NumberedOneMore(before: Store, st: Store, after: Store, done: set<FactId>, f: FactId)
    requires f !in done && (forall g :: g in done ==> g < f)
    requires Numbered(before, st, done) && st.jobs.Keys == before.jobs.Keys + done && OneMoreJob(st, after, f)
    ensures Numbered(before, after, done + {f})
  {
    NewFactsOneMore(before, done, f);
    forall g ensures KeepsId(before, after, g) {
      assert KeepsId(before, st, g) && KeepsId(st, after, g);
    }
    forall g | g in NewFacts(before, done + {f}) ensures HasNewId(before, after, g) {
      assert g != f ==> HasNewId(before, st, g) && KeepsId(st, after, g);
    }
    forall g, h | g in NewFacts(before, done + {f}) && h in NewFacts(before, done + {f}) && g < h
      ensures NumberedBefore(after, g, h) {
      assert HasNewId(before, st, g) && KeepsId(st, after, g) && KeepsId(st, after, h);
      assert h != f ==> NumberedBefore(st, g, h);
    }
  }

  lemma RestartedOneMore(before: Store, done: set<FactId>, f: FactId)
    requires f !in done
    ensures var anew := f !in before.jobs || before.jobs[f].status == Completed;
      |Restarted(before, done + {f})| == |Restarted(before, done)| + if anew then 1 else 0
  {
    var anew := f !in before.jobs || before.jobs[f].status == Completed;
    assert Restarted(before, done + {f}) == Restarted(before, done) + if anew then {f} else {};
  }

  function MissingFacts(st: Store): set<FactId> {
    set f | f in st.facts && Missing(st, f)
  }

  /** After a backfill every active fact is covered, from whatever state it started; dead letters stay dead. */
  lemma BackfillCovers(m: Model, before: Store, after: Store, now: real, f: FactId)
    requires QueuedAll(m, before, after, MissingFacts(before), now)
    ensures after.IsActive(f) ==> f in after.vectors || (f in after.jobs && after.jobs[f].status != Completed)
    ensures f in before.jobs && before.jobs[f].status == DeadLetter ==>
      f in after.jobs && after.jobs[f] == before.jobs[f]
  {
    assert after.IsActive(f) && f !in after.vectors ==> f in MissingFacts(before);
  }

  /** The loop's state when the facts of `rows` are still to come. */
  ghost predicate Backfilling(m: Model, before: Store, st: Store, changed: nat, all: set<FactId>, rows: set<FactId>,
                              now: real)
  {
    && rows <= all && (forall f, g :: f in all - rows && g in rows ==> f < g)
    && QueuedAll(m, before, st, all - rows, now) && Numbered(before, st, all - rows)
    && changed == |Restarted(before, all - rows)|
  }

  lemma BackfillStep(m: Model, before: Store, st: Store, changed: nat, rows: set<FactId>, f: FactId, now: real)
    requires Backfilling(m, before, st, changed, MissingFacts(before), rows, now)
    requires f in rows && forall g :: g in rows ==> f <= g
    ensures f in st.facts
    ensures var anew := f !in st.jobs || st.jobs[f].status == Completed;
      Backfilling(m, before, Queued(m, st, f, now), changed + (if anew then 1 else 0), MissingFacts(before), rows - {f},
        now)
  {
    var all := MissingFacts(before);
    var done := all - rows;
    assert done + {f} == all - (rows - {f});
    QueuedIsOneMoreJob(m, st, f, now);
    NumberedOneMore(before, st, Queued(m, st, f, now), done, f);
    RestartedOneMore(before, done, f);
    assert f in st.jobs ==> JobQueued(m, before, f, st.jobs[f], done, now);
  }

  /** The loop of the backfill transaction over the active facts without a vector, in the order of their ids. */
  method QueueMissing(m: Model, before: Store, now: real) returns (st: Store, changed: nat)
    ensures QueuedAll(m, before, st, MissingFacts(before), now) && Numbered(before, st, MissingFacts(before))
    ensures changed == |Restarted(before, MissingFacts(before))|
  {
    st, changed := before, 0;
    var rows := set f | f in before.facts && !before.facts[f].invalid && !before.facts[f].superseded
                        && !before.facts[f].conflicted && f !in before.vectors;
    assert rows == MissingFacts(before);
    while rows != {}
      invariant Backfilling(m, before, st, changed, MissingFacts(before), rows, now)
      decreases rows
    {
      var f := Least(rows);
      BackfillStep(m, before, st, changed, rows, f, now);
      if f !in st.jobs || st.jobs[f].status == Completed {
        changed := changed + 1;
      }
      st := Queued(m, st, f, now);
      rows := rows - {f};
    }
    assert MissingFacts(before) - rows == MissingFacts(before);
  }

  class EmbeddingOutbox {
    const model: Model
    var st: Store

    constructor (model: Model, st: Store)
      ensures this.model == model && this.st == st
    {
      this.model, this.st := model, st;
    }

    /** None is the error for a missing fact. */
    method EnqueueInTransaction(f: FactId, now: real) returns (jobId: Option<nat>)
      modifies this`st
      ensures jobId.Some? <==> f in old(st).facts
      ensures jobId.None? ==> st == old(st)
      ensures jobId.Some? ==> st == Enqueued(model, old(st), f, now) && f in st.jobs && st.jobs[f].jobId == jobId.value
    {
      if f !in st.facts {
        return None;
      }
      var digest := model.digest(st.facts[f].content);
      if f !in st.jobs {
        st := st.(jobs := st.jobs[f := Job(st.nextJob, digest, Pending, 0, now, None, None)],
          nextJob := st.nextJob + 1);
      } else if st.jobs[f].status == Completed && f !in st.vectors {
        st := st.(jobs := st.jobs[f := Job(st.jobs[f].jobId, digest, Pending, 0, now, None, None)]);
      }
      jobId := Some(st.jobs[f].jobId);
    }

    /** `enqueue_backfill`, one transaction; returns how many jobs were inserted or restarted. */
    method EnqueueBackfill(now: real) returns (changed: nat)
      modifies this`st
      ensures QueuedAll(model, old(st), st, MissingFacts(old(st)), now) && Numbered(old(st), st, MissingFacts(old(st)))
      ensures changed == |Restarted(old(st), MissingFacts(old(st)))|
    {
      var after;
      after, changed := QueueMissing(model, st, now);
      st := after;
    }

    /** `health`: activation is safe exactly when no job is dead and no active fact is uncovered. */
    method ReportHealth() returns (h: Health)
      ensures h == HealthOf(st)
      ensures h.pending == |set f | f in st.jobs && st.jobs[f].status == Pending|
      ensures h.processing == |set f | f in st.jobs && st.jobs[f].status == Processing|
      ensures h.completed == |set f | f in st.jobs && st.jobs[f].status == Completed|
      ensures h.deadLetter == |set f | f in st.jobs && st.jobs[f].status == DeadLetter|
      ensures h.uncovered == |set f | f in st.facts && !st.facts[f].invalid && !st.facts[f].superseded
                                      && !st.facts[f].conflicted && f !in st.vectors
                                      && (f in st.jobs ==> st.jobs[f].status in {Completed, DeadLetter})|
      ensures h.activationSafe <==>
        && (forall f :: st.IsActive(f) ==> f in st.vectors || st.Viable(f))
        && (forall f :: f in st.jobs ==> st.jobs[f].status != DeadLetter)
    {
      h := HealthOf(st);
      forall status ensures JobsWith(st, status) == set f | f in st.jobs && st.jobs[f].status == status {
      }
      assert Uncovered(st) == set f | f in st.facts && !st.facts[f].invalid && !st.facts[f].superseded
                                      && !st.facts[f].conflicted && f !in st.vectors
                                      && (f in st.jobs ==> st.jobs[f].status in {Completed, DeadLetter});
      assert h.uncovered == 0 <==> Uncovered(st) == {};
      assert forall f :: st.IsActive(f) && f !in st.vectors && !st.Viable(f) ==> f in Uncovered(st);
      assert forall f :: f in st.jobs && st.jobs[f].status == DeadLetter ==> f in JobsWith(st, DeadLetter);
    }
  }

  class EmbeddingJobProcessor {
    const cfg: Config
    const outbox: EmbeddingOutbox

    constructor (cfg: Config, outbox: EmbeddingOutbox)
      requires cfg.Valid()
      ensures this.cfg == cfg && this.outbox == outbox
    {
      this.cfg, this.outbox := cfg, outbox;
    }

    method ClaimJob(now: real, token: Token) returns (job: Option<Handle>)
      modifies outbox`st
      ensures (outbox.st, job) == Claim(old(outbox.st), now, cfg, token)
      ensures job.None? <==> forall f :: f in old(outbox.st).jobs ==> !Waits(old(outbox.st).jobs[f], now, cfg)
      ensures job.Some? ==>
        var jobs, f := old(outbox.st).jobs, job.value.fact;
        && f in jobs && Waits(jobs[f], now, cfg) && Taken(jobs[f], outbox.st.jobs[f], now, cfg, token)
        && forall g :: g in jobs && Waits(jobs[g], now, cfg) ==> jobs[f].jobId <= jobs[g].jobId
    {
      ClaimTakesOldestWaiting(outbox.st, now, cfg, token);
      var jobs := map f | f in outbox.st.jobs ::
        if Exhausted(outbox.st.jobs[f], now, cfg) then Released(outbox.st.jobs[f], DeadLetter) else outbox.st.jobs[f];
      outbox.st := outbox.st.(jobs := jobs);
      var due := OldestDue(jobs, now, cfg);
      if due.None? {
        return None;
      }
      var f := due.value;
      var attempts := jobs[f].attempts + 1;
      outbox.st := outbox.st.(jobs := jobs[f := jobs[f].(status := Processing, attempts := attempts,
                                leaseToken := Some(token), leaseExpiresAt := Some(now + cfg.leaseSeconds))]);
      job := Some(Handle(f, attempts, token));
    }

    method SettleInactive(h: Handle, now: real) returns (kept: bool)
      modifies outbox`st
      ensures outbox.st == Settled(outbox.model, old(outbox.st), h, now)
      ensures kept <==> old(outbox.st).Leased(h.fact, h.token)
    {
      var st := outbox.st;
      kept := h.fact in st.jobs && st.jobs[h.fact].status == Processing && st.jobs[h.fact].leaseToken == Some(h.token);
      if kept {
        var job := st.jobs[h.fact].(status := Completed, leaseToken := None, leaseExpiresAt := None);
        if st.IsActive(h.fact) {
          job := job.(status := Pending, digest := outbox.model.digest(st.facts[h.fact].content), availableAt := now);
        }
        outbox.st := st.(jobs := st.jobs[h.fact := job]);
      }
    }

    method CommitPrepared(p: Prepared, now: real) returns (outcome: Outcome)
      modifies outbox`st
      ensures (outbox.st, outcome) == Committed(outbox.model, old(outbox.st), p, now)
    {
      var st, f := outbox.st, p.handle.fact;
      if !st.Leased(f, p.handle.token) {
        return LeaseLost;
      }
      var job := st.jobs[f].(status := Completed, leaseToken := None, leaseExpiresAt := None);
      if f !in st.facts || st.facts[f].invalid || st.facts[f].superseded || st.facts[f].conflicted {
        outbox.st := st.(jobs := st.jobs[f := job]);
        return SkippedStale;
      }
      var actual := outbox.model.digest(st.facts[f].content);
      if actual != p.digest {
        outbox.st := st.(jobs := st.jobs[f := job.(status := Pending, digest := actual, availableAt := now)]);
        return RequeuedChanged;
      }
      outbox.st := st.(vectors := st.vectors[f := p.vector], jobs := st.jobs[f := job.(digest := actual)]);
      return Embedded;
    }

    method Fail(h: Handle, now: real) returns (kept: bool)
      modifies outbox`st
      ensures outbox.st == Failed(old(outbox.st), h, now, cfg)
      ensures kept <==> old(outbox.st).Leased(h.fact, h.token)
    {
      var st := outbox.st;
      kept := st.Leased(h.fact, h.token);
      if kept {
        var status := if h.attempts >= cfg.maxAttempts then DeadLetter else Pending;
        var delay := if Pow2(h.attempts) <= 300 then Pow2(h.attempts) else 300;
        outbox.st := st.(jobs := st.jobs[h.fact := st.jobs[h.fact].(status := status,
          availableAt := now + delay as real,
                                                                    leaseToken := None, leaseExpiresAt := None)]);
      }
    }

    /**
    `process_one` with no other writer: one call settles, embeds or fails the job it claimed, and
    says which. None means nothing was due; `works` says whether the model call succeeds.
    */
    method ProcessOne(now: real, token: Token, works: bool) returns (job: Option<Handle>, outcome: string)
      modifies outbox`st
      ensures job == Claim(old(outbox.st), now, cfg, token).1
      ensures job.None? ==> outbox.st == Claim(old(outbox.st), now, cfg, token).0
      ensures job.Some? ==>
        var claimed, f := Claim(old(outbox.st), now, cfg, token).0, job.value.fact;
        && f in claimed.jobs && f in outbox.st.jobs
        && outbox.st == claimed.(vectors := outbox.st.vectors, jobs := claimed.jobs[f := outbox.st.jobs[f]])
        && (outbox.st.IsActive(f) && works ==>
              && outcome == "embedded"
              && outbox.st.vectors == old(outbox.st).vectors[f := outbox.model.embed(outbox.st.facts[f].content)]
              && outbox.st.jobs[f] ==
                 Released(claimed.jobs[f], Completed).(digest := outbox.model.digest(outbox.st.facts[f].content)))
        && (outbox.st.IsActive(f) && !works ==>
              && var dead := claimed.jobs[f].attempts >= cfg.maxAttempts;
              && outcome == (if dead then "dead_letter" else "pending")
              && outbox.st.vectors == old(outbox.st).vectors
              && outbox.st.jobs[f] == Released(claimed.jobs[f], if dead then DeadLetter else Pending)
                   .(availableAt := now + Backoff(claimed.jobs[f].attempts)))
        && (!outbox.st.IsActive(f) ==>
              && outcome == "skipped_inactive"
              && outbox.st.vectors == old(outbox.st).vectors
              && outbox.st.jobs[f] == Released(claimed.jobs[f], Completed))
    {
      job := ClaimJob(now, token);
      outcome := "";
      if job.None? {
        return;
      }
      var h := job.value;
      var kept;
      if !outbox.st.IsActive(h.fact) {
        kept := SettleInactive(h, now);
        return job, "skipped_inactive";
      }
      var content := outbox.st.facts[h.fact].content;
      if !works {
        kept := Fail(h, now);
        return job, if h.attempts >= cfg.maxAttempts then "dead_letter" else "pending";
      }
      var committed := CommitPrepared(Prepared(h, outbox.model.digest(content), outbox.model.embed(content)), now);
      return job, "embedded";
    }
  }

  /** The transaction of `erase_fact`; false is the error for a missing fact. */
  method EraseFact(outbox: EmbeddingOutbox, f: FactId, e: Erasure) returns (erased: bool)
    modifies outbox`st
    ensures erased <==> f in old(outbox.st).facts
    ensures erased ==> outbox.st == Erased(old(outbox.st), f, e)
    ensures !erased ==> outbox.st == old(outbox.st)
  {
    var st := outbox.st;
    erased := f in st.facts;
    if erased {
      st := st.(facts := st.facts[f := st.facts[f].(content := e.placeholder, invalid := true, conflicted := false)]);
      st := st.(vectors := st.vectors - {f});
      if f in st.jobs {
        st := st.(jobs := st.jobs[f := Released(st.jobs[f], Completed).(digest := e.digest)]);
      }
      outbox.st := st;
    }
  }
}
