/** Any number of embedding workers beside arbitrary fact traffic. */
module EmbeddingProtocol {
  import opened Prelude
  import opened EmbeddingJobs

  // The model call happens outside any transaction: between a worker's read of a fact and its commit,
  // every other step may run. Workers may use any handle and any prepared vector they ever had.

  datatype Sys = Sys(
    st: Store,
    issued: set<Token>,
    handles: set<Handle>,
    prepared: set<Prepared>,
    erased: set<FactId>)

  datatype Step =
    /** Any write to one fact; making it active enqueues it in the same transaction. */
    | ChangeFact(f: FactId, fact: Fact, now: real)
    /** A merge deletes a fact with its job and its vector. */
    | RemoveFact(f: FactId)
    | Backfill(after: Store, now: real)
    | Erase(f: FactId, erasure: Erasure)
    | DoClaim(now: real, token: Token)
    | ReadAndEmbed(h: Handle)
    | Settle(h: Handle, now: real)
    | Commit(p: Prepared, now: real)
    | DoFail(h: Handle, now: real)

  function Initial(): Sys {
    Sys(Store(map[], map[], map[], 0), {}, {}, {}, {})
  }

  function Actor(step: Step): Option<Handle> {
    match step
    case ReadAndEmbed(h) => Some(h)
    case Settle(h, _) => Some(h)
    case Commit(p, _) => Some(p.handle)
    case DoFail(h, _) => Some(h)
    case _ => None
  }

  /** Tokens are fresh, workers use what they were given, and nobody makes an erased fact active again. */
  ghost predicate Enabled(m: Model, s: Sys, step: Step) {
    && (Actor(step).Some? ==> Actor(step).value in s.handles)
    && match step
       case ChangeFact(f, fact, _) => f in s.erased ==> !fact.Active()
       case Backfill(after, now) => QueuedAll(m, s.st, after, MissingFacts(s.st), now)
       case Erase(f, _) => f in s.st.facts
       case DoClaim(_, token) => token !in s.issued
       case Commit(p, _) => p in s.prepared
       case _ => true
  }

  function Changed(m: Model, st: Store, f: FactId, fact: Fact, now: real): Store {
    var written := st.(facts := st.facts[f := fact]);
    if fact.Active() && !st.IsActive(f) then Enqueued(m, written, f, now) else written
  }

  function Apply(m: Model, cfg: Config, s: Sys, step: Step): Sys
    requires step.Erase? ==> step.f in s.st.facts
  {
    match step
    case ChangeFact(f, fact, now) => s.(st := Changed(m, s.st, f, fact, now))
    case RemoveFact(f) =>
      s.(st := s.st.(facts := s.st.facts - {f}, jobs := s.st.jobs - {f}, vectors := s.st.vectors - {f}))
    case Backfill(after, _) => s.(st := after)
    case Erase(f, e) => s.(st := Erased(s.st, f, e), erased := s.erased + {f})
    case DoClaim(now, token) =>
      var (st, claimed) := Claim(s.st, now, cfg, token);
      s.(st := st, issued := s.issued + {token},
         handles := s.handles + if claimed.Some? then {claimed.value} else {})
    case ReadAndEmbed(h) =>
      if s.st.IsActive(h.fact) then
        var content := s.st.facts[h.fact].content;
        s.(prepared := s.prepared + {Prepared(h, m.digest(content), m.embed(content))})
      else s
    case Settle(h, now) => s.(st := Settled(m, s.st, h, now))
    case Commit(p, now) => s.(st := Committed(m, s.st, p, now).0)
    case DoFail(h, now) => s.(st := Failed(s.st, h, now, cfg))
  }

  ghost predicate Run(m: Model, cfg: Config, s: Sys, steps: seq<Step>)
    decreases |steps|
  {
    steps == [] || (Enabled(m, s, steps[0]) && Run(m, cfg, Apply(m, cfg, s, steps[0]), steps[1..]))
  }

  ghost function After(m: Model, cfg: Config, s: Sys, steps: seq<Step>): Sys
    requires Run(m, cfg, s, steps)
    decreases |steps|
  {
    if steps == [] then s else After(m, cfg, Apply(m, cfg, s, steps[0]), steps[1..])
  }

  // ------------------------------------------------------------------
  // What every step keeps
  // ------------------------------------------------------------------

  /** An active fact has a vector, or a job that can still produce one, or a dead letter that says why not. */
  ghost predicate Covered(st: Store) {
    forall f :: st.IsActive(f) ==> f in st.vectors || (f in st.jobs && st.jobs[f].status != Completed)
  }

  ghost predicate TokensOk(s: Sys) {
    && (forall f, t :: f in s.st.jobs && s.st.jobs[f].leaseToken == Some(t) ==> t in s.issued)
    && (forall h :: h in s.handles ==> h.token in s.issued)
  }

  /** A prepared vector is the embedding of the text whose digest was taken. */
  ghost predicate PreparedOk(m: Model, s: Sys) {
    forall p :: p in s.prepared ==> exists content :: p.digest == m.digest(content) && p.vector == m.embed(content)
  }

  ghost predicate ErasedOk(s: Sys) {
    forall f :: f in s.erased ==> !s.st.IsActive(f) && f !in s.st.vectors
  }

  ghost predicate Inv(m: Model, s: Sys) {
    Covered(s.st) && TokensOk(s) && PreparedOk(m, s) && ErasedOk(s)
  }

  lemma ClaimEffect(st: Store, now: real, cfg: Config, token: Token, f: FactId)
    ensures var (after, claimed) := Claim(st, now, cfg, token);
      && after.facts == st.facts && after.vectors == st.vectors && after.jobs.Keys == st.jobs.Keys
      && (claimed.Some? ==> claimed.value.token == token)
      && (f in st.jobs ==>
            || after.jobs[f] == st.jobs[f]
            || (after.jobs[f] == Released(st.jobs[f], DeadLetter) && st.jobs[f].status != Completed)
            || (after.jobs[f] == Leased(st.jobs[f], now, cfg, token) && st.jobs[f].status != Completed
                && claimed == Some(Handle(f, after.jobs[f].attempts, token))))
  {
  }

  lemma ClaimKeepsInv(m: Model, cfg: Config, s: Sys, now: real, token: Token)
    requires Inv(m, s)
    ensures Inv(m, Apply(m, cfg, s, DoClaim(now, token)))
  {
    var t := Apply(m, cfg, s, DoClaim(now, token));
    forall f ensures f in t.st.jobs ==>
      && f in s.st.jobs
      && (t.st.jobs[f].leaseToken.Some? ==> t.st.jobs[f].leaseToken.value in t.issued)
      && (s.st.jobs[f].status != Completed ==> t.st.jobs[f].status != Completed)
    {
      ClaimEffect(s.st, now, cfg, token, f);
    }
    ClaimEffect(s.st, now, cfg, token, 0);
    forall f | t.st.IsActive(f) ensures f in t.st.vectors || (f in t.st.jobs && t.st.jobs[f].status != Completed) {
      assert s.st.IsActive(f);
    }
    forall f | f in t.erased ensures !t.st.IsActive(f) && f !in t.st.vectors {
      assert !s.st.IsActive(f);
    }
  }

  lemma BackfillKeepsInv(m: Model, cfg: Config, s: Sys, after: Store, now: real)
    requires Inv(m, s) && QueuedAll(m, s.st, after, MissingFacts(s.st), now)
    ensures Inv(m, s.(st := after))
  {
    forall f | after.IsActive(f) ensures f in after.vectors || (f in after.jobs && after.jobs[f].status != Completed) {
      BackfillCovers(m, s.st, after, now, f);
    }
    forall f | f in s.erased ensures !after.IsActive(f) && f !in after.vectors {
      assert !s.st.IsActive(f);
    }
    forall f, t | f in after.jobs && after.jobs[f].leaseToken == Some(t) ensures t in s.issued {
      assert JobQueued(m, s.st, f, after.jobs[f], MissingFacts(s.st), now);
    }
  }

  /** A transaction on one fact keeps the invariant when that fact stays covered. */
  lemma OneFactKeepsInv(m: Model, s: Sys, st: Store, f: FactId)
    requires Inv(m, s)
    requires forall g :: g != f ==>
      && (g in st.facts <==> g in s.st.facts) && (g in st.jobs <==> g in s.st.jobs)
      && (g in st.vectors <==> g in s.st.vectors)
      && (g in st.facts ==> st.facts[g] == s.st.facts[g]) && (g in st.jobs ==> st.jobs[g] == s.st.jobs[g])
    requires st.IsActive(f) ==> f in st.vectors || (f in st.jobs && st.jobs[f].status != Completed)
    requires f in st.jobs && st.jobs[f].leaseToken.Some? ==>
      f in s.st.jobs && st.jobs[f].leaseToken == s.st.jobs[f].leaseToken
    requires f in s.erased ==> !st.IsActive(f) && f !in st.vectors
    ensures Inv(m, s.(st := st))
  {
    forall g | g != f ensures st.IsActive(g) <==> s.st.IsActive(g) {
    }
  }

  lemma FactTrafficKeepsInv(m: Model, cfg: Config, s: Sys, step: Step)
    requires Inv(m, s) && Enabled(m, s, step) && (step.ChangeFact? || step.RemoveFact?)
    ensures Inv(m, Apply(m, cfg, s, step))
  {
    OneFactKeepsInv(m, s, Apply(m, cfg, s, step).st, step.f);
  }

  lemma EraseKeepsInv(m: Model, cfg: Config, s: Sys, f: FactId, e: Erasure)
    requires Inv(m, s) && f in s.st.facts
    ensures Inv(m, Apply(m, cfg, s, Erase(f, e)))
  {
    OneFactKeepsInv(m, s, Erased(s.st, f, e), f);
  }

  lemma WorkerKeepsInv(m: Model, cfg: Config, s: Sys, step: Step)
    requires Inv(m, s) && Enabled(m, s, step) && Actor(step).Some?
    ensures Inv(m, Apply(m, cfg, s, step))
  {
    if !step.ReadAndEmbed? {
      OneFactKeepsInv(m, s, Apply(m, cfg, s, step).st, Actor(step).value.fact);
    }
  }

  lemma StepKeepsInv(m: Model, cfg: Config, s: Sys, step: Step)
    requires Inv(m, s) && Enabled(m, s, step)
    ensures Inv(m, Apply(m, cfg, s, step))
  {
    match step
    case DoClaim(now, token) => ClaimKeepsInv(m, cfg, s, now, token);
    case Backfill(after, now) => BackfillKeepsInv(m, cfg, s, after, now);
    case ChangeFact(_, _, _) => FactTrafficKeepsInv(m, cfg, s, step);
    case RemoveFact(_) => FactTrafficKeepsInv(m, cfg, s, step);
    case Erase(f, e) => EraseKeepsInv(m, cfg, s, f, e);
    case _ => WorkerKeepsInv(m, cfg, s, step);
  }

  lemma {:induction false} RunKeepsInv(m: Model, cfg: Config, s: Sys, steps: seq<Step>)
    requires Inv(m, s) && Run(m, cfg, s, steps)
    ensures Inv(m, After(m, cfg, s, steps))
    decreases |steps|
  {
    if steps != [] {
      StepKeepsInv(m, cfg, s, steps[0]);
      RunKeepsInv(m, cfg, Apply(m, cfg, s, steps[0]), steps[1..]);
    }
  }

  // ------------------------------------------------------------------
  // Coverage is never lost
  // ------------------------------------------------------------------

  /** In every reachable state each active fact has a vector, a viable job, or a dead letter. */
  lemma ActiveFactsStayCovered(m: Model, cfg: Config, steps: seq<Step>)
    requires Run(m, cfg, Initial(), steps)
    ensures Covered(After(m, cfg, Initial(), steps).st)
  {
    RunKeepsInv(m, cfg, Initial(), steps);
  }

  /** In every reachable state, activation is unsafe for one reason only: a job was dead-lettered. */
  lemma OnlyDeadLettersBlockActivation(m: Model, cfg: Config, steps: seq<Step>)
    requires Run(m, cfg, Initial(), steps)
    ensures var st := After(m, cfg, Initial(), steps).st;
      HealthOf(st).activationSafe <==> forall f :: f in st.jobs ==> st.jobs[f].status != DeadLetter
  {
    RunKeepsInv(m, cfg, Initial(), steps);
    var st := After(m, cfg, Initial(), steps).st;
    if forall f :: f in st.jobs ==> st.jobs[f].status != DeadLetter {
      assert JobsWith(st, DeadLetter) == {};
      assert Uncovered(st) == {};
    }
    forall f | f in st.jobs && st.jobs[f].status == DeadLetter ensures f in JobsWith(st, DeadLetter) {
    }
  }

  // ------------------------------------------------------------------
  // No live job is left waiting
  // ------------------------------------------------------------------

  /** Every lease has an end. */
  ghost predicate LeasesEnd(st: Store) {
    forall f :: f in st.jobs && st.jobs[f].status == Processing ==> st.jobs[f].leaseExpiresAt.Some?
  }

  lemma StepKeepsLeasesEnd(m: Model, cfg: Config, s: Sys, step: Step)
    requires LeasesEnd(s.st) && Enabled(m, s, step)
    ensures LeasesEnd(Apply(m, cfg, s, step).st)
  {
    if step.DoClaim? {
      ClaimTakesOldestWaiting(s.st, step.now, cfg, step.token);
    }
    if step.Backfill? {
      forall f | f in step.after.jobs && step.after.jobs[f].status == Processing
        ensures step.after.jobs[f].leaseExpiresAt.Some?
      {
        assert JobQueued(m, s.st, f, step.after.jobs[f], MissingFacts(s.st), step.now);
      }
    }
  }

  lemma {:induction false} LeasesAlwaysEnd(m: Model, cfg: Config, s: Sys, steps: seq<Step>)
    requires LeasesEnd(s.st) && Run(m, cfg, s, steps)
    ensures LeasesEnd(After(m, cfg, s, steps).st)
    decreases |steps|
  {
    if steps != [] {
      StepKeepsLeasesEnd(m, cfg, s, steps[0]);
      LeasesAlwaysEnd(m, cfg, Apply(m, cfg, s, steps[0]), steps[1..]);
    }
  }

  /** All steps are claims at one moment. */
  predicate ClaimsAt(steps: seq<Step>, now: real) {
    forall i :: 0 <= i < |steps| ==> steps[i].DoClaim? && steps[i].now == now
  }

  ghost function WaitingJobs(st: Store, now: real, cfg: Config): set<FactId> {
    set f | f in st.jobs && Waits(st.jobs[f], now, cfg)
  }

  /** The job was taken at `now`, one attempt more, or buried without one left. */
  ghost predicate Served(was: Job, job: Job, now: real, cfg: Config) {
    || (job.status == Processing && job.attempts == was.attempts + 1
        && job.leaseExpiresAt == Some(now + cfg.leaseSeconds))
    || (job.status == DeadLetter && cfg.maxAttempts <= job.attempts == was.attempts)
  }

  lemma ClaimPassesOver(cfg: Config, st: Store, now: real, token: Token, f: FactId)
    requires cfg.Valid() && f in st.jobs
    ensures var (after, h) := Claim(st, now, cfg, token);
      && after.jobs.Keys == st.jobs.Keys
      && (h.Some? ==> h.value.fact in st.jobs && Waits(st.jobs[h.value.fact], now, cfg))
      && (h.None? ==> !Waits(st.jobs[f], now, cfg))
      && (h.Some? && h.value.fact == f ==>
            Served(st.jobs[f], after.jobs[f], now, cfg) && !Waits(after.jobs[f], now, cfg))
      && ((h.Some? ==> h.value.fact != f) ==>
            && (after.jobs[f] == st.jobs[f] || Served(st.jobs[f], after.jobs[f], now, cfg))
            && (Waits(after.jobs[f], now, cfg) <==> Waits(st.jobs[f], now, cfg))
            && (Waits(st.jobs[f], now, cfg) ==> after.jobs[f] == st.jobs[f])
            && (Spent(st.jobs[f], now, cfg) ==> Served(st.jobs[f], after.jobs[f], now, cfg)))
  {
    ClaimTakesOldestWaiting(st, now, cfg, token);
  }

  /** A served job is left alone by every further claim at that moment. */
  lemma {:induction false} ServedStaysServed(m: Model, cfg: Config, s: Sys, claims: seq<Step>, was: Job, f: FactId,
                                             now: real)
    requires cfg.Valid() && Run(m, cfg, s, claims) && ClaimsAt(claims, now)
    requires f in s.st.jobs && Served(was, s.st.jobs[f], now, cfg)
    ensures f in After(m, cfg, s, claims).st.jobs && Served(was, After(m, cfg, s, claims).st.jobs[f], now, cfg)
    decreases |claims|
  {
    if claims != [] {
      ClaimTakesOldestWaiting(s.st, now, cfg, claims[0].token);
      ServedStaysServed(m, cfg, Apply(m, cfg, s, claims[0]), claims[1..], was, f, now);
    }
  }

  lemma OneWaitsLess(cfg: Config, st: Store, now: real, token: Token, f: FactId)
    requires cfg.Valid() && f in WaitingJobs(st, now, cfg)
    ensures var (after, h) := Claim(st, now, cfg, token);
      && h.Some? && h.value.fact in WaitingJobs(st, now, cfg)
      && WaitingJobs(after, now, cfg) == WaitingJobs(st, now, cfg) - {h.value.fact}
  {
    ClaimPassesOver(cfg, st, now, token, f);
    forall g | g in st.jobs {
      ClaimPassesOver(cfg, st, now, token, g);
    }
  }

  /** Each claim serves the job, or one of those that wait beside it, which then waits no longer. */
  lemma {:induction false} WaitingJobIsServed(m: Model, cfg: Config, s: Sys, claims: seq<Step>, f: FactId, now: real)
    requires cfg.Valid() && Run(m, cfg, s, claims) && ClaimsAt(claims, now)
    requires f in WaitingJobs(s.st, now, cfg) && |WaitingJobs(s.st, now, cfg)| <= |claims|
    ensures f in After(m, cfg, s, claims).st.jobs && Served(s.st.jobs[f], After(m, cfg, s, claims).st.jobs[f], now, cfg)
    decreases |claims|
  {
    var t := Apply(m, cfg, s, claims[0]);
    var h := Claim(s.st, now, cfg, claims[0].token).1;
    OneWaitsLess(cfg, s.st, now, claims[0].token, f);
    ClaimPassesOver(cfg, s.st, now, claims[0].token, f);
    if h.value.fact == f {
      ServedStaysServed(m, cfg, t, claims[1..], s.st.jobs[f], f, now);
    } else {
      WaitingJobIsServed(m, cfg, t, claims[1..], f, now);
    }
  }

  lemma SpentJobIsBuried(m: Model, cfg: Config, s: Sys, claims: seq<Step>, f: FactId, now: real)
    requires cfg.Valid() && Run(m, cfg, s, claims) && ClaimsAt(claims, now) && claims != []
    requires f in s.st.jobs && Spent(s.st.jobs[f], now, cfg)
    ensures f in After(m, cfg, s, claims).st.jobs && Served(s.st.jobs[f], After(m, cfg, s, claims).st.jobs[f], now, cfg)
  {
    ClaimPassesOver(cfg, s.st, now, claims[0].token, f);
    ServedStaysServed(m, cfg, Apply(m, cfg, s, claims[0]), claims[1..], s.st.jobs[f], f, now);
  }

  /** The times of the job have passed. */
  ghost predicate TimesPassed(job: Job, now: real) {
    && (job.status == Pending ==> job.availableAt <= now)
    && (job.leaseExpiresAt.Some? ==> job.leaseExpiresAt.value <= now)
  }

  /**
  In every reachable state, a job that is neither completed nor dead and whose time has come, a
  crashed worker's included, is taken or buried by any as many claims at that moment as there are jobs.
  */
  lemma LiveJobIsServed(m: Model, cfg: Config, steps: seq<Step>, claims: seq<Step>, f: FactId, now: real)
    requires cfg.Valid() && Run(m, cfg, Initial(), steps)
    requires var s := After(m, cfg, Initial(), steps);
      && s.st.Viable(f) && TimesPassed(s.st.jobs[f], now)
      && Run(m, cfg, s, claims) && ClaimsAt(claims, now) && |s.st.jobs| <= |claims|
    ensures var s := After(m, cfg, Initial(), steps); var t := After(m, cfg, s, claims);
      f in t.st.jobs && Served(s.st.jobs[f], t.st.jobs[f], now, cfg)
  {
    LeasesAlwaysEnd(m, cfg, Initial(), steps);
    var s := After(m, cfg, Initial(), steps);
    Smaller(WaitingJobs(s.st, now, cfg), s.st.jobs.Keys);
    assert |s.st.jobs.Keys| == |s.st.jobs| && f in s.st.jobs.Keys;
    if f in WaitingJobs(s.st, now, cfg) {
      WaitingJobIsServed(m, cfg, s, claims, f, now);
    } else {
      SpentJobIsBuried(m, cfg, s, claims, f, now);
    }
  }

  // ------------------------------------------------------------------
  // An undisturbed worker gets through
  // ------------------------------------------------------------------

  /** A claim that finds a job hands its worker the lease. */
  lemma ClaimHandsOut(m: Model, cfg: Config, s: Sys, now: real, token: Token, f: FactId)
    requires token !in s.issued && f in WaitingJobs(s.st, now, cfg)
    ensures Enabled(m, s, DoClaim(now, token))
    ensures var t := Apply(m, cfg, s, DoClaim(now, token));
      exists h :: h in t.handles && h.token == token && t.st.Leased(h.fact, token)
                  && h.attempts == t.st.jobs[h.fact].attempts
  {
    ClaimTakesOldestWaiting(s.st, now, cfg, token);
    var t, h := Apply(m, cfg, s, DoClaim(now, token)), Claim(s.st, now, cfg, token).1;
    assert h.value in t.handles && t.st.Leased(h.value.fact, token);
  }

  /** A worker that holds the job of an active fact embeds its content, stores the vector and completes the job. */
  lemma UndisturbedWorkerEmbeds(m: Model, cfg: Config, s: Sys, h: Handle, now: real)
    requires h in s.handles && s.st.Leased(h.fact, h.token) && s.st.IsActive(h.fact)
    ensures var f, content, job := h.fact, s.st.facts[h.fact].content, s.st.jobs[h.fact];
      var steps := [ReadAndEmbed(h), Commit(Prepared(h, m.digest(content), m.embed(content)), now)];
      && Run(m, cfg, s, steps)
      && After(m, cfg, s, steps).st == Store(
           s.st.facts,
           s.st.jobs[f := Job(job.jobId, m.digest(content), Completed, job.attempts, job.availableAt, None, None)],
           s.st.vectors[f := m.embed(content)], s.st.nextJob)
  {
    var content := s.st.facts[h.fact].content;
    var read, commit := ReadAndEmbed(h), Commit(Prepared(h, m.digest(content), m.embed(content)), now);
    var t := Apply(m, cfg, s, read);
    assert Enabled(m, s, read) && Enabled(m, t, commit);
    assert [read, commit][1..] == [commit] && [commit][1..] == [];
    assert Run(m, cfg, Apply(m, cfg, t, commit), []);
    assert Run(m, cfg, t, [commit]) && After(m, cfg, t, [commit]) == Apply(m, cfg, t, commit);
  }

  /** A worker whose fact is inactive completes the job; one whose model call fails puts it off, or buries it. */
  lemma UndisturbedWorkerSettles(m: Model, cfg: Config, s: Sys, h: Handle, now: real)
    requires h in s.handles && s.st.Leased(h.fact, h.token)
    ensures Enabled(m, s, Settle(h, now)) && Enabled(m, s, DoFail(h, now))
    ensures var job, settled := s.st.jobs[h.fact], Apply(m, cfg, s, Settle(h, now)).st;
      !s.st.IsActive(h.fact) ==>
        settled == s.st.(jobs := s.st.jobs[h.fact :=
          Job(job.jobId, job.digest, Completed, job.attempts, job.availableAt, None, None)])
    ensures var job, failed := s.st.jobs[h.fact], Apply(m, cfg, s, DoFail(h, now)).st;
      && (h.attempts >= cfg.maxAttempts ==> failed.jobs[h.fact].status == DeadLetter)
      && (h.attempts < cfg.maxAttempts ==> failed.jobs[h.fact].status == Pending)
      && failed == s.st.(jobs := s.st.jobs[h.fact :=
           Job(job.jobId, job.digest, failed.jobs[h.fact].status, job.attempts,
               now + (if Pow2(h.attempts) <= 300 then Pow2(h.attempts) else 300) as real, None, None)])
  {
  }

  /**
  A written fact is as it was written, and has a job or a vector if that made it active; a removed one leaves
  nothing.
  */
  lemma FactTrafficDoes(m: Model, cfg: Config, s: Sys, f: FactId, fact: Fact, now: real, after: Store)
    ensures Apply(m, cfg, s, Backfill(after, now)).st == after
    ensures var t := Apply(m, cfg, s, ChangeFact(f, fact, now)).st;
      && t.facts == s.st.facts[f := fact] && t.vectors == s.st.vectors
      && (fact.Active() && !s.st.IsActive(f) ==> f in t.jobs)
      && (forall g :: g != f ==> (g in t.jobs <==> g in s.st.jobs) && (g in t.jobs ==> t.jobs[g] == s.st.jobs[g]))
    ensures var t := Apply(m, cfg, s, RemoveFact(f)).st;
      && t.facts == s.st.facts - {f} && t.jobs == s.st.jobs - {f} && t.vectors == s.st.vectors - {f}
  {
  }

  // ------------------------------------------------------------------
  // Stale vectors are never stored
  // ------------------------------------------------------------------

  ghost predicate Injective(m: Model) {
    forall a, b :: m.digest(a) == m.digest(b) ==> a == b
  }

  /** The step writes a vector for `f`, new or replacing another. */
  ghost predicate Stores(s: Sys, t: Sys, f: FactId) {
    f in t.st.vectors && (f in s.st.vectors ==> s.st.vectors[f] != t.st.vectors[f])
  }

  /**
  Whatever happened to the fact during the model call, a vector is stored only while the fact is
  active, and it is the embedding of the content the fact has in that very transaction.
  */
  lemma StoredVectorIsCurrent(m: Model, cfg: Config, steps: seq<Step>, step: Step, f: FactId)
    requires Injective(m) && Run(m, cfg, Initial(), steps)
    requires var s := After(m, cfg, Initial(), steps);
      Enabled(m, s, step) && Stores(s, Apply(m, cfg, s, step), f)
    ensures var s := After(m, cfg, Initial(), steps); var t := Apply(m, cfg, s, step);
      step.Commit? && t.st.IsActive(f) && t.st.vectors[f] == m.embed(t.st.facts[f].content) && t.st.facts == s.st.facts
  {
    RunKeepsInv(m, cfg, Initial(), steps);
    var s := After(m, cfg, Initial(), steps);
    if step.DoClaim? {
      ClaimEffect(s.st, step.now, cfg, step.token, f);
    }
    if step.Commit? {
      var content :| step.p.digest == m.digest(content) && step.p.vector == m.embed(content);
    }
  }

  /** Every stored vector belongs to a fact and is the embedding of its content. */
  ghost predicate VectorsCurrent(m: Model, st: Store) {
    forall f :: f in st.vectors ==> f in st.facts && st.vectors[f] == m.embed(st.facts[f].content)
  }

  /** The step does not give a fact that has a vector another content. */
  predicate KeepsContent(s: Sys, step: Step) {
    step.ChangeFact? && step.f in s.st.vectors ==>
      step.f in s.st.facts && step.fact.content == s.st.facts[step.f].content
  }

  ghost predicate RunKeepsContent(m: Model, cfg: Config, s: Sys, steps: seq<Step>)
    requires Run(m, cfg, s, steps)
    decreases |steps|
  {
    steps == [] || (KeepsContent(s, steps[0]) && RunKeepsContent(m, cfg, Apply(m, cfg, s, steps[0]), steps[1..]))
  }

  lemma StepKeepsVectors(m: Model, cfg: Config, s: Sys, step: Step)
    requires Injective(m) && Inv(m, s) && Enabled(m, s, step) && VectorsCurrent(m, s.st) && KeepsContent(s, step)
    ensures VectorsCurrent(m, Apply(m, cfg, s, step).st)
  {
    if step.DoClaim? {
      ClaimEffect(s.st, step.now, cfg, step.token, 0);
    }
    if step.Commit? {
      var content :| step.p.digest == m.digest(content) && step.p.vector == m.embed(content);
    }
  }

  /**
  Over every run that leaves the content of a fact with a vector alone, every stored vector is at all
  times the embedding of its fact's content, whatever happened during the model calls.
  */
  lemma {:induction false} VectorsStayCurrent(m: Model, cfg: Config, s: Sys, steps: seq<Step>)
    requires Injective(m) && Inv(m, s) && VectorsCurrent(m, s.st)
    requires Run(m, cfg, s, steps) && RunKeepsContent(m, cfg, s, steps)
    ensures VectorsCurrent(m, After(m, cfg, s, steps).st)
    decreases |steps|
  {
    if steps != [] {
      StepKeepsInv(m, cfg, s, steps[0]);
      StepKeepsVectors(m, cfg, s, steps[0]);
      VectorsStayCurrent(m, cfg, Apply(m, cfg, s, steps[0]), steps[1..]);
    }
  }

  // ------------------------------------------------------------------
  // Erasure fences the workers
  // ------------------------------------------------------------------

  /** The handle's token is not its job's token. */
  ghost predicate Fenced(s: Sys, h: Handle) {
    h in s.handles && !s.st.Leased(h.fact, h.token)
  }

  /** A worker whose claim was settled, replaced or erased never changes a table again. */
  lemma {:induction false} FencedWorkerIsInert(m: Model, cfg: Config, s: Sys, steps: seq<Step>, h: Handle, step: Step)
    requires Inv(m, s) && Run(m, cfg, s, steps) && Fenced(s, h)
    requires Enabled(m, After(m, cfg, s, steps), step) && Actor(step) == Some(h)
    ensures var t := After(m, cfg, s, steps); Fenced(t, h) && Apply(m, cfg, t, step).st == t.st
    decreases |steps|
  {
    if steps == [] {
    } else {
      StepKeepsInv(m, cfg, s, steps[0]);
      FencedWorkerIsInert(m, cfg, Apply(m, cfg, s, steps[0]), steps[1..], h, step);
    }
  }

  /** Erasing a fact fences every claim in flight on it. */
  lemma EraseFencesClaims(m: Model, cfg: Config, s: Sys, f: FactId, e: Erasure, h: Handle)
    requires f in s.st.facts && h in s.handles && h.fact == f
    ensures Fenced(Apply(m, cfg, s, Erase(f, e)), h)
  {
  }

  lemma {:induction false} ErasedStaysErased(m: Model, cfg: Config, s: Sys, steps: seq<Step>, f: FactId)
    requires Run(m, cfg, s, steps) && f in s.erased
    ensures f in After(m, cfg, s, steps).erased
    decreases |steps|
  {
    if steps != [] {
      ErasedStaysErased(m, cfg, Apply(m, cfg, s, steps[0]), steps[1..], f);
    }
  }

  /** After an erasure commits, no run of any workers ever stores a vector for that fact again. */
  lemma ErasedFactHasNoVector(m: Model, cfg: Config, s: Sys, f: FactId, e: Erasure, later: seq<Step>)
    requires Inv(m, s) && Enabled(m, s, Erase(f, e))
    requires Run(m, cfg, Apply(m, cfg, s, Erase(f, e)), later)
    ensures f !in After(m, cfg, Apply(m, cfg, s, Erase(f, e)), later).st.vectors
  {
    var t := Apply(m, cfg, s, Erase(f, e));
    StepKeepsInv(m, cfg, s, Erase(f, e));
    RunKeepsInv(m, cfg, t, later);
    ErasedStaysErased(m, cfg, t, later, f);
  }
}
