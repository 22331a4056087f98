/** Any number of extraction workers over one queue. */
module ExtractionProtocol {
  import opened Prelude
  import opened ExtractionProcessor

  // A step is one committed transaction (or one read outside a transaction). A worker may use
  // any handle it was ever given, in any order and at any later time, so a run covers every
  // interleaving, every crash (a handle never used again) and every expired lease.

  /** What a worker remembers of a claim: the lease, and the payload as it was then. */
  datatype Handle = Handle(worker: string, id: nat, token: Token, payload: Payload)

  /** What `_fail` remembers between its SELECT and its UPDATE. */
  datatype FailRead = FailRead(handle: Handle, attempts: nat, seen: real, failure: Failure)

  /** A snapshot a worker loaded or persisted under a claim. */
  datatype Seen = Seen(handle: Handle, json: string)

  datatype Sys = Sys(
    rows: Table,
    nextId: nat,
    clock: real,
    issued: set<Token>,
    handles: set<Handle>,
    failReads: set<FailRead>,
    seen: set<Seen>,
    erased: set<nat>)

  datatype Step =
    | Tick(until: real)
    | Enqueue(payload: Payload, created: Stamp)
    /** A privacy erasure scrubs the queue rows linked to the fact, in whatever status. */
    | Erase(linked: set<nat>)
    | DoClaim(worker: string, token: Token)
    | DoRenew(h: Handle)
    | ReadForFailure(h: Handle, failure: Failure)
    | RecordFailure(read: FailRead)
    | Load(h: Handle)
    | Persist(h: Handle, json: string, hash: string)
    | CommitBatch(h: Handle, json: string)
    | CompleteEmpty(h: Handle)

  function Initial(clock: real): Sys {
    Sys(map[], 0, clock, {}, {}, {}, {}, {})
  }

  /** The handle a step acts under, if it is a worker's step on a claimed row. */
  function Actor(step: Step): Option<Handle> {
    match step
    case DoRenew(h) => Some(h)
    case ReadForFailure(h, _) => Some(h)
    case RecordFailure(r) => Some(r.handle)
    case Load(h) => Some(h)
    case Persist(h, _, _) => Some(h)
    case CommitBatch(h, _) => Some(h)
    case CompleteEmpty(h) => Some(h)
    case _ => None
  }

  /**
  The worker gets as far as the snapshot: it reads the creation stamp first, which no step ever
  changes, and then decodes the payload it claimed; either can only fail it for good.
  */
  predicate Readable(s: Sys, h: Handle) {
    h.payload.Envelope? && (h.id in s.rows ==> !s.rows[h.id].created.Missing?)
  }

  /** The clock never runs back, lease tokens are fresh, and workers use only what they were given. */
  predicate Enabled(s: Sys, step: Step) {
    && (Actor(step).Some? ==> Actor(step).value in s.handles)
    && match step
       case Tick(until) => until >= s.clock
       case Enqueue(_, created) => created.At? ==> created.at <= s.clock
       case DoClaim(_, token) => token !in s.issued
       case ReadForFailure(h, failure) => failure.AttemptFree() ==> Readable(s, h)
       case RecordFailure(r) => r in s.failReads
       case Load(h) => Readable(s, h)
       case Persist(h, _, _) => Readable(s, h)
       case CommitBatch(h, json) => Readable(s, h) && Seen(h, json) in s.seen
       case CompleteEmpty(h) => Readable(s, h)
       case _ => true
  }

  function Apply(cfg: Config, s: Sys, step: Step): Sys {
    match step
    case Tick(until) => s.(clock := until)
    case Enqueue(payload, created) =>
      s.(rows := s.rows[s.nextId := Enqueued(payload, created)], nextId := s.nextId + 1)
    case Erase(linked) => s.(rows := RowsScrubbed(s.rows, linked), erased := s.erased + (linked * s.rows.Keys))
    case DoClaim(worker, token) =>
      var (rows, claim) := ClaimNext(s.rows, s.clock, cfg, worker, token);
      s.(rows := rows, issued := s.issued + {token},
         handles := s.handles + if claim.Some? then {Handle(worker, claim.value.id, token, claim.value.payload)}
           else {})
    case DoRenew(h) => s.(rows := Renewed(s.rows, h.id, h.worker, h.token, s.clock, cfg).0)
    case ReadForFailure(h, f) =>
      if Holds(s.rows, h.id, h.worker, h.token)
      then s.(failReads := s.failReads + {FailRead(h, s.rows[h.id].attempts, s.clock, f)})
      else s
    case RecordFailure(FailRead(h, attempts, seen, f)) =>
      s.(rows := FailureRecorded(s.rows, h.id, h.worker, h.token, attempts, f, seen, s.clock, cfg))
    case Load(h) =>
      (match Loaded(s.rows, h.id, h.worker, h.token)
       case Stored(json, _) => s.(seen := s.seen + {Seen(h, json)})
       case _ => s)
    case Persist(h, json, hash) =>
      var (rows, stored) := Persisted(s.rows, h.id, h.worker, h.token, json, hash);
      s.(rows := rows, seen := s.seen + if stored then {Seen(h, json)} else {})
    case CommitBatch(h, _) => s.(rows := Completed(s.rows, h.id, h.worker, h.token))
    case CompleteEmpty(h) => s.(rows := Completed(s.rows, h.id, h.worker, h.token))
  }

  /** A step that writes the facts extracted from row `id`: the batch commits only where its row is deleted. */
  predicate WritesFacts(s: Sys, step: Step, id: nat) {
    step.CommitBatch? && step.h.id == id && Holds(s.rows, id, step.h.worker, step.h.token)
  }

  /** The step is a claim that takes row `id`. */
  predicate ClaimsRow(cfg: Config, s: Sys, step: Step, id: nat) {
    && step.DoClaim?
    && var claim := ClaimNext(s.rows, s.clock, cfg, step.worker, step.token).1;
       claim.Some? && claim.value.id == id
  }

  // ------------------------------------------------------------------
  // Runs
  // ------------------------------------------------------------------

  predicate Run(cfg: Config, s: Sys, steps: seq<Step>)
    decreases |steps|
  {
    steps == [] || (Enabled(s, steps[0]) && Run(cfg, Apply(cfg, s, steps[0]), steps[1..]))
  }

  function After(cfg: Config, s: Sys, steps: seq<Step>): Sys
    decreases |steps|
  {
    if steps == [] then s else After(cfg, Apply(cfg, s, steps[0]), steps[1..])
  }

  /** How many steps of a run write row `id`'s facts. */
  function FactWrites(cfg: Config, s: Sys, steps: seq<Step>, id: nat): nat
    decreases |steps|
  {
    if steps == [] then 0
    else (if WritesFacts(s, steps[0], id) then 1 else 0) + FactWrites(cfg, Apply(cfg, s, steps[0]), steps[1..], id)
  }

  // ------------------------------------------------------------------
  // What every step keeps
  // ------------------------------------------------------------------

  ghost predicate RowOk(cfg: Config, row: Row) {
    && (row.status == Processing <==> row.leaseToken.Some?)
    && (row.status == Processing <==> row.leaseOwner.Some?)
    && (row.status == Processing <==> row.leaseUntil.Some?)
    && (row.status == Pending ==> row.attempts < cfg.maxAttempts)
    && (row.status == Processing ==> 1 <= row.attempts <= cfg.maxAttempts)
  }

  /** The worker's token is the row's current one. */
  ghost predicate Current(s: Sys, h: Handle) {
    h.id in s.rows && s.rows[h.id].leaseToken == Some(h.token)
  }

  ghost predicate RowsOk(cfg: Config, s: Sys) {
    forall id :: id in s.rows ==> id < s.nextId && RowOk(cfg, s.rows[id])
  }

  /** Every live lease belongs to a handle that was issued for it. */
  ghost predicate LeasesOk(s: Sys) {
    forall id :: id in s.rows ==>
      s.rows[id].status == Processing && s.rows[id].leaseToken.Some? && s.rows[id].leaseOwner.Some? ==>
        exists h :: && h in s.handles && h.worker == s.rows[id].leaseOwner.value
                    && h.id == id && h.token == s.rows[id].leaseToken.value
  }

  ghost predicate HandlesOk(s: Sys) {
    && (forall h :: h in s.handles ==> h.token in s.issued && h.id < s.nextId)
    && (forall id :: id in s.erased ==> id < s.nextId)
    && (forall h, k :: h in s.handles && k in s.handles && h.token == k.token ==> h == k)
  }

  /** What was read under a lease is still there while that lease is current and nothing was erased. */
  ghost predicate ReadsOk(s: Sys) {
    && (forall r :: r in s.failReads ==> r.handle in s.handles && r.seen <= s.clock)
    && (forall r :: r in s.failReads && Current(s, r.handle) ==>
          s.rows[r.handle.id].attempts == r.attempts && (r.failure.AttemptFree() ==> Readable(s, r.handle)))
    && (forall n :: n in s.seen ==> n.handle in s.handles)
    && (forall n :: n in s.seen && Current(s, n.handle) && n.handle.id !in s.erased ==>
          s.rows[n.handle.id].proposalJson == Some(n.json))
  }

  ghost predicate Inv(cfg: Config, s: Sys) {
    RowsOk(cfg, s) && LeasesOk(s) && HandlesOk(s) && ReadsOk(s)
  }

  /** What a claim does to one row: nothing, bury it, or lease it. */
  lemma ClaimEffect(cfg: Config, rows: Table, now: real, owner: string, token: Token, id: nat)
    ensures var (after, claim) := ClaimNext(rows, now, cfg, owner, token);
      && after.Keys == rows.Keys
      && (id in rows ==>
            || (after[id] == rows[id] && (claim.Some? ==> claim.value.id != id))
            || (Exhausted(rows[id], now, cfg) && after[id] == Buried(rows[id])
              && (claim.Some? ==> claim.value.id != id))
            || (Claimable(rows[id], now, cfg) && after[id] == Leased(rows[id], now, cfg, owner, token)
                && claim == Some(Claim(id, rows[id].payload, rows[id].attempts + 1, token))))
      && (claim.Some? ==> claim.value.id in rows && claim.value.token == token)
  {
    var swept := Sweep(rows, now, cfg);
    var due := ClaimableIds(swept, now, cfg);
    if due != {} {
      var least := Least(due);
      assert !Exhausted(rows[least], now, cfg);
    }
  }

  /** A row left without a lease, or with the same lease, attempts and snapshot. */
  ghost predicate RowSettles(cfg: Config, before: Row, after: Row) {
    && RowOk(cfg, after)
    && (after.leaseToken.Some? ==>
          && after.leaseToken == before.leaseToken && after.leaseOwner == before.leaseOwner
          && after.attempts == before.attempts && after.proposalJson == before.proposalJson)
    && after.created == before.created
  }

  /** Transactions that only settle rows keep everything else true. */
  lemma SettlingKeepsInv(cfg: Config, s: Sys, rows: Table)
    requires Inv(cfg, s)
    requires forall id :: id in rows ==> id in s.rows && RowSettles(cfg, s.rows[id], rows[id])
    ensures Inv(cfg, s.(rows := rows))
  {
    var t := s.(rows := rows);
    forall h | Current(t, h) ensures Current(s, h) && t.rows[h.id].attempts == s.rows[h.id].attempts
                                     && t.rows[h.id].proposalJson == s.rows[h.id].proposalJson {
    }
  }

  lemma LeasingKeepsInv(cfg: Config, s: Sys, id: nat, worker: string, token: Token)
    requires Inv(cfg, s) && token !in s.issued && id in s.rows && s.rows[id].attempts < cfg.maxAttempts
    ensures Inv(cfg, s.(rows := s.rows[id := Leased(s.rows[id], s.clock, cfg, worker, token)],
                        issued := s.issued + {token},
                        handles := s.handles + {Handle(worker, id, token, s.rows[id].payload)}))
  {
    var h := Handle(worker, id, token, s.rows[id].payload);
    var t := s.(rows := s.rows[id := Leased(s.rows[id], s.clock, cfg, worker, token)],
                issued := s.issued + {token}, handles := s.handles + {h});
    assert h in t.handles;
    forall h | h in s.handles && Current(t, h) ensures Current(s, h) && h.id != id {
    }
  }

  lemma ClaimKeepsInv(cfg: Config, s: Sys, worker: string, token: Token)
    requires Inv(cfg, s) && Enabled(s, DoClaim(worker, token))
    ensures Inv(cfg, Apply(cfg, s, DoClaim(worker, token)))
  {
    var swept := Sweep(s.rows, s.clock, cfg);
    SettlingKeepsInv(cfg, s, swept);
    var due := ClaimableIds(swept, s.clock, cfg);
    if due != {} {
      LeasingKeepsInv(cfg, s.(rows := swept), Least(due), worker, token);
    }
  }

  lemma PersistKeepsInv(cfg: Config, s: Sys, h: Handle, json: string, hash: string)
    requires Inv(cfg, s) && h in s.handles
    ensures Inv(cfg, Apply(cfg, s, Persist(h, json, hash)))
  {
    var t := Apply(cfg, s, Persist(h, json, hash));
    forall k | Current(t, k) ensures Current(s, k) && t.rows[k.id].attempts == s.rows[k.id].attempts {
    }
    forall n | n in t.seen && Current(t, n.handle) && n.handle.id !in t.erased
      ensures t.rows[n.handle.id].proposalJson == Some(n.json) {
      if n in s.seen && n.handle.id == h.id {
        assert s.rows[h.id].proposalJson == Some(n.json);
      }
    }
  }

  lemma FailureKeepsInv(cfg: Config, s: Sys, r: FailRead)
    requires Inv(cfg, s) && r in s.failReads
    ensures Inv(cfg, Apply(cfg, s, RecordFailure(r)))
  {
    assert Current(s, r.handle) ==> s.rows[r.handle.id].attempts == r.attempts;
    SettlingKeepsInv(cfg, s, Apply(cfg, s, RecordFailure(r)).rows);
  }

  lemma EraseKeepsInv(cfg: Config, s: Sys, linked: set<nat>)
    requires Inv(cfg, s)
    ensures Inv(cfg, Apply(cfg, s, Erase(linked)))
  {
    var t := Apply(cfg, s, Erase(linked));
    forall h ensures Current(t, h) <==> Current(s, h) {
    }
    forall id | id in t.rows ensures id in s.rows && t.rows[id].created == s.rows[id].created
      && t.rows[id].status == s.rows[id].status && t.rows[id].attempts == s.rows[id].attempts
      && t.rows[id].leaseToken == s.rows[id].leaseToken && t.rows[id].leaseOwner == s.rows[id].leaseOwner {
    }
  }

  lemma ReadKeepsInv(cfg: Config, s: Sys, step: Step)
    requires Inv(cfg, s) && Enabled(s, step) && (step.ReadForFailure? || step.Load?)
    ensures Inv(cfg, Apply(cfg, s, step))
  {
  }

  lemma WorkerKeepsInv(cfg: Config, s: Sys, step: Step)
    requires Inv(cfg, s) && Enabled(s, step) && Actor(step).Some?
    ensures Inv(cfg, Apply(cfg, s, step))
  {
    match step
    case Persist(h, json, hash) => PersistKeepsInv(cfg, s, h, json, hash);
    case ReadForFailure(_, _) => ReadKeepsInv(cfg, s, step);
    case Load(_) => ReadKeepsInv(cfg, s, step);
    case RecordFailure(r) => FailureKeepsInv(cfg, s, r);
    case _ => SettlingKeepsInv(cfg, s, Apply(cfg, s, step).rows);
  }

  lemma StepKeepsInv(cfg: Config, s: Sys, step: Step)
    requires Inv(cfg, s) && Enabled(s, step) && cfg.Valid()
    ensures Inv(cfg, Apply(cfg, s, step))
  {
    if Actor(step).Some? {
      WorkerKeepsInv(cfg, s, step);
    } else if step.DoClaim? {
      ClaimKeepsInv(cfg, s, step.worker, step.token);
    } else if step.Erase? {
      EraseKeepsInv(cfg, s, step.linked);
    }
  }

  lemma {:induction false} RunKeepsInv(cfg: Config, s: Sys, steps: seq<Step>)
    requires Inv(cfg, s) && Run(cfg, s, steps) && cfg.Valid()
    ensures Inv(cfg, After(cfg, s, steps))
    decreases |steps|
  {
    if steps != [] {
      StepKeepsInv(cfg, s, steps[0]);
      RunKeepsInv(cfg, Apply(cfg, s, steps[0]), steps[1..]);
    }
  }

  // ------------------------------------------------------------------
  // Exactly once
  // ------------------------------------------------------------------

  /** Queue ids are never reused: a deleted row stays deleted. */
  ghost predicate Gone(s: Sys, id: nat) {
    id < s.nextId && id !in s.rows
  }

  /**
  Over every run, one row's facts are written at most once, a run that wrote them has deleted
  the row, and a row already deleted is never written again.
  */
  lemma {:induction false} FactsWrittenAtMostOnce(cfg: Config, s: Sys, steps: seq<Step>, id: nat)
    requires Inv(cfg, s) && Run(cfg, s, steps) && cfg.Valid()
    ensures FactWrites(cfg, s, steps, id) <= 1
    ensures FactWrites(cfg, s, steps, id) == 1 ==> Gone(After(cfg, s, steps), id)
    ensures Gone(s, id) ==> FactWrites(cfg, s, steps, id) == 0 && Gone(After(cfg, s, steps), id)
    decreases |steps|
  {
    if steps != [] {
      StepKeepsInv(cfg, s, steps[0]);
      FactsWrittenAtMostOnce(cfg, Apply(cfg, s, steps[0]), steps[1..], id);
    }
  }

  /** Two workers never both hold a row. */
  lemma HolderIsUnique(cfg: Config, s: Sys, h: Handle, k: Handle)
    requires Inv(cfg, s) && h in s.handles && k in s.handles && h.id == k.id
    requires Current(s, h) && Current(s, k)
    ensures h == k && Holds(s.rows, h.id, h.worker, h.token)
  {
  }

  // ------------------------------------------------------------------
  // Fencing
  // ------------------------------------------------------------------

  /** The worker's claim was replaced, settled or completed. */
  ghost predicate Stale(s: Sys, h: Handle) {
    h in s.handles && !Current(s, h)
  }

  lemma StepKeepsStale(cfg: Config, s: Sys, step: Step, h: Handle)
    requires Inv(cfg, s) && Enabled(s, step) && Stale(s, h)
    ensures Stale(Apply(cfg, s, step), h)
    ensures Actor(step) == Some(h) ==> Apply(cfg, s, step) == s && !WritesFacts(s, step, h.id)
  {
    if step.DoClaim? && h.id in s.rows {
      ClaimEffect(cfg, s.rows, s.clock, step.worker, step.token, h.id);
    }
    if step.DoClaim? {
      ClaimEffect(cfg, s.rows, s.clock, step.worker, step.token, 0);
    }
  }

  /**
  Once a worker's token is not its row's token, no step it takes, after any further run, changes
  anything or writes a fact.
  */
  lemma {:induction false} StaleWorkerIsFenced(cfg: Config, s: Sys, steps: seq<Step>, h: Handle, step: Step)
    requires Inv(cfg, s) && Run(cfg, s, steps) && Stale(s, h) && cfg.Valid()
    requires Enabled(After(cfg, s, steps), step) && Actor(step) == Some(h)
    ensures var t := After(cfg, s, steps);
      Stale(t, h) && Apply(cfg, t, step) == t && forall id :: !WritesFacts(t, step, id)
    decreases |steps|
  {
    if steps == [] {
      StepKeepsStale(cfg, s, step, h);
    } else {
      StepKeepsInv(cfg, s, steps[0]);
      StepKeepsStale(cfg, s, steps[0], h);
      StaleWorkerIsFenced(cfg, Apply(cfg, s, steps[0]), steps[1..], h, step);
    }
  }

  /** A claim of a row makes every earlier handle on that row stale. */
  lemma ReclaimMakesStale(cfg: Config, s: Sys, step: Step, h: Handle)
    requires Inv(cfg, s) && Enabled(s, step) && h in s.handles && ClaimsRow(cfg, s, step, h.id)
    ensures Stale(Apply(cfg, s, step), h)
  {
    ClaimEffect(cfg, s.rows, s.clock, step.worker, step.token, h.id);
  }

  // ------------------------------------------------------------------
  // Replay
  // ------------------------------------------------------------------

  /** The step erases row `id`'s snapshot because it held a credential. */
  ghost predicate Scrubs(step: Step, id: nat) {
    step.RecordFailure? && step.read.handle.id == id && step.read.failure.code == CREDENTIAL_REJECTED
  }

  /** The step is an erasure of a fact linked to row `id`. */
  ghost predicate Erases(step: Step, id: nat) {
    step.Erase? && id in step.linked
  }

  lemma StepKeepsSnapshot(cfg: Config, s: Sys, step: Step, id: nat, json: string)
    requires Inv(cfg, s) && Enabled(s, step) && id in s.rows && s.rows[id].proposalJson == Some(json) && id !in s.erased
    requires !Scrubs(step, id) && !Erases(step, id)
    ensures var t := Apply(cfg, s, step);
      id !in t.erased && (Gone(t, id) || (id in t.rows && t.rows[id].proposalJson == Some(json)))
    ensures WritesFacts(s, step, id) ==> step.json == json
  {
    if step.DoClaim? {
      ClaimEffect(cfg, s.rows, s.clock, step.worker, step.token, id);
    }
  }

  /**
  The facts written for a row are those of its one stored snapshot: whatever crashes and reclaims
  follow the first persist, a later commit replays that snapshot and no other, unless it was
  scrubbed for a credential or erased.
  */
  lemma {:induction false} CommitReplaysSnapshot(cfg: Config, s: Sys, steps: seq<Step>, id: nat, json: string,
                                                 step: Step)
    requires Inv(cfg, s) && Run(cfg, s, steps) && cfg.Valid()
    requires id in s.rows && s.rows[id].proposalJson == Some(json) && id !in s.erased
    requires forall i :: 0 <= i < |steps| ==> !Scrubs(steps[i], id) && !Erases(steps[i], id)
    requires Enabled(After(cfg, s, steps), step) && WritesFacts(After(cfg, s, steps), step, id)
    ensures step.json == json
    decreases |steps|
  {
    if steps != [] {
      StepKeepsInv(cfg, s, steps[0]);
      StepKeepsSnapshot(cfg, s, steps[0], id, json);
      var next := Apply(cfg, s, steps[0]);
      if Gone(next, id) {
        FactsWrittenAtMostOnce(cfg, next, steps[1..], id);
      } else {
        CommitReplaysSnapshot(cfg, next, steps[1..], id, json, step);
      }
    }
  }

  // ------------------------------------------------------------------
  // What an erasure does not stop
  // ------------------------------------------------------------------

  /** Row `id` lost its text, and whoever claimed it since `origin` claimed it without. */
  ghost predicate TextGone(origin: Sys, s: Sys, id: nat) {
    && id < s.nextId && (id in s.rows ==> s.rows[id].payload.Undecodable?)
    && (forall h :: h in s.handles && h.id == id ==> h in origin.handles || h.payload.Undecodable?)
  }

  lemma StepKeepsTextGone(cfg: Config, origin: Sys, s: Sys, step: Step, id: nat)
    requires Inv(cfg, s) && Enabled(s, step) && TextGone(origin, s, id)
    ensures TextGone(origin, Apply(cfg, s, step), id)
  {
    if step.DoClaim? {
      ClaimEffect(cfg, s.rows, s.clock, step.worker, step.token, id);
    }
  }

  lemma EraseLosesText(cfg: Config, s: Sys, linked: set<nat>, id: nat)
    requires Inv(cfg, s) && id in linked && id in s.rows
    ensures TextGone(s, Apply(cfg, s, Erase(linked)), id)
  {
  }

  /** A writer of erased text had claimed the row before the erasure and was its holder then. */
  lemma {:induction false} WriterWasInFlight(cfg: Config, origin: Sys, s: Sys, steps: seq<Step>, id: nat, step: Step)
    requires Inv(cfg, s) && Run(cfg, s, steps) && cfg.Valid() && TextGone(origin, s, id)
    requires var t := After(cfg, s, steps); Enabled(t, step) && WritesFacts(t, step, id)
    ensures step.h in origin.handles && step.h.payload.Envelope? && Readable(After(cfg, s, steps), step.h)
    ensures step.h in s.handles ==> Current(s, step.h)
    decreases |steps|
  {
    if steps != [] {
      StepKeepsInv(cfg, s, steps[0]);
      StepKeepsTextGone(cfg, origin, s, steps[0], id);
      var next := Apply(cfg, s, steps[0]);
      if Stale(s, step.h) {
        StepKeepsStale(cfg, s, steps[0], step.h);
      }
      WriterWasInFlight(cfg, origin, next, steps[1..], id, step);
    }
  }

  /** A run writes facts of row `id` in one of its steps. */
  lemma {:induction false} SomeStepWrites(cfg: Config, s: Sys, steps: seq<Step>, id: nat) returns (k: nat)
    requires Run(cfg, s, steps) && FactWrites(cfg, s, steps, id) > 0
    ensures k < |steps| && Run(cfg, s, steps[..k])
    ensures Enabled(After(cfg, s, steps[..k]), steps[k]) && WritesFacts(After(cfg, s, steps[..k]), steps[k], id)
    decreases |steps|
  {
    if WritesFacts(s, steps[0], id) {
      k := 0;
      assert steps[..0] == [];
    } else {
      var j := SomeStepWrites(cfg, Apply(cfg, s, steps[0]), steps[1..], id);
      k := j + 1;
      assert steps[..k][0] == steps[0] && steps[..k][1..] == steps[1..][..j];
    }
  }

  /** A worker that can still write the row's facts: it holds the row, and has its text. */
  ghost predicate InFlight(s: Sys, h: Handle, id: nat) {
    h in s.handles && h.id == id && Current(s, h) && Readable(s, h)
  }

  /** The stamp of a row never changes. */
  lemma {:induction false} StampStays(cfg: Config, s: Sys, steps: seq<Step>, id: nat)
    requires Inv(cfg, s) && Run(cfg, s, steps) && cfg.Valid() && id < s.nextId
    ensures var t := After(cfg, s, steps);
      id < t.nextId && (id in t.rows ==> id in s.rows && t.rows[id].created == s.rows[id].created)
    decreases |steps|
  {
    if steps != [] {
      StepKeepsInv(cfg, s, steps[0]);
      if steps[0].DoClaim? {
        ClaimEffect(cfg, s.rows, s.clock, steps[0].worker, steps[0].token, id);
      }
      StampStays(cfg, Apply(cfg, s, steps[0]), steps[1..], id);
    }
  }

  /** A worker in flight survives the erasure: it stores what its old text yields and commits it. */
  lemma InFlightStillWrites(cfg: Config, s: Sys, linked: set<nat>, h: Handle, id: nat)
    returns (steps: seq<Step>)
    requires Inv(cfg, s) && id in linked && InFlight(s, h, id)
    ensures var t := Apply(cfg, s, Erase(linked)); Run(cfg, t, steps) && FactWrites(cfg, t, steps, id) == 1
  {
    var t := Apply(cfg, s, Erase(linked));
    var persist, commit := Persist(h, "json", "hash"), CommitBatch(h, "json");
    assert Holds(t.rows, id, h.worker, h.token);
    var t1 := Apply(cfg, t, persist);
    assert Seen(h, "json") in t1.seen && Holds(t1.rows, id, h.worker, h.token);
    steps := [persist, commit];
    assert steps[1..] == [commit] && [commit][1..] == [];
    var t2 := Apply(cfg, t1, commit);
    assert Run(cfg, t2, []) && FactWrites(cfg, t2, [], id) == 0;
    assert Run(cfg, t1, [commit]) && FactWrites(cfg, t1, [commit], id) == 1;
  }

  /**
  Exactly when the facts of an erased row can still be written: if and only if, at the moment of the
  erasure, a worker that had read the row's text was holding it.
  */
  lemma ErasedRowStillWritesIff(cfg: Config, s: Sys, linked: set<nat>, id: nat)
    requires Inv(cfg, s) && cfg.Valid() && id in linked && id in s.rows
    ensures var t := Apply(cfg, s, Erase(linked));
      (exists steps :: Run(cfg, t, steps) && FactWrites(cfg, t, steps, id) > 0) <==> exists h :: InFlight(s, h, id)
  {
    var t := Apply(cfg, s, Erase(linked));
    if h :| InFlight(s, h, id) {
      var steps := InFlightStillWrites(cfg, s, linked, h, id);
    }
    if steps: seq<Step> :| Run(cfg, t, steps) && FactWrites(cfg, t, steps, id) > 0 {
      EraseKeepsInv(cfg, s, linked);
      EraseLosesText(cfg, s, linked, id);
      var k := SomeStepWrites(cfg, t, steps, id);
      WriterWasInFlight(cfg, s, t, steps[..k], id, steps[k]);
      StampStays(cfg, t, steps[..k], id);
      assert InFlight(s, steps[k].h, id);
    }
  }

  // ------------------------------------------------------------------
  // No row is stuck
  // ------------------------------------------------------------------

  /** The times of the row have passed. */
  ghost predicate TimesPassed(row: Row, now: real) {
    && (row.notBefore.Some? ==> row.notBefore.value <= now)
    && (row.leaseUntil.Some? ==> row.leaseUntil.value <= now)
  }

  /**
  In every reachable state a row that is not dead waits for a worker once its times have passed, or has no
  attempt left.
  */
  lemma LiveRowBecomesDue(cfg: Config, clock: real, steps: seq<Step>, id: nat, now: real)
    requires cfg.Valid() && Run(cfg, Initial(clock), steps)
    requires var s := After(cfg, Initial(clock), steps);
      id in s.rows && s.rows[id].status != Dead && TimesPassed(s.rows[id], now)
    ensures var row := After(cfg, Initial(clock), steps).rows[id];
      Waits(row, now, cfg) || (row.status == Processing && row.leaseUntil.Some? && row.attempts == cfg.maxAttempts)
  {
    RunKeepsInv(cfg, Initial(clock), steps);
  }

  predicate AreClaims(steps: seq<Step>) {
    forall i :: 0 <= i < |steps| ==> steps[i].DoClaim?
  }

  ghost function WaitingRows(cfg: Config, s: Sys): set<nat> {
    set id | id in s.rows && Waits(s.rows[id], s.clock, cfg)
  }

  /** The row was taken now, one attempt more, or buried without one left. */
  ghost predicate Served(was: Row, row: Row, now: real, cfg: Config) {
    || (row.status == Processing && row.attempts == was.attempts + 1 && row.leaseUntil == Some(now + cfg.leaseSeconds))
    || (row.status == Dead && cfg.maxAttempts <= row.attempts == was.attempts)
  }

  lemma ClaimPassesOver(cfg: Config, rows: Table, now: real, owner: string, token: Token, id: nat)
    requires id in rows && cfg.Valid()
    ensures var (after, claim) := ClaimNext(rows, now, cfg, owner, token);
      && after.Keys == rows.Keys
      && (claim.Some? ==> claim.value.id in rows && Waits(rows[claim.value.id], now, cfg))
      && (claim.None? ==> !Waits(rows[id], now, cfg))
      && (claim.Some? && claim.value.id == id ==> Served(rows[id], after[id], now, cfg))
      && (claim.Some? && claim.value.id == id ==> !Waits(after[id], now, cfg))
      && ((claim.Some? ==> claim.value.id != id) ==> after[id] == rows[id] || Served(rows[id], after[id], now, cfg))
      && ((claim.Some? ==> claim.value.id != id) ==> (Waits(after[id], now, cfg) <==> Waits(rows[id], now, cfg)))
      && ((claim.Some? ==> claim.value.id != id) && Waits(rows[id], now, cfg) ==> after[id] == rows[id])
  {
    ClaimTakesOldestWaiting(rows, now, cfg, owner, token);
    SweepBuriesSpentLeases(rows, now, cfg, id);
  }

  lemma {:induction false} ServedStaysServed(cfg: Config, s: Sys, claims: seq<Step>, was: Row, id: nat)
    requires cfg.Valid() && Run(cfg, s, claims) && AreClaims(claims)
    requires id in s.rows && Served(was, s.rows[id], s.clock, cfg)
    ensures var t := After(cfg, s, claims); id in t.rows && Served(was, t.rows[id], s.clock, cfg)
    decreases |claims|
  {
    if claims != [] {
      ClaimPassesOver(cfg, s.rows, s.clock, claims[0].worker, claims[0].token, id);
      SweepBuriesSpentLeases(s.rows, s.clock, cfg, id);
      ServedStaysServed(cfg, Apply(cfg, s, claims[0]), claims[1..], was, id);
    }
  }

  lemma OneWaitsLess(cfg: Config, s: Sys, worker: string, token: Token, id: nat)
    requires cfg.Valid() && id in WaitingRows(cfg, s)
    ensures var claim := ClaimNext(s.rows, s.clock, cfg, worker, token).1;
      && claim.Some? && claim.value.id in WaitingRows(cfg, s)
      && WaitingRows(cfg, Apply(cfg, s, DoClaim(worker, token))) == WaitingRows(cfg, s) - {claim.value.id}
  {
    ClaimPassesOver(cfg, s.rows, s.clock, worker, token, id);
    forall other | other in s.rows {
      ClaimPassesOver(cfg, s.rows, s.clock, worker, token, other);
    }
  }

  /** Each claim serves the row, or one of those that wait beside it, which then waits no longer. */
  lemma {:induction false} WaitingRowIsServed(cfg: Config, s: Sys, claims: seq<Step>, id: nat)
    requires cfg.Valid() && Run(cfg, s, claims) && AreClaims(claims)
    requires id in WaitingRows(cfg, s) && |WaitingRows(cfg, s)| <= |claims|
    ensures var t := After(cfg, s, claims); id in t.rows && Served(s.rows[id], t.rows[id], s.clock, cfg)
    decreases |claims|
  {
    var worker, token := claims[0].worker, claims[0].token;
    var t := Apply(cfg, s, claims[0]);
    var claim := ClaimNext(s.rows, s.clock, cfg, worker, token).1;
    OneWaitsLess(cfg, s, worker, token, id);
    ClaimPassesOver(cfg, s.rows, s.clock, worker, token, id);
    if claim.value.id == id {
      ServedStaysServed(cfg, t, claims[1..], s.rows[id], id);
    } else {
      WaitingRowIsServed(cfg, t, claims[1..], id);
    }
  }

  /**
  In every reachable state a row that is not dead and whose times have passed, a crashed worker's
  included, is taken or buried by any as many claims at that moment as there are rows.
  */
  lemma LiveRowIsServed(cfg: Config, clock: real, steps: seq<Step>, claims: seq<Step>, id: nat)
    requires cfg.Valid() && Run(cfg, Initial(clock), steps)
    requires var s := After(cfg, Initial(clock), steps);
      && id in s.rows && s.rows[id].status != Dead && TimesPassed(s.rows[id], s.clock)
      && Run(cfg, s, claims) && AreClaims(claims) && |s.rows| <= |claims|
    ensures var s := After(cfg, Initial(clock), steps); var t := After(cfg, s, claims);
      id in t.rows && Served(s.rows[id], t.rows[id], s.clock, cfg)
  {
    var s := After(cfg, Initial(clock), steps);
    LiveRowBecomesDue(cfg, clock, steps, id, s.clock);
    var waiting := WaitingRows(cfg, s);
    Smaller(waiting, s.rows.Keys);
    assert |s.rows.Keys| == |s.rows| && id in s.rows.Keys;
    if id in waiting {
      WaitingRowIsServed(cfg, s, claims, id);
    } else {
      SpentRowIsBuried(cfg, s, claims, id);
    }
  }

  lemma SpentRowIsBuried(cfg: Config, s: Sys, claims: seq<Step>, id: nat)
    requires cfg.Valid() && Run(cfg, s, claims) && AreClaims(claims) && claims != [] && id in s.rows
    requires s.rows[id].status == Processing && s.rows[id].attempts == cfg.maxAttempts
    requires s.rows[id].leaseUntil.Some? && TimesPassed(s.rows[id], s.clock)
    ensures var t := After(cfg, s, claims); id in t.rows && Served(s.rows[id], t.rows[id], s.clock, cfg)
  {
    ClaimTakesOldestWaiting(s.rows, s.clock, cfg, claims[0].worker, claims[0].token);
    SweepBuriesSpentLeases(s.rows, s.clock, cfg, id);
    ServedStaysServed(cfg, Apply(cfg, s, claims[0]), claims[1..], s.rows[id], id);
  }

  // ------------------------------------------------------------------
  // An undisturbed worker gets through
  // ------------------------------------------------------------------

  /**
  A worker that holds a readable row without a snapshot stores what it extracted, commits it, and the row is
  gone.
  */
  lemma UndisturbedWorkerCommits(cfg: Config, s: Sys, h: Handle, json: string, hash: string)
    requires Inv(cfg, s) && InFlight(s, h, h.id)
    requires s.rows[h.id].proposalJson.None? && s.rows[h.id].proposalHash.None?
    ensures var steps := [Persist(h, json, hash), CommitBatch(h, json)];
      && Run(cfg, s, steps) && FactWrites(cfg, s, steps, h.id) == 1
      && After(cfg, s, steps).rows == s.rows - {h.id}
  {
    var persist, commit := Persist(h, json, hash), CommitBatch(h, json);
    assert Holds(s.rows, h.id, h.worker, h.token);
    TwoSteps(cfg, s, persist, commit, h.id);
  }

  /** A worker that holds a row with a snapshot commits that snapshot without asking the model. */
  lemma UndisturbedWorkerReplays(cfg: Config, s: Sys, h: Handle)
    requires Inv(cfg, s) && InFlight(s, h, h.id)
    requires s.rows[h.id].proposalJson.Some? && s.rows[h.id].proposalHash.Some?
    ensures var steps := [Load(h), CommitBatch(h, s.rows[h.id].proposalJson.value)];
      && Run(cfg, s, steps) && FactWrites(cfg, s, steps, h.id) == 1
      && After(cfg, s, steps).rows == s.rows - {h.id}
  {
    var load, commit := Load(h), CommitBatch(h, s.rows[h.id].proposalJson.value);
    assert Holds(s.rows, h.id, h.worker, h.token);
    TwoSteps(cfg, s, load, commit, h.id);
  }

  lemma TwoSteps(cfg: Config, s: Sys, first: Step, second: Step, id: nat)
    requires Enabled(s, first) && Enabled(Apply(cfg, s, first), second)
    ensures Run(cfg, s, [first, second])
    ensures After(cfg, s, [first, second]) == Apply(cfg, Apply(cfg, s, first), second)
    ensures FactWrites(cfg, s, [first, second], id)
      == (if WritesFacts(s, first, id) then 1 else 0) + if WritesFacts(Apply(cfg, s, first), second, id) then 1 else 0
  {
    var t := Apply(cfg, s, first);
    assert [first, second][1..] == [second] && [second][1..] == [];
    assert Run(cfg, Apply(cfg, t, second), []) && FactWrites(cfg, Apply(cfg, t, second), [], id) == 0;
    assert Run(cfg, t, [second]) && After(cfg, t, [second]) == Apply(cfg, t, second);
  }

  /** An unexpired lease can be renewed, a job without requests completed, and a row erased at any time. */
  lemma OtherStepsWork(cfg: Config, s: Sys, h: Handle, linked: set<nat>)
    requires Inv(cfg, s) && InFlight(s, h, h.id)
    ensures Enabled(s, DoRenew(h)) && Enabled(s, CompleteEmpty(h)) && Enabled(s, Erase(linked))
    ensures Apply(cfg, s, CompleteEmpty(h)).rows == s.rows - {h.id}
    ensures var row := Apply(cfg, s, DoRenew(h)).rows[h.id];
      row.leaseUntil == if s.rows[h.id].leaseUntil.value > s.clock then Some(s.clock + cfg.leaseSeconds)
                        else s.rows[h.id].leaseUntil
  {
    assert Holds(s.rows, h.id, h.worker, h.token);
  }
}
