/** The legacy extraction queue: idempotent enqueue, deadline-fenced claims, revival, and the hash migration. */
module ExtractQueue {
  import opened Prelude

  type Digest = string

  const MAX_ROW_AGE_SECONDS := 172800.0

  datatype Status = Pending | Processing | Dead

  datatype Row = Row(
    payload: string,
    hash: Option<Digest>,
    created: Option<real>,
    status: Status,
    attempts: nat,
    notBefore: Option<real>,
    leaseOwner: Option<string>,
    leaseUntil: Option<real>,
    proposal: Option<string>)
  {
    predicate Active() {
      status == Pending || status == Processing
    }
  }

  /** `nextId` is the AUTOINCREMENT counter. */
  datatype Queue = Queue(rows: map<nat, Row>, nextId: nat)

  /** A claim handle: the owner's name, and the lease deadline unless it is a plain legacy string. */
  datatype Handle = Handle(id: nat, owner: string, fence: Option<real>)

  /** `_age_exceeded`. */
  predicate AgeExceeded(row: Row, now: real) {
    row.created.Some? && now - row.created.value >= MAX_ROW_AGE_SECONDS
  }

  /** The WHERE clause shared by every claim-fenced statement. */
  predicate Fenced(q: Queue, h: Handle) {
    && h.id in q.rows && q.rows[h.id].status == Processing && q.rows[h.id].leaseOwner == Some(h.owner)
    && (h.fence.None? || q.rows[h.id].leaseUntil == h.fence)
  }

  function Released(row: Row, status: Status): Row {
    row.(status := status, leaseOwner := None, leaseUntil := None)
  }

  // ------------------------------------------------------------------
  // The statements
  // ------------------------------------------------------------------

  /** Active rows that stand for a payload: same hash, or no hash and the same text. */
  function Copies(q: Queue, payload: string, hash: Digest): set<nat> {
    set id | id in q.rows && q.rows[id].Active()
             && (q.rows[id].hash == Some(hash) || (q.rows[id].hash.None? && q.rows[id].payload == payload))
  }

  /** The row is active and holds the payload: by its hash, or by its text while it has no hash. */
  ghost predicate StandsFor(q: Queue, id: nat, payload: string, hash: Digest) {
    && id in q.rows && q.rows[id].status in {Pending, Processing}
    && (q.rows[id].hash.Some? ==> q.rows[id].hash.value == hash)
    && (q.rows[id].hash.None? ==> q.rows[id].payload == payload)
  }

  /** `enqueue`, once the payload is normalized and hashed. */
  function Enqueued(q: Queue, payload: string, hash: Digest, created: Option<real>): (Queue, nat) {
    var copies := Copies(q, payload, hash);
    if copies != {} then (q, Least(copies))
    else (Queue(q.rows[q.nextId := Row(payload, Some(hash), created, Pending, 0, None, None, None, None)],
      q.nextId + 1), q.nextId)
  }

  predicate Claimable(row: Row, now: real, maxAttempts: nat) {
    && row.attempts < maxAttempts
    && (row.notBefore.None? || row.notBefore.value <= now)
    && (row.status == Pending || (row.status == Processing && row.leaseUntil.Some? && row.leaseUntil.value <= now))
  }

  function ClaimableIds(q: Queue, now: real, maxAttempts: nat, exclude: set<nat>): set<nat> {
    set id | id in q.rows && Claimable(q.rows[id], now, maxAttempts) && id !in exclude
  }

  /** `next_pending`. */
  function Claimed(q: Queue, now: real, maxAttempts: nat, exclude: set<nat>, owner: string,
                   leaseSeconds: real): (Queue, Option<Handle>)
  {
    var due := ClaimableIds(q, now, maxAttempts, exclude);
    if due == {} then (q, None)
    else
      var id := Least(due);
      var until := now + leaseSeconds;
      (q.(rows := q.rows[id := q.rows[id].(status := Processing, leaseOwner := Some(owner),
        leaseUntil := Some(until))]),
       Some(Handle(id, owner, Some(until))))
  }

  /** The row waits for a worker: it has attempts left, its time has come, and nobody holds it any more. */
  ghost predicate Waits(row: Row, now: real, maxAttempts: nat) {
    && row.status != Dead && row.attempts < maxAttempts
    && (row.notBefore.Some? ==> row.notBefore.value <= now)
    && (row.status == Processing ==> row.leaseUntil.Some? && row.leaseUntil.value <= now)
  }

  /** `mark_done`. */
  function Done(q: Queue, h: Handle): Queue {
    if Fenced(q, h) then q.(rows := q.rows - {h.id}) else q
  }

  /** `save_proposals`: the first snapshot stays. */
  function Saved(q: Queue, h: Handle, json: string): Queue {
    if !Fenced(q, h) then q
    else q.(rows := q.rows[h.id := q.rows[h.id].(proposal := if q.rows[h.id].proposal.Some? then q.rows[h.id].proposal
      else Some(json))])
  }

  /** `mark_failed`. */
  function Failed(q: Queue, h: Handle, maxAttempts: nat, now: real): Queue {
    if !Fenced(q, h) then q
    else
      var row := q.rows[h.id];
      var dead := AgeExceeded(row, now) || row.attempts + 1 >= maxAttempts;
      q.(rows := q.rows[h.id := Released(row, if dead then Dead else Pending).(attempts := row.attempts + 1)])
  }

  /** `mark_quota_failed`: no attempt is spent. */
  function Rescheduled(q: Queue, h: Handle, notBefore: real, now: real): Queue {
    if !Fenced(q, h) then q
    else if AgeExceeded(q.rows[h.id], now) then
      q.(rows := q.rows[h.id := Released(q.rows[h.id], Dead).(notBefore := None)])
    else
      q.(rows := q.rows[h.id := Released(q.rows[h.id], Pending).(notBefore := Some(notBefore))])
  }

  /** `release_claim`. */
  function ReleasedClaim(q: Queue, h: Handle): Queue {
    if Fenced(q, h) then q.(rows := q.rows[h.id := Released(q.rows[h.id], Pending)]) else q
  }

  /** A dead row that may be revived: unhashed, or the oldest dead one of its hash while no copy is active. */
  predicate Revivable(q: Queue, id: nat) {
    && id in q.rows && q.rows[id].status == Dead
    && (q.rows[id].hash.None?
        || ((forall peer :: peer in q.rows && q.rows[peer].status == Dead && q.rows[peer].hash == q.rows[id].hash ==>
          id <= peer)
            && (forall other :: other in q.rows && q.rows[other].hash == q.rows[id].hash ==> !q.rows[other].Active())))
  }

  /** The rows that `revive_dead` selects; `ids` is None for all of them. */
  function ToRevive(q: Queue, ids: Option<set<nat>>): set<nat> {
    set id | id in q.rows && Revivable(q, id) && (ids.None? || id in ids.value)
  }

  /** `revive_dead`. */
  function Revived(q: Queue, ids: Option<set<nat>>): Queue {
    q.(rows := map id | id in q.rows ::
      if id in ToRevive(q, ids)
      then Released(q.rows[id], Pending).(attempts := 0, notBefore := None)
      else q.rows[id])
  }

  /** The row is dead and listed, and it has no hash, or else no row of its hash is active or dead and older. */
  ghost predicate Returns(q: Queue, ids: Option<set<nat>>, id: nat) {
    && id in q.rows && q.rows[id].status == Dead && (ids.Some? ==> id in ids.value)
    && (q.rows[id].hash.Some? ==>
          forall row :: row in q.rows && q.rows[row].hash == q.rows[id].hash ==>
            q.rows[row].status == Dead && id <= row)
  }

  /** A revival makes exactly those rows pending again, with all their attempts, and leaves the others alone. */
  lemma RevivalReturns(q: Queue, ids: Option<set<nat>>, id: nat)
    requires id in q.rows
    ensures Revived(q, ids).rows.Keys == q.rows.Keys && Revived(q, ids).nextId == q.nextId
    ensures var row := q.rows[id];
      Revived(q, ids).rows[id]
      == if Returns(q, ids, id)
         then Row(row.payload, row.hash, row.created, Pending, 0, None, None, None, row.proposal)
         else row
    ensures id in ToRevive(q, ids) <==> Returns(q, ids, id)
  {
  }

  // ------------------------------------------------------------------
  // At most one active row per hash
  // ------------------------------------------------------------------

  predicate SameActiveHash(a: Row, b: Row) {
    a.Active() && b.Active() && a.hash.Some? && a.hash == b.hash
  }

  /** What the partial unique index demands. */
  ghost predicate UniqueActive(q: Queue) {
    forall a, b :: a in q.rows && b in q.rows && SameActiveHash(q.rows[a], q.rows[b]) ==> a == b
  }

  ghost predicate IdsOk(q: Queue) {
    forall id :: id in q.rows ==> id < q.nextId
  }

  datatype Step =
    | Enqueue(payload: string, hash: Digest, created: Option<real>)
    | Claim(maxAttempts: nat, exclude: set<nat>, owner: string, leaseSeconds: real)
    | MarkDone(h: Handle)
    | SaveProposals(h: Handle, json: string)
    | MarkFailed(h: Handle, maxAttempts: nat)
    | MarkQuotaFailed(h: Handle, notBefore: real)
    | ReleaseClaim(h: Handle)
    | Revive(ids: Option<set<nat>>)

  function Apply(q: Queue, step: Step, now: real): Queue {
    match step
    case Enqueue(payload, hash, created) => Enqueued(q, payload, hash, created).0
    case Claim(maxAttempts, exclude, owner, leaseSeconds) => Claimed(q, now, maxAttempts, exclude, owner,
      leaseSeconds).0
    case MarkDone(h) => Done(q, h)
    case SaveProposals(h, json) => Saved(q, h, json)
    case MarkFailed(h, maxAttempts) => Failed(q, h, maxAttempts, now)
    case MarkQuotaFailed(h, notBefore) => Rescheduled(q, h, notBefore, now)
    case ReleaseClaim(h) => ReleasedClaim(q, h)
    case Revive(ids) => Revived(q, ids)
  }

  /** A step at its clock reading. */
  datatype Timed = Timed(at: real, step: Step)

  /** The clock does not run back and leases are positive. */
  predicate Run(clock: real, steps: seq<Timed>)
    decreases |steps|
  {
    steps == [] || (steps[0].at >= clock && (steps[0].step.Claim? ==> steps[0].step.leaseSeconds > 0.0)
      && Run(steps[0].at, steps[1..]))
  }

  function After(q: Queue, steps: seq<Timed>): Queue
    decreases |steps|
  {
    if steps == [] then q else After(Apply(q, steps[0].step, steps[0].at), steps[1..])
  }

  /** A row that is not newly active and keeps its hash breaks no uniqueness. */
  lemma SettlingKeepsUnique(q: Queue, rows: map<nat, Row>)
    requires UniqueActive(q) && IdsOk(q)
    requires forall id :: id in rows ==>
      id in q.rows && rows[id].hash == q.rows[id].hash && (rows[id].Active() ==> q.rows[id].Active())
    ensures UniqueActive(q.(rows := rows)) && IdsOk(q.(rows := rows))
  {
  }

  lemma EnqueueKeepsUnique(q: Queue, payload: string, hash: Digest, created: Option<real>)
    requires UniqueActive(q) && IdsOk(q)
    ensures UniqueActive(Enqueued(q, payload, hash, created).0) && IdsOk(Enqueued(q, payload, hash, created).0)
  {
    if Copies(q, payload, hash) == {} {
      forall id | id in q.rows && q.rows[id].Active() ensures q.rows[id].hash != Some(hash) {
        assert id !in Copies(q, payload, hash);
      }
    }
  }

  /** A revived row is the only dead one of its hash to be revived, and had no active copy. */
  lemma ReviveKeepsUnique(q: Queue, ids: Option<set<nat>>)
    requires UniqueActive(q) && IdsOk(q)
    ensures UniqueActive(Revived(q, ids)) && IdsOk(Revived(q, ids))
  {
    var r := Revived(q, ids);
    forall a, b | a in r.rows && b in r.rows && SameActiveHash(r.rows[a], r.rows[b]) ensures a == b {
      assert q.rows[a].Active() || Revivable(q, a);
      assert q.rows[b].Active() || Revivable(q, b);
    }
  }

  ghost predicate SameHashActive(q: Queue, k: nat, id: nat)
    requires k in q.rows && id in q.rows
  {
    q.rows[k].Active() && q.rows[k].hash == q.rows[id].hash
  }

  /** Reviving every dead row leaves dead only those whose hash is active. */
  lemma BulkRevivalIsComplete(q: Queue)
    ensures var r := Revived(q, None);
      forall id :: id in r.rows && r.rows[id].status == Dead ==>
        r.rows[id].hash.Some? && exists k :: k in r.rows && SameHashActive(r, k, id)
  {
    var r := Revived(q, None);
    forall id | id in r.rows && r.rows[id].status == Dead
      ensures r.rows[id].hash.Some? && exists k :: k in r.rows && SameHashActive(r, k, id)
    {
      if other :| other in q.rows && q.rows[other].hash == q.rows[id].hash && q.rows[other].Active() {
        assert SameHashActive(r, other, id);
      } else {
        var peers := set k | k in q.rows && q.rows[k].status == Dead && q.rows[k].hash == q.rows[id].hash;
        assert id in peers;
        var first := Least(peers);
        assert forall k :: k in q.rows && q.rows[k].status == Dead && q.rows[k].hash == q.rows[id].hash ==> k in peers;
        assert Revivable(q, first) && first in ToRevive(q, None);
        assert SameHashActive(r, first, id);
      }
    }
  }

  lemma StepKeepsUnique(q: Queue, step: Step, now: real)
    requires UniqueActive(q) && IdsOk(q)
    ensures UniqueActive(Apply(q, step, now)) && IdsOk(Apply(q, step, now))
  {
    match step
    case Enqueue(payload, hash, created) => EnqueueKeepsUnique(q, payload, hash, created);
    case Revive(ids) => ReviveKeepsUnique(q, ids);
    case _ => SettlingKeepsUnique(q, Apply(q, step, now).rows);
  }

  /** In every run of the queue, at most one pending or processing row carries a given payload hash. */
  lemma {:induction false} ActiveHashesStayUnique(q: Queue, steps: seq<Timed>)
    requires UniqueActive(q) && IdsOk(q)
    ensures UniqueActive(After(q, steps)) && IdsOk(After(q, steps))
    decreases |steps|
  {
    if steps != [] {
      StepKeepsUnique(q, steps[0].step, steps[0].at);
      ActiveHashesStayUnique(Apply(q, steps[0].step, steps[0].at), steps[1..]);
    }
  }

  /** Enqueueing again returns the same row and changes nothing, until that row is settled. */
  lemma EnqueueIsIdempotent(q: Queue, payload: string, hash: Digest, created: Option<real>, again: Option<real>)
    requires IdsOk(q)
    ensures var (q1, id) := Enqueued(q, payload, hash, created);
      && id in q1.rows && q1.rows[id].Active()
      && Enqueued(q1, payload, hash, again) == (q1, id)
  {
    var (q1, id) := Enqueued(q, payload, hash, created);
    if Copies(q, payload, hash) == {} {
      forall other | other in Copies(q1, payload, hash) ensures other == id {
        assert other != id ==> other in Copies(q, payload, hash);
      }
      assert Copies(q1, payload, hash) == {id};
    }
  }

  // ------------------------------------------------------------------
  // The lease deadline fences old handles
  // ------------------------------------------------------------------

  /** The step acts under this handle. */
  predicate Uses(step: Step, h: Handle) {
    match step
    case MarkDone(k) => k == h
    case SaveProposals(k, _) => k == h
    case MarkFailed(k, _) => k == h
    case MarkQuotaFailed(k, _) => k == h
    case ReleaseClaim(k) => k == h
    case _ => false
  }

  /** The step is a claim that hands out exactly this handle: its row, its owner and its deadline. */
  predicate Grants(q: Queue, t: Timed, h: Handle) {
    t.step.Claim? && Claimed(q, t.at, t.step.maxAttempts, t.step.exclude, t.step.owner, t.step.leaseSeconds).1
      == Some(h)
  }

  /** Some claim of the run hands out this handle again. */
  predicate Reissues(q: Queue, steps: seq<Timed>, h: Handle)
    decreases |steps|
  {
    steps != [] && (Grants(q, steps[0], h) || Reissues(Apply(q, steps[0].step, steps[0].at), steps[1..], h))
  }

  /** In some state of the run, completing under this handle would delete its row. */
  predicate ActsDuring(q: Queue, steps: seq<Timed>, h: Handle)
    decreases |steps|
  {
    Done(q, h) != q || (steps != [] && ActsDuring(Apply(q, steps[0].step, steps[0].at), steps[1..], h))
  }

  /** A handle that is not current becomes so by a claim that hands it out again, and by nothing else. */
  lemma CurrentAgainIffGranted(q: Queue, t: Timed, h: Handle)
    requires h.fence.Some? && !Fenced(q, h)
    ensures Fenced(Apply(q, t.step, t.at), h) <==> Grants(q, t, h)
  {
  }

  /**
  An old handle acts again if and only if some later claim hands out the very same handle: the
  same row to the same owner with the same deadline.
  */
  lemma {:induction false} OldHandleActsIffReissued(q: Queue, steps: seq<Timed>, h: Handle)
    requires h.fence.Some? && !Fenced(q, h)
    ensures ActsDuring(q, steps, h) <==> Reissues(q, steps, h)
    decreases |steps|
  {
    if steps != [] {
      var next := Apply(q, steps[0].step, steps[0].at);
      CurrentAgainIffGranted(q, steps[0], h);
      if Grants(q, steps[0], h) {
      } else {
        OldHandleActsIffReissued(next, steps[1..], h);
      }
    }
  }

  /** Until it is handed out again, whatever an old handle tries after any run changes nothing. */
  lemma {:induction false} UnissuedHandleIsInert(q: Queue, steps: seq<Timed>, h: Handle, step: Step, now: real)
    requires h.fence.Some? && !Fenced(q, h) && !Reissues(q, steps, h) && Uses(step, h)
    ensures !Fenced(After(q, steps), h) && Apply(After(q, steps), step, now) == After(q, steps)
    decreases |steps|
  {
    if steps == [] {
    } else {
      CurrentAgainIffGranted(q, steps[0], h);
      UnissuedHandleIsInert(Apply(q, steps[0].step, steps[0].at), steps[1..], h, step, now);
    }
  }

  /** Completing, failing, rescheduling or releasing gives the handle up. */
  lemma GivingUpUnfences(q: Queue, h: Handle, step: Step, now: real)
    requires Uses(step, h) && !step.SaveProposals?
    ensures !Fenced(Apply(q, step, now), h)
  {
  }

  /** The deadline of the handle has passed. */
  predicate Expired(h: Handle, clock: real) {
    h.fence.Some? && h.fence.value <= clock
  }

  /**
  Reclaiming a row, even for the same owner, happens after the old deadline and takes the row from the old
  handle.
  */
  lemma ReclaimUnfences(q: Queue, t: Timed, h: Handle, k: Handle)
    requires h.fence.Some? && Fenced(q, h) && t.step.Claim? && t.step.leaseSeconds > 0.0
    requires Grants(q, t, k) && k.id == h.id
    ensures !Fenced(Apply(q, t.step, t.at), h) && Expired(h, t.at)
  {
  }

  /** With a positive lease a deadline that has passed is never handed out again. */
  lemma {:induction false} ExpiredIsNeverReissued(q: Queue, clock: real, steps: seq<Timed>, h: Handle)
    requires Expired(h, clock) && Run(clock, steps)
    ensures !Reissues(q, steps, h)
    decreases |steps|
  {
    if steps != [] {
      ExpiredIsNeverReissued(Apply(q, steps[0].step, steps[0].at), steps[0].at, steps[1..], h);
    }
  }

  /**
  Once an expired claim was reclaimed, or given up and then expired, the old handle never again
  completes, fails, reschedules, releases or saves on that row, whatever else happens to it.
  */
  lemma ExpiredHandleIsInert(q: Queue, clock: real, steps: seq<Timed>, h: Handle, step: Step, now: real)
    requires Expired(h, clock) && !Fenced(q, h) && Run(clock, steps) && Uses(step, h)
    ensures Apply(After(q, steps), step, now) == After(q, steps)
  {
    ExpiredIsNeverReissued(q, clock, steps, h);
    UnissuedHandleIsInert(q, steps, h, step, now);
  }

  /**
  Before the deadline the fence can fail: a claim given up and taken again by the same owner, with a
  lease that ends at the same moment, is the old handle, and the old handle completes the new claim.
  */
  lemma SameDeadlineAliases(now: real, leaseSeconds: real, later: real, again: real)
    requires leaseSeconds > 0.0 && later >= now && again > 0.0 && later + again == now + leaseSeconds
    ensures var row := Row("p", Some("d"), Some(now), Pending, 0, None, None, None, None);
      var q := Queue(map[0 := row], 1);
      var (held, h) := Claimed(q, now, 3, {}, "w", leaseSeconds);
      && h.Some? && Fenced(held, h.value)
      && var free := ReleasedClaim(held, h.value);
         var reclaim := Timed(later, Claim(3, {}, "w", again));
         && !Fenced(free, h.value) && Run(now, [reclaim]) && Reissues(free, [reclaim], h.value)
         && Done(After(free, [reclaim]), h.value).rows == map[]
  {
    var row := Row("p", Some("d"), Some(now), Pending, 0, None, None, None, None);
    var q := Queue(map[0 := row], 1);
    assert ClaimableIds(q, now, 3, {}) == {0};
    var (held, h) := Claimed(q, now, 3, {}, "w", leaseSeconds);
    assert ReleasedClaim(held, h.value) == q;
    var reclaim := Timed(later, Claim(3, {}, "w", again));
    assert ClaimableIds(q, later, 3, {}) == {0};
    assert [reclaim][1..] == [];
    var after := Apply(q, reclaim.step, later);
    assert Grants(q, reclaim, h.value) && After(q, [reclaim]) == After(after, []) == after;
    assert after.rows - {0} == map[];
  }

  // ------------------------------------------------------------------
  // The migration
  // ------------------------------------------------------------------

  /** What the migration leaves of one row: a later active copy keeps its old hash, everyone else is hashed. */
  predicate Skipped(rows: map<nat, Row>, digest: string -> Digest, id: nat) {
    && id in rows && rows[id].Active()
    && exists first ::
      && first in rows && first < id && rows[first].Active()
      && digest(rows[first].payload) == digest(rows[id].payload)
  }

  function Migrated(rows: map<nat, Row>, digest: string -> Digest): map<nat, Row> {
    map id | id in rows :: if Skipped(rows, digest, id) then rows[id]
      else rows[id].(hash := Some(digest(rows[id].payload)))
  }

  /** The digests of the active rows already seen. */
  ghost predicate SeenHashes(rows: map<nat, Row>, digest: string -> Digest, left: set<nat>, hashes: set<Digest>) {
    forall d :: d in hashes <==>
      exists id :: id in rows && id !in left && rows[id].Active() && digest(rows[id].payload) == d
  }

  /** The rows before the loop's position are migrated, the rest untouched. */
  ghost predicate MigratedSoFar(rows: map<nat, Row>, digest: string -> Digest, left: set<nat>, out: map<nat, Row>) {
    && left <= rows.Keys && out.Keys == rows.Keys
    && (forall done, id :: done in rows && done !in left && id in left ==> done < id)
    && (forall id :: id in rows ==> out[id] == if id in left then rows[id] else Migrated(rows, digest)[id])
  }

  lemma SkippedIffSeen(rows: map<nat, Row>, digest: string -> Digest, left: set<nat>, hashes: set<Digest>,
                       out: map<nat, Row>, id: nat)
    requires MigratedSoFar(rows, digest, left, out) && SeenHashes(rows, digest, left, hashes)
    requires id in left && (forall x :: x in left ==> id <= x) && rows[id].Active()
    ensures digest(rows[id].payload) in hashes <==> Skipped(rows, digest, id)
  {
  }

  lemma SeenOneMore(rows: map<nat, Row>, digest: string -> Digest, left: set<nat>, hashes: set<Digest>, id: nat)
    requires SeenHashes(rows, digest, left, hashes) && left <= rows.Keys && id in left
    ensures SeenHashes(rows, digest, left - {id},
                       if rows[id].Active() then hashes + {digest(rows[id].payload)} else hashes)
  {
    var more := if rows[id].Active() then hashes + {digest(rows[id].payload)} else hashes;
    forall d ensures d in more <==>
      exists k :: k in rows && k !in left - {id} && rows[k].Active() && digest(rows[k].payload) == d
    {
      if d in hashes {
        var k :| k in rows && k !in left && rows[k].Active() && digest(rows[k].payload) == d;
        assert k !in left - {id};
      }
    }
  }

  /** The loop of `_ensure_columns` over the rows in id order. */
  method MigrateHashes(rows: map<nat, Row>, digest: string -> Digest) returns (out: map<nat, Row>)
    ensures out == Migrated(rows, digest)
  {
    out := rows;
    var left := rows.Keys;
    var activeHashes: set<Digest> := {};
    while left != {}
      invariant MigratedSoFar(rows, digest, left, out) && SeenHashes(rows, digest, left, activeHashes)
      decreases left
    {
      var id := Least(left);
      var d := digest(rows[id].payload);
      SeenOneMore(rows, digest, left, activeHashes, id);
      if rows[id].Active() {
        SkippedIffSeen(rows, digest, left, activeHashes, out, id);
      }
      if !(rows[id].Active() && d in activeHashes) {
        out := out[id := out[id].(hash := Some(d))];
      }
      if rows[id].Active() {
        activeHashes := activeHashes + {d};
      }
      left := left - {id};
    }
  }

  /** The oldest active row with a digest is never skipped. */
  lemma OldestCopyIsHashed(rows: map<nat, Row>, digest: string -> Digest, id: nat) returns (first: nat)
    requires id in rows && rows[id].Active()
    ensures first in rows && rows[first].Active() && first <= id && !Skipped(rows, digest, first)
    ensures digest(rows[first].payload) == digest(rows[id].payload)
  {
    var copies := set k | k in rows && rows[k].Active() && digest(rows[k].payload) == digest(rows[id].payload);
    assert id in copies;
    first := Least(copies);
    assert forall k :: k in rows && rows[k].Active() && digest(rows[k].payload) == digest(rows[first].payload) ==>
      k in copies;
  }

  /**
  A skipped row keeps a hash that clashes: it is the digest of some active row's text, or another
  skipped row keeps it too.
  */
  ghost predicate Clashes(rows: map<nat, Row>, digest: string -> Digest, id: nat) {
    && Skipped(rows, digest, id) && rows[id].hash.Some?
    && ((exists k :: k in rows && rows[k].Active() && Some(digest(rows[k].payload)) == rows[id].hash)
        || (exists other :: other != id && Skipped(rows, digest, other) && rows[other].hash == rows[id].hash))
  }

  lemma NoClashMakesUnique(rows: map<nat, Row>, digest: string -> Digest, a: nat, b: nat)
    requires forall id :: !Clashes(rows, digest, id)
    requires a in rows && b in rows && a < b
    ensures var out := Migrated(rows, digest); !SameActiveHash(out[a], out[b])
  {
    assert !Clashes(rows, digest, a) && !Clashes(rows, digest, b);
  }

  /**
  From any table, the migrated active hashes are unique, so that the index can be created, if and
  only if no later active copy keeps a hash that clashes.
  */
  lemma MigrationEstablishesUniqueIff(rows: map<nat, Row>, digest: string -> Digest, nextId: nat)
    ensures UniqueActive(Queue(Migrated(rows, digest), nextId)) <==> forall id :: !Clashes(rows, digest, id)
  {
    var out := Migrated(rows, digest);
    if forall id :: !Clashes(rows, digest, id) {
      forall a, b | a in out && b in out && SameActiveHash(out[a], out[b]) ensures a == b {
        if a < b {
          NoClashMakesUnique(rows, digest, a, b);
        } else if b < a {
          NoClashMakesUnique(rows, digest, b, a);
        }
      }
    }
    if id :| Clashes(rows, digest, id) {
      if other :| other != id && Skipped(rows, digest, other) && rows[other].hash == rows[id].hash {
        assert SameActiveHash(out[other], out[id]);
      } else {
        var k :| k in rows && rows[k].Active() && Some(digest(rows[k].payload)) == rows[id].hash;
        var first := OldestCopyIsHashed(rows, digest, k);
        assert SameActiveHash(out[first], out[id]) && first != id;
      }
    }
  }

  /** A column the migration has just added is NULL throughout, and then the index can always be created. */
  lemma FreshColumnMigrates(rows: map<nat, Row>, digest: string -> Digest, nextId: nat)
    requires forall id :: id in rows ==> rows[id].hash.None?
    ensures UniqueActive(Queue(Migrated(rows, digest), nextId))
  {
    MigrationEstablishesUniqueIff(rows, digest, nextId);
  }

  /** Two active copies of one text, the later already hashed: both end with that hash. */
  lemma HashedCopyBlocksMigration(digest: string -> Digest)
    ensures var copy := Row("p", None, None, Pending, 0, None, None, None, None);
      !UniqueActive(Queue(Migrated(map[0 := copy, 1 := copy.(hash := Some(digest("p")))], digest), 2))
  {
    var copy := Row("p", None, None, Pending, 0, None, None, None, None);
    var rows := map[0 := copy, 1 := copy.(hash := Some(digest("p")))];
    assert rows[0].Active() && Skipped(rows, digest, 1);
    assert Clashes(rows, digest, 1);
    MigrationEstablishesUniqueIff(rows, digest, 2);
  }

  /** A later copy whose hash is that of a role-structured payload keeps it and does no harm. */
  lemma RoleStructuredCopyMigrates(digest: string -> Digest, structured: Digest)
    requires structured != digest("p")
    ensures var copy := Row("p", None, None, Pending, 0, None, None, None, None);
      UniqueActive(Queue(Migrated(map[0 := copy, 1 := copy.(hash := Some(structured))], digest), 2))
  {
    var copy := Row("p", None, None, Pending, 0, None, None, None, None);
    var rows := map[0 := copy, 1 := copy.(hash := Some(structured))];
    MigrationEstablishesUniqueIff(rows, digest, 2);
  }

  // ------------------------------------------------------------------
  // The queue object
  // ------------------------------------------------------------------

  class ExtractQueue {
    var q: Queue

    /** The partial unique index holds and ids are not reused. */
    ghost predicate Valid()
      reads this
    {
      UniqueActive(q) && IdsOk(q)
    }

    constructor (q: Queue)
      requires UniqueActive(q) && IdsOk(q)
      ensures Valid() && this.q == q
    {
      this.q := q;
    }

    /** The row is active, it is the only one with its hash, and enqueueing again would find it. */
    method EnqueuePayload(payload: string, hash: Digest, created: Option<real>) returns (id: nat)
      requires Valid()
      modifies this
      ensures Valid() && (q, id) == Enqueued(old(q), payload, hash, created)
      ensures id in q.rows && q.rows[id].Active() && (q == old(q) <==> id in old(q).rows)
      ensures id in old(q).rows <==> exists copy :: StandsFor(old(q), copy, payload, hash)
      ensures forall copy :: StandsFor(old(q), copy, payload, hash) ==> id <= copy
      ensures forall again :: Enqueued(q, payload, hash, again) == (q, id)
    {
      EnqueueKeepsUnique(q, payload, hash, created);
      forall again ensures Enqueued(Enqueued(q, payload, hash, created).0, payload, hash, again)
        == Enqueued(q, payload, hash, created) {
        EnqueueIsIdempotent(q, payload, hash, created, again);
      }
      var copies := set row | row in q.rows && q.rows[row].status != Dead
                              && (q.rows[row].hash == Some(hash)
                                  || (q.rows[row].hash == None && q.rows[row].payload == payload));
      assert copies == Copies(q, payload, hash);
      assert forall copy :: copy in copies <==> StandsFor(q, copy, payload, hash);
      if copies != {} {
        return Least(copies);
      }
      id := q.nextId;
      q := Queue(q.rows[id := Row(payload, Some(hash), created, Pending, 0, None, None, None, None)], id + 1);
    }

    /** The handle returned is current, no other handle with a deadline is, and no attempt was spent. */
    method NextPending(now: real, maxAttempts: nat, exclude: set<nat>, owner: string, leaseSeconds: real)
      returns (h: Option<Handle>)
      requires Valid()
      modifies this
      ensures Valid() && (q, h) == Claimed(old(q), now, maxAttempts, exclude, owner, leaseSeconds)
      ensures h.None? ==> q == old(q)
      ensures h.None? <==> forall id :: id in old(q).rows && id !in exclude ==>
        !Waits(old(q).rows[id], now, maxAttempts)
      ensures h.Some? ==>
        && h.value.id in old(q).rows && Waits(old(q).rows[h.value.id], now, maxAttempts)
        && forall id :: id in old(q).rows && id !in exclude && Waits(old(q).rows[id], now, maxAttempts) ==>
             h.value.id <= id
      ensures h.Some? ==>
        && Fenced(q, h.value) && h.value.id !in exclude
        && h.value.id in old(q).rows && q.rows[h.value.id].attempts == old(q).rows[h.value.id].attempts
        && forall k: Handle :: k.id == h.value.id && k.fence.Some? && Fenced(q, k) ==> k == h.value
    {
      StepKeepsUnique(q, Claim(maxAttempts, exclude, owner, leaseSeconds), now);
      var due := ClaimableIds(q, now, maxAttempts, exclude);
      assert forall id :: id in due <==> id in q.rows && id !in exclude && Waits(q.rows[id], now, maxAttempts);
      if due == {} {
        return None;
      }
      var id := Least(due);
      var until := now + leaseSeconds;
      q := q.(rows := q.rows[id := q.rows[id].(status := Processing, leaseOwner := Some(owner),
        leaseUntil := Some(until))]);
      h := Some(Handle(id, owner, Some(until)));
    }

    /** The row is gone and its id will not come back, exactly when the handle was current. */
    method Complete(h: Handle) returns (done: bool)
      requires Valid()
      modifies this
      ensures Valid() && q == Done(old(q), h) && done == Fenced(old(q), h)
      ensures if done then h.id !in q.rows && h.id < q.nextId else q == old(q)
    {
      StepKeepsUnique(q, MarkDone(h), 0.0);
      done := Fenced(q, h);
      if done {
        q := q.(rows := q.rows - {h.id});
      }
    }

    /** The row has a snapshot, its first one, and the handle stays current. */
    method Save(h: Handle, json: string) returns (saved: bool)
      requires Valid()
      modifies this
      ensures Valid() && q == Saved(old(q), h, json) && saved == Fenced(old(q), h)
      ensures saved ==>
        && Fenced(q, h)
        && q.rows[h.id].proposal == if old(q).rows[h.id].proposal.Some? then old(q).rows[h.id].proposal else Some(json)
      ensures !saved ==> q == old(q)
    {
      StepKeepsUnique(q, SaveProposals(h, json), 0.0);
      saved := Fenced(q, h);
      if saved && q.rows[h.id].proposal.None? {
        q := q.(rows := q.rows[h.id := q.rows[h.id].(proposal := Some(json))]);
      } else if saved {
        assert q.rows[h.id := q.rows[h.id]] == q.rows;
      }
    }

    /** Returns the new attempt count, or zero when the handle is not current; the handle is given up. */
    method Fail(h: Handle, maxAttempts: nat, now: real) returns (attempts: nat)
      requires Valid()
      modifies this
      ensures Valid() && q == Failed(old(q), h, maxAttempts, now) && !Fenced(q, h)
      ensures attempts == if Fenced(old(q), h) then old(q).rows[h.id].attempts + 1 else 0
      ensures attempts > 0 ==> h.id in q.rows && q.rows[h.id].attempts == attempts
                               && (q.rows[h.id].status == Pending ==> attempts < maxAttempts)
      ensures attempts == 0 ==> q == old(q)
    {
      StepKeepsUnique(q, MarkFailed(h, maxAttempts), now);
      if !Fenced(q, h) {
        return 0;
      }
      var row := q.rows[h.id];
      attempts := row.attempts + 1;
      var aged := row.created.Some? && now - row.created.value >= 172800.0;
      var status := if aged || attempts >= maxAttempts then Dead else Pending;
      q := q.(rows := q.rows[h.id := row.(attempts := attempts, status := status, leaseOwner := None,
        leaseUntil := None)]);
    }

    /** Returns whether the row was rescheduled rather than buried; no attempt is spent and the handle is given up. */
    method FailOnQuota(h: Handle, notBefore: real, now: real) returns (rescheduled: bool)
      requires Valid()
      modifies this
      ensures Valid() && q == Rescheduled(old(q), h, notBefore, now) && !Fenced(q, h)
      ensures rescheduled == (Fenced(old(q), h) && !AgeExceeded(old(q).rows[h.id], now))
      ensures rescheduled ==>
        && h.id in q.rows && q.rows[h.id].attempts == old(q).rows[h.id].attempts
        && forall at, maxAttempts :: Claimable(q.rows[h.id], at, maxAttempts) ==> at >= notBefore
    {
      StepKeepsUnique(q, MarkQuotaFailed(h, notBefore), now);
      if !Fenced(q, h) {
        return false;
      }
      var row := q.rows[h.id].(leaseOwner := None, leaseUntil := None);
      rescheduled := row.created == None || now - row.created.value < 172800.0;
      row := if rescheduled then row.(status := Pending, notBefore := Some(notBefore))
        else row.(status := Dead, notBefore := None);
      q := q.(rows := q.rows[h.id := row]);
    }

    /** The row is pending again with its attempts, and the handle is given up. */
    method Release(h: Handle) returns (released: bool)
      requires Valid()
      modifies this
      ensures Valid() && q == ReleasedClaim(old(q), h) && released == Fenced(old(q), h) && !Fenced(q, h)
      ensures released ==>
        h.id in q.rows && q.rows[h.id].status == Pending && q.rows[h.id].attempts == old(q).rows[h.id].attempts
      ensures !released ==> q == old(q)
    {
      StepKeepsUnique(q, ReleaseClaim(h), 0.0);
      released := Fenced(q, h);
      if released {
        q := q.(rows := q.rows[h.id := q.rows[h.id].(status := Pending, leaseOwner := None, leaseUntil := None)]);
      }
    }

    /** Returns how many rows were revived; after a bulk revival a row is still dead only if its hash is active. */
    method ReviveDead(ids: Option<set<nat>>) returns (revived: nat)
      requires Valid()
      modifies this
      ensures Valid() && q == Revived(old(q), ids) && revived == |ToRevive(old(q), ids)|
      ensures ids.None? ==> forall id :: id in q.rows && q.rows[id].status == Dead ==>
        q.rows[id].hash.Some? && exists k :: k in q.rows && SameHashActive(q, k, id)
    {
      ReviveKeepsUnique(q, ids);
      if ids.None? {
        BulkRevivalIsComplete(q);
      }
      var chosen := ToRevive(q, ids);
      revived := |chosen|;
      q := q.(rows := map id | id in q.rows ::
        if id in chosen
        then q.rows[id].(status := Pending, attempts := 0, notBefore := None, leaseOwner := None, leaseUntil := None)
        else q.rows[id]);
    }
  }
}
