/** The leased extraction queue and the worker that drains it. */
module ExtractionProcessor {
  import opened Prelude

  // The functions are the single committed transactions of the processor, on the
  // queue table as a value; the class is the processor itself, whose methods run
  // those transactions in place.

  type Token = nat
  type Table = map<nat, Row>

  const MAX_RETRY_DELAY_SECONDS := 300.0
  const MAX_RETRY_AFTER_SECONDS := 3600.0
  const MAX_RATE_LIMIT_AGE_SECONDS := 172800.0
  const DEFAULT_RATE_LIMIT_RETRY_SECONDS := 60.0
  const CREDENTIAL_REJECTED := "proposal_credential_rejected"

  datatype Config = Config(maxAttempts: nat, leaseSeconds: real, retryDelay: real) {
    predicate Valid() {
      maxAttempts > 0 && leaseSeconds > 0.0 && retryDelay >= 0.0
    }
  }

  datatype Status = Pending | Processing | Dead

  /** A creation stamp: no text in it, text that SQLite's `strftime` cannot read, or the moment it reads. */
  datatype Stamp = Missing | Unparsable | At(at: real)

  /** What a worker decodes: an extraction envelope, or something it rejects with an error code. */
  datatype Payload = Envelope(text: string) | Undecodable(code: string)

  /** One queue row. */
  datatype Row = Row(
    payload: Payload,
    created: Stamp,
    status: Status,
    attempts: nat,
    lastError: Option<string>,
    notBefore: Option<real>,
    leaseOwner: Option<string>,
    leaseUntil: Option<real>,
    leaseToken: Option<Token>,
    proposalJson: Option<string>,
    proposalHash: Option<string>)

  datatype Claim = Claim(id: nat, payload: Payload, attempts: nat, token: Token)

  /** How an attempt failed, as `process_one` passes it to `_fail`. */
  datatype Failure = Failure(code: string, permanent: bool, consumesAttempt: bool, retryAfter: Option<real>) {
    predicate AttemptFree() {
      !consumesAttempt && !permanent
    }
  }

  function Enqueued(payload: Payload, created: Stamp): Row {
    Row(payload, created, Pending, 0, None, None, None, None, None, None, None)
  }

  predicate Elapsed(at: Option<real>, now: real) {
    at.Some? && at.value <= now
  }

  predicate HeldBy(row: Row, owner: string, token: Token) {
    row.status == Processing && row.leaseOwner == Some(owner) && row.leaseToken == Some(token)
  }

  predicate Holds(rows: Table, id: nat, owner: string, token: Token) {
    id in rows && HeldBy(rows[id], owner, token)
  }

  /** The rows that a claim at `now` may take. */
  predicate Claimable(row: Row, now: real, cfg: Config) {
    && row.attempts < cfg.maxAttempts
    && (row.notBefore.None? || row.notBefore.value <= now)
    && (row.status == Pending || (row.status == Processing && Elapsed(row.leaseUntil, now)))
  }

  /** The rows that the sweep before a claim sends to the dead letters. */
  predicate Exhausted(row: Row, now: real, cfg: Config) {
    row.status == Processing && Elapsed(row.leaseUntil, now) && row.attempts >= cfg.maxAttempts
  }

  function Buried(row: Row): Row {
    row.(status := Dead, lastError := Some("attempts_exhausted"),
         leaseOwner := None, leaseUntil := None, leaseToken := None)
  }

  function Sweep(rows: Table, now: real, cfg: Config): Table {
    map id | id in rows :: if Exhausted(rows[id], now, cfg) then Buried(rows[id]) else rows[id]
  }

  function ClaimableIds(rows: Table, now: real, cfg: Config): set<nat> {
    set id | id in rows && Claimable(rows[id], now, cfg)
  }

  function Leased(row: Row, now: real, cfg: Config, owner: string, token: Token): Row {
    row.(status := Processing, attempts := row.attempts + 1, leaseOwner := Some(owner),
         leaseUntil := Some(now + cfg.leaseSeconds), leaseToken := Some(token))
  }

  /** `_claim`: sweep, then lease the oldest claimable row. */
  function ClaimNext(rows: Table, now: real, cfg: Config, owner: string, token: Token): (Table, Option<Claim>) {
    var swept := Sweep(rows, now, cfg);
    var due := ClaimableIds(swept, now, cfg);
    if due == {} then (swept, None)
    else
      var id := Least(due);
      var row := Leased(swept[id], now, cfg, owner, token);
      (swept[id := row], Some(Claim(id, row.payload, row.attempts, token)))
  }

  /** A processing row whose lease ran out on its last attempt, column by column. */
  lemma SweepBuriesSpentLeases(rows: Table, now: real, cfg: Config, id: nat)
    requires id in rows
    ensures id in Sweep(rows, now, cfg)
    ensures var row := rows[id];
      Sweep(rows, now, cfg)[id]
      == if row.status == Processing && row.leaseUntil.Some? && row.leaseUntil.value <= now
            && cfg.maxAttempts <= row.attempts
         then Row(row.payload, row.created, Dead, row.attempts, Some("attempts_exhausted"), row.notBefore, None, None,
                  None, row.proposalJson, row.proposalHash)
         else row
  {
  }

  /** The row waits for a worker: it has attempts left, its time has come, and nobody holds it any more. */
  ghost predicate Waits(row: Row, now: real, cfg: Config) {
    && row.status != Dead && row.attempts < cfg.maxAttempts
    && (row.notBefore.Some? ==> row.notBefore.value <= now)
    && (row.status == Processing ==> row.leaseUntil.Some? && row.leaseUntil.value <= now)
  }

  /** A claim takes the oldest row that waits, and returns nothing exactly when none does. */
  lemma ClaimTakesOldestWaiting(rows: Table, now: real, cfg: Config, owner: string, token: Token)
    ensures var (after, claim) := ClaimNext(rows, now, cfg, owner, token);
      && after.Keys == rows.Keys
      && (claim.None? <==> forall id :: id in rows ==> !Waits(rows[id], now, cfg))
      && (forall id :: id in rows && (claim.Some? ==> id != claim.value.id) ==> after[id] == Sweep(rows, now, cfg)[id])
      && (claim.Some? ==>
            var id := claim.value.id;
            && id in rows && Waits(rows[id], now, cfg)
            && (forall other :: other in rows && Waits(rows[other], now, cfg) ==> id <= other)
            && claim.value == Claim(id, rows[id].payload, rows[id].attempts + 1, token)
            && after[id] == Row(rows[id].payload, rows[id].created, Processing, rows[id].attempts + 1,
                 rows[id].lastError, rows[id].notBefore, Some(owner), Some(now + cfg.leaseSeconds), Some(token),
                 rows[id].proposalJson, rows[id].proposalHash))
  {
    var due := ClaimableIds(Sweep(rows, now, cfg), now, cfg);
    assert forall id :: id in due <==> id in rows && Waits(rows[id], now, cfg);
  }

  /** `_renew`: only an unexpired lease is extended. */
  function Renewed(rows: Table, id: nat, owner: string, token: Token, now: real, cfg: Config): (Table, bool) {
    if Holds(rows, id, owner, token) && rows[id].leaseUntil.Some? && rows[id].leaseUntil.value > now
    then (rows[id := rows[id].(leaseUntil := Some(now + cfg.leaseSeconds))], true)
    else (rows, false)
  }

  function Min(a: real, b: real): real { if a <= b then a else b }

  function Max(a: real, b: real): real { if a >= b then a else b }

  /** Attempts recorded by a failure: an attempt-free failure hands its attempt back. */
  function FailedAttempts(attempts: nat, f: Failure): nat {
    if f.AttemptFree() && attempts > 0 then attempts - 1 else attempts
  }

  /** Whether a failure observed at `now` is terminal. */
  predicate FailureKills(attempts: nat, created: Stamp, f: Failure, now: real, cfg: Config) {
    || f.permanent
    || FailedAttempts(attempts, f) >= cfg.maxAttempts
    || (f.AttemptFree() && created.At? && now - created.at >= MAX_RATE_LIMIT_AGE_SECONDS)
  }

  function RetryDelay(attempts: nat, f: Failure, cfg: Config): real {
    var recorded := FailedAttempts(attempts, f);
    var backoff := Min(cfg.retryDelay * Pow2(if recorded > 0 then recorded - 1 else 0) as real,
      MAX_RETRY_DELAY_SECONDS);
    var floored := if f.AttemptFree() then Max(backoff, DEFAULT_RATE_LIMIT_RETRY_SECONDS) else backoff;
    if f.retryAfter.Some? && f.retryAfter.value >= 0.0
    then Max(floored, Min(f.retryAfter.value, MAX_RETRY_AFTER_SECONDS))
    else floored
  }

  /** The row after a failure; `read` is the attempt count seen by the SELECT, `seen` and `now` the two clock reads. */
  function Failed(row: Row, read: nat, f: Failure, seen: real, now: real, cfg: Config): Row {
    var dead := FailureKills(read, row.created, f, seen, cfg);
    var scrub := f.code == CREDENTIAL_REJECTED;
    row.(attempts := FailedAttempts(read, f), lastError := Some(f.code),
         status := if dead then Dead else Pending,
         notBefore := if dead then None else Some(now + RetryDelay(read, f, cfg)),
         leaseOwner := None, leaseUntil := None, leaseToken := None,
         proposalJson := if scrub then None else row.proposalJson,
         proposalHash := if scrub then None else row.proposalHash)
  }

  /**
  A delay that is not too short: not shorter than the backoff of the recorded attempts or five
  minutes, than a minute if the attempt is handed back, and than what the provider asks for or an hour.
  */
  ghost predicate LongEnough(delay: real, recorded: nat, f: Failure, cfg: Config) {
    && (cfg.retryDelay * Pow2(if recorded <= 1 then 0 else recorded - 1) as real <= delay || 300.0 <= delay)
    && (!f.consumesAttempt && !f.permanent ==> 60.0 <= delay)
    && (f.retryAfter.Some? && 0.0 <= f.retryAfter.value ==> f.retryAfter.value <= delay || 3600.0 <= delay)
  }

  /**
  What a failure leaves of a row, column by column. It is dead if and only if the failure is
  permanent, the recorded attempts reach the maximum, or an attempt-free failure meets a stamp 48
  hours old; else it waits for the shortest delay that is long enough.
  */
  ghost predicate RecordsFailure(was: Row, row: Row, read: nat, f: Failure, seen: real, now: real, cfg: Config) {
    && row.attempts == (if f.consumesAttempt || f.permanent || read == 0 then read else read - 1)
    && (row.status == Dead <==>
          || f.permanent || cfg.maxAttempts <= row.attempts
          || (!f.consumesAttempt && was.created.At? && 172800.0 <= seen - was.created.at))
    && (row.status == Dead ==> row.notBefore.None?)
    && (row.status != Dead ==>
          && row.status == Pending && row.notBefore.Some?
          && LongEnough(row.notBefore.value - now, row.attempts, f, cfg)
          && forall delay :: LongEnough(delay, row.attempts, f, cfg) ==> row.notBefore.value - now <= delay)
    && row.lastError == Some(f.code) && row.payload == was.payload && row.created == was.created
    && row.leaseOwner.None? && row.leaseUntil.None? && row.leaseToken.None?
    && row.proposalJson == (if f.code == "proposal_credential_rejected" then None else was.proposalJson)
    && row.proposalHash == (if f.code == "proposal_credential_rejected" then None else was.proposalHash)
  }

  lemma KillsIff(attempts: nat, created: Stamp, f: Failure, now: real, cfg: Config)
    ensures var recorded := if f.consumesAttempt || f.permanent || attempts == 0 then attempts else attempts - 1;
      && FailedAttempts(attempts, f) == recorded
      && (FailureKills(attempts, created, f, now, cfg) <==>
            || f.permanent || cfg.maxAttempts <= recorded
            || (!f.consumesAttempt && created.At? && 172800.0 <= now - created.at))
  {
  }

  lemma DelayIsLeast(attempts: nat, f: Failure, cfg: Config)
    ensures var recorded, delay := FailedAttempts(attempts, f), RetryDelay(attempts, f, cfg);
      LongEnough(delay, recorded, f, cfg) && forall other :: LongEnough(other, recorded, f, cfg) ==> delay <= other
  {
    var recorded := FailedAttempts(attempts, f);
    var backoff := cfg.retryDelay * Pow2(if recorded <= 1 then 0 else recorded - 1) as real;
    assert backoff == cfg.retryDelay * Pow2(if recorded > 0 then recorded - 1 else 0) as real;
  }

  lemma FailureIsRecorded(row: Row, read: nat, f: Failure, seen: real, now: real, cfg: Config)
    ensures RecordsFailure(row, Failed(row, read, f, seen, now, cfg), read, f, seen, now, cfg)
  {
    KillsIff(read, row.created, f, seen, cfg);
    DelayIsLeast(read, f, cfg);
  }

  /** The UPDATE of `_fail`, which matches owner and token but not the status. */
  function FailureRecorded(rows: Table, id: nat, owner: string, token: Token,
                           read: nat, f: Failure, seen: real, now: real, cfg: Config): Table
  {
    if id in rows && rows[id].leaseOwner == Some(owner) && rows[id].leaseToken == Some(token)
    then rows[id := Failed(rows[id], read, f, seen, now, cfg)]
    else rows
  }

  /** `_persist_snapshot`: write-once. */
  function Persisted(rows: Table, id: nat, owner: string, token: Token, json: string, hash: string): (Table, bool) {
    if Holds(rows, id, owner, token) && rows[id].proposalJson.None? && rows[id].proposalHash.None?
    then (rows[id := rows[id].(proposalJson := Some(json), proposalHash := Some(hash))], true)
    else (rows, false)
  }

  /** What an erasure leaves of a linked row: neither its text nor its snapshot, but its status and its lease. */
  function Scrubbed(row: Row): Row {
    row.(payload := Undecodable("invalid_envelope"), lastError := None, proposalJson := None, proposalHash := None)
  }

  function RowsScrubbed(rows: Table, linked: set<nat>): Table {
    map id | id in rows :: if id in linked then Scrubbed(rows[id]) else rows[id]
  }

  /** Of a linked row an erasure keeps the status, the attempts, the times and the lease, and nothing else. */
  lemma ErasureKeepsLease(rows: Table, linked: set<nat>, id: nat)
    requires id in rows
    ensures RowsScrubbed(rows, linked).Keys == rows.Keys
    ensures var row, left := rows[id], RowsScrubbed(rows, linked)[id];
      && (id !in linked ==> left == row)
      && (id in linked ==>
            left == Row(Undecodable("invalid_envelope"), row.created, row.status, row.attempts, None, row.notBefore,
                        row.leaseOwner, row.leaseUntil, row.leaseToken, None, None))
  {
  }

  /** `_delete_claimed_row`. */
  function Completed(rows: Table, id: nat, owner: string, token: Token): Table {
    if Holds(rows, id, owner, token) then rows - {id} else rows
  }

  /** What `_load_snapshot` finds: nothing yet, a snapshot to replay, a broken pair, or a lost lease. */
  datatype Snapshot = Lost | Absent | Broken(code: string) | Stored(json: string, hash: string)

  function Loaded(rows: Table, id: nat, owner: string, token: Token): Snapshot {
    if !Holds(rows, id, owner, token) then Lost
    else if rows[id].proposalJson.Some? && rows[id].proposalHash.None? then Broken("legacy_extraction_quarantined")
    else if rows[id].proposalJson.None? != rows[id].proposalHash.None? then Broken("invalid_snapshot")
    else if rows[id].proposalJson.None? then Absent
    else Stored(rows[id].proposalJson.value, rows[id].proposalHash.value)
  }

  // ------------------------------------------------------------------
  // The write batch
  // ------------------------------------------------------------------

  type Request = string
  /** The outcome of a write; a raised exception rolls the batch back and fails the job. */
  datatype Outcome = Accepted | Rejected | NeedsReview | Raises(failure: Failure)

  /** The outcome of a request in its batch: on the n-th try, after the writes before it. */
  type Policy = (nat, seq<Request>, Request) -> Outcome

  /** Outcomes of one batch try: the batch stops, and rolls back, at the first request the policy refuses. */
  function BatchOutcomes(policy: Policy, attempt: nat, requests: seq<Request>, done: nat): (outcomes: seq<Outcome>)
    requires done <= |requests|
    ensures |outcomes| <= |requests| - done
    ensures forall i :: 0 <= i < |outcomes| ==> outcomes[i] == policy(attempt, requests[..done + i], requests[done + i])
    ensures forall i :: 0 <= i < |outcomes| - 1 ==> outcomes[i] == Accepted
    ensures |outcomes| < |requests| - done ==> outcomes != [] && outcomes[|outcomes| - 1] != Accepted
    decreases |requests| - done
  {
    if done == |requests| then []
    else
      var outcome := policy(attempt, requests[..done], requests[done]);
      if outcome != Accepted then [outcome]
      else [outcome] + BatchOutcomes(policy, attempt, requests, done + 1)
  }

  predicate Commits(outcomes: seq<Outcome>) {
    forall i :: 0 <= i < |outcomes| ==> outcomes[i] == Accepted
  }

  /** Requests kept for the next try: `zip(pending, responses)` stops at the shorter list. */
  function Survivors(requests: seq<Request>, outcomes: seq<Outcome>): (kept: seq<Request>)
    requires |outcomes| <= |requests|
  {
    if outcomes == [] then []
    else (if outcomes[0] == Accepted then [requests[0]] else []) + Survivors(requests[1..], outcomes[1..])
  }

  /** Every refused try keeps exactly the requests before the refused one, so the loop shrinks. */
  lemma {:induction false} SurvivorsArePrefix(requests: seq<Request>, outcomes: seq<Outcome>)
    requires 0 < |outcomes| <= |requests|
    requires outcomes[|outcomes| - 1] != Accepted
    requires forall i :: 0 <= i < |outcomes| - 1 ==> outcomes[i] == Accepted
    ensures Survivors(requests, outcomes) == requests[..|outcomes| - 1]
  {
    if |outcomes| == 1 {
      assert outcomes[1..] == [];
    } else {
      SurvivorsArePrefix(requests[1..], outcomes[1..]);
      assert [requests[0]] + requests[1..][..|outcomes| - 2] == requests[..|outcomes| - 1];
    }
  }

  lemma SurvivorsOfPrefix(requests: seq<Request>, count: nat, outcomes: seq<Outcome>)
    requires 0 < |outcomes| <= count <= |requests|
    requires outcomes[|outcomes| - 1] != Accepted
    requires forall i :: 0 <= i < |outcomes| - 1 ==> outcomes[i] == Accepted
    ensures Survivors(requests[..count], outcomes) == requests[..|outcomes| - 1]
  {
    SurvivorsArePrefix(requests[..count], outcomes);
    assert requests[..count][..|outcomes| - 1] == requests[..|outcomes| - 1];
  }

  /** A policy whose verdict on a request does not depend on which try it is. */
  ghost predicate Stable(policy: Policy) {
    forall a: nat, b: nat, before, r :: policy(a, before, r) == policy(b, before, r)
  }

  /** The number of requests before the first one the policy refuses. */
  function AcceptedPrefix(policy: Policy, requests: seq<Request>): (k: nat)
    ensures k <= |requests|
  {
    var outcomes := BatchOutcomes(policy, 0, requests, 0);
    if Commits(outcomes) then |requests| else |outcomes| - 1
  }

  /** What the tries of a batch come to: how many requests are written, or the failure that ended them. */
  datatype Tries = Writes(count: nat) | Throws(failure: Failure)

  /** The tries from the given one on, of the first `count` requests: each keeps those before its first refused one. */
  function RunTries(policy: Policy, requests: seq<Request>, attempt: nat, count: nat): (t: Tries)
    requires count <= |requests|
    ensures t.Writes? ==> t.count <= count
    decreases count
  {
    if count == 0 then Writes(0)
    else
      var outcomes := BatchOutcomes(policy, attempt, requests[..count], 0);
      if Commits(outcomes) then Writes(count)
      else
        var last := outcomes[|outcomes| - 1];
        if last.Raises? then Throws(last.failure) else RunTries(policy, requests, attempt + 1, |outcomes| - 1)
  }

  function TriesOf(policy: Policy, requests: seq<Request>): Tries {
    RunTries(policy, requests, 0, |requests|)
  }

  /** The first request that is not accepted raises. */
  predicate FirstRaises(policy: Policy, requests: seq<Request>) {
    var k := AcceptedPrefix(policy, requests);
    k < |requests| && policy(0, requests[..k], requests[k]).Raises?
  }

  /**
  Under a policy that does not waver between tries, the requests before the first one that is not
  accepted are written, unless that one raises.
  */
  lemma StableTries(policy: Policy, requests: seq<Request>)
    requires Stable(policy)
    ensures TriesOf(policy, requests).Throws? <==> FirstRaises(policy, requests)
    ensures TriesOf(policy, requests).Writes? ==> TriesOf(policy, requests).count == AcceptedPrefix(policy, requests)
  {
    var n := |requests|;
    assert requests[..n] == requests;
    if n > 0 && !Commits(BatchOutcomes(policy, 0, requests[..n], 0)) {
      LastOutcome(policy, 0, requests, n);
      RefusalReachesPrefix(policy, 0, requests, n);
      var k := AcceptedPrefix(policy, requests);
      if k > 0 && !FirstRaises(policy, requests) {
        OutcomesAgree(policy, 1, 0, requests, k, 0);
        assert Commits(BatchOutcomes(policy, 1, requests[..k], 0));
        assert RunTries(policy, requests, 1, k) == Writes(k);
      }
    } else if n > 0 {
      CommitReachesPrefix(policy, 0, requests, n);
    }
  }

  // ------------------------------------------------------------------
  // Which acceptable requests a rejected sibling takes down
  // ------------------------------------------------------------------

  /** A policy that judges each request on its own. */
  function Verdict(ok: Request -> bool): Policy {
    (attempt: nat, before: seq<Request>, r: Request) => if ok(r) then Accepted else Rejected
  }

  function Acceptable(ok: Request -> bool, requests: seq<Request>): (kept: seq<Request>)
    ensures |kept| <= |requests|
    ensures |kept| == |requests| <==> forall i :: 0 <= i < |requests| ==> ok(requests[i])
  {
    if requests == [] then []
    else (if ok(requests[0]) then [requests[0]] else []) + Acceptable(ok, requests[1..])
  }

  /** A request its policy accepts stands behind one it refuses. */
  ghost predicate AcceptableBehindRefused(ok: Request -> bool, requests: seq<Request>) {
    exists i, j :: 0 <= i < j < |requests| && !ok(requests[i]) && ok(requests[j])
  }

  /**
  A rejected request costs the batch every request behind it: the requests written are all the
  acceptable ones if and only if no acceptable request stands behind a refused one.
  */
  lemma WritesAllAcceptableIff(ok: Request -> bool, requests: seq<Request>)
    ensures requests[..AcceptedPrefix(Verdict(ok), requests)] == Acceptable(ok, requests)
      <==> !AcceptableBehindRefused(ok, requests)
  {
    var k := AcceptedPrefix(Verdict(ok), requests);
    AcceptedPrefixIsFirstRefused(ok, requests, k);
    AcceptableSplits(ok, requests, k);
    RestIsAcceptableIff(ok, requests, k);
  }

  /**
  Behind the first refused request something acceptable remains exactly when some acceptable request stands
  behind a refused one.
  */
  lemma RestIsAcceptableIff(ok: Request -> bool, requests: seq<Request>, k: nat)
    requires k <= |requests| && (forall i :: 0 <= i < k ==> ok(requests[i])) && (k < |requests| ==> !ok(requests[k]))
    ensures Acceptable(ok, requests[k..]) == [] <==> !AcceptableBehindRefused(ok, requests)
  {
    if AcceptableBehindRefused(ok, requests) {
      var i, j :| 0 <= i < j < |requests| && !ok(requests[i]) && ok(requests[j]);
      SomeAcceptable(ok, requests, k, j);
    } else {
      NoneAcceptable(ok, requests, k);
    }
  }

  lemma AcceptedPrefixIsFirstRefused(ok: Request -> bool, requests: seq<Request>, k: nat)
    requires k == AcceptedPrefix(Verdict(ok), requests)
    ensures forall i :: 0 <= i < k ==> ok(requests[i])
    ensures k < |requests| ==> !ok(requests[k])
  {
    var outcomes := BatchOutcomes(Verdict(ok), 0, requests, 0);
    assert forall i :: 0 <= i < |outcomes| ==> (outcomes[i] == Accepted <==> ok(requests[i]));
  }

  lemma {:induction false} AcceptableSplits(ok: Request -> bool, requests: seq<Request>, k: nat)
    requires k <= |requests|
    requires forall i :: 0 <= i < k ==> ok(requests[i])
    ensures Acceptable(ok, requests) == requests[..k] + Acceptable(ok, requests[k..])
  {
    if k == 0 {
      assert requests[0..] == requests;
    } else {
      AcceptableSplits(ok, requests[1..], k - 1);
      assert requests[1..][k - 1..] == requests[k..];
    }
  }

  lemma {:induction false} NoneAcceptable(ok: Request -> bool, requests: seq<Request>, k: nat)
    requires k <= |requests| && forall i :: k <= i < |requests| ==> !ok(requests[i])
    ensures Acceptable(ok, requests[k..]) == []
    decreases |requests| - k
  {
    if k < |requests| {
      NoneAcceptable(ok, requests, k + 1);
      assert requests[k..][1..] == requests[k + 1..];
    }
  }

  lemma {:induction false} SomeAcceptable(ok: Request -> bool, requests: seq<Request>, k: nat, j: nat)
    requires k <= j < |requests| && ok(requests[j])
    ensures Acceptable(ok, requests[k..]) != []
    decreases j - k
  {
    if k < j {
      SomeAcceptable(ok, requests, k + 1, j);
      assert requests[k..][1..] == requests[k + 1..];
    }
  }

  /** The smallest loss: the second request is acceptable and is dropped with the first. */
  lemma AcceptableRequestIsDropped()
    ensures var ok := (r: Request) => r == "fine";
      AcceptedPrefix(Verdict(ok), ["refused", "fine"]) == 0 && Acceptable(ok, ["refused", "fine"]) == ["fine"]
  {
    var ok := (r: Request) => r == "fine";
    var requests := ["refused", "fine"];
    assert BatchOutcomes(Verdict(ok), 0, requests, 0) == [Rejected];
    assert requests[1..] == ["fine"] && requests[1..][1..] == [];
    assert Acceptable(ok, requests[1..]) == ["fine"];
  }

  // ------------------------------------------------------------------
  // One job from claim to settlement
  // ------------------------------------------------------------------

  /** What the model call, or its failure, yields for a payload. */
  datatype Extraction = Raised(failure: Failure) | Proposed(json: string, hash: string)

  /** What validating a snapshot yields. */
  datatype Preparation = Unusable(failure: Failure) | Usable(requests: seq<Request>)

  /** How the batch loop ends. */
  datatype WriteResult = Finished | LeaseLost | BatchFailed(failure: Failure)

  /** `dead` is the outcome "dead" rather than "retry". */
  datatype ProcessResult =
    | Idle
    | Done(id: nat, writes: nat, attempts: nat)
    | NotDone(id: nat, attempts: nat, dead: bool)

  /** The proposals a job works from: the stored snapshot if there is one, else what the model says now. */
  function Proposals(row: Row, extract: string -> Extraction): Extraction {
    if row.created.Missing? then Raised(Failure("invalid_envelope", true, true, None))
    else if row.payload.Undecodable? then Raised(Failure(row.payload.code, true, true, None))
    else if row.proposalJson.Some? && row.proposalHash.Some?
      then Proposed(row.proposalJson.value, row.proposalHash.value)
    else if row.proposalJson.Some? then Raised(Failure("legacy_extraction_quarantined", true, true, None))
    else if row.proposalHash.Some? then Raised(Failure("invalid_snapshot", true, true, None))
    else extract(row.payload.text)
  }

  /** The row once its proposals are known: stored, unless a snapshot was there or the model failed. */
  function WithSnapshot(row: Row, extract: string -> Extraction): Row {
    var proposals := Proposals(row, extract);
    if row.proposalJson.None? && row.proposalHash.None? && proposals.Proposed?
    then row.(proposalJson := Some(proposals.json), proposalHash := Some(proposals.hash))
    else row
  }

  /** What a job ends in: a failure, or the requests to write. */
  function Verdicts(row: Row, extract: string -> Extraction, prepare: string -> Preparation): Preparation {
    match Proposals(row, extract)
    case Raised(f) => Unusable(f)
    case Proposed(json, _) => prepare(json)
  }

  /** What a usable or an unusable job comes to. */
  function JobOutcome(job: Preparation, policy: Policy): Tries {
    match job
    case Unusable(failure) => Throws(failure)
    case Usable(requests) => TriesOf(policy, requests)
  }

  class ExtractionProcessor {
    const cfg: Config
    const worker: string
    var rows: Table
    /** Requests written by committed batches, in commit order. */
    var written: seq<Request>

    constructor (cfg: Config, worker: string, rows: Table)
      requires cfg.Valid()
      ensures this.cfg == cfg && this.worker == worker && this.rows == rows && written == []
    {
      this.cfg, this.worker, this.rows, this.written := cfg, worker, rows, [];
    }

    method ClaimDue(now: real, token: Token) returns (claim: Option<Claim>)
      modifies this`rows
      ensures (rows, claim) == ClaimNext(old(rows), now, cfg, worker, token)
    {
      rows := map id | id in rows ::
        if rows[id].status == Processing && Elapsed(rows[id].leaseUntil, now) && rows[id].attempts >= cfg.maxAttempts
        then Buried(rows[id]) else rows[id];
      assert rows == Sweep(old(rows), now, cfg);
      var due := set id | id in rows && Claimable(rows[id], now, cfg);
      assert due == ClaimableIds(rows, now, cfg);
      if due == {} {
        return None;
      }
      var id := Least(due);
      var attempts := rows[id].attempts + 1;
      rows := rows[id := rows[id].(status := Processing, attempts := attempts, leaseOwner := Some(worker),
                                   leaseUntil := Some(now + cfg.leaseSeconds), leaseToken := Some(token))];
      claim := Some(Claim(id, rows[id].payload, attempts, token));
    }

    method Renew(id: nat, token: Token, now: real) returns (kept: bool)
      modifies this`rows
      ensures (rows, kept) == Renewed(old(rows), id, worker, token, now, cfg)
    {
      kept := id in rows && rows[id].status == Processing && rows[id].leaseOwner == Some(worker)
        && rows[id].leaseToken == Some(token) && rows[id].leaseUntil.Some? && rows[id].leaseUntil.value > now;
      if kept {
        rows := rows[id := rows[id].(leaseUntil := Some(now + cfg.leaseSeconds))];
      }
    }

    /** `_fail` with nothing between its SELECT and its UPDATE; None is the lost-lease exception. */
    method Fail(id: nat, token: Token, f: Failure, seen: real, now: real) returns (attempts: Option<nat>)
      modifies this`rows
      ensures attempts.Some? <==> Holds(old(rows), id, worker, token)
      ensures attempts.None? ==> rows == old(rows)
      ensures attempts.Some? ==>
        && rows == FailureRecorded(old(rows), id, worker, token, old(rows)[id].attempts, f, seen, now, cfg)
        && id in rows && attempts.value == rows[id].attempts
        && RecordsFailure(old(rows)[id], rows[id], old(rows)[id].attempts, f, seen, now, cfg)
    {
      if !Holds(rows, id, worker, token) {
        return None;
      }
      var read := rows[id].attempts;
      FailureIsRecorded(rows[id], read, f, seen, now, cfg);
      rows := rows[id := Failed(rows[id], read, f, seen, now, cfg)];
      attempts := Some(rows[id].attempts);
    }

    method PersistSnapshot(id: nat, token: Token, json: string, hash: string) returns (stored: bool)
      modifies this`rows
      ensures (rows, stored) == Persisted(old(rows), id, worker, token, json, hash)
    {
      stored := Holds(rows, id, worker, token) && rows[id].proposalJson.None? && rows[id].proposalHash.None?;
      if stored {
        rows := rows[id := rows[id].(proposalJson := Some(json), proposalHash := Some(hash))];
      }
    }

    /**
    The batch loop of `process_one`. When the lease is lost or a write raises, neither the queue nor
    the memory changed. Otherwise the row is gone and exactly the requests that the tries come to are written.
    */
    method WriteBatches(id: nat, token: Token, policy: Policy, requests: seq<Request>) returns (r: WriteResult)
      modifies this`rows, this`written
      ensures TriesOf(policy, requests).Throws? <==> r.BatchFailed?
      ensures r.BatchFailed? ==> r.failure == TriesOf(policy, requests).failure
      ensures !r.BatchFailed? ==> (r.Finished? <==> Holds(old(rows), id, worker, token))
      ensures !r.Finished? ==> rows == old(rows) && written == old(written)
      ensures r.Finished? ==>
        rows == old(rows) - {id} && written == old(written) + requests[..TriesOf(policy, requests).count]
    {
      var pending := requests;
      var attempt := 0;
      while pending != []
        invariant rows == old(rows) && written == old(written)
        invariant |pending| <= |requests| && pending == requests[..|pending|]
        invariant TriesOf(policy, requests) == RunTries(policy, requests, attempt, |pending|)
        decreases |pending|
      {
        var outcomes := BatchOutcomes(policy, attempt, pending, 0);
        if Commits(outcomes) {
          if Holds(rows, id, worker, token) {
            rows, written := rows - {id}, written + pending;
            return Finished;
          }
          return LeaseLost;
        }
        var last := outcomes[|outcomes| - 1];
        if last.Raises? {
          return BatchFailed(last.failure);
        }
        SurvivorsOfPrefix(requests, |pending|, outcomes);
        pending := Survivors(pending, outcomes);
        attempt := attempt + 1;
      }
      r := if Holds(rows, id, worker, token) then Finished else LeaseLost;
      if r == Finished {
        rows := rows - {id};
      }
    }

    /** `process_one` up to its snapshot: the stored one, or what the model proposes, which is stored first. */
    method Propose(id: nat, token: Token, extract: string -> Extraction) returns (proposals: Extraction)
      requires Holds(rows, id, worker, token)
      modifies this`rows
      ensures proposals == Proposals(old(rows)[id], extract)
      ensures rows == old(rows)[id := WithSnapshot(old(rows)[id], extract)]
    {
      if rows[id].created.Missing? {
        return Raised(Failure("invalid_envelope", true, true, None));
      }
      if rows[id].payload.Undecodable? {
        return Raised(Failure(rows[id].payload.code, true, true, None));
      }
      var snapshot := Loaded(rows, id, worker, token);
      if snapshot.Broken? {
        return Raised(Failure(snapshot.code, true, true, None));
      }
      if snapshot.Stored? {
        return Proposed(snapshot.json, snapshot.hash);
      }
      proposals := extract(rows[id].payload.text);
      if proposals.Proposed? {
        var stored := PersistSnapshot(id, token, proposals.json, proposals.hash);
      }
    }

    /** The job of `process_one` once it is claimed: true when it is done. */
    method RunJob(id: nat, token: Token, seen: real, later: real,
                  extract: string -> Extraction, prepare: string -> Preparation, policy: Policy)
      returns (done: bool)
      requires Holds(rows, id, worker, token)
      modifies this`rows, this`written
      ensures var job := Verdicts(old(rows)[id], extract, prepare);
        var outcome := JobOutcome(job, policy);
        && (done <==> outcome.Writes?)
        && if done
           then rows == old(rows) - {id} && job.Usable? && written == old(written) + job.requests[..outcome.count]
           else
             var was := WithSnapshot(old(rows)[id], extract);
             && written == old(written)
             && rows == old(rows)[id := Failed(was, was.attempts, outcome.failure, seen, later, cfg)]
             && RecordsFailure(was, rows[id], was.attempts, outcome.failure, seen, later, cfg)
    {
      var proposals := Propose(id, token, extract);
      var failure;
      if proposals.Raised? {
        failure := proposals.failure;
      } else {
        var prepared := prepare(proposals.json);
        if prepared.Usable? {
          var result := WriteBatches(id, token, policy, prepared.requests);
          if result.Finished? {
            assert rows == old(rows) - {id};
            return true;
          }
          failure := result.failure;
        } else {
          failure := prepared.failure;
        }
      }
      var attempts := Fail(id, token, failure, seen, later);
      return false;
    }

    /**
    `process_one` with no other worker in between: the model is asked only when no snapshot is
    stored; a job that is done has written exactly the requests its tries come to, and is gone; a job
    that failed, before or in its batch, has written nothing, keeps the snapshot it has by then, and
    records the failure.
    */
    method ProcessOne(token: Token, now: real, seen: real, later: real,
                      extract: string -> Extraction, prepare: string -> Preparation, policy: Policy)
      returns (r: ProcessResult)
      modifies this`rows, this`written
      ensures var (claimed, claim) := ClaimNext(old(rows), now, cfg, worker, token);
        && (r.Idle? <==> claim.None?)
        && (r.Idle? ==> rows == claimed && written == old(written))
        && (claim.Some? ==>
              && r == Processed(claimed, claim.value, extract, prepare, policy, seen, cfg)
              && rows == RowsProcessed(claimed, claim.value, extract, prepare, policy, seen, later, cfg)
              && written == old(written) + Written(claimed, claim.value, extract, prepare, policy))
      ensures r.NotDone? ==>
        var (claimed, claim) := ClaimNext(old(rows), now, cfg, worker, token);
        && claim.Some? && claim.value.id == r.id && r.id in claimed && r.id in rows
        && r.attempts == rows[r.id].attempts && (r.dead <==> rows[r.id].status == Dead)
        && var outcome := OutcomeOf(claimed, claim.value, extract, prepare, policy);
           && outcome.Throws?
           && RecordsFailure(WithSnapshot(claimed[r.id], extract), rows[r.id], claim.value.attempts, outcome.failure,
                seen, later, cfg)
    {
      var claim := ClaimDue(now, token);
      if claim.None? {
        return Idle;
      }
      var id := claim.value.id;
      ClaimHolds(old(rows), now, cfg, worker, token);
      ghost var claimed := rows;
      var wrote := |written|;
      var done := RunJob(id, token, seen, later, extract, prepare, policy);
      if done {
        return Done(id, |written| - wrote, claim.value.attempts);
      }
      assert written == old(written) + [];
      return NotDone(id, rows[id].attempts, rows[id].status == Dead);
    }
  }

  /** What the claimed job comes to, from the row as it was claimed. */
  function OutcomeOf(claimed: Table, claim: Claim, extract: string -> Extraction, prepare: string -> Preparation,
                     policy: Policy): Tries
    requires claim.id in claimed
  {
    JobOutcome(Verdicts(claimed[claim.id], extract, prepare), policy)
  }

  /** What `process_one` reports: the writes of a job that is done, or whether its failure was terminal. */
  function Processed(claimed: Table, claim: Claim, extract: string -> Extraction, prepare: string -> Preparation,
                     policy: Policy, seen: real, cfg: Config): ProcessResult
    requires claim.id in claimed
  {
    match OutcomeOf(claimed, claim, extract, prepare, policy)
    case Writes(count) => Done(claim.id, count, claim.attempts)
    case Throws(f) =>
      NotDone(claim.id, FailedAttempts(claim.attempts, f),
        FailureKills(claim.attempts, claimed[claim.id].created, f, seen, cfg))
  }

  /** The queue afterwards: the row is gone, or has its snapshot and its failure; no other row changed. */
  function RowsProcessed(claimed: Table, claim: Claim, extract: string -> Extraction, prepare: string -> Preparation,
                         policy: Policy, seen: real, later: real, cfg: Config): Table
    requires claim.id in claimed
  {
    match OutcomeOf(claimed, claim, extract, prepare, policy)
    case Writes(_) => claimed - {claim.id}
    case Throws(f) => claimed[claim.id := Failed(WithSnapshot(claimed[claim.id], extract), claim.attempts, f, seen,
      later, cfg)]
  }

  /** The requests that are written. */
  function Written(claimed: Table, claim: Claim, extract: string -> Extraction, prepare: string -> Preparation,
                   policy: Policy): seq<Request>
    requires claim.id in claimed
  {
    match (Verdicts(claimed[claim.id], extract, prepare), OutcomeOf(claimed, claim, extract, prepare, policy))
    case (Usable(requests), Writes(count)) => if count <= |requests| then requests[..count] else []
    case _ => []
  }

  /** A fresh claim holds its row, and changes nothing the job reads from it. */
  lemma ClaimHolds(rows: Table, now: real, cfg: Config, owner: string, token: Token)
    requires ClaimNext(rows, now, cfg, owner, token).1.Some?
    ensures var (claimed, claim) := ClaimNext(rows, now, cfg, owner, token);
      var id := claim.value.id;
      && Holds(claimed, id, owner, token) && id in rows
      && claimed[id].payload == rows[id].payload && claimed[id].created == rows[id].created
      && claim.value.payload == rows[id].payload
      && claimed[id].attempts == claim.value.attempts
      && claimed[id].proposalJson == rows[id].proposalJson && claimed[id].proposalHash == rows[id].proposalHash
  {
    var due := ClaimableIds(Sweep(rows, now, cfg), now, cfg);
    assert Least(due) in due;
  }

  /** Two tries see the same outcomes while the requests before are the same. */
  lemma {:induction false} OutcomesAgree(policy: Policy, a: nat, b: nat, long: seq<Request>, n: nat, done: nat)
    requires Stable(policy)
    requires done <= n <= |long|
    ensures var short := BatchOutcomes(policy, a, long[..n], done);
      var full := BatchOutcomes(policy, b, long, done);
      if n - done <= |full| then short == full[..n - done] else short == full
    decreases n - done
  {
    if done < n {
      OutcomesAgree(policy, a, b, long, n, done + 1);
      var outcome := policy(b, long[..done], long[done]);
      SameFirstOutcome(policy, a, b, long, n, done);
      var rest := BatchOutcomes(policy, b, long, done + 1);
      assert outcome == Accepted && n - done <= |rest| + 1 ==>
        ([outcome] + rest)[..n - done] == [outcome] + rest[..n - done - 1];
    }
  }

  lemma SameFirstOutcome(policy: Policy, a: nat, b: nat, long: seq<Request>, n: nat, done: nat)
    requires Stable(policy) && done < n <= |long|
    ensures policy(a, long[..n][..done], long[..n][done]) == policy(b, long[..done], long[done])
  {
    assert long[..n][..done] == long[..done];
  }

  lemma CommitReachesPrefix(policy: Policy, attempt: nat, requests: seq<Request>, count: nat)
    requires Stable(policy)
    requires 0 < count <= |requests|
    requires count == if attempt == 0 then |requests| else AcceptedPrefix(policy, requests)
    requires Commits(BatchOutcomes(policy, attempt, requests[..count], 0))
    ensures count == AcceptedPrefix(policy, requests)
  {
    OutcomesAgree(policy, attempt, 0, requests, count, 0);
  }

  lemma RefusalReachesPrefix(policy: Policy, attempt: nat, requests: seq<Request>, count: nat)
    requires Stable(policy)
    requires 0 < count <= |requests|
    requires count == if attempt == 0 then |requests| else AcceptedPrefix(policy, requests)
    requires !Commits(BatchOutcomes(policy, attempt, requests[..count], 0))
    ensures |BatchOutcomes(policy, attempt, requests[..count], 0)| - 1 == AcceptedPrefix(policy, requests)
  {
    OutcomesAgree(policy, attempt, 0, requests, count, 0);
  }

  /** A batch that does not commit ends with the outcome of the request behind the accepted ones. */
  lemma LastOutcome(policy: Policy, attempt: nat, requests: seq<Request>, count: nat)
    requires 0 < count <= |requests| && !Commits(BatchOutcomes(policy, attempt, requests[..count], 0))
    ensures var outcomes := BatchOutcomes(policy, attempt, requests[..count], 0);
      var last := outcomes[|outcomes| - 1];
      && last != Accepted
      && (Stable(policy) && count == (if attempt == 0 then |requests| else AcceptedPrefix(policy, requests)) ==>
            (last.Raises? <==> FirstRaises(policy, requests)))
  {
    var outcomes := BatchOutcomes(policy, attempt, requests[..count], 0);
    var k := |outcomes| - 1;
    assert requests[..count][..k] == requests[..k];
    assert outcomes[k] == policy(attempt, requests[..k], requests[k]);
    if Stable(policy) && count == if attempt == 0 then |requests| else AcceptedPrefix(policy, requests) {
      RefusalReachesPrefix(policy, attempt, requests, count);
      assert policy(attempt, requests[..k], requests[k]) == policy(0, requests[..k], requests[k]);
    }
  }
}
