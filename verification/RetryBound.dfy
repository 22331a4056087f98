/** How often one queue row can be claimed. */
module RetryBound {
  import opened Prelude
  import opened ExtractionProcessor
  import opened ExtractionProtocol

  // Crashes and consuming failures spend attempts. A rate-limit failure hands its attempt back, but
  // such failures are at least 60 seconds apart and the 48-hour age cap ends them, so 2880 of them fit.
  // The cap reads the creation stamp: a row without a stamp never gets as far as the model, and a row with
  // a stamp that cannot be read is never capped.

  const MAX_REFUNDS := 2880

  function Claims(cfg: Config, s: Sys, steps: seq<Step>, id: nat): nat
    decreases |steps|
  {
    if steps == [] then 0
    else (if ClaimsRow(cfg, s, steps[0], id) then 1 else 0) + Claims(cfg, Apply(cfg, s, steps[0]), steps[1..], id)
  }

  /** Claims so far, attempts handed back so far, and when the last one was handed back. */
  datatype History = History(claims: nat, refunds: nat, lastRefund: real)

  /** The step hands an attempt back and the row stays alive. */
  predicate Refunds(cfg: Config, s: Sys, step: Step, id: nat) {
    && step.RecordFailure? && step.read.handle.id == id && step.read.failure.AttemptFree()
    && Holds(s.rows, id, step.read.handle.worker, step.read.handle.token)
    && !FailureKills(step.read.attempts, s.rows[id].created, step.read.failure, step.read.seen, cfg)
  }

  function NextHistory(cfg: Config, s: Sys, step: Step, id: nat, hist: History): History {
    if ClaimsRow(cfg, s, step, id) then hist.(claims := hist.claims + 1)
    else if Refunds(cfg, s, step, id) then hist.(refunds := hist.refunds + 1, lastRefund := step.read.seen)
    else hist
  }

  /** Each refund needs another minute of the row's 48 hours. */
  ghost predicate Spaced(hist: History, created: real, clock: real) {
    hist.refunds > 0 ==>
      && created + 60.0 * (hist.refunds - 1) as real <= hist.lastRefund <= clock
      && hist.lastRefund < created + MAX_RATE_LIMIT_AGE_SECONDS
  }

  /** The earliest moment of the next refund. */
  ghost predicate Rested(hist: History, at: real) {
    hist.refunds > 0 ==> hist.lastRefund + 60.0 <= at
  }

  /** How many refunds a row can get. */
  function MaxRefunds(created: Stamp): nat {
    if created.At? then MAX_REFUNDS else 0
  }

  ghost predicate RowHistory(cfg: Config, s: Sys, id: nat, created: Stamp, hist: History)
    requires id in s.rows
  {
    var row := s.rows[id];
    && row.created == created
    && (row.status != Dead ==> hist.claims == row.attempts + hist.refunds)
    && (row.status == Processing ==> Rested(hist, s.clock))
    && (row.status == Pending && hist.refunds > 0 ==> row.notBefore.Some? && Rested(hist, row.notBefore.value))
    && (forall r :: r in s.failReads && r.handle.id == id && Current(s, r.handle) ==>
          (created.At? ==> r.seen >= created.at) && Rested(hist, r.seen))
  }

  ghost predicate HistoryOk(cfg: Config, s: Sys, id: nat, created: Stamp, hist: History) {
    && !created.Unparsable? && id < s.nextId
    && hist.claims <= cfg.maxAttempts + MaxRefunds(created)
    && (if created.At? then created.at <= s.clock && Spaced(hist, created.at, s.clock) else hist.refunds == 0)
    && (id in s.rows ==> RowHistory(cfg, s, id, created, hist))
  }

  lemma SpacedBoundsRefunds(hist: History, created: real, clock: real)
    requires Spaced(hist, created, clock)
    ensures hist.refunds <= MAX_REFUNDS
  {
    assert hist.refunds > MAX_REFUNDS ==> (hist.refunds - 1) as real >= 2880.0;
  }

  lemma RetryDelayBounds(attempts: nat, f: Failure, cfg: Config)
    requires cfg.Valid()
    ensures RetryDelay(attempts, f, cfg) >= 0.0
    ensures f.AttemptFree() ==> RetryDelay(attempts, f, cfg) >= DEFAULT_RATE_LIMIT_RETRY_SECONDS
  {
    var recorded := FailedAttempts(attempts, f);
    var exponent := if recorded > 0 then recorded - 1 else 0;
    PowersArePositive(exponent);
    assert cfg.retryDelay * Pow2(exponent) as real >= 0.0;
  }

  lemma ClaimKeepsHistory(cfg: Config, s: Sys, step: Step, id: nat, created: Stamp, hist: History)
    requires Inv(cfg, s) && Enabled(s, step) && step.DoClaim?
    requires HistoryOk(cfg, s, id, created, hist)
    ensures HistoryOk(cfg, Apply(cfg, s, step), id, created, NextHistory(cfg, s, step, id, hist))
  {
    ClaimEffect(cfg, s.rows, s.clock, step.worker, step.token, id);
    if created.At? {
      SpacedBoundsRefunds(hist, created.at, s.clock);
    }
    var t := Apply(cfg, s, step);
    forall r | r in t.failReads && r.handle.id == id && Current(t, r.handle)
      ensures Current(s, r.handle)
    {
      assert r.handle.token in s.issued;
    }
  }

  lemma FailureKeepsHistory(cfg: Config, s: Sys, step: Step, id: nat, created: Stamp, hist: History)
    requires Inv(cfg, s) && Enabled(s, step) && step.RecordFailure? && cfg.Valid()
    requires HistoryOk(cfg, s, id, created, hist)
    ensures HistoryOk(cfg, Apply(cfg, s, step), id, created, NextHistory(cfg, s, step, id, hist))
  {
    var r := step.read;
    RetryDelayBounds(r.attempts, r.failure, cfg);
    if id in s.rows && r.handle.id == id && Current(s, r.handle) {
      assert HeldBy(s.rows[id], r.handle.worker, r.handle.token);
      assert s.rows[id].attempts == r.attempts >= 1;
      assert Rested(hist, r.seen);
      if Refunds(cfg, s, step, id) {
        assert Readable(s, r.handle);
        assert created.at + 60.0 * hist.refunds as real <= r.seen;
      }
    }
  }

  /** The remaining steps change no attempt count and hand nothing back. */
  lemma QuietStepKeepsHistory(cfg: Config, s: Sys, step: Step, id: nat, created: Stamp, hist: History)
    requires Inv(cfg, s) && Enabled(s, step) && !step.DoClaim? && !step.RecordFailure?
    requires HistoryOk(cfg, s, id, created, hist)
    ensures HistoryOk(cfg, Apply(cfg, s, step), id, created, hist)
  {
    var t := Apply(cfg, s, step);
    assert id in t.rows ==> id in s.rows && t.rows[id].status == s.rows[id].status
                            && t.rows[id].leaseToken == s.rows[id].leaseToken
                            && t.rows[id].attempts == s.rows[id].attempts;
  }

  lemma StepKeepsHistory(cfg: Config, s: Sys, step: Step, id: nat, created: Stamp, hist: History)
    requires Inv(cfg, s) && Enabled(s, step) && cfg.Valid()
    requires HistoryOk(cfg, s, id, created, hist)
    ensures HistoryOk(cfg, Apply(cfg, s, step), id, created, NextHistory(cfg, s, step, id, hist))
  {
    if step.DoClaim? {
      ClaimKeepsHistory(cfg, s, step, id, created, hist);
    } else if step.RecordFailure? {
      FailureKeepsHistory(cfg, s, step, id, created, hist);
    } else {
      QuietStepKeepsHistory(cfg, s, step, id, created, hist);
    }
  }

  lemma {:induction false} HistoryBoundsClaims(cfg: Config, s: Sys, steps: seq<Step>, id: nat, created: Stamp,
                                               hist: History)
    requires Inv(cfg, s) && Run(cfg, s, steps) && cfg.Valid() && HistoryOk(cfg, s, id, created, hist)
    ensures hist.claims + Claims(cfg, s, steps, id) <= cfg.maxAttempts + MaxRefunds(created)
    decreases |steps|
  {
    if steps != [] {
      StepKeepsInv(cfg, s, steps[0]);
      StepKeepsHistory(cfg, s, steps[0], id, created, hist);
      HistoryBoundsClaims(cfg, Apply(cfg, s, steps[0]), steps[1..], id, created,
        NextHistory(cfg, s, steps[0], id, hist));
    }
  }

  /**
  Over every interleaving of crashes, expiries, renewals, failures, erasures and completions, a row
  with a readable creation stamp is claimed at most `max_attempts + 2880` times, and a row without
  a stamp at most `max_attempts` times.
  */
  lemma ClaimsAreBounded(cfg: Config, s: Sys, steps: seq<Step>, id: nat, payload: Payload, created: Stamp)
    requires Inv(cfg, s) && Run(cfg, s, steps) && cfg.Valid()
    requires id in s.rows && s.rows[id] == Enqueued(payload, created) && (created.At? ==> created.at <= s.clock)
    requires !created.Unparsable?
    ensures Claims(cfg, s, steps, id) <= cfg.maxAttempts + if created.At? then 2880 else 0
  {
    HistoryBoundsClaims(cfg, s, steps, id, created, History(0, 0, 0.0));
  }

  // ------------------------------------------------------------------
  // With a stamp that cannot be read there is no bound
  // ------------------------------------------------------------------

  const RATE_LIMITED := Failure("adapter_rate_limited", false, false, None)

  /** Row 0 alone in the queue, due, with no attempt spent, an envelope to extract and an unparsable stamp. */
  ghost predicate Ready(s: Sys, k: nat) {
    && s.rows.Keys == {0}
    && (forall t :: t in s.issued ==> t < k)
    && var row := s.rows[0];
       && row.status == Pending && row.attempts == 0 && row.created.Unparsable? && row.payload.Envelope?
       && (row.notBefore.None? || row.notBefore.value <= s.clock)
  }

  /** Claim, hit the rate limit, hand the attempt back, wait: the row is ready again. */
  lemma RateLimitCycle(cfg: Config, s: Sys, k: nat) returns (steps: seq<Step>)
    requires cfg.Valid() && Ready(s, k)
    ensures Run(cfg, s, steps) && Claims(cfg, s, steps, 0) == 1 && Ready(After(cfg, s, steps), k + 1)
  {
    var claim := DoClaim("w", k);
    var swept := Sweep(s.rows, s.clock, cfg);
    assert swept == s.rows;
    assert ClaimableIds(swept, s.clock, cfg) == {0};
    var s1 := Apply(cfg, s, claim);
    var h := Handle("w", 0, k, s.rows[0].payload);
    var read := ReadForFailure(h, RATE_LIMITED);
    var s2 := Apply(cfg, s1, read);
    var fail := RecordFailure(FailRead(h, 1, s1.clock, RATE_LIMITED));
    var s3 := Apply(cfg, s2, fail);
    RetryDelayBounds(1, RATE_LIMITED, cfg);
    var wait := Tick(s3.rows[0].notBefore.value);
    var s4 := Apply(cfg, s3, wait);
    assert Ready(s4, k + 1);
    OneStep(cfg, s, claim);
    OneStep(cfg, s1, read);
    OneStep(cfg, s2, fail);
    OneStep(cfg, s3, wait);
    RunsConcatenate(cfg, s, [claim], [read], 0);
    RunsConcatenate(cfg, s, [claim] + [read], [fail], 0);
    RunsConcatenate(cfg, s, [claim] + [read] + [fail], [wait], 0);
    steps := [claim] + [read] + [fail] + [wait];
  }

  lemma OneStep(cfg: Config, s: Sys, step: Step)
    ensures Run(cfg, s, [step]) <==> Enabled(s, step)
    ensures After(cfg, s, [step]) == Apply(cfg, s, step)
    ensures Claims(cfg, s, [step], 0) == if ClaimsRow(cfg, s, step, 0) then 1 else 0
  {
    assert [step][1..] == [];
    var t := Apply(cfg, s, step);
    assert Run(cfg, t, []) && After(cfg, t, []) == t && Claims(cfg, t, [], 0) == 0;
  }

  lemma {:induction false} RunsConcatenate(cfg: Config, s: Sys, a: seq<Step>, b: seq<Step>, id: nat)
    requires Run(cfg, s, a) && Run(cfg, After(cfg, s, a), b)
    ensures Run(cfg, s, a + b) && After(cfg, s, a + b) == After(cfg, After(cfg, s, a), b)
    ensures Claims(cfg, s, a + b, id) == Claims(cfg, s, a, id) + Claims(cfg, After(cfg, s, a), b, id)
    decreases |a|
  {
    if a == [] {
      assert a + b == b;
    } else {
      RunsConcatenate(cfg, Apply(cfg, s, a[0]), a[1..], b, id);
      assert (a + b)[1..] == a[1..] + b;
    }
  }

  lemma {:induction false} RateLimitCycles(cfg: Config, s: Sys, k: nat, n: nat) returns (steps: seq<Step>)
    requires cfg.Valid() && Ready(s, k)
    ensures Run(cfg, s, steps) && Claims(cfg, s, steps, 0) == n
    decreases n
  {
    steps := [];
    if n > 0 {
      var first := RateLimitCycle(cfg, s, k);
      var rest := RateLimitCycles(cfg, After(cfg, s, first), k + 1, n - 1);
      RunsConcatenate(cfg, s, first, rest, 0);
      steps := first + rest;
    }
  }

  /** A row whose stamp is there but cannot be parsed escapes the age cap: some run claims it any number of times. */
  lemma UnparsableStampIsUnbounded(cfg: Config, clock: real, text: string, n: nat)
    requires cfg.Valid()
    ensures exists steps :: Claimed(cfg, clock, Envelope(text), Unparsable, steps, n)
  {
    var enqueue := [Enqueue(Envelope(text), Unparsable)];
    var s := Apply(cfg, Initial(clock), enqueue[0]);
    assert enqueue[1..] == [];
    var rest := RateLimitCycles(cfg, s, 0, n);
    RunsConcatenate(cfg, Initial(clock), enqueue, rest, 0);
    var steps := enqueue + rest;
    assert steps[0] == enqueue[0] && Claimed(cfg, clock, Envelope(text), Unparsable, steps, n);
  }

  /** A run that starts by enqueueing one row and claims it `n` times. */
  ghost predicate Claimed(cfg: Config, clock: real, payload: Payload, created: Stamp, steps: seq<Step>, n: nat) {
    && steps != [] && steps[0] == Enqueue(payload, created)
    && Run(cfg, Initial(clock), steps) && Claims(cfg, Initial(clock), steps, 0) == n
  }

  /** No run that starts by enqueueing the row claims it more often. */
  ghost predicate BoundedBy(cfg: Config, clock: real, payload: Payload, created: Stamp, bound: nat) {
    forall n: nat, steps :: Claimed(cfg, clock, payload, created, steps, n) ==> n <= bound
  }

  /**
  The number of times an envelope can be claimed is bounded if and only if its creation stamp is
  missing or can be read.
  */
  lemma BoundedIffNotUnparsable(cfg: Config, clock: real, text: string, created: Stamp)
    requires cfg.Valid() && (created.At? ==> created.at <= clock)
    ensures (exists bound: nat :: BoundedBy(cfg, clock, Envelope(text), created, bound)) <==> !created.Unparsable?
  {
    if created.Unparsable? {
      forall bound: nat ensures !BoundedBy(cfg, clock, Envelope(text), created, bound) {
        UnparsableStampIsUnbounded(cfg, clock, text, bound + 1);
      }
    } else {
      forall n: nat, steps: seq<Step> | Claimed(cfg, clock, Envelope(text), created, steps, n)
        ensures n <= cfg.maxAttempts + MaxRefunds(created)
      {
        var s := Apply(cfg, Initial(clock), steps[0]);
        StepKeepsInv(cfg, Initial(clock), steps[0]);
        ClaimsAreBounded(cfg, s, steps[1..], 0, Envelope(text), created);
      }
      assert BoundedBy(cfg, clock, Envelope(text), created, cfg.maxAttempts + MaxRefunds(created));
    }
  }
}
