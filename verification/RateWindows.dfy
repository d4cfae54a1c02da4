/**
 What a whole run of a token bucket admits. A run is any sequence of call times, which may go
 backwards: the bucket's clock is the running maximum. The reference is an arrival curve: in every
 window that starts at the creation instant or at a call, admissions stay within the burst plus the
 rate times the window's length.
 */
module RateWindows {
  import opened Common
  import opened RateLimit

  /** The bucket after the first `k` calls. */
  function StateAfter(b: Bucket, times: seq<int>, k: nat): Bucket
    requires k <= |times|
  {
    if k == 0 then b else StateAfter(b, times, k - 1).After(times[k - 1])
  }

  /** Which of the first `n` calls the bucket admits. */
  function AdmissionsUpTo(b: Bucket, times: seq<int>, n: nat): (c: seq<bool>)
    requires n <= |times|
    ensures |c| == n
  {
    if n == 0 then [] else AdmissionsUpTo(b, times, n - 1) + [StateAfter(b, times, n - 1).Admits(times[n - 1])]
  }

  /** Which calls of the run the bucket admits. */
  function Admissions(b: Bucket, times: seq<int>): (c: seq<bool>)
    ensures |c| == |times|
  {
    AdmissionsUpTo(b, times, |times|)
  }

  lemma {:induction false} AdmissionAt(b: Bucket, times: seq<int>, n: nat, k: nat)
    requires k < n <= |times|
    ensures AdmissionsUpTo(b, times, n)[k] == StateAfter(b, times, k).Admits(times[k])
  {
    if k < n - 1 {
      AdmissionAt(b, times, n - 1, k);
    }
  }

  /** The latest of the creation instant and the first `n` call times. */
  function Clock(created: int, times: seq<int>, n: nat): (t: int)
    requires n <= |times|
    ensures t >= created
  {
    if n == 0 then created else Max(Clock(created, times, n - 1), times[n - 1])
  }

  /** How many of the calls `i .. j` are admitted. */
  function Count(c: seq<bool>, i: nat, j: nat): nat
    requires i <= j <= |c|
    decreases j
  {
    if i == j then 0 else Count(c, i, j - 1) + (if c[j - 1] then 1 else 0)
  }

  /** One more admission at call `k` keeps the window opened at call `j` within burst + rate * elapsed. */
  predicate Fits(b: Bucket, times: seq<int>, c: seq<bool>, j: nat, k: nat)
    requires |c| == |times| && j <= k < |times|
  {
    (Count(c, j, k) + 1) * TOKEN <= b.Capacity() + b.rate * (Clock(b.last, times, k + 1) - Clock(b.last, times, j + 1))
  }

  /** The same for the window opened when the bucket was created. */
  predicate FitsSinceCreation(b: Bucket, times: seq<int>, c: seq<bool>, k: nat)
    requires |c| == |times| && k < |times|
  {
    (Count(c, 0, k) + 1) * TOKEN <= b.Capacity() + b.rate * (Clock(b.last, times, k + 1) - b.last)
  }

  /** A choice of admitted calls that keeps every window within its bound. */
  ghost predicate Conforms(b: Bucket, times: seq<int>, c: seq<bool>) {
    && |c| == |times|
    && (forall k :: 0 <= k < |c| && c[k] ==> FitsSinceCreation(b, times, c, k))
    && (forall j, k :: 0 <= j <= k < |c| && c[k] ==> Fits(b, times, c, j, k))
  }

  // ----- the bucket's level is the tightest window

  /** Nanotokens available at call `k`, after its refill. */
  function Level(b: Bucket, times: seq<int>, k: nat): int
    requires k < |times|
  {
    StateAfter(b, times, k).Refilled(times[k]).units
  }

  /** Nanotokens earned by the clock's advance over the first `n` calls. */
  function Earned(b: Bucket, times: seq<int>, n: nat): int
    requires n <= |times|
  {
    if n == 0 then 0 else Earned(b, times, n - 1) + Gain(b, times, n - 1)
  }

  /** Nanotokens earned between the clock before call `k` and the clock at call `k`. */
  function Gain(b: Bucket, times: seq<int>, k: nat): int
    requires k < |times|
  {
    b.rate * (Clock(b.last, times, k + 1) - Clock(b.last, times, k))
  }

  /** What the window opened at call `j` still leaves at call `k`. */
  function Slack(b: Bucket, times: seq<int>, j: nat, k: nat): int
    requires j <= k < |times|
  {
    b.Capacity() + Earned(b, times, k + 1) - Earned(b, times, j + 1) - Count(Admissions(b, times), j, k) * TOKEN
  }

  lemma {:induction false} EarnedIsRateTimesElapsed(b: Bucket, times: seq<int>, i: nat, n: nat)
    requires i <= n <= |times|
    ensures Earned(b, times, n) - Earned(b, times, i) == b.rate * (Clock(b.last, times, n) - Clock(b.last, times, i))
    decreases n
  {
    if i < n {
      EarnedIsRateTimesElapsed(b, times, i, n - 1);
      Distribute(b.rate, Clock(b.last, times, n - 1) - Clock(b.last, times, i), Clock(b.last, times, n) - Clock(b.last, times, n - 1));
    }
  }

  lemma Distribute(r: int, x: int, y: int)
    ensures r * x + r * y == r * (x + y)
  {
  }

  lemma GainIsNatural(b: Bucket, times: seq<int>, k: nat)
    requires k < |times|
    ensures Gain(b, times, k) >= 0
  {
    NaturalProduct(b.rate, Clock(b.last, times, k + 1) - Clock(b.last, times, k));
  }

  lemma NaturalProduct(x: nat, y: nat)
    ensures x * y >= 0
  {
  }

  lemma {:induction false} StateFacts(b: Bucket, times: seq<int>, k: nat)
    requires b.Valid() && k <= |times|
    ensures var s := StateAfter(b, times, k);
      s.Valid() && s.rate == b.rate && s.burst == b.burst && s.last == Clock(b.last, times, k)
  {
    if k > 0 {
      StateFacts(b, times, k - 1);
      AfterFacts(StateAfter(b, times, k - 1), times[k - 1]);
    }
  }

  lemma AfterFacts(b: Bucket, now: int)
    requires b.Valid()
    ensures var s := b.After(now); s.Valid() && s.rate == b.rate && s.burst == b.burst && s.last == Max(b.last, now)
  {
    NaturalProduct(b.rate, Max(b.last, now) - b.last);
  }

  /** The refill at call `k` adds that call's gain, up to capacity. */
  lemma LevelFromState(b: Bucket, times: seq<int>, k: nat)
    requires b.Valid() && k < |times|
    ensures Level(b, times, k) == Min(b.Capacity(), StateAfter(b, times, k).units + Gain(b, times, k))
  {
    StateFacts(b, times, k);
  }

  /** From one call to the next the level drops by the admission and rises by the gain, up to capacity. */
  lemma LevelStep(b: Bucket, times: seq<int>, k: nat)
    requires b.Valid() && k + 1 < |times|
    ensures Level(b, times, k + 1) == Min(b.Capacity(),
              Level(b, times, k) - (if Admissions(b, times)[k] then TOKEN else 0) + Gain(b, times, k + 1))
  {
    LevelFromState(b, times, k + 1);
    var s := StateAfter(b, times, k);
    assert StateAfter(b, times, k + 1) == s.After(times[k]);
    AdmissionAt(b, times, |times|, k);
  }

  lemma {:induction false} LevelIsWithinEveryWindow(b: Bucket, times: seq<int>, j: nat, k: nat)
    requires b.Valid() && j <= k < |times|
    ensures Level(b, times, k) <= Slack(b, times, j, k)
    decreases k
  {
    if j < k {
      LevelIsWithinEveryWindow(b, times, j, k - 1);
      LevelStep(b, times, k - 1);
    } else {
      LevelFromState(b, times, k);
    }
  }

  lemma {:induction false} LevelIsSomeWindow(b: Bucket, times: seq<int>, k: nat) returns (j: nat)
    requires b.Valid() && b.units == b.Capacity() && k < |times|
    ensures j <= k && Level(b, times, k) == Slack(b, times, j, k)
    decreases k
  {
    j := k;
    if k == 0 {
      LevelFromState(b, times, 0);
      GainIsNatural(b, times, 0);
    } else if Level(b, times, k) != b.Capacity() {
      j := LevelIsSomeWindow(b, times, k - 1);
      LevelStep(b, times, k - 1);
    }
  }

  lemma FitsIffSlack(b: Bucket, times: seq<int>, j: nat, k: nat)
    requires j <= k < |times|
    ensures Fits(b, times, Admissions(b, times), j, k) <==> Slack(b, times, j, k) >= TOKEN
  {
    EarnedIsRateTimesElapsed(b, times, j + 1, k + 1);
  }

  lemma AdmittedIffLevel(b: Bucket, times: seq<int>, k: nat)
    requires k < |times|
    ensures Admissions(b, times)[k] <==> Level(b, times, k) >= TOKEN
  {
    AdmissionAt(b, times, |times|, k);
  }

  /** An admitted call fits every window. */
  lemma AdmittedFits(b: Bucket, times: seq<int>, j: nat, k: nat)
    requires b.Valid() && j <= k < |times| && Admissions(b, times)[k]
    ensures Fits(b, times, Admissions(b, times), j, k)
  {
    AdmittedIffLevel(b, times, k);
    LevelIsWithinEveryWindow(b, times, j, k);
    FitsIffSlack(b, times, j, k);
  }

  /** A rejected call would break some window opened at an earlier call. */
  lemma RejectedBreaksAWindow(b: Bucket, times: seq<int>, k: nat) returns (j: nat)
    requires b.Valid() && b.units == b.Capacity() && k < |times| && !Admissions(b, times)[k]
    ensures j < k && !Fits(b, times, Admissions(b, times), j, k)
  {
    AdmittedIffLevel(b, times, k);
    j := LevelIsSomeWindow(b, times, k);
    FitsIffSlack(b, times, j, k);
    BurstHoldsAToken(b);
  }

  /** The first call's window is at least as tight as the one opened at creation. */
  lemma CreationWindowIsLoosest(b: Bucket, times: seq<int>, c: seq<bool>, k: nat)
    requires b.Valid() && |c| == |times| && k < |times| && Fits(b, times, c, 0, k)
    ensures FitsSinceCreation(b, times, c, k)
  {
    var t0, t1 := Clock(b.last, times, 1), Clock(b.last, times, k + 1);
    Distribute(b.rate, t1 - t0, t0 - b.last);
    NaturalProduct(b.rate, t0 - b.last);
  }

  // ----- main results

  /**
   Exact window characterisation: a call is admitted if and only if one more admission fits the
   window opened at creation and the window opened at every earlier call.
   */
  lemma AdmittedIffEveryWindowFits(b: Bucket, times: seq<int>, k: nat)
    requires b.Valid() && b.units == b.Capacity() && k < |times|
    ensures var c := Admissions(b, times);
      c[k] <==> FitsSinceCreation(b, times, c, k) && forall j :: 0 <= j < k ==> Fits(b, times, c, j, k)
  {
    var c := Admissions(b, times);
    if c[k] {
      forall j | 0 <= j <= k
        ensures Fits(b, times, c, j, k)
      {
        AdmittedFits(b, times, j, k);
      }
      CreationWindowIsLoosest(b, times, c, k);
    } else {
      var j := RejectedBreaksAWindow(b, times, k);
    }
  }

  lemma AdmissionsConform(b: Bucket, times: seq<int>)
    requires b.Valid()
    ensures Conforms(b, times, Admissions(b, times))
  {
    var c := Admissions(b, times);
    forall j, k | 0 <= j <= k < |c| && c[k]
      ensures Fits(b, times, c, j, k)
    {
      AdmittedFits(b, times, j, k);
    }
    forall k | 0 <= k < |c| && c[k]
      ensures FitsSinceCreation(b, times, c, k)
    {
      assert Fits(b, times, c, 0, k);
      CreationWindowIsLoosest(b, times, c, k);
    }
  }

  lemma {:induction false} CountSplits(c: seq<bool>, i: nat, j: nat)
    requires i <= j <= |c|
    ensures Count(c, 0, j) == Count(c, 0, i) + Count(c, i, j)
    decreases j
  {
    if i < j {
      CountSplits(c, i, j - 1);
    }
  }

  /** Greedy maximality: no conforming choice admits more than the bucket, on any prefix of the run. */
  lemma {:induction false} NoConformingChoiceAdmitsMore(b: Bucket, times: seq<int>, alt: seq<bool>, n: nat)
    requires b.Valid() && b.units == b.Capacity() && Conforms(b, times, alt) && n <= |times|
    ensures Count(alt, 0, n) <= Count(Admissions(b, times), 0, n)
    decreases n
  {
    if n > 0 {
      var c, k := Admissions(b, times), n - 1;
      NoConformingChoiceAdmitsMore(b, times, alt, k);
      if alt[k] && !c[k] {
        var j := RejectedBreaksAWindow(b, times, k);
        assert Fits(b, times, alt, j, k);
        NoConformingChoiceAdmitsMore(b, times, alt, j);
        CountSplits(alt, j, k);
        CountSplits(c, j, k);
      }
    }
  }

  /** A caller rejected at call `k` is admitted at call `m` once the clock has moved one second, if every call in between was rejected. */
  lemma {:induction false} OneSecondAfterARejection(b: Bucket, times: seq<int>, k: nat, m: nat)
    requires b.Valid() && b.units == b.Capacity() && k < m < |times|
    requires forall i :: k <= i < m ==> !Admissions(b, times)[i]
    requires Clock(b.last, times, m + 1) >= Clock(b.last, times, k + 1) + TOKEN
    ensures Admissions(b, times)[m]
  {
    LevelAfterRejections(b, times, k, m);
    LevelIsNatural(b, times, k);
    SecondEarnsAToken(b, times, k + 1, m + 1);
    BurstHoldsAToken(b);
    AdmittedIffLevel(b, times, m);
  }

  lemma LevelIsNatural(b: Bucket, times: seq<int>, k: nat)
    requires b.Valid() && k < |times|
    ensures Level(b, times, k) >= 0
  {
    LevelFromState(b, times, k);
    StateFacts(b, times, k);
    GainIsNatural(b, times, k);
  }

  lemma SecondEarnsAToken(b: Bucket, times: seq<int>, i: nat, n: nat)
    requires b.Valid() && i <= n <= |times| && Clock(b.last, times, n) >= Clock(b.last, times, i) + TOKEN
    ensures Earned(b, times, n) >= Earned(b, times, i) + TOKEN
  {
    EarnedIsRateTimesElapsed(b, times, i, n);
    MulAtLeast(Clock(b.last, times, n) - Clock(b.last, times, i), b.rate);
  }

  lemma {:induction false} LevelAfterRejections(b: Bucket, times: seq<int>, k: nat, m: nat)
    requires b.Valid() && k <= m < |times|
    requires forall i :: k <= i < m ==> !Admissions(b, times)[i]
    ensures Level(b, times, m) == Min(b.Capacity(), Level(b, times, k) + Earned(b, times, m + 1) - Earned(b, times, k + 1))
    decreases m
  {
    if k < m {
      LevelAfterRejections(b, times, k, m - 1);
      LevelStep(b, times, m - 1);
      GainIsNatural(b, times, m);
    } else {
      LevelFromState(b, times, k);
    }
  }

  // ----- created buckets

  /** At most `burst` tokens plus `rate` tokens a second, in nanotokens, since the clock showed `since`. */
  predicate WithinCurve(config: Config, admitted: int, elapsed: int) {
    admitted * 1_000_000_000 <= config.burst as int * 1_000_000_000 + config.requestsPerSecond as int * elapsed
  }

  /** One more admission at call `k` stays within the curve since call `j`. */
  predicate CurveSince(config: Config, created: int, times: seq<int>, c: seq<bool>, j: nat, k: nat)
    requires |c| == |times| && j <= k < |times|
  {
    WithinCurve(config, Count(c, j, k) + 1, Clock(created, times, k + 1) - Clock(created, times, j + 1))
  }

  /** The same since the bucket was created. */
  predicate CurveSinceCreation(config: Config, created: int, times: seq<int>, c: seq<bool>, k: nat)
    requires |c| == |times| && k < |times|
  {
    WithinCurve(config, Count(c, 0, k) + 1, Clock(created, times, k + 1) - created)
  }

  lemma CurveIsWindow(config: Config, created: int, times: seq<int>, c: seq<bool>, j: nat, k: nat)
    requires |c| == |times| && j <= k < |times|
    ensures Fits(Fresh(config, created), times, c, j, k) <==> CurveSince(config, created, times, c, j, k)
  {
  }

  lemma CurveIsFirstWindow(config: Config, created: int, times: seq<int>, c: seq<bool>, k: nat)
    requires |c| == |times| && k < |times|
    ensures FitsSinceCreation(Fresh(config, created), times, c, k) <==> CurveSinceCreation(config, created, times, c, k)
  {
  }

  /** For every bucket that can be created, over any run: a call is admitted if and only if every window has room for it. */
  lemma CreatedAdmitsExactlyWhatFits(config: Config, created: int, times: seq<int>, k: nat)
    requires config.Valid() && k < |times|
    ensures var c := Admissions(Fresh(config, created), times);
      c[k] <==> CurveSinceCreation(config, created, times, c, k) && forall j :: 0 <= j < k ==> CurveSince(config, created, times, c, j, k)
  {
    var b := Fresh(config, created);
    var c := Admissions(b, times);
    FreshIsFull(config, created);
    AdmittedIffEveryWindowFits(b, times, k);
    CurveIsFirstWindow(config, created, times, c, k);
    forall j | 0 <= j < k
      ensures Fits(b, times, c, j, k) <==> CurveSince(config, created, times, c, j, k)
    {
      CurveIsWindow(config, created, times, c, j, k);
    }
  }

  /** A choice of admitted calls that stays within the curve in every window. */
  ghost predicate WithinEveryCurve(config: Config, created: int, times: seq<int>, alt: seq<bool>) {
    && |alt| == |times|
    && (forall k :: 0 <= k < |alt| && alt[k] ==> CurveSinceCreation(config, created, times, alt, k))
    && (forall j, k :: 0 <= j <= k < |alt| && alt[k] ==> CurveSince(config, created, times, alt, j, k))
  }

  /** And no other choice within the curve admits more, on any prefix of the run. */
  lemma CreatedIsMaximal(config: Config, created: int, times: seq<int>, alt: seq<bool>, n: nat)
    requires config.Valid() && WithinEveryCurve(config, created, times, alt) && n <= |times|
    ensures Count(alt, 0, n) <= Count(Admissions(Fresh(config, created), times), 0, n)
  {
    var b := Fresh(config, created);
    FreshIsFull(config, created);
    forall k | 0 <= k < |alt| && alt[k] ensures FitsSinceCreation(b, times, alt, k) {
      CurveIsFirstWindow(config, created, times, alt, k);
    }
    forall j, k | 0 <= j <= k < |alt| && alt[k] ensures Fits(b, times, alt, j, k) {
      CurveIsWindow(config, created, times, alt, j, k);
    }
    NoConformingChoiceAdmitsMore(b, times, alt, n);
  }

  lemma {:induction false} CountIsBounded(c: seq<bool>, i: nat, j: nat)
    requires i <= j <= |c|
    ensures Count(c, i, j) <= j - i
    decreases j
  {
    if i < j {
      CountIsBounded(c, i, j - 1);
    }
  }

  lemma {:induction false} ClockNeverGoesBack(created: int, times: seq<int>, i: nat, j: nat)
    requires i <= j <= |times|
    ensures Clock(created, times, i) <= Clock(created, times, j)
    decreases j
  {
    if i < j {
      ClockNeverGoesBack(created, times, i, j - 1);
    }
  }

  /** The first `burst` calls, at any times, are all admitted. */
  lemma FirstBurstIsAdmitted(config: Config, created: int, times: seq<int>, k: nat)
    requires config.Valid() && k < |times| && k < config.burst as int
    ensures Admissions(Fresh(config, created), times)[k]
  {
    var c, now := Admissions(Fresh(config, created), times), Clock(created, times, k + 1);
    CreatedAdmitsExactlyWhatFits(config, created, times, k);
    CountIsBounded(c, 0, k);
    NaturalProduct(config.requestsPerSecond as int, now - created);
    forall j | 0 <= j < k
      ensures CurveSince(config, created, times, c, j, k)
    {
      CountIsBounded(c, j, k);
      ClockNeverGoesBack(created, times, j + 1, k + 1);
      NaturalProduct(config.requestsPerSecond as int, now - Clock(created, times, j + 1));
    }
  }

  /** A real bucket, created and then called at any times, decides exactly so; every rejection asks for one second. */
  method Calls(config: Config, created: int64, times: seq<int64>) returns (r: Result<seq<Decision>>)
    ensures r.Ok? <==> config.Valid()
    ensures r.Ok? ==> |r.value| == |times|
    ensures r.Ok? ==> forall k :: 0 <= k < |times| ==>
      r.value[k] == if Admissions(Fresh(config, created as int), Ints(times))[k] then Allowed else Rejected(1)
  {
    var made := Create(config, created);
    if made.Thrown? {
      return Thrown(made.reason);
    }
    var bucket, decisions := made.value, [];
    ghost var b, all := Fresh(config, created as int), Ints(times);
    FreshIsFull(config, created as int);
    for k := 0 to |times|
      invariant fresh(bucket) && bucket.Valid() && bucket.State() == StateAfter(b, all, k) && |decisions| == k
      invariant forall i :: 0 <= i < k ==> decisions[i] == if Admissions(b, all)[i] then Allowed else Rejected(1)
    {
      AdmissionAt(b, all, |all|, k);
      var decision := Decide(bucket, times[k]);
      decisions := decisions + [decision];
    }
    return Ok(decisions);
  }

  method Decide(bucket: TokenBucket, now: int64) returns (decision: Decision)
    requires bucket.Valid()
    modifies bucket
    ensures bucket.Valid() && bucket.State() == old(bucket.State()).After(now as int)
    ensures decision == if old(bucket.State()).Admits(now as int) then Allowed else Rejected(1)
  {
    decision := bucket.TryAcquire(now);
    if decision.Rejected? {
      RetryAfterIsAlwaysOne(bucket.State(), decision.retryAfterSeconds);
    }
  }

  function Ints(times: seq<int64>): (r: seq<int>)
    ensures |r| == |times| && forall k :: 0 <= k < |times| ==> r[k] == times[k] as int
  {
    seq(|times|, k requires 0 <= k < |times| => times[k] as int)
  }
}
