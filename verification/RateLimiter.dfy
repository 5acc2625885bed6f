/** The token bucket (src/utils/rate_limiter.py). Calls hold the lock from end to end, sleep included, so a
    run is a sequence of calls; the clock readings are inputs. */
module RateLimiter {
  import opened Wrappers

  datatype Bucket = Bucket(rate: real, burst: int, tokens: real, last: real, acquired: nat, waited: nat)

  /** Calls and the times they read: `woke` is when a call that slept looks again. A call that gives up is
      cancelled in its sleep. */
  datatype Call =
    | Acquire(tokens: int, now: real, woke: real)
    | GiveUp(tokens: int, now: real)
    | TryAcquire(tokens: int, now: real)

  function Min(a: real, b: real): real {
    if a <= b then a else b
  }

  /** What accrues in a time. */
  function Accrued(rate: real, time: real): real {
    time * rate
  }

  function Refilled(b: Bucket, now: real): Bucket {
    b.(tokens := Min(b.burst as real, b.tokens + Accrued(b.rate, now - b.last)), last := now)
  }

  function Taken(b: Bucket, n: int): Bucket {
    b.(tokens := b.tokens - n as real, acquired := b.acquired + 1)
  }

  /** Whether a call finds enough tokens at once. */
  predicate Enough(b: Bucket, n: int, now: real) {
    Refilled(b, now).tokens >= n as real
  }

  function Step(b: Bucket, c: Call): Bucket {
    match c
    case Acquire(n, now, woke) =>
      if n < 1 then b
      else
        var f := Refilled(b, now);
        if Enough(b, n, now) then Taken(f, n) else Taken(Refilled(f.(waited := f.waited + 1), woke), n)
    case GiveUp(n, now) =>
      if n < 1 then b
      else
        var f := Refilled(b, now);
        if Enough(b, n, now) then Taken(f, n) else f.(waited := f.waited + 1)
    case TryAcquire(n, now) =>
      var f := Refilled(b, now);
      if Enough(b, n, now) then Taken(f, n) else f
  }

  /** The tokens a call is given; it is given them at the time of its last refill. */
  function Granted(b: Bucket, c: Call): int {
    match c
    case Acquire(n, _, _) => if n < 1 then 0 else n
    case GiveUp(n, now) => if n < 1 || !Enough(b, n, now) then 0 else n
    case TryAcquire(n, now) => if Enough(b, n, now) then n else 0
  }

  function Run(b: Bucket, calls: seq<Call>): Bucket {
    if calls == [] then b else Step(Run(b, calls[..|calls| - 1]), calls[|calls| - 1])
  }

  // ---------------------------------------------------------------------------
  // What is assumed of clocks, and what of callers
  // ---------------------------------------------------------------------------

  /** A bucket as it is made: full, with a positive rate. */
  predicate Made(b: Bucket) {
    b.rate > 0.0 && b.burst >= 0 && b.tokens == b.burst as real
  }

  /** The clock does not run backwards, and no sleep ends early. */
  predicate Punctual(b: Bucket, c: Call) {
    c.now >= b.last &&
    (c.Acquire? && c.tokens >= 1 && !Enough(b, c.tokens, c.now) ==>
      c.woke >= c.now && Accrued(b.rate, c.woke - c.now) >= c.tokens as real - Refilled(b, c.now).tokens)
  }

  predicate Orderly(b: Bucket, calls: seq<Call>) {
    calls == [] ||
    (Orderly(b, calls[..|calls| - 1]) && Punctual(Run(b, calls[..|calls| - 1]), calls[|calls| - 1]))
  }

  /** No call that waits asks for more than the bucket can hold. */
  predicate Sized(b: Bucket, calls: seq<Call>) {
    calls == [] || (Sized(b, calls[..|calls| - 1]) && AskedWithin(b, calls[|calls| - 1]))
  }

  predicate AskedWithin(b: Bucket, c: Call) {
    c.Acquire? ==> c.tokens <= b.burst
  }

  // ---------------------------------------------------------------------------
  // One call
  // ---------------------------------------------------------------------------

  lemma AccruedMore(rate: real, s: real, t: real)
    requires rate > 0.0
    ensures Accrued(rate, s + t) == Accrued(rate, s) + Accrued(rate, t)
    ensures s >= 0.0 ==> Accrued(rate, s) >= 0.0
  {
  }

  /** A refill adds the rate times the time gone by, up to the burst. */
  lemma RefilledIs(b: Bucket, now: real)
    ensures var f, grown := Refilled(b, now), b.tokens + (now - b.last) * b.rate;
      && f.tokens == (if grown <= b.burst as real then grown else b.burst as real)
      && f == b.(tokens := f.tokens, last := now)
  {
  }

  /** A call finds enough exactly when the bucket can hold what it asks for, and what was there and what the
      rate has added since come to it. */
  lemma EnoughIs(b: Bucket, n: int, now: real)
    ensures Enough(b, n, now) <==> b.burst >= n && b.tokens + (now - b.last) * b.rate >= n as real
  {
  }

  /** How long a call that does not find enough asks to sleep: what is missing, at the rate. */
  function WaitFor(b: Bucket, n: int, now: real): real
    requires b.rate > 0.0
  {
    (n as real - Refilled(b, now).tokens) / b.rate
  }

  /** That is just long enough: a sleep lets as much accrue as was missing exactly when it lasts that long. */
  lemma WaitIsEnough(b: Bucket, n: int, now: real, slept: real)
    requires b.rate > 0.0
    ensures slept >= WaitFor(b, n, now) <==> Refilled(b, now).tokens + slept * b.rate >= n as real
    ensures !Enough(b, n, now) ==> WaitFor(b, n, now) > 0.0
  {
    hide Refilled;
    var missing := n as real - Refilled(b, now).tokens;
    QuotientBelow(missing, b.rate, slept);
    QuotientBelow(missing, b.rate, 0.0);
  }

  lemma QuotientBelow(x: real, d: real, q: real)
    requires d > 0.0
    ensures q >= x / d <==> q * d >= x
  {
    assert x / d * d == x;
    assert (q - x / d) * d == q * d - x;
  }

  /** The assumption on clocks, plainly: they do not run backwards, and a call that has to wait looks again no
      earlier than it asked to. */
  lemma PunctualIs(b: Bucket, c: Call)
    requires b.rate > 0.0
    ensures Punctual(b, c) <==>
      (c.now >= b.last &&
       (c.Acquire? && c.tokens >= 1 && !Enough(b, c.tokens, c.now) ==>
          c.woke >= c.now + WaitFor(b, c.tokens, c.now)))
  {
    if c.Acquire? {
      WaitIsEnough(b, c.tokens, c.now, c.woke - c.now);
      hide WaitFor, Enough, Refilled;
    }
  }

  /** The call is refused outright, without a look at the clock. */
  predicate Ignored(c: Call) {
    !c.TryAcquire? && c.tokens < 1
  }

  /** The tokens that are there when a call is served or gives up: those of its last refill. */
  function Found(b: Bucket, c: Call): real {
    if c.Acquire? && !Enough(b, c.tokens, c.now) then Refilled(Refilled(b, c.now), c.woke).tokens
    else Refilled(b, c.now).tokens
  }

  /** Tokens are accounted for: a call leaves what it found less what it was given. */
  lemma TokensAccounted(b: Bucket, c: Call)
    ensures Ignored(c) ==> Step(b, c) == b && Granted(b, c) == 0
    ensures !Ignored(c) ==> Step(b, c).tokens == Found(b, c) - Granted(b, c) as real
  {
    hide Accrued;
  }

  predicate Level(b: Bucket) {
    b.rate > 0.0 && 0.0 <= b.tokens <= b.burst as real
  }

  /** A refill gains no more than what accrues, and never overfills. */
  lemma RefillGains(b: Bucket, now: real)
    requires b.rate > 0.0 && now >= b.last
    ensures Refilled(b, now).tokens <= b.burst as real
    ensures Refilled(b, now).tokens <= b.tokens + Accrued(b.rate, now - b.last)
    ensures b.tokens >= 0.0 && b.burst >= 0 ==> Refilled(b, now).tokens >= 0.0
  {
    AccruedMore(b.rate, now - b.last, 0.0);
  }

  /** A call is given more than the bucket can hold exactly when it waits and asks for it: the others are given
      only what is there. */
  lemma GrantedWithin(b: Bucket, c: Call)
    requires b.rate > 0.0 && b.burst >= 0 && c.now >= b.last
    ensures Granted(b, c) <= b.burst <==> AskedWithin(b, c)
  {
    RefillGains(b, c.now);
    hide Accrued;
  }

  /** The call asks for no more than the bucket can hold, and gives back no more than fits in it. */
  predicate Fits(b: Bucket, c: Call) {
    AskedWithin(b, c) &&
    (c.TryAcquire? && c.tokens < 0 ==> Refilled(b, c.now).tokens - c.tokens as real <= b.burst as real)
  }

  /** One call keeps the tokens in [0, burst] exactly when it fits. */
  lemma StepLevel(b: Bucket, c: Call)
    requires Level(b) && Punctual(b, c)
    ensures Level(Step(b, c)) <==> Fits(b, c)
    ensures Step(b, c).rate == b.rate && Step(b, c).burst == b.burst
  {
    var f := Refilled(b, c.now);
    RefillGains(b, c.now);
    if c.Acquire? && c.tokens >= 1 && !Enough(b, c.tokens, c.now) {
      RefillGains(f, c.woke);
    }
    hide Accrued;
  }

  /** What a call is given comes out of a bucket that is at most full, and was before at most what has accrued
      since. What it gives back comes on top. */
  lemma StepGrants(b: Bucket, c: Call)
    requires b.rate > 0.0 && b.burst >= 0 && b.tokens >= 0.0 && Punctual(b, c) && AskedWithin(b, c)
    ensures var b' := Step(b, c);
      && b'.rate == b.rate && b'.burst == b.burst && b'.last >= b.last && b'.tokens >= 0.0
      && if Ignored(c) then b' == b && Granted(b, c) == 0 else
           && b'.tokens + Granted(b, c) as real <= b.burst as real
           && b'.tokens + Granted(b, c) as real <= b.tokens + Accrued(b.rate, b'.last - b.last)
  {
    var f := Refilled(b, c.now);
    RefillGains(b, c.now);
    AccruedMore(b.rate, 0.0, 0.0);
    if c.Acquire? && c.tokens >= 1 && !Enough(b, c.tokens, c.now) {
      RefillGains(f, c.woke);
      AccruedMore(b.rate, c.now - b.last, c.woke - c.now);
      assert c.woke - b.last == (c.now - b.last) + (c.woke - c.now);
      hide Accrued;
    } else {
      hide Accrued;
    }
  }

  /** A call that does not find enough and can wait does. */
  predicate Waits(b: Bucket, c: Call) {
    !c.TryAcquire? && c.tokens >= 1 && !Enough(b, c.tokens, c.now)
  }

  /** A call is served at once, or after its sleep unless it gave up. */
  predicate Served(b: Bucket, c: Call) {
    !Ignored(c) && (c.Acquire? || Enough(b, c.tokens, c.now))
  }

  function ServedIn(b: Bucket, calls: seq<Call>): nat {
    if calls == [] then 0
    else
      var init := calls[..|calls| - 1];
      ServedIn(b, init) + if Served(Run(b, init), calls[|calls| - 1]) then 1 else 0
  }

  function WaitsIn(b: Bucket, calls: seq<Call>): nat {
    if calls == [] then 0
    else
      var init := calls[..|calls| - 1];
      WaitsIn(b, init) + if Waits(Run(b, init), calls[|calls| - 1]) then 1 else 0
  }

  /** The counters count the calls that were served, and those that had to wait. */
  lemma {:induction false} CountersCount(b: Bucket, calls: seq<Call>)
    ensures Run(b, calls).acquired == b.acquired + ServedIn(b, calls)
    ensures Run(b, calls).waited == b.waited + WaitsIn(b, calls)
  {
    if calls != [] {
      CountersCount(b, calls[..|calls| - 1]);
      hide Enough, Accrued;
    }
  }

  // ---------------------------------------------------------------------------
  // The level over whole runs
  // ---------------------------------------------------------------------------

  predicate LevelThroughout(b: Bucket, calls: seq<Call>) {
    Level(Run(b, calls)) && (calls != [] ==> LevelThroughout(b, calls[..|calls| - 1]))
  }

  predicate AllFit(b: Bucket, calls: seq<Call>) {
    calls == [] ||
    (AllFit(b, calls[..|calls| - 1]) && Fits(Run(b, calls[..|calls| - 1]), calls[|calls| - 1]))
  }

  /** Over every run with a true clock: tokens are in [0, burst] at every moment if and only if every call fits. */
  lemma {:induction false} TokensLevel(b: Bucket, calls: seq<Call>)
    requires Made(b) && Orderly(b, calls)
    ensures LevelThroughout(b, calls) <==> AllFit(b, calls)
  {
    if calls != [] {
      var init := calls[..|calls| - 1];
      TokensLevel(b, init);
      hide Step, Fits, Punctual, Level;
      if LevelThroughout(b, init) {
        StepLevel(Run(b, init), calls[|calls| - 1]);
      }
    }
  }

  // ---------------------------------------------------------------------------
  // The rate over whole runs
  // ---------------------------------------------------------------------------

  /** Tokens given, or given back, in a span of time, both ends included. A call is given its tokens at the
      time of its last refill. */
  function GivenIn(b: Bucket, calls: seq<Call>, begin: real, end: real): nat {
    if calls == [] then 0
    else
      var s, c := Run(b, calls[..|calls| - 1]), calls[|calls| - 1];
      GivenIn(b, calls[..|calls| - 1], begin, end) +
      if begin <= Step(s, c).last <= end && Granted(s, c) > 0 then Granted(s, c) else 0
  }

  function ReturnedIn(b: Bucket, calls: seq<Call>, begin: real, end: real): nat {
    if calls == [] then 0
    else
      var s, c := Run(b, calls[..|calls| - 1]), calls[|calls| - 1];
      ReturnedIn(b, calls[..|calls| - 1], begin, end) +
      if begin <= Step(s, c).last <= end && Granted(s, c) < 0 then -Granted(s, c) else 0
  }

  /** How much may be granted in a time: the burst, and what accrues. */
  function Allowance(b: Bucket, time: real): real {
    b.burst as real + Accrued(b.rate, time)
  }

  lemma AllowanceIs(b: Bucket, time: real)
    ensures Allowance(b, time) == b.burst as real + b.rate * time
  {
  }

  lemma AllowanceGrows(b: Bucket, s: real, t: real)
    requires b.rate > 0.0 && s <= t
    ensures Allowance(b, t) == Allowance(b, s) + Accrued(b.rate, t - s) && Allowance(b, s) <= Allowance(b, t)
    ensures s >= 0.0 ==> Allowance(b, s) >= b.burst as real
  {
    AccruedMore(b.rate, s, t - s);
    AccruedMore(b.rate, t - s, 0.0);
  }

  /** The bucket that `b` has become: never in debt. */
  predicate From(b: Bucket, s: Bucket) {
    b.rate > 0.0 && b.burst >= 0 && s.rate == b.rate && s.burst == b.burst && s.tokens >= 0.0 && s.last >= b.last
  }

  lemma {:induction false} NoDebt(b: Bucket, calls: seq<Call>)
    requires Made(b) && Orderly(b, calls) && Sized(b, calls)
    ensures From(b, Run(b, calls))
  {
    if calls != [] {
      var init := calls[..|calls| - 1];
      NoDebt(b, init);
      hide Step, Punctual, Granted;
      StepGrants(Run(b, init), calls[|calls| - 1]);
    }
  }

  /** Before the span nothing counts; within it, what was granted and what is left fit the allowance so far;
      after it, what was granted fits the allowance of the span. */
  predicate Within(b: Bucket, s: Bucket, net: int, begin: real, end: real) {
    if s.last < begin then net == 0
    else if s.last <= end then s.tokens + net as real <= Allowance(b, s.last - begin)
    else net as real <= Allowance(b, end - begin)
  }

  lemma WithinStep(b: Bucket, s: Bucket, c: Call, net: int, begin: real, end: real)
    requires From(b, s) && begin <= end && Punctual(s, c) && AskedWithin(s, c)
    requires Within(b, s, net, begin, end)
    ensures var s' := Step(s, c);
      Within(b, s', net + if begin <= s'.last <= end then Granted(s, c) else 0, begin, end)
  {
    StepGrants(s, c);
    var s' := Step(s, c);
    hide Step, Granted, Allowance, Punctual, Accrued;
    if s'.last >= begin {
      AllowanceGrows(b, 0.0, s'.last - begin);
    }
    AllowanceGrows(b, 0.0, end - begin);
    if begin <= s.last <= end {
      AllowanceGrows(b, s.last - begin, end - begin);
      AllowanceGrows(b, s.last - begin, s'.last - begin);
    }
  }

  lemma NothingWithin(b: Bucket, begin: real, end: real)
    requires Made(b) && begin <= end
    ensures Within(b, b, 0, begin, end)
  {
    AllowanceGrows(b, 0.0, end - begin);
    if b.last >= begin {
      AllowanceGrows(b, 0.0, b.last - begin);
    }
  }

  /** However the last call lies to the span, what was granted in it fits its allowance. */
  lemma WithinAllowance(b: Bucket, s: Bucket, net: int, begin: real, end: real)
    requires From(b, s) && begin <= end && Within(b, s, net, begin, end)
    ensures net as real <= Allowance(b, end - begin)
  {
    AllowanceGrows(b, 0.0, end - begin);
    if begin <= s.last <= end {
      AllowanceGrows(b, s.last - begin, end - begin);
    }
  }

  lemma {:induction false} RunWithin(b: Bucket, calls: seq<Call>, begin: real, end: real)
    requires Made(b) && Orderly(b, calls) && Sized(b, calls) && begin <= end
    ensures Within(b, Run(b, calls), GivenIn(b, calls, begin, end) - ReturnedIn(b, calls, begin, end), begin, end)
  {
    if calls == [] {
      NothingWithin(b, begin, end);
    } else {
      var init := calls[..|calls| - 1];
      RunWithin(b, init, begin, end);
      NoDebt(b, init);
      hide Within, Punctual, Step, Granted, From;
      WithinStep(b, Run(b, init), calls[|calls| - 1],
        GivenIn(b, init, begin, end) - ReturnedIn(b, init, begin, end), begin, end);
    }
  }

  lemma NetBound(b: Bucket, calls: seq<Call>, begin: real, end: real)
    requires Made(b) && Orderly(b, calls) && Sized(b, calls) && begin <= end
    ensures GivenIn(b, calls, begin, end) as real <=
      Allowance(b, end - begin) + ReturnedIn(b, calls, begin, end) as real
  {
    hide Run, GivenIn, ReturnedIn, Orderly, Sized, Within, Allowance, From;
    RunWithin(b, calls, begin, end);
    NoDebt(b, calls);
    WithinAllowance(b, Run(b, calls), GivenIn(b, calls, begin, end) - ReturnedIn(b, calls, begin, end), begin, end);
  }

  /** In every span of time of length T, the tokens given are at most burst + rate * T, and those that were
      given back in it. */
  lemma RateBound(b: Bucket, calls: seq<Call>, begin: real, end: real)
    requires Made(b) && Orderly(b, calls) && Sized(b, calls) && begin <= end
    ensures GivenIn(b, calls, begin, end) as real <=
      b.burst as real + b.rate * (end - begin) + ReturnedIn(b, calls, begin, end) as real
  {
    AllowanceIs(b, end - begin);
    hide Run, GivenIn, ReturnedIn, Orderly, Sized, Allowance;
    NetBound(b, calls, begin, end);
  }

  // ---------------------------------------------------------------------------
  // Exactly
  // ---------------------------------------------------------------------------

  /** The tokens given less those given back, by the calls from number `i` on. */
  function NetFrom(b: Bucket, calls: seq<Call>, i: nat): int {
    if |calls| <= i then 0
    else NetFrom(b, calls[..|calls| - 1], i) + Granted(Run(b, calls[..|calls| - 1]), calls[|calls| - 1])
  }

  /** The time of call number `i`. */
  function TimeOf(b: Bucket, calls: seq<Call>, i: nat): real
    requires i < |calls|
  {
    Run(b, calls[..i + 1]).last
  }

  /** So many tokens are at most burst + rate * T. */
  predicate Fair(b: Bucket, given: int, time: real) {
    given as real <= b.burst as real + b.rate * time
  }

  lemma FairIs(b: Bucket, given: int, time: real)
    ensures Fair(b, given, time) <==> given as real <= Allowance(b, time)
  {
    AllowanceIs(b, time);
    hide Allowance;
  }

  /** The stretch of calls from number `i` on is given, net, at most the burst and what the rate adds between its
      first and its last. */
  predicate StretchBounded(b: Bucket, calls: seq<Call>, i: nat)
    requires i < |calls|
  {
    Fair(b, NetFrom(b, calls, i), Run(b, calls).last - TimeOf(b, calls, i))
  }

  lemma StretchBoundedIs(b: Bucket, calls: seq<Call>, i: nat)
    requires i < |calls|
    ensures StretchBounded(b, calls, i) <==>
      NetFrom(b, calls, i) as real <= Allowance(b, Run(b, calls).last - TimeOf(b, calls, i))
  {
    FairIs(b, NetFrom(b, calls, i), Run(b, calls).last - TimeOf(b, calls, i));
    hide Allowance, Run, TimeOf, NetFrom, Fair;
  }

  /** Every stretch of calls is given, net, at most the burst and what accrued between its first and its last. */
  ghost predicate StretchesBounded(b: Bucket, calls: seq<Call>) {
    calls == [] ||
    (StretchesBounded(b, calls[..|calls| - 1]) &&
     forall i: nat :: i < |calls| ==> StretchBounded(b, calls, i))
  }

  /** A stretch that began at `start` and was given `net`: what is left fits with it, unless it was given
      nothing yet. */
  predicate Stretched(b: Bucket, s: Bucket, net: int, start: real) {
    s.last >= start &&
    ((net == 0 && s.last == start) || s.tokens + net as real <= Allowance(b, s.last - start))
  }

  lemma StretchStep(b: Bucket, s: Bucket, c: Call, net: int, start: real)
    requires From(b, s) && Punctual(s, c) && AskedWithin(s, c) && Stretched(b, s, net, start)
    ensures Stretched(b, Step(s, c), net + Granted(s, c), start)
  {
    StepGrants(s, c);
    var s' := Step(s, c);
    hide Step, Granted, Allowance, Punctual, Accrued;
    AllowanceGrows(b, 0.0, s'.last - start);
    AllowanceGrows(b, s.last - start, s'.last - start);
  }

  /** The first call of a stretch, which begins at its own time. */
  lemma StretchBegins(b: Bucket, s: Bucket, c: Call)
    requires From(b, s) && Punctual(s, c) && AskedWithin(s, c)
    ensures Stretched(b, Step(s, c), Granted(s, c), Step(s, c).last)
  {
    StepGrants(s, c);
    hide Step, Granted, Punctual;
    AllowanceGrows(b, 0.0, 0.0);
  }

  lemma {:induction false} RunStretched(b: Bucket, calls: seq<Call>, i: nat)
    requires Made(b) && Orderly(b, calls) && Sized(b, calls) && i < |calls|
    ensures Stretched(b, Run(b, calls), NetFrom(b, calls, i), TimeOf(b, calls, i))
  {
    var init, c := calls[..|calls| - 1], calls[|calls| - 1];
    NoDebt(b, init);
    hide Step, Granted, Punctual, Stretched, From;
    if i == |calls| - 1 {
      assert calls[..i + 1] == calls;
      assert NetFrom(b, init, i) == 0;
      StretchBegins(b, Run(b, init), c);
    } else {
      RunStretched(b, init, i);
      assert calls[..i + 1] == init[..i + 1];
      StretchStep(b, Run(b, init), c, NetFrom(b, init, i), TimeOf(b, init, i));
    }
  }

  lemma StretchedAllowance(b: Bucket, s: Bucket, net: int, start: real)
    requires From(b, s) && Stretched(b, s, net, start)
    ensures net as real <= Allowance(b, s.last - start)
  {
    AllowanceGrows(b, 0.0, s.last - start);
  }

  lemma NoTime(b: Bucket, t: real)
    ensures Allowance(b, t - t) == b.burst as real
  {
  }

  lemma GivenWhatItAsks(b: Bucket, s: Bucket, c: Call)
    requires b.burst >= 0 && Granted(s, c) <= b.burst
    ensures AskedWithin(b, c)
  {
  }

  lemma LastCallSized(b: Bucket, calls: seq<Call>)
    requires calls != [] && StretchesBounded(b, calls)
    ensures Granted(Run(b, calls[..|calls| - 1]), calls[|calls| - 1]) <= b.burst
  {
    var i := |calls| - 1;
    assert calls[..i + 1] == calls;
    assert NetFrom(b, calls[..i], i) == 0;
    assert StretchBounded(b, calls, i);
    StretchBoundedIs(b, calls, i);
    NoTime(b, Run(b, calls).last);
    hide Run, Granted, Allowance, StretchBounded;
  }

  /** Over every run with a true clock, whatever is asked for or given back: every stretch of calls is given,
      net, at most the burst and what accrued in its time, if and only if no call that waits asks for more than
      the burst. */
  lemma {:induction false} RateBoundExactly(b: Bucket, calls: seq<Call>)
    requires Made(b) && Orderly(b, calls)
    ensures StretchesBounded(b, calls) <==> Sized(b, calls)
  {
    if calls != [] {
      RateBoundExactly(b, calls[..|calls| - 1]);
      hide Run, Granted, NetFrom, Allowance, Punctual, StretchBounded;
      if StretchesBounded(b, calls) {
        LastCallSized(b, calls);
        GivenWhatItAsks(b, Run(b, calls[..|calls| - 1]), calls[|calls| - 1]);
      }
      if Sized(b, calls) {
        forall i: nat | i < |calls|
          ensures StretchBounded(b, calls, i)
        {
          StretchBoundedIs(b, calls, i);
          RunStretched(b, calls, i);
          NoDebt(b, calls);
          StretchedAllowance(b, Run(b, calls), NetFrom(b, calls, i), TimeOf(b, calls, i));
        }
      }
    }
  }

  predicate NoneNegative(calls: seq<Call>) {
    forall i :: 0 <= i < |calls| ==> calls[i].TryAcquire? ==> calls[i].tokens >= 0
  }

  lemma {:induction false} NothingReturned(b: Bucket, calls: seq<Call>, begin: real, end: real)
    requires NoneNegative(calls)
    ensures ReturnedIn(b, calls, begin, end) == 0
  {
    if calls != [] {
      NothingReturned(b, calls[..|calls| - 1], begin, end);
    }
  }

  lemma {:induction false} GivenAtOnce(b: Bucket, calls: seq<Call>, t: real)
    requires calls != [] && t == Run(b, calls).last
    ensures GivenIn(b, calls, t, t) >= Granted(Run(b, calls[..|calls| - 1]), calls[|calls| - 1])
  {
  }

  /** The span of time is given at most the burst and the rate times its length. */
  predicate SpanBounded(b: Bucket, calls: seq<Call>, begin: real, end: real) {
    Fair(b, GivenIn(b, calls, begin, end), end - begin)
  }

  lemma SpanBoundedIs(b: Bucket, calls: seq<Call>, begin: real, end: real)
    ensures SpanBounded(b, calls, begin, end) <==> GivenIn(b, calls, begin, end) as real <= Allowance(b, end - begin)
  {
    FairIs(b, GivenIn(b, calls, begin, end), end - begin);
    hide Allowance, GivenIn, Fair;
  }

  /** Every span of time, at every moment of the run, is given at most burst + rate * T. */
  ghost predicate SpansBounded(b: Bucket, calls: seq<Call>) {
    (forall begin, end :: begin <= end ==> SpanBounded(b, calls, begin, end))
    && (calls != [] ==> SpansBounded(b, calls[..|calls| - 1]))
  }

  lemma LastGrantSized(b: Bucket, calls: seq<Call>)
    requires calls != [] && SpansBounded(b, calls)
    ensures Granted(Run(b, calls[..|calls| - 1]), calls[|calls| - 1]) <= b.burst
  {
    var t := Run(b, calls).last;
    GivenAtOnce(b, calls, t);
    NoTime(b, t);
    assert SpanBounded(b, calls, t, t);
    SpanBoundedIs(b, calls, t, t);
    hide Run, Granted, Allowance, GivenIn, SpanBounded;
  }

  /** Where nothing is given back, that is: every span of time of length T is given at most burst + rate * T,
      if and only if no call that waits asks for more than the burst. */
  lemma {:induction false} SpanBoundExactly(b: Bucket, calls: seq<Call>)
    requires Made(b) && Orderly(b, calls) && NoneNegative(calls)
    ensures SpansBounded(b, calls) <==> Sized(b, calls)
  {
    if calls != [] {
      SpanBoundExactly(b, calls[..|calls| - 1]);
    }
    hide Run, Granted, GivenIn, ReturnedIn, Allowance, Punctual, SpanBounded;
    if SpansBounded(b, calls) && calls != [] {
      LastGrantSized(b, calls);
      GivenWhatItAsks(b, Run(b, calls[..|calls| - 1]), calls[|calls| - 1]);
    }
    if Sized(b, calls) {
      forall begin, end | begin <= end
        ensures SpanBounded(b, calls, begin, end)
      {
        NothingReturned(b, calls, begin, end);
        NetBound(b, calls, begin, end);
        SpanBoundedIs(b, calls, begin, end);
      }
    }
  }

  // ---------------------------------------------------------------------------
  // Requests that do not fit
  // ---------------------------------------------------------------------------

  /** A request for more than the burst is granted all the same, after a sleep, and leaves the bucket in
      debt: then more than the burst is granted at one moment. */
  lemma OversizedGoesIntoDebt(b: Bucket, c: Call)
    requires Level(b) && Punctual(b, c) && c.Acquire? && c.tokens > b.burst && b.burst >= 0
    ensures Step(b, c).tokens < 0.0 && Granted(b, c) > b.burst
  {
    hide Accrued;
  }

  /** A request for a negative number of tokens is not refused by the call that does not wait: it puts tokens
      in, and a full bucket overflows. */
  lemma NegativeOverfills(b: Bucket, c: Call)
    requires Made(b) && c.TryAcquire? && c.tokens < 0 && c.now >= b.last
    ensures Step(b, c).tokens > b.burst as real
  {
    AccruedMore(b.rate, c.now - b.last, 0.0);
  }

  /** A request at the time of the last refill: nothing has accrued. */
  lemma AtOnce(s: Bucket, n: int)
    requires s.rate > 0.0 && s.tokens <= s.burst as real
    ensures var c := TryAcquire(n, s.last);
      && Punctual(s, c) && Step(s, c) == (if s.tokens >= n as real then Taken(s, n) else s)
      && Granted(s, c) == (if s.tokens >= n as real then n else 0)
      && (Fits(s, c) <==> (n < 0 ==> s.tokens - n as real <= s.burst as real)) && AskedWithin(s, c)
  {
    assert Refilled(s, s.last) == s;
  }

  lemma OneMore(b: Bucket, calls: seq<Call>, c: Call, t: real)
    requires Orderly(b, calls) && Sized(b, calls) && AllFit(b, calls)
    requires var s := Run(b, calls); Punctual(s, c) && AskedWithin(b, c) && Fits(s, c) && Step(s, c).last == t
    ensures var more, s := calls + [c], Run(b, calls);
      && Orderly(b, more) && Sized(b, more) && AllFit(b, more) && Run(b, more) == Step(s, c)
      && GivenIn(b, more, t, t) == GivenIn(b, calls, t, t) + (if Granted(s, c) > 0 then Granted(s, c) else 0)
      && ReturnedIn(b, more, t, t) == ReturnedIn(b, calls, t, t) + if Granted(s, c) < 0 then -Granted(s, c) else 0
  {
    assert (calls + [c])[..|calls|] == calls;
    hide Step, Granted, Punctual, Fits;
  }

  /** Tokens that are given back are given again: with room for one token, one request of -1 lets two tokens be
      given at one moment, though every call is sized and fits. */
  lemma GivenAgain(b: Bucket)
    requires Made(b) && b.burst == 1
    ensures var t := b.last;
      var calls := [TryAcquire(1, t), TryAcquire(-1, t), TryAcquire(1, t)];
      && Orderly(b, calls) && Sized(b, calls) && AllFit(b, calls)
      && GivenIn(b, calls, t, t) == 2 && ReturnedIn(b, calls, t, t) == 1
  {
    hide Accrued, Refilled, Enough, Step, Granted, Punctual, Fits;
    var t := b.last;
    var take, give := TryAcquire(1, t), TryAcquire(-1, t);
    AtOnce(b, 1);
    assert [] + [take] == [take];
    OneMore(b, [], take, t);
    var empty := Taken(b, 1);
    AtOnce(empty, -1);
    OneMore(b, [take], give, t);
    assert [take] + [give] == [take, give];
    AtOnce(Taken(empty, -1), 1);
    OneMore(b, [take, give], take, t);
    assert [take, give] + [take] == [take, give, take];
  }

  // ---------------------------------------------------------------------------
  // The limiter
  // ---------------------------------------------------------------------------

  class AsyncRateLimiter {
    const rate: real
    const burst: int
    var tokens: real
    var lastRefill: real
    var totalAcquired: nat
    var totalWaited: nat

    function View(): Bucket
      reads this
    {
      Bucket(rate, burst, tokens, lastRefill, totalAcquired, totalWaited)
    }

    constructor (rate: real, burst: int, now: real)
      ensures View() == Bucket(rate, burst, burst as real, now, 0, 0)
    {
      this.rate, this.burst := rate, burst;
      tokens, lastRefill, totalAcquired, totalWaited := burst as real, now, 0, 0;
    }

    method Refill(now: real)
      modifies this`tokens, this`lastRefill
      ensures View() == Refilled(old(View()), now)
    {
      hide Accrued;
      var elapsed := now - lastRefill;
      tokens := Min(burst as real, tokens + Accrued(rate, elapsed));
      lastRefill := now;
    }

    /** Waits if it has to, and says for how long it asked to sleep; a caller that gives up does so in its
        sleep. */
    method Acquire(n: int, now: real, woke: real, givesUp: bool) returns (ok: bool, wait: real)
      requires rate > 0.0
      modifies this
      ensures wait == if n < 1 || Enough(old(View()), n, now) then 0.0 else WaitFor(old(View()), n, now)
      ensures View() == Step(old(View()), if givesUp then GiveUp(n, now) else Call.Acquire(n, now, woke))
      ensures ok <==> Granted(old(View()), if givesUp then GiveUp(n, now) else Call.Acquire(n, now, woke)) > 0
    {
      hide Accrued;
      if n < 1 {
        return false, 0.0;
      }
      Refill(now);
      if tokens >= n as real {
        tokens := tokens - n as real;
        totalAcquired := totalAcquired + 1;
        return true, 0.0;
      }
      totalWaited := totalWaited + 1;
      var deficit := n as real - tokens;
      wait := deficit / rate;
      if givesUp {
        return false, wait;
      }
      Refill(woke);
      tokens := tokens - n as real;
      totalAcquired := totalAcquired + 1;
      return true, wait;
    }

    method TryAcquire(n: int, now: real) returns (ok: bool)
      modifies this
      ensures View() == Step(old(View()), Call.TryAcquire(n, now))
      ensures ok <==> burst >= n && old(tokens) + (now - old(lastRefill)) * rate >= n as real
    {
      EnoughIs(View(), n, now);
      hide Accrued;
      Refill(now);
      if tokens >= n as real {
        tokens := tokens - n as real;
        totalAcquired := totalAcquired + 1;
        return true;
      }
      return false;
    }
  }

  /** A limiter with the given or the default burst, or none for a rate that is not positive. */
  method Make(rate: real, burst: Option<int>, now: real) returns (limiter: Option<AsyncRateLimiter>)
    ensures limiter.None? <==> rate <= 0.0
    ensures limiter.Some? && (burst.Some? ==> burst.value >= 0) ==> Made(limiter.value.View())
    ensures limiter.Some? ==> fresh(limiter.value)
    ensures limiter.Some? ==> limiter.value.burst == (if burst.Some? then burst.value else Max(1, rate.Floor))
  {
    if rate <= 0.0 {
      return None;
    }
    var size := if burst.Some? then burst.value else Max(1, rate.Floor);
    var made := new AsyncRateLimiter(rate, size, now);
    return Some(made);
  }

  function Max(a: int, b: int): int {
    if a >= b then a else b
  }
}
