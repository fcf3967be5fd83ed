/**
 The lock-free token bucket.  The two atomics are changed by single atomic steps, and
 any number of callers interleave between those steps.
 */
module TokenBuckets {
  import opened MachineInts
  import opened Options

  const MICROS: nat := 1_000_000

  datatype Bucket = Bucket(rate: u64, capacity: u64, tokens: u64, lastRefill: u64)

  /** A full bucket, created at clock value `now`. */
  function NewBucket(rate: u64, capacity: u64, now: u64): Bucket {
    Bucket(rate, capacity, capacity, now)
  }

  /** Tokens earned between `last` and `now`, whole tokens only. */
  function CreditFor(rate: u64, now: u64, last: u64): u64 {
    SatMul(SatSub(now, last), rate) / MICROS
  }

  function Topped(b: Bucket, credit: u64): u64 {
    Min(SatAdd(b.tokens, credit), b.capacity)
  }

  lemma CreditBounds(rate: u64, now: u64, last: u64)
    ensures CreditFor(rate, now, last) > 0 ==> last < now
    ensures last <= now ==> CreditFor(rate, now, last) * MICROS <= rate * (now - last)
    ensures last <= now && rate * (now - last) <= U64_MAX
            ==> rate * (now - last) < (CreditFor(rate, now, last) + 1) * MICROS
  {
    if last <= now {
      assert (now - last) * rate == rate * (now - last);
    }
  }

  // ---------------------------------------------------------------------------
  // The bucket as the source writes it: two atomics changed in place.
  // ---------------------------------------------------------------------------

  /** `refill` followed by the consuming update, with nobody else running. */
  function Refilled(b: Bucket, now: u64): Bucket {
    var credit := CreditFor(b.rate, now, b.lastRefill);
    if credit == 0 then b else b.(lastRefill := now, tokens := Topped(b, credit))
  }

  function Admits(b: Bucket, now: u64, n: u64): bool {
    n <= Refilled(b, now).tokens
  }

  function AfterAllow(b: Bucket, now: u64, n: u64): Bucket {
    var r := Refilled(b, now);
    if n <= r.tokens then r.(tokens := r.tokens - n) else r
  }

  class TokenBucket {
    const rate: u64
    const capacity: u64
    var tokens: u64
    var lastRefill: u64

    function View(): Bucket
      reads this
    {
      Bucket(rate, capacity, tokens, lastRefill)
    }

    constructor (rate: u64, capacity: u64, now: u64)
      ensures View() == NewBucket(rate, capacity, now)
    {
      this.rate := rate;
      this.capacity := capacity;
      tokens := capacity;
      lastRefill := now;
    }

    /** The compare-exchange on `last_refill`. */
    method ClaimRefill(expected: u64, now: u64) returns (won: bool)
      modifies this`lastRefill
      ensures won == (old(lastRefill) == expected)
      ensures lastRefill == if won then now else old(lastRefill)
    {
      won := lastRefill == expected;
      if won {
        lastRefill := now;
      }
    }

    /** The crediting `fetch_update` on `tokens`. */
    method AddCredit(credit: u64)
      modifies this`tokens
      ensures tokens == Topped(old(View()), credit)
    {
      tokens := Min(SatAdd(tokens, credit), capacity);
    }

    /** The consuming `fetch_update` on `tokens`, which never goes below zero. */
    method TryTake(n: u64) returns (ok: bool)
      modifies this`tokens
      ensures ok == (n <= old(tokens))
      ensures tokens == if ok then old(tokens) - n else old(tokens)
    {
      ok := n <= tokens;
      if ok {
        tokens := tokens - n;
      }
    }

    method Refill(now: u64)
      modifies this
      ensures View() == Refilled(old(View()), now)
    {
      var last := lastRefill;
      var credit := CreditFor(rate, now, last);
      if credit == 0 {
        return;
      }
      var won := ClaimRefill(last, now);
      if won {
        AddCredit(credit);
      }
    }

    method AllowN(now: u64, n: u64) returns (ok: bool)
      modifies this
      ensures ok == Admits(old(View()), now, n)
      ensures View() == AfterAllow(old(View()), now, n)
    {
      Refill(now);
      ok := TryTake(n);
    }
  }

  /**
   What a call sees and leaves, in numbers: the tokens held and one more per million of rate
   times microseconds (a product that stops at 2^64 - 1), no more than the capacity; a token is taken only if the call is
   admitted, and the refill time moves only if something was earned.
   */
  lemma AllowInNumbers(b: Bucket, now: u64, n: u64)
    requires b.tokens <= b.capacity
    ensures var product := if now <= b.lastRefill then 0 else (now - b.lastRefill) * b.rate;
            var earned := (if product > 0xFFFF_FFFF_FFFF_FFFF then 0xFFFF_FFFF_FFFF_FFFF else product) / 1_000_000;
            var held := if b.tokens + earned < b.capacity then b.tokens + earned else b.capacity;
            && (Admits(b, now, n) <==> n <= held)
            && AfterAllow(b, now, n).tokens == (if n <= held then held - n else held)
            && AfterAllow(b, now, n).lastRefill == (if earned > 0 then now else b.lastRefill)
            && AfterAllow(b, now, n).rate == b.rate && AfterAllow(b, now, n).capacity == b.capacity
  {
    if now <= b.lastRefill {
      Saturation(0, b.rate);
    } else {
      Saturation(now - b.lastRefill, b.rate);
    }
  }

  /** An emptied bucket holds a second's worth of its rate a million microseconds later. */
  lemma EmptiedBucketAfterASecond(b: Bucket, n: u64)
    requires b.tokens == 0 && b.lastRefill + 1_000_000 <= 0xFFFF_FFFF_FFFF_FFFF
    requires b.rate * 1_000_000 <= 0xFFFF_FFFF_FFFF_FFFF
    ensures Admits(b, b.lastRefill + 1_000_000, n)
            <==> n <= (if b.rate < b.capacity then b.rate else b.capacity)
  {
    AllowInNumbers(b, b.lastRefill + 1_000_000, n);
  }

  /** A new bucket holds its whole capacity. */
  lemma NewBucketIsFull(rate: u64, capacity: u64, now: u64, n: u64)
    ensures Admits(NewBucket(rate, capacity, now), now, n) <==> n <= capacity
    ensures AfterAllow(NewBucket(rate, capacity, now), now, n)
         == Bucket(rate, capacity, if n <= capacity then capacity - n else capacity, now)
  {
    Saturation(0, rate);
  }

  /**
   A caller that has waited long enough for `n` tokens to accrue, with `n` within the
   capacity, is admitted unless the saturating product caps the credit below `n`.
   */
  lemma WaitedCallerAdmitted(b: Bucket, now: u64, n: u64)
    requires n <= b.capacity && b.lastRefill <= now
    requires n * MICROS <= b.rate * (now - b.lastRefill)
    requires n * MICROS <= U64_MAX
    ensures Admits(b, now, n)
  {
    assert (now - b.lastRefill) * b.rate == b.rate * (now - b.lastRefill);
  }

  /**
   Exactly: of what it has waited for, a caller gets what the bucket holds and what one
   saturated product can credit.
   */
  lemma WaitedCallerAdmittedIff(b: Bucket, now: u64, n: u64)
    requires n <= b.capacity && b.lastRefill <= now
    requires n * MICROS <= b.rate * (now - b.lastRefill)
    ensures Admits(b, now, n) <==> n <= b.tokens + U64_MAX / MICROS
  {
    assert (now - b.lastRefill) * b.rate == b.rate * (now - b.lastRefill);
  }

  // ---------------------------------------------------------------------------
  // Interleaved callers
  // ---------------------------------------------------------------------------

  /** Where one caller stands inside `allow_n(n)`. */
  datatype Phase =
    | Idle
    | Called(n: u64)
    | Clocked(n: u64, now: u64)
    | Loaded(n: u64, now: u64, last: u64)
    | Won(n: u64, credit: u64)
    | Ready(n: u64)

  /**
   The shared bucket, the monotonic clock, the callers, and what the history adds up to:
   tokens handed out, tokens credited by refill winners, and refills won.
   */
  datatype System = System(
    bucket: Bucket,
    clock: u64,
    callers: seq<Phase>,
    admitted: nat,
    credited: nat,
    wins: nat)

  datatype Step =
    | Tick(micros: nat)
    | Call(caller: nat, n: u64)
    | ReadClock(caller: nat)
    | LoadLast(caller: nat)
    | Claim(caller: nat)
    | Credit(caller: nat)
    | Consume(caller: nat)

  function Start(rate: u64, capacity: u64, now: u64, callers: nat): System {
    System(NewBucket(rate, capacity, now), now, seq(callers, _ => Idle), 0, 0, 0)
  }

  function To(s: System, caller: nat, p: Phase): System
    requires caller < |s.callers|
  {
    s.(callers := s.callers[caller := p])
  }

  /** One atomic step; a step whose caller is not at that point leaves the system alone. */
  function Next(s: System, step: Step): System {
    if step.Tick? then
      if s.clock + step.micros <= U64_MAX then s.(clock := s.clock + step.micros) else s
    else if step.caller >= |s.callers| then
      s
    else
      var i := step.caller;
      match (step, s.callers[i])
      case (Call(_, n), Idle) => To(s, i, Called(n))
      case (ReadClock(_), Called(n)) => To(s, i, Clocked(n, s.clock))
      case (LoadLast(_), Clocked(n, now)) => To(s, i, Loaded(n, now, s.bucket.lastRefill))
      case (Claim(_), Loaded(n, now, last)) =>
        var credit := CreditFor(s.bucket.rate, now, last);
        if credit == 0 || s.bucket.lastRefill != last then
          To(s, i, Ready(n))
        else
          To(s, i, Won(n, credit)).(
            bucket := s.bucket.(lastRefill := now),
            credited := s.credited + credit,
            wins := s.wins + 1)
      case (Credit(_), Won(n, credit)) =>
        To(s, i, Ready(n)).(bucket := s.bucket.(tokens := Topped(s.bucket, credit)))
      case (Consume(_), Ready(n)) =>
        if n <= s.bucket.tokens then
          To(s, i, Idle).(
            bucket := s.bucket.(tokens := s.bucket.tokens - n),
            admitted := s.admitted + n)
        else
          To(s, i, Idle)
      case _ => s
  }

  function Exec(s: System, steps: seq<Step>): System
    decreases |steps|
  {
    if steps == [] then s else Exec(Next(s, steps[0]), steps[1..])
  }

  lemma {:induction false} ExecConcat(s: System, a: seq<Step>, b: seq<Step>)
    ensures Exec(s, a + b) == Exec(Exec(s, a), b)
    decreases |a|
  {
    if a == [] {
      assert a + b == b;
    } else {
      assert (a + b)[0] == a[0] && (a + b)[1..] == a[1..] + b;
      ExecConcat(Next(s, a[0]), a[1..], b);
    }
  }

  /** Credit won but not yet added to `tokens`. */
  function PendingOf(p: Phase): nat {
    if p.Won? then p.credit else 0
  }

  function SumOf(callers: seq<Phase>, f: Phase -> nat): nat {
    if callers == [] then 0 else f(callers[0]) + SumOf(callers[1..], f)
  }

  function Pending(callers: seq<Phase>): nat {
    SumOf(callers, PendingOf)
  }

  lemma {:induction false} SumUpdate(callers: seq<Phase>, f: Phase -> nat, i: nat, p: Phase)
    requires i < |callers|
    ensures SumOf(callers[i := p], f) == SumOf(callers, f) - f(callers[i]) + f(p)
  {
    if i == 0 {
      assert callers[0 := p][1..] == callers[1..];
    } else {
      assert callers[i := p][1..] == callers[1..][i - 1 := p];
      SumUpdate(callers[1..], f, i - 1, p);
    }
  }

  lemma {:induction false} NothingSummed(callers: seq<Phase>, f: Phase -> nat)
    requires forall i :: 0 <= i < |callers| ==> f(callers[i]) == 0
    ensures SumOf(callers, f) == 0
  {
    if callers != [] {
      NothingSummed(callers[1..], f);
    }
  }

  /** What a caller has read is never ahead of the shared state. */
  ghost predicate Sane(s: System) {
    && s.bucket.tokens <= s.bucket.capacity
    && s.bucket.lastRefill <= s.clock
    && forall i :: 0 <= i < |s.callers| ==>
         match s.callers[i]
         case Clocked(_, now) => now <= s.clock
         case Loaded(_, now, last) => now <= s.clock && last <= s.bucket.lastRefill
         case _ => true
  }

  /** The step is a claim by a caller that is about to make one. */
  predicate Claims(s: System, step: Step) {
    step.Claim? && step.caller < |s.callers| && s.callers[step.caller].Loaded?
  }

  /** Everything ever put into the bucket that has not been forgotten by the capacity clamp. */
  function Balance(s: System): int {
    s.bucket.tokens + s.admitted + Pending(s.callers) - s.credited
  }

  /** Credit is backed by elapsed time: this never grows. */
  function Unbacked(s: System): int {
    s.credited * MICROS - s.bucket.rate * s.bucket.lastRefill
  }

  lemma StepKeeps(s: System, step: Step)
    requires Sane(s)
    ensures var t := Next(s, step);
            && Sane(t)
            && t.bucket.rate == s.bucket.rate && t.bucket.capacity == s.bucket.capacity
            && s.bucket.lastRefill <= t.bucket.lastRefill && s.clock <= t.clock
            && s.admitted <= t.admitted
            && Balance(t) <= Balance(s)
            && Unbacked(t) <= Unbacked(s)
  {
    BalanceStep(s, step);
    if Claims(s, step) {
      ClaimBacked(s, step.caller);
    }
  }

  /** No step makes a token. */
  lemma BalanceStep(s: System, step: Step)
    ensures Balance(Next(s, step)) <= Balance(s)
  {
    if !step.Tick? && step.caller < |s.callers| {
      var i := step.caller;
      SumUpdate(s.callers, PendingOf, i, Next(s, step).callers[i]);
      assert s.callers[i := s.callers[i]] == s.callers;
    }
  }

  /** A refill claims no more credit than the time it moves `lastRefill` by has earned. */
  lemma ClaimBacked(s: System, i: nat)
    requires i < |s.callers| && s.callers[i].Loaded?
    ensures var t := Next(s, Claim(i));
            s.bucket.lastRefill <= t.bucket.lastRefill && Unbacked(t) <= Unbacked(s)
  {
    var p := s.callers[i];
    CreditBounds(s.bucket.rate, p.now, p.last);
    MulSplit(s.bucket.rate, 0, p.last, p.now);
  }

  lemma {:induction false} RunKeeps(s: System, steps: seq<Step>)
    requires Sane(s)
    ensures var t := Exec(s, steps);
            && Sane(t)
            && t.bucket.rate == s.bucket.rate && t.bucket.capacity == s.bucket.capacity
            && s.bucket.lastRefill <= t.bucket.lastRefill && s.clock <= t.clock
            && s.admitted <= t.admitted
            && Balance(t) <= Balance(s)
            && Unbacked(t) <= Unbacked(s)
    decreases |steps|
  {
    if steps != [] {
      StepKeeps(s, steps[0]);
      RunKeeps(Next(s, steps[0]), steps[1..]);
    }
  }

  lemma Floored(x: int, y: int)
    requires x * MICROS <= y
    ensures x <= y / MICROS
  {
  }

  lemma StartSane(rate: u64, capacity: u64, now: u64, callers: nat)
    ensures Sane(Start(rate, capacity, now, callers))
    ensures Pending(Start(rate, capacity, now, callers).callers) == 0
  {
    NothingSummed(Start(rate, capacity, now, callers).callers, PendingOf);
  }

  /**
   In every interleaving of any number of callers, what was admitted stays within the
   burst capacity plus what the rate earned since creation; the bucket never holds more
   than its capacity.
   */
  lemma AdmissionBound(rate: u64, capacity: u64, now: u64, callers: nat, steps: seq<Step>)
    ensures var t := Exec(Start(rate, capacity, now, callers), steps);
            && t.bucket.tokens <= capacity
            && now <= t.bucket.lastRefill <= t.clock
            && t.admitted * 1_000_000 <= capacity * 1_000_000 + rate * (t.clock - now)
            && t.admitted <= capacity + rate * (t.clock - now) / 1_000_000
  {
    var s := Start(rate, capacity, now, callers);
    StartSane(rate, capacity, now, callers);
    RunKeeps(s, steps);
    var t := Exec(s, steps);
    MulSplit(rate, 0, now, t.bucket.lastRefill);
    MulMono(rate, t.bucket.lastRefill - now, t.clock - now);
    Floored(t.admitted - capacity, rate * (t.clock - now));
  }

  /**
   From any point of any run: what is admitted afterwards is covered by the tokens in the
   bucket, the credit already won, and what the rate earns from the last refill on.
   */
  lemma SuffixBound(rate: u64, capacity: u64, now: u64, callers: nat, before: seq<Step>, after: seq<Step>)
    ensures var s := Exec(Start(rate, capacity, now, callers), before);
            var t := Exec(s, after);
            && s.bucket.lastRefill <= t.bucket.lastRefill
            && t.admitted - s.admitted <=
               s.bucket.tokens + Pending(s.callers) + rate * (t.clock - s.bucket.lastRefill) / MICROS
  {
    StartSane(rate, capacity, now, callers);
    RunKeeps(Start(rate, capacity, now, callers), before);
    var s := Exec(Start(rate, capacity, now, callers), before);
    RunKeeps(s, after);
    var t := Exec(s, after);
    MulSplit(rate, 0, s.bucket.lastRefill, t.bucket.lastRefill);
    MulMono(rate, t.bucket.lastRefill - s.bucket.lastRefill, t.clock - s.bucket.lastRefill);
    Floored(t.admitted - s.admitted - s.bucket.tokens - Pending(s.callers), rate * (t.clock - s.bucket.lastRefill));
  }

  /** A step-by-step account of a run determines where it ends. */
  lemma {:induction false} RunThrough(states: seq<System>, steps: seq<Step>)
    requires |states| == |steps| + 1
    requires forall i :: 0 <= i < |steps| ==> states[i + 1] == Next(states[i], steps[i])
    ensures Exec(states[0], steps) == states[|steps|]
    decreases |steps|
  {
    if steps != [] {
      RunThrough(states[1..], steps[1..]);
    }
  }

  // ---------------------------------------------------------------------------
  // Bursts
  // ---------------------------------------------------------------------------

  /** No time passes. */
  predicate Instant(steps: seq<Step>) {
    forall i :: 0 <= i < |steps| ==> !steps[i].Tick?
  }

  /** Nobody is inside a call. */
  predicate AtRest(s: System) {
    && s.bucket.tokens <= s.bucket.capacity
    && s.bucket.lastRefill <= s.clock
    && forall i :: 0 <= i < |s.callers| ==> s.callers[i] == Idle
  }

  /** What a refill done now would earn. */
  function Due(s: System): u64 {
    CreditFor(s.bucket.rate, s.clock, s.bucket.lastRefill)
  }

  /** The most that can be let through before the clock moves. */
  function BurstSize(s: System): nat {
    s.bucket.tokens + Min(Due(s), s.bucket.capacity)
  }

  /** A refill in progress adds no more than the capacity, however much it has won. */
  function CappedOf(capacity: nat): Phase -> nat {
    (p: Phase) => if p.Won? then Min(p.credit, capacity) else 0
  }

  /** What a caller has read since `s`, where all were idle. */
  ghost predicate ReadSince(s: System, t: System, p: Phase) {
    match p
    case Clocked(_, now) => s.clock <= now <= t.clock
    case Loaded(_, now, last) => s.clock <= now <= t.clock && last <= t.bucket.lastRefill
    case _ => true
  }

  /** What the bucket holds, has handed out since `s` and has coming from refills in progress. */
  function Gained(s: System, t: System): int {
    t.bucket.tokens + t.admitted - s.admitted + SumOf(t.callers, CappedOf(s.bucket.capacity))
  }

  /**
   `t` follows `s`, where all were idle.  The first refill won since then, at `first`, brings
   what was due by then, capped; the later ones are backed by the time since `first`.
   */
  ghost predicate Follows(s: System, t: System, first: Option<u64>) {
    && t.bucket.rate == s.bucket.rate && t.bucket.capacity == s.bucket.capacity
    && t.bucket.tokens <= t.bucket.capacity
    && s.clock <= t.clock
    && (forall i :: 0 <= i < |t.callers| ==> ReadSince(s, t, t.callers[i]))
    && match first
       case None => t.bucket.lastRefill == s.bucket.lastRefill && Gained(s, t) <= s.bucket.tokens
       case Some(at) =>
         && s.clock <= at <= t.bucket.lastRefill <= t.clock
         && (Gained(s, t) - s.bucket.tokens - Capped(s, at)) * MICROS <= s.bucket.rate * (t.bucket.lastRefill - at)
  }

  /** What a first refill at `at` can add. */
  function Capped(s: System, at: u64): nat {
    Min(CreditFor(s.bucket.rate, at, s.bucket.lastRefill), s.bucket.capacity)
  }

  lemma FollowsStep(s: System, t: System, first: Option<u64>, step: Step) returns (first': Option<u64>)
    requires s.bucket.lastRefill <= s.clock && Follows(s, t, first)
    ensures Follows(s, Next(t, step), first')
  {
    if Claims(t, step) {
      first' := FollowsClaim(s, t, first, step.caller);
    } else {
      first' := first;
      FollowsOther(s, t, first, step);
    }
  }

  lemma FollowsOther(s: System, t: System, first: Option<u64>, step: Step)
    requires Follows(s, t, first) && !Claims(t, step)
    ensures Follows(s, Next(t, step), first)
  {
    if !step.Tick? && step.caller < |t.callers| {
      GainedStep(s, t, step);
    }
  }

  /** Apart from claims no step gains anything. */
  lemma GainedStep(s: System, t: System, step: Step)
    requires t.bucket.capacity == s.bucket.capacity && t.bucket.tokens <= t.bucket.capacity && !Claims(t, step)
    ensures Gained(s, Next(t, step)) <= Gained(s, t)
    ensures Next(t, step).bucket.lastRefill == t.bucket.lastRefill
  {
    if !step.Tick? && step.caller < |t.callers| {
      SumUpdate(t.callers, CappedOf(s.bucket.capacity), step.caller, Next(t, step).callers[step.caller]);
      assert t.callers[step.caller := t.callers[step.caller]] == t.callers;
    }
  }

  lemma FollowsClaim(s: System, t: System, first: Option<u64>, i: nat) returns (first': Option<u64>)
    requires s.bucket.lastRefill <= s.clock && Follows(s, t, first)
    requires i < |t.callers| && t.callers[i].Loaded?
    ensures Follows(s, Next(t, Claim(i)), first')
  {
    var p := t.callers[i];
    var n := Next(t, Claim(i));
    assert ReadSince(s, t, p);
    ClaimGains(s, t, i);
    CreditBounds(s.bucket.rate, p.now, p.last);
    first' := first;
    if n.callers[i].Won? {
      if first.None? {
        first' := Some(p.now);
      } else {
        BackedFurther(s.bucket.rate, first.value, p.last, p.now, n.callers[i].credit,
                      Gained(s, t) - s.bucket.tokens - Capped(s, first.value),
                      Gained(s, n) - s.bucket.tokens - Capped(s, first.value));
      }
    }
  }

  lemma BackedFurther(rate: u64, at: u64, last: u64, now: u64, credit: u64, before: int, after: int)
    requires before * MICROS <= rate * (last - at) && credit * MICROS <= rate * (now - last)
    requires after <= before + credit
    ensures after * MICROS <= rate * (now - at)
  {
    MulSplit(rate, at, last, now);
  }

  lemma ClaimGains(s: System, t: System, i: nat)
    requires i < |t.callers| && t.callers[i].Loaded?
    ensures var n := Next(t, Claim(i));
            Gained(s, n) == Gained(s, t) + CappedOf(s.bucket.capacity)(n.callers[i])
  {
    SumUpdate(t.callers, CappedOf(s.bucket.capacity), i, Next(t, Claim(i)).callers[i]);
  }

  lemma {:induction false} FollowsRun(s: System, t: System, first: Option<u64>, steps: seq<Step>)
      returns (first': Option<u64>)
    requires s.bucket.lastRefill <= s.clock && Follows(s, t, first)
    ensures Follows(s, Exec(t, steps), first')
    decreases |steps|
  {
    if steps == [] {
      first' := first;
    } else {
      var f := FollowsStep(s, t, first, steps[0]);
      first' := FollowsRun(s, Next(t, steps[0]), f, steps[1..]);
    }
  }

  /**
   From rest, whatever is let through is what the bucket held, one capped refill at some
   time `at`, and what the rate earns after that.
   */
  lemma AdmittedFromRest(s: System, steps: seq<Step>) returns (at: u64)
    requires AtRest(s)
    ensures var t := Exec(s, steps);
            && s.clock <= at <= t.clock
            && t.admitted - s.admitted <= s.bucket.tokens + Capped(s, at) + s.bucket.rate * (t.clock - at) / MICROS
  {
    NothingSummed(s.callers, CappedOf(s.bucket.capacity));
    assert Follows(s, s, None);
    var first := FollowsRun(s, s, None, steps);
    var t := Exec(s, steps);
    at := if first.None? then t.clock else first.value;
    AdmittedSince(s, t, first, at);
  }

  lemma AdmittedSince(s: System, t: System, first: Option<u64>, at: u64)
    requires Follows(s, t, first) && at == if first.None? then t.clock else first.value
    ensures s.clock <= at <= t.clock
    ensures t.admitted - s.admitted <= s.bucket.tokens + Capped(s, at) + s.bucket.rate * (t.clock - at) / MICROS
  {
    var gain := t.admitted - s.admitted;
    assert gain <= Gained(s, t);
    MulMono(s.bucket.rate, 0, t.clock - at);
    if first.Some? {
      MulMono(s.bucket.rate, t.bucket.lastRefill - at, t.clock - at);
      Floored(Gained(s, t) - s.bucket.tokens - Capped(s, at), s.bucket.rate * (t.clock - at));
    }
  }

  lemma {:induction false} InstantStands(s: System, steps: seq<Step>)
    requires Instant(steps)
    ensures Exec(s, steps).clock == s.clock
    decreases |steps|
  {
    if steps != [] {
      InstantStands(Next(s, steps[0]), steps[1..]);
    }
  }

  /** However callers interleave, a burst lets through no more than that. */
  lemma BurstAtMost(s: System, steps: seq<Step>)
    requires AtRest(s) && Instant(steps)
    ensures Exec(s, steps).admitted - s.admitted <= BurstSize(s)
  {
    InstantStands(s, steps);
    var at := AdmittedFromRest(s, steps);
  }

  lemma ReadsTo(s: System, i: nat, n: u64)
    requires i < |s.callers| && s.callers[i] == Idle
    ensures Exec(s, [Call(i, n), ReadClock(i), LoadLast(i)])
         == To(s, i, Loaded(n, s.clock, s.bucket.lastRefill))
  {
    ReadingSteps(s, i, n);
    RunThrough([s, To(s, i, Called(n)), To(s, i, Clocked(n, s.clock)),
                To(s, i, Loaded(n, s.clock, s.bucket.lastRefill))],
               [Call(i, n), ReadClock(i), LoadLast(i)]);
  }

  lemma TwoSteps(s: System, a: Step, b: Step)
    ensures Exec(s, [a, b]) == Next(Next(s, a), b)
  {
    RunThrough([s, Next(s, a), Next(Next(s, a), b)], [a, b]);
  }

  /** Caller 1 has claimed what is due, if anything, after caller 0 read the old refill time. */
  ghost predicate Overtaken(s: System, t: System, n: u64, m: u64) {
    && t.clock == s.clock && t.admitted == s.admitted && |t.callers| == |s.callers| >= 2
    && t.callers[0] == Loaded(n, s.clock, s.bucket.lastRefill)
    && (if Due(s) > 0
        then t.callers[1] == Won(m, Due(s)) && t.bucket == s.bucket.(lastRefill := s.clock)
        else t.callers[1] == Ready(m) && t.bucket == s.bucket)
  }

  lemma Overtake(s: System, n: u64, m: u64) returns (steps: seq<Step>)
    requires AtRest(s) && |s.callers| >= 2
    ensures Instant(steps) && Overtaken(s, Exec(s, steps), n, m)
  {
    var first := [Call(0, n), ReadClock(0), LoadLast(0)];
    var second := [Call(1, m), ReadClock(1), LoadLast(1)];
    steps := first + second + [Claim(1)];
    ReadsTo(s, 0, n);
    var t := To(s, 0, Loaded(n, s.clock, s.bucket.lastRefill));
    ReadsTo(t, 1, m);
    var u := To(t, 1, Loaded(m, s.clock, s.bucket.lastRefill));
    ExecConcat(s, first, second);
    ExecConcat(s, first + second, [Claim(1)]);
    RunThrough([u, Next(u, Claim(1))], [Claim(1)]);
  }

  /**
   Caller 0, whose claim now comes to nothing, empties the bucket just before the refill is
   credited, and caller 1 empties it again.
   */
  lemma EmptiedTwice(s: System, t: System)
    requires AtRest(s) && Overtaken(s, t, s.bucket.tokens, Min(Due(s), s.bucket.capacity))
    ensures Exec(t, [Claim(0), Consume(0)] + [Credit(1), Consume(1)]).admitted == s.admitted + BurstSize(s)
  {
    ExecConcat(t, [Claim(0), Consume(0)], [Credit(1), Consume(1)]);
    TwoSteps(t, Claim(0), Consume(0));
    var u := Exec(t, [Claim(0), Consume(0)]);
    CreditBounds(s.bucket.rate, s.clock, s.bucket.lastRefill);
    assert Next(t, Claim(0)) == To(t, 0, Ready(s.bucket.tokens));
    assert u.bucket == t.bucket.(tokens := 0) && u.admitted == s.admitted + s.bucket.tokens;
    assert u.callers[1] == t.callers[1];
    TwoSteps(u, Credit(1), Consume(1));
  }

  lemma BurstReached(s: System) returns (steps: seq<Step>)
    requires AtRest(s) && |s.callers| >= 2
    ensures Instant(steps) && Exec(s, steps).admitted - s.admitted == BurstSize(s)
  {
    var opening := Overtake(s, s.bucket.tokens, Min(Due(s), s.bucket.capacity));
    var takes := [Claim(0), Consume(0)] + [Credit(1), Consume(1)];
    EmptiedTwice(s, Exec(s, opening));
    ExecConcat(s, opening, takes);
    steps := opening + takes;
  }

  /**
   With two or more callers at rest, a burst is held to the capacity in every interleaving
   exactly when the bucket is empty or the clamp would not cut the refill that is due.
   */
  lemma BurstWithinCapacityIff(s: System)
    requires AtRest(s) && |s.callers| >= 2
    ensures (forall steps :: Instant(steps) ==> Exec(s, steps).admitted - s.admitted <= s.bucket.capacity)
            <==> s.bucket.tokens == 0 || s.bucket.tokens + Due(s) <= s.bucket.capacity
  {
    var worst := BurstReached(s);
    forall steps | Instant(steps) ensures Exec(s, steps).admitted - s.admitted <= BurstSize(s) {
      BurstAtMost(s, steps);
    }
    if BurstSize(s) > s.bucket.capacity {
      assert Instant(worst) && Exec(s, worst).admitted - s.admitted > s.bucket.capacity;
    }
  }

  /**
   The condition does fail: whatever the rate and the capacity, a full bucket left alone
   long enough for a capacity to accrue lets through twice the capacity at one instant.
   */
  lemma BurstOfTwiceTheCapacity(rate: u64, capacity: u64, now: u64, callers: nat, wait: nat)
      returns (before: seq<Step>, after: seq<Step>)
    requires callers >= 2 && now + wait <= U64_MAX
    requires CreditFor(rate, now + wait, now) >= capacity
    ensures var s := Exec(Start(rate, capacity, now, callers), before);
            var t := Exec(s, after);
            t.clock == s.clock && t.admitted - s.admitted == 2 * capacity
  {
    var start := Start(rate, capacity, now, callers);
    before := [Tick(wait)];
    RunThrough([start, start.(clock := now + wait)], before);
    var s := start.(clock := now + wait);
    after := BurstReached(s);
    InstantStands(s, after);
  }

  /** A refill `d` later would not take a full burst above what the window of length `d` allows. */
  predicate FitsAfter(s: System, d: nat) {
    s.clock + d <= U64_MAX ==>
      s.bucket.tokens + Capped(s, s.clock + d) <= s.bucket.capacity + s.bucket.rate * d / MICROS
  }

  /** The burst bound over every window that starts at `s`. */
  ghost predicate WindowsBounded(s: System) {
    forall steps :: WindowBounded(s, steps)
  }

  predicate WindowBounded(s: System, steps: seq<Step>) {
    Exec(s, steps).clock >= s.clock
    && Exec(s, steps).admitted - s.admitted
       <= s.bucket.capacity + s.bucket.rate * (Exec(s, steps).clock - s.clock) / MICROS
  }

  /**
   With two or more callers at rest, the burst bound holds over every window that starts
   there exactly when the bucket is empty or the first refill fits, whenever it comes.
   */
  lemma WindowsBoundedIff(s: System)
    requires AtRest(s) && |s.callers| >= 2
    ensures WindowsBounded(s) <==> s.bucket.tokens == 0 || forall d :: FitsAfter(s, d)
  {
    if s.bucket.tokens == 0 || forall d :: FitsAfter(s, d) {
      forall steps ensures WindowBounded(s, steps) {
        FittingWindow(s, steps);
      }
    }
    if s.bucket.tokens > 0 && exists d :: !FitsAfter(s, d) {
      var d :| !FitsAfter(s, d);
      var steps := OverfullWindow(s, d);
      assert !WindowBounded(s, steps);
    }
  }

  lemma FittingWindow(s: System, steps: seq<Step>)
    requires AtRest(s) && (s.bucket.tokens == 0 || forall d :: FitsAfter(s, d))
    ensures WindowBounded(s, steps)
  {
    var at := AdmittedFromRest(s, steps);
    var t := Exec(s, steps);
    assert FitsAfter(s, at - s.clock) || s.bucket.tokens == 0;
    MulSplit(s.bucket.rate, s.clock, at, t.clock);
    MulMono(s.bucket.rate, 0, at - s.clock);
    FloorsAdd(s.bucket.rate * (at - s.clock), s.bucket.rate * (t.clock - at));
  }

  lemma FloorsAdd(a: nat, b: int)
    ensures a / MICROS + b / MICROS <= (a + b) / MICROS && b / MICROS <= (a + b) / MICROS
  {
  }

  lemma OverfullWindow(s: System, d: nat) returns (steps: seq<Step>)
    requires AtRest(s) && |s.callers| >= 2 && !FitsAfter(s, d)
    ensures !WindowBounded(s, steps)
  {
    var waited := s.(clock := s.clock + d);
    var burst := BurstReached(waited);
    steps := [Tick(d)] + burst;
    RunThrough([s, waited], [Tick(d)]);
    ExecConcat(s, [Tick(d)], burst);
    InstantStands(waited, burst);
  }

  /**
   From a point where tokens, pending credit and the time since the last refill are together
   worth no more than the capacity, the burst bound holds over every window.
   */
  lemma WindowBound(rate: u64, capacity: u64, now: u64, callers: nat, before: seq<Step>, after: seq<Step>)
    requires var s := Exec(Start(rate, capacity, now, callers), before);
             (s.bucket.tokens + Pending(s.callers)) * MICROS + rate * (s.clock - s.bucket.lastRefill)
             <= capacity * MICROS
    ensures var s := Exec(Start(rate, capacity, now, callers), before);
            var t := Exec(s, after);
            s.clock <= t.clock && t.admitted - s.admitted <= capacity + rate * (t.clock - s.clock) / MICROS
  {
    var s := Exec(Start(rate, capacity, now, callers), before);
    var t := Exec(s, after);
    StartSane(rate, capacity, now, callers);
    RunKeeps(Start(rate, capacity, now, callers), before);
    RunKeeps(s, after);
    SuffixBound(rate, capacity, now, callers, before, after);
    MulSplit(rate, s.bucket.lastRefill, s.clock, t.clock);
    WindowArithmetic(t.admitted - s.admitted, s.bucket.tokens + Pending(s.callers), capacity,
                     rate * (s.clock - s.bucket.lastRefill), rate * (t.clock - s.clock));
  }

  lemma WindowArithmetic(admitted: int, held: nat, capacity: nat, accrued: int, earned: int)
    requires held * MICROS + accrued <= capacity * MICROS
    requires admitted <= held + (accrued + earned) / MICROS
    ensures admitted <= capacity + earned / MICROS
  {
  }

  // ---------------------------------------------------------------------------
  // No refill: exact conservation
  // ---------------------------------------------------------------------------

  ghost predicate Dry(s: System) {
    && s.bucket.rate == 0
    && s.bucket.tokens + s.admitted == s.bucket.capacity
    && forall i :: 0 <= i < |s.callers| ==> !s.callers[i].Won?
  }

  lemma {:induction false} DryRun(s: System, steps: seq<Step>)
    requires Dry(s)
    ensures Dry(Exec(s, steps)) && Exec(s, steps).bucket.capacity == s.bucket.capacity
    decreases |steps|
  {
    if steps != [] {
      DryRun(Next(s, steps[0]), steps[1..]);
    }
  }

  /**
   With a zero refill rate tokens are neither made nor lost, so a caller asking for one
   token is turned away exactly when the whole capacity has been handed out.
   */
  lemma ZeroRateAdmitsExactlyCapacity(capacity: u64, now: u64, callers: nat, steps: seq<Step>, i: nat)
    requires i < callers
    ensures var s := Exec(Start(0, capacity, now, callers), steps);
            && s.bucket.tokens + s.admitted == capacity
            && |s.callers| == callers
            && (s.callers[i] == Ready(1) ==>
                  (Next(s, Consume(i)).admitted == s.admitted <==> s.admitted == capacity))
  {
    DryRun(Start(0, capacity, now, callers), steps);
    SameCallers(Start(0, capacity, now, callers), steps);
  }

  lemma {:induction false} SameCallers(s: System, steps: seq<Step>)
    ensures |Exec(s, steps).callers| == |s.callers|
    decreases |steps|
  {
    if steps != [] {
      SameCallers(Next(s, steps[0]), steps[1..]);
    }
  }

  // ---------------------------------------------------------------------------
  // Nothing is lost beyond the fractions
  // ---------------------------------------------------------------------------

  /** If the step wins a refill, the product that gives its credit does not saturate. */
  predicate ExactClaim(s: System, step: Step) {
    Claims(s, step) ==>
      var p := s.callers[step.caller];
      s.bucket.lastRefill == p.last ==> SatSub(p.now, p.last) * s.bucket.rate <= U64_MAX
  }

  predicate ExactClaims(s: System, steps: seq<Step>)
    decreases |steps|
  {
    steps == [] || (ExactClaim(s, steps[0]) && ExactClaims(Next(s, steps[0]), steps[1..]))
  }

  lemma StepLoss(s: System, step: Step)
    requires Sane(s) && ExactClaim(s, step)
    ensures var t := Next(s, step);
            s.wins <= t.wins && Unbacked(s) - Unbacked(t) <= (t.wins - s.wins) * (MICROS - 1)
  {
    if Claims(s, step) {
      var p := s.callers[step.caller];
      CreditBounds(s.bucket.rate, p.now, p.last);
      MulSplit(s.bucket.rate, 0, p.last, p.now);
      assert SatSub(p.now, p.last) * s.bucket.rate == s.bucket.rate * SatSub(p.now, p.last);
    }
  }

  lemma {:induction false} RunLoss(s: System, steps: seq<Step>)
    requires Sane(s) && ExactClaims(s, steps)
    ensures var t := Exec(s, steps);
            s.wins <= t.wins && Unbacked(s) - Unbacked(t) <= (t.wins - s.wins) * (MICROS - 1)
    decreases |steps|
  {
    if steps != [] {
      StepKeeps(s, steps[0]);
      StepLoss(s, steps[0]);
      RunLoss(Next(s, steps[0]), steps[1..]);
    }
  }

  /**
   Credit never exceeds what was earned up to the last won refill; and if no won refill's
   product saturates, all of that has been credited except for less than one token per win.
   */
  lemma RemainderLoss(rate: u64, capacity: u64, now: u64, callers: nat, steps: seq<Step>)
    ensures var t := Exec(Start(rate, capacity, now, callers), steps);
            var earned := rate * (t.bucket.lastRefill - now);
            && t.credited * MICROS <= earned
            && (ExactClaims(Start(rate, capacity, now, callers), steps) ==>
                  earned <= t.credited * MICROS + t.wins * (MICROS - 1))
  {
    var s := Start(rate, capacity, now, callers);
    StartSane(rate, capacity, now, callers);
    RunKeeps(s, steps);
    if ExactClaims(s, steps) {
      RunLoss(s, steps);
    }
    MulSplit(rate, 0, now, Exec(s, steps).bucket.lastRefill);
  }

  // ---------------------------------------------------------------------------
  // One caller alone
  // ---------------------------------------------------------------------------

  function WholeCall(i: nat, n: u64): seq<Step> {
    [Call(i, n), ReadClock(i), LoadLast(i), Claim(i), Credit(i), Consume(i)]
  }

  /** A call that nobody interrupts does what the sequential `AllowN` does. */
  lemma UninterruptedCall(s: System, i: nat, n: u64)
    requires i < |s.callers| && s.callers[i] == Idle
    ensures var t := Exec(s, WholeCall(i, n));
            && t.bucket == AfterAllow(s.bucket, s.clock, n)
            && t.admitted == s.admitted + (if Admits(s.bucket, s.clock, n) then n else 0)
            && t.callers == s.callers && t.clock == s.clock
  {
    var read := To(s, i, Loaded(n, s.clock, s.bucket.lastRefill));
    var refilled := To(ClaimAndCredit(s, i, n), i, Ready(n));
    ReadingSteps(s, i, n);
    ClaimingSteps(s, i, n);
    ConsumingStep(s, i, n);
    SixSteps(s, To(s, i, Called(n)), To(s, i, Clocked(n, s.clock)), read,
             Next(read, Claim(i)), refilled, Next(refilled, Consume(i)), i, n);
  }

  lemma SixSteps(s0: System, s1: System, s2: System, s3: System, s4: System, s5: System, s6: System, i: nat, n: u64)
    requires Next(s0, Call(i, n)) == s1 && Next(s1, ReadClock(i)) == s2 && Next(s2, LoadLast(i)) == s3
    requires Next(s3, Claim(i)) == s4 && Next(s4, Credit(i)) == s5 && Next(s5, Consume(i)) == s6
    ensures Exec(s0, WholeCall(i, n)) == s6
  {
    RunThrough([s0, s1, s2, s3, s4, s5, s6], WholeCall(i, n));
  }

  /** The system once caller `i` has done its refill, leaving its phase to be set. */
  function ClaimAndCredit(s: System, i: nat, n: u64): System {
    var credit := CreditFor(s.bucket.rate, s.clock, s.bucket.lastRefill);
    if credit == 0 then s else
      s.(bucket := Refilled(s.bucket, s.clock), credited := s.credited + credit, wins := s.wins + 1)
  }

  lemma ReadingSteps(s: System, i: nat, n: u64)
    requires i < |s.callers| && s.callers[i] == Idle
    ensures Next(s, Call(i, n)) == To(s, i, Called(n))
    ensures Next(To(s, i, Called(n)), ReadClock(i)) == To(s, i, Clocked(n, s.clock))
    ensures Next(To(s, i, Clocked(n, s.clock)), LoadLast(i))
         == To(s, i, Loaded(n, s.clock, s.bucket.lastRefill))
  {
  }

  lemma ClaimingSteps(s: System, i: nat, n: u64)
    requires i < |s.callers|
    ensures var read := To(s, i, Loaded(n, s.clock, s.bucket.lastRefill));
            Next(Next(read, Claim(i)), Credit(i)) == To(ClaimAndCredit(s, i, n), i, Ready(n))
  {
  }

  lemma ConsumingStep(s: System, i: nat, n: u64)
    requires i < |s.callers| && s.callers[i] == Idle
    ensures var t := Next(To(ClaimAndCredit(s, i, n), i, Ready(n)), Consume(i));
            && t.bucket == AfterAllow(s.bucket, s.clock, n)
            && t.admitted == s.admitted + (if Admits(s.bucket, s.clock, n) then n else 0)
            && t.callers == s.callers && t.clock == s.clock
  {
    assert s.callers[i := Ready(n)][i := Idle] == s.callers;
  }

  datatype TimedCall = TimedCall(now: u64, n: u64)

  ghost predicate InOrder(calls: seq<TimedCall>) {
    forall i, j :: 0 <= i < j < |calls| ==> calls[i].now <= calls[j].now
  }

  /** Total admitted over calls made one after the other. */
  function TotalAdmitted(b: Bucket, calls: seq<TimedCall>): nat
    decreases |calls|
  {
    if calls == [] then 0 else
      (if Admits(b, calls[0].now, calls[0].n) then calls[0].n else 0)
      + TotalAdmitted(AfterAllow(b, calls[0].now, calls[0].n), calls[1..])
  }

  lemma {:induction false} TotalBackedByTime(b: Bucket, calls: seq<TimedCall>, until: u64)
    requires b.tokens <= b.capacity && b.lastRefill <= until
    requires InOrder(calls)
    requires forall i :: 0 <= i < |calls| ==> b.lastRefill <= calls[i].now <= until
    ensures TotalAdmitted(b, calls) * MICROS <= b.tokens * MICROS + b.rate * (until - b.lastRefill)
    decreases |calls|
  {
    if calls == [] {
      MulMono(b.rate, 0, until - b.lastRefill);
    } else {
      var c := AfterAllow(b, calls[0].now, calls[0].n);
      CreditBounds(b.rate, calls[0].now, b.lastRefill);
      MulSplit(b.rate, b.lastRefill, c.lastRefill, until);
      TotalBackedByTime(c, calls[1..], until);
    }
  }

  /**
   Callers that take turns do get the burst bound over every window, with at most one
   further token for the fraction that had accrued when the window opened.
   */
  lemma SequentialWindowBound(b: Bucket, calls: seq<TimedCall>)
    requires b.tokens <= b.capacity && calls != [] && InOrder(calls) && b.lastRefill <= calls[0].now
    ensures var elapsed := calls[|calls| - 1].now - calls[0].now;
            TotalAdmitted(b, calls) * MICROS < (b.capacity + 1) * MICROS + b.rate * elapsed
  {
    var first, until := calls[0].now, calls[|calls| - 1].now;
    var r := Refilled(b, first);
    RefilledFirst(b, calls);
    TotalBackedByTime(r, calls, until);
    MulSplit(b.rate, r.lastRefill, first, until);
  }

  /** Refilling just before the first call changes nothing, and leaves less than one token unearned. */
  lemma RefilledFirst(b: Bucket, calls: seq<TimedCall>)
    requires b.tokens <= b.capacity && calls != [] && b.lastRefill <= calls[0].now
    ensures var r := Refilled(b, calls[0].now);
            && TotalAdmitted(r, calls) == TotalAdmitted(b, calls)
            && r.tokens <= r.capacity && r.lastRefill <= calls[0].now
            && b.rate * (calls[0].now - r.lastRefill) < MICROS
  {
    var first := calls[0].now;
    var r := Refilled(b, first);
    RefilledTwice(b, first);
    assert AfterAllow(r, first, calls[0].n) == AfterAllow(b, first, calls[0].n);
  }

  lemma RefilledTwice(b: Bucket, now: u64)
    requires b.lastRefill <= now
    ensures var r := Refilled(b, now);
            && Refilled(r, now) == r
            && r.lastRefill <= now && b.rate * (now - r.lastRefill) < MICROS
  {
    assert (now - b.lastRefill) * b.rate == b.rate * (now - b.lastRefill);
    if b.rate * (now - b.lastRefill) >= MICROS {
      assert Refilled(b, now).lastRefill == now;
    }
  }
}
