/** The packed word seen as bits: a shift, a mask and an or. */
module PackedBits {

  /** The number the packed bits stand for. */
  lemma Value(w: bv32, c: bv32)
    ensures (((w as bv64) << 32) | (c as bv64)) as nat == (w as nat) * 0x1_0000_0000 + (c as nat)
  {
  }

  lemma HalfIsSmall(c: bv32)
    ensures (c as nat) <= 0xFFFF_FFFF
  {
  }

  /** As a number the word divides into its window and leaves its count. */
  lemma DivideAndRemain(w: bv32, c: bv32)
    ensures (((w as bv64) << 32) | (c as bv64)) as nat / 0x1_0000_0000 == w as nat
    ensures (((w as bv64) << 32) | (c as bv64)) as nat % 0x1_0000_0000 == c as nat
  {
    Value(w, c);
    HalfIsSmall(c);
    QuotientAndRemainder(w as nat, c as nat, (((w as bv64) << 32) | (c as bv64)) as nat);
  }

  lemma QuotientAndRemainder(q: nat, r: nat, n: nat)
    requires n == q * 0x1_0000_0000 + r && r <= 0xFFFF_FFFF
    ensures n / 0x1_0000_0000 == q && n % 0x1_0000_0000 == r
  {
  }

  /** Shifting or masking a packed word gives its halves back. */
  lemma ShiftAndMask(w: bv32, c: bv32)
    ensures (((w as bv64) << 32) | (c as bv64)) >> 32 == w as bv64
    ensures (((w as bv64) << 32) | (c as bv64)) & 0xFFFF_FFFF == c as bv64
  {
  }

  /** A half keeps its value when it is widened. */
  lemma Widened(h: bv32)
    ensures (h as bv64) as nat == h as nat
  {
  }

  /** Every word is packed from its two halves. */
  lemma Split(x: bv64)
    ensures x >> 32 <= 0xFFFF_FFFF && x & 0xFFFF_FFFF <= 0xFFFF_FFFF
    ensures (((x >> 32) as bv32 as bv64) << 32) | ((x & 0xFFFF_FFFF) as bv32 as bv64) == x
  {
  }
}

/**
 The fixed-window counter: a window id and a count packed into one 64-bit word that is
 changed by single atomic updates.
 */
module FixedWindows {
  import opened MachineInts
  import PackedBits

  const HALF: nat := 0x1_0000_0000
  const COUNT_MASK: nat := 0xFFFF_FFFF

  // ---------------------------------------------------------------------------
  // The packed word
  // ---------------------------------------------------------------------------

  function WindowOf(packed: u64): nat {
    packed / HALF
  }

  function CountOf(packed: u64): nat {
    packed % HALF
  }

  function Pack(w: nat, count: nat): (packed: u64)
    requires w <= COUNT_MASK && count <= COUNT_MASK
    ensures WindowOf(packed) == w && CountOf(packed) == count
  {
    w * HALF + count
  }

  /** Packing by multiplication is what shifting and or-ing the two halves make, read as a number. */
  lemma PackIsShiftAndOr(w: bv32, c: bv32)
    ensures (w as nat) <= COUNT_MASK && (c as nat) <= COUNT_MASK
    ensures Pack(w as nat, c as nat) == (((w as bv64) << 32) | (c as bv64)) as nat
  {
    PackedBits.HalfIsSmall(w);
    PackedBits.HalfIsSmall(c);
    PackedBits.Value(w, c);
  }

  /** Dividing and taking the remainder of a packed word are shifting and masking it. */
  lemma UnpackIsShiftAndMask(w: bv32, c: bv32, packed: u64)
    requires packed == (((w as bv64) << 32) | (c as bv64)) as nat
    ensures WindowOf(packed) == ((((w as bv64) << 32) | (c as bv64)) >> 32) as nat
    ensures CountOf(packed) == ((((w as bv64) << 32) | (c as bv64)) & 0xFFFF_FFFF) as nat
  {
    PackedBits.DivideAndRemain(w, c);
    PackedBits.ShiftAndMask(w, c);
    PackedBits.Widened(w);
    PackedBits.Widened(c);
  }

  // ---------------------------------------------------------------------------
  // One counter
  // ---------------------------------------------------------------------------

  datatype Limit = Limit(windowUs: nat, maxRequests: nat)

  ghost predicate ValidLimit(l: Limit) {
    l.windowUs >= 1 && l.maxRequests <= COUNT_MASK
  }

  function WindowIndex(l: Limit, now: u64): (w: nat)
    requires l.windowUs >= 1
    ensures w <= COUNT_MASK
  {
    (now / l.windowUs) % HALF
  }

  /** What the word says about window `w`. */
  function CountIn(packed: u64, w: nat): nat {
    if WindowOf(packed) == w then CountOf(packed) else 0
  }

  function Grants(l: Limit, packed: u64, now: u64, n: u64): bool
    requires ValidLimit(l)
  {
    SatAdd(CountIn(packed, WindowIndex(l, now)), n) <= l.maxRequests
  }

  /** The word after an update by a caller whose clock reading was `now`. */
  function Taken(l: Limit, packed: u64, now: u64, n: u64): u64
    requires ValidLimit(l)
  {
    var w := WindowIndex(l, now);
    if Grants(l, packed, now, n) then Pack(w, CountIn(packed, w) + n) else packed
  }

  class FixedWindowCounter {
    var packed: u64
    const limit: Limit

    constructor (maxRequests: u64, windowMicros: u64)
      ensures packed == 0 && limit == NewLimit(maxRequests, windowMicros)
      ensures limit.windowUs == (if windowMicros == 0 then 1 else windowMicros)
      ensures limit.maxRequests == (if maxRequests > 0xFFFF_FFFF then 0xFFFF_FFFF else maxRequests)
    {
      packed := 0;
      limit := NewLimit(maxRequests, windowMicros);
    }

    /** The bound-checked compare-and-swap. */
    method AllowN(now: u64, n: u64) returns (ok: bool)
      requires ValidLimit(limit)
      modifies this`packed
      ensures ok == Grants(limit, old(packed), now, n)
      ensures packed == Taken(limit, old(packed), now, n)
      ensures ok ==> WindowOf(packed) == WindowIndex(limit, now)
      ensures ok ==> CountOf(packed) == CountIn(old(packed), WindowIndex(limit, now)) + n
      ensures var w := now / limit.windowUs % 0x1_0000_0000;
              var held := if old(packed) / 0x1_0000_0000 == w then old(packed) % 0x1_0000_0000 else 0;
              && (ok <==> held + n <= limit.maxRequests)
              && (ok ==> packed / 0x1_0000_0000 == w && packed % 0x1_0000_0000 == held + n)
              && (!ok ==> packed == old(packed))
    {
      var w := WindowIndex(limit, now);
      var count := if packed / HALF == w then packed % HALF else 0;
      var next := SatAdd(count, n);
      ok := next <= limit.maxRequests;
      if ok {
        packed := w * HALF + next;
      }
    }

    method Count(now: u64) returns (count: nat)
      requires ValidLimit(limit)
      ensures count == CountIn(packed, WindowIndex(limit, now))
      ensures packed / 0x1_0000_0000 == now / limit.windowUs % 0x1_0000_0000 ==> count == packed % 0x1_0000_0000
      ensures packed / 0x1_0000_0000 != now / limit.windowUs % 0x1_0000_0000 ==> count == 0
    {
      var w := WindowIndex(limit, now);
      count := if packed / HALF == w then packed % HALF else 0;
    }

    method Reset(now: u64)
      requires ValidLimit(limit)
      modifies this`packed
      ensures packed == Pack(WindowIndex(limit, now), 0)
      ensures packed / 0x1_0000_0000 == now / limit.windowUs % 0x1_0000_0000 && packed % 0x1_0000_0000 == 0
    {
      packed := WindowIndex(limit, now) * HALF;
    }
  }

  function NewLimit(maxRequests: u64, windowMicros: u64): (l: Limit)
    ensures ValidLimit(l)
    ensures l.windowUs == (if windowMicros == 0 then 1 else windowMicros)
    ensures l.maxRequests == (if maxRequests > 0xFFFF_FFFF then 0xFFFF_FFFF else maxRequests)
  {
    Limit(Max(windowMicros, 1), Min(maxRequests, COUNT_MASK))
  }

  // ---------------------------------------------------------------------------
  // Histories of one counter
  // ---------------------------------------------------------------------------

  /**
   An atomic update of the word.  `now` is the clock reading the caller took beforehand, so
   a history may present readings in any order: this covers every interleaving.
   */
  datatype Event =
    | Take(now: u64, n: u64)
    | ResetAt(now: u64)

  function After(l: Limit, packed: u64, e: Event): u64
    requires ValidLimit(l)
  {
    match e
    case Take(now, n) => Taken(l, packed, now, n)
    case ResetAt(now) => Pack(WindowIndex(l, now), 0)
  }

  function Final(l: Limit, packed: u64, es: seq<Event>): u64
    requires ValidLimit(l)
    decreases |es|
  {
    if es == [] then packed else Final(l, After(l, packed, es[0]), es[1..])
  }

  function GrantedBy(l: Limit, packed: u64, e: Event): nat
    requires ValidLimit(l)
  {
    if e.Take? && Grants(l, packed, e.now, e.n) then e.n else 0
  }

  /** Requests granted to window `w` over a history. */
  function GrantedIn(l: Limit, packed: u64, es: seq<Event>, w: nat): nat
    requires ValidLimit(l)
    decreases |es|
  {
    if es == [] then 0 else
      (if WindowIndex(l, es[0].now) == w then GrantedBy(l, packed, es[0]) else 0)
      + GrantedIn(l, After(l, packed, es[0]), es[1..], w)
  }

  /** An update moves the word to an older window, or a reset clears it. */
  function Setback(l: Limit, packed: u64, e: Event): nat
    requires ValidLimit(l)
  {
    if e.ResetAt? || WindowOf(After(l, packed, e)) < WindowOf(packed) then 1 else 0
  }

  function Setbacks(l: Limit, packed: u64, es: seq<Event>): nat
    requires ValidLimit(l)
    decreases |es|
  {
    if es == [] then 0 else
      Setback(l, packed, es[0]) + Setbacks(l, After(l, packed, es[0]), es[1..])
  }

  /** Granted since the stored window id last changed or the counter was last reset. */
  function GrantedThisEpoch(l: Limit, packed: u64, es: seq<Event>, sofar: nat): nat
    requires ValidLimit(l)
    decreases |es|
  {
    if es == [] then sofar else
      var next := After(l, packed, es[0]);
      var kept := if es[0].ResetAt? || WindowOf(next) != WindowOf(packed) then 0 else sofar;
      GrantedThisEpoch(l, next, es[1..], kept + GrantedBy(l, packed, es[0]))
  }

  /** The stored count is exactly what the current epoch granted, and never above the limit. */
  lemma {:induction false} CountIsEpochTotal(l: Limit, packed: u64, es: seq<Event>)
    requires ValidLimit(l) && CountOf(packed) <= l.maxRequests
    ensures CountOf(Final(l, packed, es)) == GrantedThisEpoch(l, packed, es, CountOf(packed))
    ensures CountOf(Final(l, packed, es)) <= l.maxRequests
    decreases |es|
  {
    if es != [] {
      CountIsEpochTotal(l, After(l, packed, es[0]), es[1..]);
    }
  }

  /** What window `w` may have been granted when the word stands at `packed` after `setbacks`. */
  function Allowance(l: Limit, packed: u64, w: nat, setbacks: nat): nat {
    l.maxRequests * (setbacks + (if WindowOf(packed) > w then 1 else 0)) + CountIn(packed, w)
  }

  lemma AllowanceStep(l: Limit, packed: u64, e: Event, w: nat, setbacks: nat)
    requires ValidLimit(l) && CountOf(packed) <= l.maxRequests
    ensures var granted := if WindowIndex(l, e.now) == w then GrantedBy(l, packed, e) else 0;
            && CountOf(After(l, packed, e)) <= l.maxRequests
            && Allowance(l, packed, w, setbacks) + granted
               <= Allowance(l, After(l, packed, e), w, setbacks + Setback(l, packed, e))
  {
    assert l.maxRequests * (setbacks + 1) == l.maxRequests * setbacks + l.maxRequests;
    assert l.maxRequests * (setbacks + 2) == l.maxRequests * setbacks + 2 * l.maxRequests;
  }

  lemma {:induction false} GrantedWithinAllowance(l: Limit, packed: u64, es: seq<Event>, w: nat, setbacks: nat)
    requires ValidLimit(l) && CountOf(packed) <= l.maxRequests
    ensures Allowance(l, packed, w, setbacks) + GrantedIn(l, packed, es, w)
         <= Allowance(l, Final(l, packed, es), w, setbacks + Setbacks(l, packed, es))
    decreases |es|
  {
    if es != [] {
      AllowanceStep(l, packed, es[0], w, setbacks);
      GrantedWithinAllowance(l, After(l, packed, es[0]), es[1..], w, setbacks + Setback(l, packed, es[0]));
    }
  }

  /**
   Over every history of a counter a window is granted at most the limit, and once more
   the limit for every time the word was moved back to an older window or reset.
   */
  lemma GrantedPerWindow(l: Limit, es: seq<Event>, w: nat)
    requires ValidLimit(l)
    ensures GrantedIn(l, 0, es, w) <= l.maxRequests * (Setbacks(l, 0, es) + 1)
  {
    GrantedWithinAllowance(l, 0, es, w, 0);
    CountIsEpochTotal(l, 0, es);
    AllowanceAtMost(l, Final(l, 0, es), w, Setbacks(l, 0, es));
  }

  lemma GrantedWithoutSetbacks(l: Limit, es: seq<Event>, w: nat)
    requires ValidLimit(l) && Setbacks(l, 0, es) == 0
    ensures GrantedIn(l, 0, es, w) <= l.maxRequests
  {
    GrantedPerWindow(l, es, w);
  }

  lemma AllowanceAtMost(l: Limit, packed: u64, w: nat, setbacks: nat)
    requires CountOf(packed) <= l.maxRequests
    ensures Allowance(l, packed, w, setbacks) <= l.maxRequests * (setbacks + 1)
  {
    assert l.maxRequests * (setbacks + 1) == l.maxRequests * setbacks + l.maxRequests;
  }

  // ---------------------------------------------------------------------------
  // Stale callers
  // ---------------------------------------------------------------------------

  /** Every call takes one request, as `allow` does. */
  predicate Unit(es: seq<Event>) {
    forall i :: 0 <= i < |es| && es[i].Take? ==> es[i].n == 1
  }

  function UnitTakes(now: u64, n: nat): seq<Event> {
    if n == 0 then [] else [Take(now, 1)] + UnitTakes(now, n - 1)
  }

  /** After `rest` was prepended by one event. */
  lemma FirstEvent(l: Limit, packed: u64, e: Event, rest: seq<Event>, w: nat)
    requires ValidLimit(l)
    ensures var next := After(l, packed, e);
            var es := [e] + rest;
            && Final(l, packed, es) == Final(l, next, rest)
            && Setbacks(l, packed, es) == Setback(l, packed, e) + Setbacks(l, next, rest)
            && GrantedIn(l, packed, es, w)
               == (if WindowIndex(l, e.now) == w then GrantedBy(l, packed, e) else 0) + GrantedIn(l, next, rest, w)
            && (Unit([e]) && Unit(rest) ==> Unit(es))
  {
    assert ([e] + rest)[1..] == rest;
  }

  lemma UnitTake(l: Limit, packed: u64, now: u64, w: nat) returns (next: u64)
    requires ValidLimit(l) && WindowIndex(l, now) == w && WindowOf(packed) <= w
    requires CountIn(packed, w) < l.maxRequests
    ensures next == After(l, packed, Take(now, 1))
    ensures WindowOf(next) == w && CountIn(next, w) == CountIn(packed, w) + 1
    ensures Setback(l, packed, Take(now, 1)) == 0 && GrantedBy(l, packed, Take(now, 1)) == 1
  {
    next := After(l, packed, Take(now, 1));
  }

  /** Unit takes fill what the word leaves of window `w`, and move it to no older one. */
  lemma {:induction false} UnitTakesFill(
      l: Limit, packed: u64, now: u64, w: nat, count: nat, n: nat, rest: seq<Event>) returns (filled: u64)
    requires ValidLimit(l) && WindowIndex(l, now) == w
    requires WindowOf(packed) <= w && CountIn(packed, w) == count && count + n <= l.maxRequests
    requires n > 0 || WindowOf(packed) == w
    ensures WindowOf(filled) == w && CountIn(filled, w) == count + n
    ensures Setbacks(l, packed, UnitTakes(now, n) + rest) == Setbacks(l, filled, rest)
    ensures GrantedIn(l, packed, UnitTakes(now, n) + rest, w) == n + GrantedIn(l, filled, rest, w)
    ensures Unit(rest) ==> Unit(UnitTakes(now, n) + rest)
    decreases n
  {
    if n == 0 {
      assert UnitTakes(now, n) + rest == rest;
      filled := packed;
    } else {
      var tail := UnitTakes(now, n - 1) + rest;
      assert UnitTakes(now, n) + rest == [Take(now, 1)] + tail;
      var next := UnitTake(l, packed, now, w);
      FirstEvent(l, packed, Take(now, 1), tail, w);
      filled := UnitTakesFill(l, next, now, w, count + 1, n - 1, rest);
    }
  }

  /** `k` rounds of a stale caller putting the word back and current ones taking the limit anew. */
  function StaleRounds(l: Limit, stale: u64, current: u64, k: nat): seq<Event> {
    if k == 0 then [] else
      [Take(stale, 1)] + (UnitTakes(current, l.maxRequests) + StaleRounds(l, stale, current, k - 1))
  }

  lemma SetBack(l: Limit, packed: u64, stale: u64) returns (back: u64)
    requires ValidLimit(l) && l.maxRequests > 0 && WindowIndex(l, stale) < WindowOf(packed)
    ensures back == After(l, packed, Take(stale, 1)) && Setback(l, packed, Take(stale, 1)) == 1
    ensures WindowOf(back) == WindowIndex(l, stale)
  {
    back := After(l, packed, Take(stale, 1));
  }

  lemma {:induction false} StaleRoundsGrant(l: Limit, packed: u64, stale: u64, current: u64, k: nat)
    requires ValidLimit(l) && l.maxRequests > 0
    requires WindowIndex(l, stale) < WindowIndex(l, current) == WindowOf(packed)
    ensures var es := StaleRounds(l, stale, current, k);
            && Unit(es)
            && Setbacks(l, packed, es) == k
            && GrantedIn(l, packed, es, WindowIndex(l, current)) == l.maxRequests * k
    decreases k
  {
    if k > 0 {
      var w := WindowIndex(l, current);
      var rest := StaleRounds(l, stale, current, k - 1);
      var back := SetBack(l, packed, stale);
      FirstEvent(l, packed, Take(stale, 1), UnitTakes(current, l.maxRequests) + rest, w);
      var filled := UnitTakesFill(l, back, current, w, 0, l.maxRequests, rest);
      StaleRoundsGrant(l, filled, stale, current, k - 1);
      assert l.maxRequests * k == l.maxRequests * (k - 1) + l.maxRequests;
    }
  }

  /**
   The bound is exact: callers that read the clock before a window boundary and update
   after it wipe what the new window has granted, each time letting it grant the limit anew.
   Single requests are enough.
   */
  lemma StaleCallersRefillTheWindow(l: Limit, stale: u64, current: u64, k: nat) returns (es: seq<Event>)
    requires ValidLimit(l) && l.maxRequests > 0 && WindowIndex(l, stale) < WindowIndex(l, current)
    ensures Unit(es) && Setbacks(l, 0, es) == k
    ensures GrantedIn(l, 0, es, WindowIndex(l, current)) == l.maxRequests * (k + 1)
  {
    var w := WindowIndex(l, current);
    var rounds := StaleRounds(l, stale, current, k);
    es := UnitTakes(current, l.maxRequests) + rounds;
    var filled := UnitTakesFill(l, 0, current, w, 0, l.maxRequests, rounds);
    StaleRoundsGrant(l, filled, stale, current, k);
    assert l.maxRequests * (k + 1) == l.maxRequests * k + l.maxRequests;
  }

  /**
   How often the updates go back: each reset, and each reading in a window before that of
   the update made just before it, the first being compared with window `w`.
   */
  function Descents(l: Limit, w: nat, es: seq<Event>): nat
    requires ValidLimit(l)
    decreases |es|
  {
    if es == [] then 0 else
      (if es[0].ResetAt? || WindowIndex(l, es[0].now) < w then 1 else 0)
      + Descents(l, WindowIndex(l, es[0].now), es[1..])
  }

  /** After a single request, granted or not, the word is of the window it was made in. */
  lemma WordFollowsReading(l: Limit, packed: u64, e: Event)
    requires ValidLimit(l) && l.maxRequests > 0 && (e.Take? ==> e.n == 1)
    ensures WindowOf(After(l, packed, e)) == WindowIndex(l, e.now)
  {
  }

  /** For single requests the setbacks of the counter are the descents of the readings. */
  lemma {:induction false} SetbacksAreDescents(l: Limit, packed: u64, es: seq<Event>)
    requires ValidLimit(l) && l.maxRequests > 0 && Unit(es)
    ensures Setbacks(l, packed, es) == Descents(l, WindowOf(packed), es)
    decreases |es|
  {
    if es != [] {
      WordFollowsReading(l, packed, es[0]);
      SetbacksAreDescents(l, After(l, packed, es[0]), es[1..]);
    }
  }

  /** A history whose readings never go back keeps every window within the limit. */
  lemma NoDescentKeepsLimit(l: Limit, es: seq<Event>, w: nat)
    requires ValidLimit(l) && Unit(es) && Descents(l, 0, es) == 0
    ensures GrantedIn(l, 0, es, w) <= l.maxRequests
  {
    if l.maxRequests > 0 {
      SetbacksAreDescents(l, 0, es);
      GrantedWithoutSetbacks(l, es, w);
    } else {
      GrantedPerWindow(l, es, w);
    }
  }

  /**
   A window keeps within the limit over every history of single requests whose readings go
   back `k` times exactly when they never do, or nothing is ever granted.
   */
  lemma RolloverKeepsLimitIff(l: Limit, stale: u64, current: u64, k: nat)
    requires ValidLimit(l) && WindowIndex(l, stale) < WindowIndex(l, current)
    ensures (forall es :: Unit(es) && Descents(l, 0, es) == k
                          ==> GrantedIn(l, 0, es, WindowIndex(l, current)) <= l.maxRequests)
            <==> k == 0 || l.maxRequests == 0
  {
    var w := WindowIndex(l, current);
    if k == 0 || l.maxRequests == 0 {
      forall es | Unit(es) && Descents(l, 0, es) == k ensures GrantedIn(l, 0, es, w) <= l.maxRequests {
        if k == 0 {
          NoDescentKeepsLimit(l, es, w);
        } else {
          GrantedPerWindow(l, es, w);
        }
      }
    } else {
      var es := StaleCallersRefillTheWindow(l, stale, current, k);
      SetbacksAreDescents(l, 0, es);
      MulNext(l.maxRequests, 1, k + 1);
      assert Unit(es) && Descents(l, 0, es) == k && GrantedIn(l, 0, es, w) > l.maxRequests;
    }
  }

  // ---------------------------------------------------------------------------
  // Spans of time
  // ---------------------------------------------------------------------------

  function Granted(l: Limit, packed: u64, es: seq<Event>): nat
    requires ValidLimit(l)
    decreases |es|
  {
    if es == [] then 0 else
      GrantedBy(l, packed, es[0]) + Granted(l, After(l, packed, es[0]), es[1..])
  }

  /** The window a clock reading falls in, before the id is cut to 32 bits. */
  function TrueIndex(l: Limit, now: u64): nat
    requires l.windowUs >= 1
  {
    now / l.windowUs
  }

  lemma TrueIndexMono(l: Limit, a: u64, b: u64)
    requires l.windowUs >= 1 && a <= b
    ensures TrueIndex(l, a) <= TrueIndex(l, b)
  {
    QuotientBelow(a, b / l.windowUs + 1, l.windowUs);
  }

  lemma MulNext(m: nat, i: nat, j: nat)
    ensures i < j ==> m * i + m <= m * j
  {
    if i < j {
      MulMono(m, i + 1, j);
    }
  }

  /** How many of the updates are resets. */
  function Resets(es: seq<Event>): nat
    decreases |es|
  {
    if es == [] then 0 else (if es[0].ResetAt? then 1 else 0) + Resets(es[1..])
  }

  /** The stored window ids of the updates do not go backwards, and none is before the word's. */
  ghost predicate IdsInOrder(l: Limit, packed: u64, es: seq<Event>)
    requires ValidLimit(l)
  {
    && (forall i :: 0 <= i < |es| ==> WindowOf(packed) <= WindowIndex(l, es[i].now))
    && forall i, j :: 0 <= i < j < |es| ==> WindowIndex(l, es[i].now) <= WindowIndex(l, es[j].now)
  }

  /** While window ids stay in order nothing but a reset sets the counter back. */
  lemma {:induction false} SetbacksAreResets(l: Limit, packed: u64, es: seq<Event>)
    requires ValidLimit(l) && IdsInOrder(l, packed, es)
    ensures Setbacks(l, packed, es) == Resets(es)
    decreases |es|
  {
    if es != [] {
      NextWindow(l, packed, es[0]);
      SetbacksAreResets(l, After(l, packed, es[0]), es[1..]);
    }
  }

  lemma NextWindow(l: Limit, packed: u64, e: Event)
    requires ValidLimit(l) && WindowOf(packed) <= WindowIndex(l, e.now)
    ensures WindowOf(packed) <= WindowOf(After(l, packed, e)) <= WindowIndex(l, e.now)
    ensures Setback(l, packed, e) == if e.ResetAt? then 1 else 0
  {
  }

  /** So callers whose updates keep the order of their window ids take no window over its limit. */
  lemma OrderedKeepsLimit(l: Limit, es: seq<Event>, w: nat)
    requires ValidLimit(l) && IdsInOrder(l, 0, es)
    ensures GrantedIn(l, 0, es, w) <= l.maxRequests * (Resets(es) + 1)
  {
    SetbacksAreResets(l, 0, es);
    GrantedPerWindow(l, es, w);
  }

  /** The windows of the readings do not go backwards; readings in one window may come in any order. */
  ghost predicate WindowsInOrder(l: Limit, es: seq<Event>)
    requires l.windowUs >= 1
  {
    forall i, j :: 0 <= i < j < |es| ==> TrueIndex(l, es[i].now) <= TrueIndex(l, es[j].now)
  }

  /** `passed` full windows plus what the word says about the window of the reading `at`. */
  function Covered(l: Limit, packed: u64, passed: nat, at: u64): nat
    requires ValidLimit(l)
  {
    l.maxRequests * passed + CountIn(packed, WindowIndex(l, at))
  }

  lemma CoveredStep(l: Limit, packed: u64, e: Event, passed: nat, at: u64) returns (passed': nat)
    requires ValidLimit(l) && CountOf(packed) <= l.maxRequests
    requires TrueIndex(l, at) <= TrueIndex(l, e.now)
    ensures passed' + TrueIndex(l, at) == passed + TrueIndex(l, e.now) + (if e.ResetAt? then 1 else 0)
    ensures CountOf(After(l, packed, e)) <= l.maxRequests
    ensures Covered(l, packed, passed, at) + GrantedBy(l, packed, e)
         <= Covered(l, After(l, packed, e), passed', e.now)
  {
    passed' := passed + TrueIndex(l, e.now) - TrueIndex(l, at) + (if e.ResetAt? then 1 else 0);
    MulNext(l.maxRequests, passed, passed');
    if e.Take? {
      SameWindow(l, at, e.now);
      CountStep(l, packed, e);
    }
  }

  lemma SameWindow(l: Limit, a: u64, b: u64)
    requires l.windowUs >= 1
    ensures TrueIndex(l, a) == TrueIndex(l, b) ==> WindowIndex(l, a) == WindowIndex(l, b)
  {
  }

  lemma CountStep(l: Limit, packed: u64, e: Event)
    requires ValidLimit(l) && e.Take? && CountOf(packed) <= l.maxRequests
    ensures CountOf(After(l, packed, e)) <= l.maxRequests
    ensures CountIn(packed, WindowIndex(l, e.now)) + GrantedBy(l, packed, e)
         == CountIn(After(l, packed, e), WindowIndex(l, e.now))
  {
  }

  /** What is granted from the window of `at` on is covered by the windows passed and the resets. */
  lemma {:induction false} GrantedAcross(l: Limit, packed: u64, es: seq<Event>, passed: nat, at: u64)
    returns (passed': nat)
    requires ValidLimit(l) && WindowsInOrder(l, es) && CountOf(packed) <= l.maxRequests
    requires forall i :: 0 <= i < |es| ==> TrueIndex(l, at) <= TrueIndex(l, es[i].now)
    ensures var last := if es == [] then at else es[|es| - 1].now;
            && passed' + TrueIndex(l, at) == passed + TrueIndex(l, last) + Resets(es)
            && Covered(l, packed, passed, at) + Granted(l, packed, es)
               <= Covered(l, Final(l, packed, es), passed', last)
    decreases |es|
  {
    if es == [] {
      passed' := passed;
    } else {
      var rest := es[1..];
      assert rest != [] ==> rest[|rest| - 1] == es[|es| - 1];
      var between := CoveredStep(l, packed, es[0], passed, at);
      passed' := GrantedAcross(l, After(l, packed, es[0]), rest, between, es[0].now);
    }
  }

  lemma GrantedWithPassed(l: Limit, packed: u64, es: seq<Event>) returns (passed: nat)
    requires ValidLimit(l) && CountOf(packed) <= l.maxRequests
    requires WindowsInOrder(l, es) && es != []
    ensures TrueIndex(l, es[0].now) + passed == TrueIndex(l, es[|es| - 1].now) + Resets(es)
    ensures Granted(l, packed, es) <= l.maxRequests * (passed + 1)
  {
    passed := GrantedAcross(l, packed, es, 0, es[0].now);
    CountIsEpochTotal(l, packed, es);
    CoveredAtMost(l, Final(l, packed, es), passed, es[|es| - 1].now);
  }

  /** Two readings between `from` and `until` are at most this many windows apart. */
  lemma WindowsApart(l: Limit, from: u64, until: u64, t: u64, u: u64)
    requires l.windowUs >= 1 && from <= t && u <= until && from <= until
    ensures TrueIndex(l, u) <= TrueIndex(l, t) + (until - from) / l.windowUs + 1
  {
    TrueIndexMono(l, from, t);
    TrueIndexMono(l, u, until);
    SpanWindows(from, until, l.windowUs);
  }

  /** All are single requests with readings in window `w`. */
  ghost predicate SinglesIn(l: Limit, es: seq<Event>, w: nat)
    requires l.windowUs >= 1
  {
    forall i :: 0 <= i < |es| ==> es[i].Take? && es[i].n == 1 && WindowIndex(l, es[i].now) == w
  }

  /** Single requests of one window are granted until the limit is reached, neither fewer nor more. */
  lemma {:induction false} WindowGrantsTheLimit(l: Limit, packed: u64, es: seq<Event>, w: nat)
    requires ValidLimit(l) && SinglesIn(l, es, w) && CountIn(packed, w) <= l.maxRequests
    ensures var left := l.maxRequests - CountIn(packed, w);
            Granted(l, packed, es) == GrantedIn(l, packed, es, w) == if |es| < left then |es| else left
    decreases |es|
  {
    if es != [] {
      assert es[0].Take? && es[0].n == 1 && WindowIndex(l, es[0].now) == w;
      OneSingle(l, packed, es[0].now, w);
      WindowGrantsTheLimit(l, After(l, packed, es[0]), es[1..], w);
    }
  }

  lemma OneSingle(l: Limit, packed: u64, now: u64, w: nat)
    requires ValidLimit(l) && WindowIndex(l, now) == w && CountIn(packed, w) <= l.maxRequests
    ensures var e, c := Take(now, 1), CountIn(packed, w);
            && GrantedBy(l, packed, e) == (if c < l.maxRequests then 1 else 0)
            && CountIn(After(l, packed, e), w) == (if c < l.maxRequests then c + 1 else c)
  {
  }

  /** The window ids of two readings are the same exactly if they lie a multiple of 2^32 windows apart. */
  lemma SameIdIff(l: Limit, a: u64, b: u64)
    requires l.windowUs >= 1
    ensures WindowIndex(l, a) == WindowIndex(l, b) <==> (b / l.windowUs - a / l.windowUs) % 0x1_0000_0000 == 0
  {
    var p, q := a / l.windowUs, b / l.windowUs;
    RemaindersAgreeIff(p, q);
  }

  lemma RemaindersAgreeIff(p: nat, q: nat)
    ensures p % 0x1_0000_0000 == q % 0x1_0000_0000 <==> (q - p) % 0x1_0000_0000 == 0
  {
  }

  /**
   A window is no longer than it is configured: readings that far apart never share an id,
   short of the 2^32 windows after which ids come round again.
   */
  lemma OneWindowApart(l: Limit, a: u64, b: u64)
    requires l.windowUs >= 1
    requires a + l.windowUs <= b <= a + l.windowUs * 0xFFFF_FFFF
    ensures WindowIndex(l, a) != WindowIndex(l, b)
  {
    var W := l.windowUs;
    QuotientsBetween(a, b, W, 0xFFFF_FFFF);
    SameIdIff(l, a, b);
    NotAMultiple(b / W - a / W);
  }

  lemma NotAMultiple(d: int)
    requires 1 <= d <= 0xFFFF_FFFF
    ensures d % 0x1_0000_0000 != 0
  {
  }

  lemma QuotientsBetween(a: nat, b: nat, W: nat, k: nat)
    requires W >= 1 && a + W <= b <= a + W * k
    ensures 1 <= b / W - a / W <= k
  {
    QuotientPlus(a, W, 1);
    QuotientPlus(a, W, k);
    DivMono(a + W, b, W);
    DivMono(b, a + W * k, W);
  }

  lemma QuotientPlus(a: nat, W: nat, k: nat)
    requires W >= 1
    ensures (a + W * k) / W == a / W + k
  {
    var q, r := a / W, a % W;
    assert a + W * k == W * (q + k) + r;
    QuotientUnique(a + W * k, W, q + k, r);
  }

  lemma QuotientUnique(n: nat, W: nat, q: nat, r: nat)
    requires W >= 1 && n == W * q + r && r < W
    ensures n / W == q
  {
    var p, t := n / W, n % W;
    assert n == W * p + t;
    MulNext(W, p, q);
    MulNext(W, q, p);
  }

  lemma DivMono(a: nat, b: nat, W: nat)
    requires W >= 1 && a <= b
    ensures a / W <= b / W
  {
    MulNext(W, b / W, a / W);
  }

  /** A window is no shorter either: two readings less than a window apart are in one window or in neighbours. */
  lemma NoTwoBoundaries(l: Limit, a: u64, b: u64)
    requires l.windowUs >= 1 && a <= b < a + l.windowUs
    ensures WindowIndex(l, b) == WindowIndex(l, a) || WindowIndex(l, b) == (WindowIndex(l, a) + 1) % 0x1_0000_0000
  {
    var W := l.windowUs;
    DivMono(a, b, W);
    QuotientPlus(a, W, 1);
    DivMono(b, a + W, W);
    NextId(a / W, b / W);
  }

  lemma NextId(p: nat, q: nat)
    requires p <= q <= p + 1
    ensures q % 0x1_0000_0000 == p % 0x1_0000_0000
         || q % 0x1_0000_0000 == (p % 0x1_0000_0000 + 1) % 0x1_0000_0000
  {
  }

  /** All readings lie between `from` and `until`. */
  ghost predicate Within(es: seq<Event>, from: u64, until: u64) {
    from <= until && forall i :: 0 <= i < |es| ==> from <= es[i].now <= until
  }

  /**
   While the windows of the readings do not go backwards, in whatever order readings within
   one window come, any span of time `D` is granted at most the limit times
   `D / window + 2`, and once more for each reset, from any state the counter can be in.
   */
  lemma GrantedPerSpan(l: Limit, packed: u64, es: seq<Event>, from: u64, until: u64) returns (windows: nat)
    requires ValidLimit(l) && CountOf(packed) <= l.maxRequests
    requires WindowsInOrder(l, es) && Within(es, from, until)
    ensures windows == (until - from) / l.windowUs + 2 + Resets(es)
    ensures Granted(l, packed, es) <= l.maxRequests * windows
  {
    windows := (until - from) / l.windowUs + 2 + Resets(es);
    if es == [] {
      MulMono(l.maxRequests, 0, windows);
    } else {
      var passed := WindowsPassed(l, packed, es, from, until);
      Scaled(Granted(l, packed, es), l.maxRequests, passed + 1, windows);
    }
  }

  lemma WindowsPassed(l: Limit, packed: u64, es: seq<Event>, from: u64, until: u64) returns (passed: nat)
    requires ValidLimit(l) && CountOf(packed) <= l.maxRequests
    requires WindowsInOrder(l, es) && Within(es, from, until) && es != []
    ensures passed + 1 <= (until - from) / l.windowUs + 2 + Resets(es)
    ensures Granted(l, packed, es) <= l.maxRequests * (passed + 1)
  {
    passed := GrantedWithPassed(l, packed, es);
    WindowsApart(l, from, until, es[0].now, es[|es| - 1].now);
  }

  lemma Scaled(granted: nat, m: nat, a: nat, b: nat)
    requires granted <= m * a && a <= b
    ensures granted <= m * b
  {
    MulMono(m, a, b);
  }

  lemma CoveredAtMost(l: Limit, packed: u64, passed: nat, at: u64)
    requires ValidLimit(l) && CountOf(packed) <= l.maxRequests
    ensures Covered(l, packed, passed, at) <= l.maxRequests * (passed + 1)
  {
    assert l.maxRequests * (passed + 1) == l.maxRequests * passed + l.maxRequests;
  }

  lemma SpanWindows(t: nat, u: nat, W: nat)
    requires t <= u && W >= 1
    ensures u / W - t / W <= (u - t) / W + 1
  {
    var q, r := (u - t) / W, (u - t) % W;
    assert u - t == q * W + r;
    assert t == (t / W) * W + t % W;
    assert u == (t / W + q) * W + (t % W + r);
    assert u < (t / W + q + 2) * W;
    QuotientBelow(u, t / W + q + 2, W);
  }

  lemma QuotientBelow(u: nat, k: nat, W: nat)
    requires W >= 1 && u < k * W
    ensures u / W < k
  {
    assert u == (u / W) * W + u % W;
    MulMono(W, Min(k, u / W), u / W);
    assert W * k == k * W && W * (u / W) == (u / W) * W;
  }
}
