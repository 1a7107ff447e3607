/** Several bucket rules on one key: a bucket's key carries neither window nor rate nor burst (internal/limiter/key.go:
    TokenBucketKey), every rule reads the one stored state, and the last rule's write is what remains of it. */
module BucketRules {
  import opened Prelude
  import opened Redis
  import opened BatchCheck
  import opened TwoPhase
  import opened AtKey
  import opened Runs
  import opened TokenBucket

  /** The rules of a batch that live at `k`. */
  function RulesAt(rules: seq<LRule>, k: string): seq<LRule> {
    if rules == [] then []
    else
      var n := |rules| - 1;
      RulesAt(rules[..n], k) + (if rules[n].key == k then [rules[n]] else [])
  }

  /** What validation guarantees: a burst of at least 1 and at least the tokens of one second, rounded down. */
  predicate ValidList(k: string, list: seq<LRule>) {
    && list != []
    && forall i | 0 <= i < |list| :: list[i].Bucket? && list[i].key == k && list[i].burst >= 1 && list[i].burst >= list[i].rate.Floor
  }

  function Last(list: seq<LRule>): LRule
    requires list != []
  {
    list[|list| - 1]
  }

  /** Every batch that uses `k` carries this list of rules there. */
  ghost predicate ListUse(op: Op, k: string, list: seq<LRule>) {
    Touches(op, k) ==> op.Admit? && Compatible(op.rules) && RulesAt(op.rules, k) == list
  }

  ghost predicate ListRun(ops: seq<Op>, k: string, list: seq<LRule>) {
    Ordered(ops) && forall i :: 0 <= i < |ops| ==> ListUse(ops[i], k, list)
  }

  /** From call `i` to the end of the run no more was admitted than rule `r` allows for by itself. */
  predicate WithinOwn(ops: seq<Op>, k: string, r: LRule, i: nat)
    requires r.Bucket? && i < |ops|
  {
    (Admitted(map[], ops, k) - Admitted(map[], ops[..i], k)) as real <= r.burst as real + Refill(r.rate, LastTime(ops) - ops[i].now)
  }

  /** Each rule's own bound, burst plus refill, holds in every run. */
  ghost predicate EachOwnBound(k: string, list: seq<LRule>)
    requires ValidList(k, list)
  {
    forall ops, j, i | ListRun(ops, k, list) && 0 <= j < |list| && 0 <= i < |ops| :: WithinOwn(ops, k, list[j], i)
  }

  /** The last rule is the strictest in burst and in rate. */
  predicate LastStrictest(list: seq<LRule>)
    requires list != [] && forall i :: 0 <= i < |list| ==> list[i].Bucket?
  {
    forall i | 0 <= i < |list| :: Last(list).burst <= list[i].burst && Last(list).rate <= list[i].rate
  }

  /** The last burst is 1, and by the time the key has expired every rule has refilled a token. */
  predicate SingleToken(list: seq<LRule>)
    requires list != [] && forall i :: 0 <= i < |list| ==> list[i].Bucket?
  {
    Last(list).burst == 1 && forall i | 0 <= i < |list| :: Refill(list[i].rate, BucketTtl(Last(list).rate, 1) + 1) >= 1.0
  }

  // The list and the last rule.

  lemma {:induction false} RulesAtLast(rules: seq<LRule>, k: string)
    ensures RulesAt(rules, k) != [] <==> Reads(rules, |rules|, k)
    ensures Reads(rules, |rules|, k) ==> Last(RulesAt(rules, k)) == rules[LastOn(rules, k)]
    ensures forall i | 0 <= i < |rules| && rules[i].key == k :: rules[i] in RulesAt(rules, k)
    ensures forall r | r in RulesAt(rules, k) :: r in rules && r.key == k
  {
    if rules != [] {
      var n := |rules| - 1;
      RulesAtLast(rules[..n], k);
      assert forall i :: 0 <= i < n ==> rules[..n][i] == rules[i];
      if Reads(rules, |rules|, k) && rules[n].key != k {
        var i :| 0 <= i < |rules| && rules[i].key == k;
        assert rules[..n][i].key == k;
      }
    }
  }

  lemma ListLast(op: Op, k: string, list: seq<LRule>)
    requires ValidList(k, list) && ListUse(op, k, list)
    ensures BucketUse(op, k, Last(list).rate, Last(list).burst)
  {
    hide Compatible, LastOn;
    if Touches(op, k) {
      RulesAtLast(op.rules, k);
      assert Last(list) in list;
    }
  }

  lemma LastIs(k: string, list: seq<LRule>)
    requires ValidList(k, list)
    ensures list != [] && Last(list).Bucket? && Last(list).burst >= 1 && Last(list) in list
    ensures forall i :: 0 <= i < |list| ==> list[i].Bucket? && list[i].burst >= 1 && list[i].key == k
  {}

  lemma ListIsBucketRun(ops: seq<Op>, k: string, list: seq<LRule>)
    requires ValidList(k, list) && ListRun(ops, k, list)
    ensures BucketRun(ops, k, Last(list).rate, Last(list).burst)
  {
    LastIs(k, list);
    hide ListUse, BucketUse, ValidList;
    forall i | 0 <= i < |ops| ensures BucketUse(ops[i], k, Last(list).rate, Last(list).burst) { ListLast(ops[i], k, list); }
  }

  // The last rule is the strictest.

  lemma RefillRates(a: Rate, b: Rate, ms: int)
    requires a <= b && ms >= 0
    ensures 0.0 <= Refill(a, ms) <= Refill(b, ms)
  {
    var t := ms as real / 1000.0;
    Product(t, a);
    Product(t, b - a);
    assert t * b == t * a + t * (b - a);
  }

  lemma StrictestSuffices(ops: seq<Op>, k: string, list: seq<LRule>, j: nat, i: nat)
    requires ValidList(k, list) && LastStrictest(list) && ListRun(ops, k, list) && j < |list| && i < |ops|
    ensures WithinOwn(ops, k, list[j], i)
  {
    hide *;
    LastIs(k, list);
    StrictestIs(list, j);
    var last := Last(list);
    ListIsBucketRun(ops, k, list);
    NeverOverfilled(map[], ops, k, last.rate, last.burst, i);
    ExpiryInvisible(Get(Run(map[], ops), k), last.rate, last.burst, LastTime(ops), LastTime(ops));
    TimeSpan(ops, k, list, i);
    RefillRates(last.rate, list[j].rate, LastTime(ops) - ops[i].now);
    WithinIs(ops, k, list[j], i);
  }

  lemma StrictestIs(list: seq<LRule>, j: nat)
    requires list != [] && (forall i :: 0 <= i < |list| ==> list[i].Bucket?) && LastStrictest(list) && j < |list|
    ensures Last(list).burst <= list[j].burst && Last(list).rate <= list[j].rate
  {}

  lemma TimeSpan(ops: seq<Op>, k: string, list: seq<LRule>, i: nat)
    requires ListRun(ops, k, list) && i < |ops|
    ensures LastTime(ops) - ops[i].now >= 0
  {
    hide ListUse;
  }

  // The last burst is 1: admissions are spaced.

  /** The time of the last admission. */
  function LastAdmission(ops: seq<Op>, k: string): Option<int> {
    if ops == [] then None
    else
      var n := |ops| - 1;
      if ops[n].Admit? && Touches(ops[n], k) && ReplyTo(map[], ops, n) == Ok then Some(ops[n].now) else LastAdmission(ops[..n], k)
  }

  /** What is stored after a run: an empty bucket since the last admission, or nothing once that has expired. */
  ghost predicate Emptied(e: Option<Entry>, last: Option<int>, ttl: int, t: int) {
    match last
    case None => e.None?
    case Some(l) => l <= t && (e == Some(Entry(Hash(0.0, l), Some(l + ttl))) || (e.None? && t > l + ttl))
  }

  lemma EmptiedSound(e: Option<Entry>, last: Option<int>, rate: Rate, t: int)
    requires Emptied(e, last, BucketTtl(rate, 1), t)
    ensures Sound(e, rate, 1, t)
  {
    hide BucketTtl;
  }

  lemma EmptiedLevel(e: Option<Entry>, rate: Rate, now: int)
    requires e.Some? ==> e.value.val.Hash?
    ensures Ideal(e, rate, 1, now) <= 1.0
  {
    hide Refill;
  }

  /** Each listed rule is one of the batch's. */
  lemma OwnRule(op: Op, k: string, list: seq<LRule>, j: nat) returns (i: nat)
    requires op.Admit? && RulesAt(op.rules, k) == list && j < |list|
    ensures i < |op.rules| && op.rules[i] == list[j] && op.rules[i].key == k
  {
    RulesAtLast(op.rules, k);
    assert list[j] in RulesAt(op.rules, k);
    i :| 0 <= i < |op.rules| && op.rules[i] == list[j];
  }

  /** A rule that sees a token in an emptied bucket has refilled one since the last admission. */
  lemma EmptiedRefill(e: Option<Entry>, last: int, ttl: int, rate: Rate, burst: int, t: int, now: int)
    requires Emptied(e, Some(last), ttl, t) && t <= now && Refill(rate, ttl + 1) >= 1.0
    requires BucketLevel(LiveEntry(e, now), rate, burst, now) >= 1.0
    ensures Refill(rate, now - last) >= 1.0
  {
    if e.Some? && now <= last + ttl {
      assert LiveEntry(e, now) == e;
    } else {
      hide BucketLevel;
      RefillMonotone(rate, ttl + 1, now - last);
    }
  }

  lemma EmptyStep(d: Db, op: Op, k: string, list: seq<LRule>, last: Option<int>, t: int)
    requires ValidList(k, list) && SingleToken(list) && ListUse(op, k, list) && t <= op.now
    requires Emptied(Get(d, k), last, BucketTtl(Last(list).rate, 1), t)
    ensures var ok := op.Admit? && Touches(op, k) && Step(d, op).1 == Ok;
            && Emptied(Get(Step(d, op).0, k), if ok then Some(op.now) else last, BucketTtl(Last(list).rate, 1), op.now)
            && (ok && last.Some? ==> forall j | 0 <= j < |list| :: Refill(list[j].rate, op.now - last.value) >= 1.0)
  {
    SingleIs(k, list);
    hide *;
    var n := Last(list);
    var ttl := BucketTtl(n.rate, 1);
    ListLast(op, k, list);
    EmptiedLater(Get(d, k), last, ttl, t, op.now);
    EmptiedHash(Get(d, k), last, ttl, t);
    if Touches(op, k) {
      EmptiedSound(Get(d, k), last, n.rate, t);
      UseIs(op, k, n.rate, 1);
      BucketBatchAt(d, op.now, op.rules, op.id, k, n.rate, 1, t);
      StepIsBatch(d, op);
      if Step(d, op).1 == Ok {
        EmptiedLevel(Get(d, k), n.rate, op.now);
        EmptiedNow(Get(Step(d, op).0, k), ttl, op.now);
        ListUseIs(op, k, list);
        forall j | 0 <= j < |list| && last.Some? ensures Refill(list[j].rate, op.now - last.value) >= 1.0 {
          var i := OwnRule(op, k, list, j);
          EmptiedRefill(Get(d, k), last.value, ttl, list[j].rate, list[j].burst, t, op.now);
        }
      }
    } else {
      Untouched(d, op, k);
    }
  }

  lemma SingleIs(k: string, list: seq<LRule>)
    requires ValidList(k, list) && SingleToken(list)
    ensures list != [] && Last(list).Bucket? && Last(list).burst == 1 && (forall i :: 0 <= i < |list| ==> list[i].Bucket?)
    ensures forall i :: 0 <= i < |list| ==> Refill(list[i].rate, BucketTtl(Last(list).rate, 1) + 1) >= 1.0
  {
    hide BucketTtl, Refill;
  }

  lemma UseIs(op: Op, k: string, rate: Rate, burst: nat)
    requires BucketUse(op, k, rate, burst) && Touches(op, k)
    ensures op.Admit? && Compatible(op.rules) && Reads(op.rules, |op.rules|, k) && LastBucket(op.rules, k, rate, burst)
  {
    hide Compatible, LastBucket;
  }

  lemma ListUseIs(op: Op, k: string, list: seq<LRule>)
    requires ListUse(op, k, list) && Touches(op, k)
    ensures op.Admit? && RulesAt(op.rules, k) == list
  {
    hide Compatible, RulesAt;
  }

  lemma EmptiedLater(e: Option<Entry>, last: Option<int>, ttl: int, t: int, now: int)
    requires Emptied(e, last, ttl, t) && t <= now
    ensures Emptied(LiveEntry(e, now), last, ttl, now)
  {}

  lemma EmptiedHash(e: Option<Entry>, last: Option<int>, ttl: int, t: int)
    requires Emptied(e, last, ttl, t)
    ensures e.Some? ==> e.value.val.Hash?
  {}

  lemma EmptiedNow(e: Option<Entry>, ttl: int, now: int)
    requires e.Some? && e.value.val.Hash? && e.value == Entry(Hash(e.value.val.tokens, now), Some(now + ttl)) && e.value.val.tokens == 0.0
    ensures Emptied(e, Some(now), ttl, now)
  {}

  lemma ListRunLast(ops: seq<Op>, k: string, list: seq<LRule>)
    requires ops != [] && ListRun(ops, k, list)
    ensures var n := |ops| - 1;
            ListRun(ops[..n], k, list) && ListUse(ops[n], k, list) && (n > 0 ==> ops[n - 1].now <= ops[n].now)
  {
    hide ListUse;
  }

  lemma LastAdmissionStep(ops: seq<Op>, k: string)
    requires ops != []
    ensures var n := |ops| - 1;
            var (d, reply) := Step(Run(map[], ops[..n]), ops[n]);
            LastAdmission(ops, k) == if ops[n].Admit? && Touches(ops[n], k) && reply == Ok then Some(ops[n].now) else LastAdmission(ops[..n], k)
  {
    hide Step, Touches;
    LastStep(map[], ops, k);
  }

  function Time(ops: seq<Op>): int { if ops == [] then 0 else ops[|ops| - 1].now }

  lemma NoOps(k: string, list: seq<LRule>)
    ensures LastAdmission([], k) == None && Run(map[], []) == map[] && Admitted(map[], [], k) == 0
    ensures forall ttl, t :: Emptied(Get(Run(map[], []), k), None, ttl, t)
  {}

  lemma {:induction false} StaysEmptied(ops: seq<Op>, k: string, list: seq<LRule>)
    requires ValidList(k, list) && SingleToken(list) && ListRun(ops, k, list)
    ensures Emptied(Get(Run(map[], ops), k), LastAdmission(ops, k), BucketTtl(Last(list).rate, 1), Time(ops))
  {
    hide *;
    NoOps(k, list);
    if ops != [] {
      var n := |ops| - 1;
      ListRunLast(ops, k, list);
      StaysEmptied(ops[..n], k, list);
      LastStep(map[], ops, k);
      LastAdmissionStep(ops, k);
      TimeIs(ops);
      if n == 0 {
        EmptyStep(Run(map[], ops[..n]), ops[n], k, list, LastAdmission(ops[..n], k), ops[n].now);
      } else {
        EmptyStep(Run(map[], ops[..n]), ops[n], k, list, LastAdmission(ops[..n], k), Time(ops[..n]));
      }
    }
  }

  lemma TimeIs(ops: seq<Op>)
    requires ops != []
    ensures Time(ops) == ops[|ops| - 1].now == LastTime(ops) && (|ops| > 1 ==> Time(ops[..|ops| - 1]) == ops[|ops| - 2].now)
    ensures |ops| == 1 ==> ops[..0] == []
  {}

  /** `n` admissions from `start` on, the last of all at `last`: at most one more than the refill up to it. */
  predicate SpacedBy(n: int, last: Option<int>, rate: Rate, start: int) {
    n == 0 || (last.Some? && start <= last.value && n as real <= 1.0 + Refill(rate, last.value - start))
  }

  ghost predicate Spaced(ops: seq<Op>, k: string, rate: Rate, i: nat, start: int)
    requires i <= |ops|
  {
    SpacedBy(Admitted(map[], ops, k) - Admitted(map[], ops[..i], k), LastAdmission(ops, k), rate, start)
  }

  lemma {:induction false} StaysSpaced(ops: seq<Op>, k: string, list: seq<LRule>, j: nat, i: nat, start: int)
    requires ValidList(k, list) && SingleToken(list) && ListRun(ops, k, list)
    requires j < |list| && i <= |ops| && list[j].Bucket? && (i < |ops| ==> start <= ops[i].now)
    ensures Spaced(ops, k, list[j].rate, i, start)
  {
    hide *;
    if i == |ops| {
      assert ops[..i] == ops;
      NoneSpaced(ops, k, list[j].rate, start);
    } else {
      var n := |ops| - 1;
      LastIs(k, list);
      ListRunLast(ops, k, list);
      InListOrder(ops, k, list, i);
      StaysSpaced(ops[..n], k, list, j, i, start);
      assert ops[..n][..i] == ops[..i];
      LastStep(map[], ops, k);
      LastAdmissionStep(ops, k);
      var t := if n == 0 then ops[n].now else Time(ops[..n]);
      NoOps(k, list);
      if n > 0 { TimeIs(ops); }
      StaysEmptied(ops[..n], k, list);
      EmptyStep(Run(map[], ops[..n]), ops[n], k, list, LastAdmission(ops[..n], k), t);
      LastNotLater(ops[..n], k, list, t);
      SpacedStep(ops, k, list[j].rate, i, start);
    }
  }

  lemma InListOrder(ops: seq<Op>, k: string, list: seq<LRule>, i: nat)
    requires ListRun(ops, k, list) && i < |ops|
    ensures ops[i].now <= ops[|ops| - 1].now
  {
    hide ListUse;
  }

  lemma NoneSpaced(ops: seq<Op>, k: string, rate: Rate, start: int)
    ensures ops[..|ops|] == ops ==> Spaced(ops, k, rate, |ops|, start)
  {
    hide Refill, Admitted;
  }

  lemma LastNotLater(ops: seq<Op>, k: string, list: seq<LRule>, t: int)
    requires ValidList(k, list) && SingleToken(list)
    requires Emptied(Get(Run(map[], ops), k), LastAdmission(ops, k), BucketTtl(Last(list).rate, 1), t)
    ensures LastAdmission(ops, k).Some? ==> LastAdmission(ops, k).value <= t
  {
    hide ValidList, SingleToken, Run, LastAdmission, BucketTtl;
  }

  lemma SpacedStep(ops: seq<Op>, k: string, rate: Rate, i: nat, start: int)
    requires i < |ops| && start <= ops[|ops| - 1].now
    requires var n := |ops| - 1;
             var ok := ops[n].Admit? && Touches(ops[n], k) && Step(Run(map[], ops[..n]), ops[n]).1 == Ok;
             var last := LastAdmission(ops[..n], k);
             && Spaced(ops[..n], k, rate, i, start) && ops[..n][..i] == ops[..i]
             && Admitted(map[], ops, k) == Admitted(map[], ops[..n], k) + (if ok then 1 else 0)
             && LastAdmission(ops, k) == (if ok then Some(ops[n].now) else last)
             && (ok && last.Some? ==> last.value <= ops[n].now && Refill(rate, ops[n].now - last.value) >= 1.0)
    ensures Spaced(ops, k, rate, i, start)
  {
    var n := |ops| - 1;
    hide Touches, Step, Admitted, LastAdmission, SpacedBy, Refill;
    if ops[n].Admit? && Touches(ops[n], k) && Step(Run(map[], ops[..n]), ops[n]).1 == Ok {
      OneSpaced(Admitted(map[], ops[..n], k) - Admitted(map[], ops[..i], k), LastAdmission(ops[..n], k), rate, start, ops[n].now);
    }
  }

  lemma OneSpaced(n: int, last: Option<int>, rate: Rate, start: int, now: int)
    requires SpacedBy(n, last, rate, start) && start <= now
    requires last.Some? ==> last.value <= now && Refill(rate, now - last.value) >= 1.0
    ensures SpacedBy(n + 1, Some(now), rate, start)
  {
    RefillPositive(rate, now - start);
    if n != 0 { RefillSplits(rate, start, last.value, now); }
    hide Refill;
    assert (n + 1) as real == n as real + 1.0;
  }

  lemma RefillPositive(rate: Rate, ms: int)
    requires ms >= 0
    ensures Refill(rate, ms) >= 0.0
  {
    Product(ms as real / 1000.0, rate);
  }

  lemma SingleSuffices(ops: seq<Op>, k: string, list: seq<LRule>, j: nat, i: nat)
    requires ValidList(k, list) && SingleToken(list) && ListRun(ops, k, list) && j < |list| && i < |ops|
    ensures list[j].Bucket? && WithinOwn(ops, k, list[j], i)
  {
    hide *;
    LastIs(k, list);
    StaysSpaced(ops, k, list, j, i, ops[i].now);
    StaysEmptied(ops, k, list);
    TimeIs(ops);
    LastNotLater(ops, k, list, Time(ops));
    InListOrder(ops, k, list, i);
    SpacedWithin(ops, k, list[j], i);
  }

  lemma SpacedWithin(ops: seq<Op>, k: string, r: LRule, i: nat)
    requires r.Bucket? && r.burst >= 1 && i < |ops| && Spaced(ops, k, r.rate, i, ops[i].now) && ops[i].now <= LastTime(ops)
    requires LastAdmission(ops, k).Some? ==> LastAdmission(ops, k).value <= LastTime(ops)
    ensures WithinOwn(ops, k, r, i)
  {
    hide Admitted, LastAdmission, Refill, LastTime;
    RefillPositive(r.rate, LastTime(ops) - ops[i].now);
    var last := LastAdmission(ops, k);
    if last.Some? && last.value >= ops[i].now {
      RefillSplits(r.rate, ops[i].now, last.value, LastTime(ops));
      RefillPositive(r.rate, LastTime(ops) - last.value);
    }
  }

  // Runs of batches that carry the list and nothing else.

  /** The stored tokens after the first batch and one more after each wait (in milliseconds). */
  function Stored(burst: nat, rate: Rate, waits: seq<nat>): real {
    if waits == [] then burst as real - 1.0
    else
      var n := |waits| - 1;
      MinReal(burst as real, Stored(burst, rate, waits[..n]) + Refill(rate, waits[n])) - 1.0
  }

  function Total(waits: seq<nat>): nat {
    if waits == [] then 0 else Total(waits[..|waits| - 1]) + waits[|waits| - 1]
  }

  function RunOf(list: seq<LRule>, waits: seq<nat>): (ops: seq<Op>)
    ensures |ops| == |waits| + 1
    ensures ops[0].now == 0 && ops[|waits|] == Admit(Total(waits), list, "")
  {
    if waits == [] then [Admit(0, list, "")] else RunOf(list, waits[..|waits| - 1]) + [Admit(Total(waits), list, "")]
  }

  /** Every rule sees a token after each wait: the key has expired, or what is stored and its own refill make one. */
  predicate Passes(list: seq<LRule>, burst: nat, rate: Rate, waits: seq<nat>)
    requires forall i :: 0 <= i < |list| ==> list[i].Bucket?
  {
    waits == [] ||
    var n := |waits| - 1;
    && Passes(list, burst, rate, waits[..n])
    && (waits[n] > BucketTtl(rate, burst)
        || forall i | 0 <= i < |list| :: Stored(burst, rate, waits[..n]) + Refill(list[i].rate, waits[n]) >= 1.0)
  }

  lemma {:induction false} RulesAtOwn(list: seq<LRule>, k: string)
    requires forall i :: 0 <= i < |list| ==> list[i].key == k
    ensures RulesAt(list, k) == list
  {
    if list != [] { RulesAtOwn(list[..|list| - 1], k); }
  }

  lemma OwnUse(list: seq<LRule>, k: string, now: int)
    requires ValidList(k, list)
    ensures var op := Admit(now, list, ""); ListUse(op, k, list) && Touches(op, k) && Compatible(list) && Reads(list, |list|, k)
  {
    RulesAtOwn(list, k);
    assert list[0].key == k;
  }

  /** Rules that all see a token pass together. */
  lemma {:induction false} AllPassAt(live: Db, now: int, list: seq<LRule>, plans: seq<Plan>, k: string)
    requires |plans| <= |list| && forall i :: 0 <= i < |list| ==> list[i].Bucket? && list[i].key == k
    requires forall i :: 0 <= i < |list| ==> Try(Get(live, k), list[i], now).Pass?
    ensures TryFrom(live, now, list, plans).1.AllPass?
    decreases |list| - |plans|
  {
    hide Try, Clean, TryFrom;
    TryUnfold(live, now, list, plans);
    if |plans| < |list| {
      var r := list[|plans|];
      BucketKeeps(live, r, now);
      AllPassAt(live, now, list, plans + [Try(Get(live, k), r, now).plan], k);
    }
  }

  lemma BucketKeeps(db: Db, r: LRule, now: int)
    requires r.Bucket?
    ensures Clean(db, r, now) == db
  {
    KeepClean(db, r, now);
  }

  /** The entry at `k` after the last call, at `t`. */
  ghost predicate Standing(e: Option<Entry>, n: LRule, t: int)
    requires n.Bucket? && n.burst >= 0
  {
    && (e.None? || (e.value.val.Hash? && e.value.val.ts == t && e.value.exp == Some(t + BucketTtl(n.rate, n.burst))))
    && Sound(e, n.rate, n.burst, t)
  }

  /** After waiting `w` every rule sees a token. */
  ghost predicate Ready(e: Option<Entry>, list: seq<LRule>, w: nat)
    requires list != [] && (forall i :: 0 <= i < |list| ==> list[i].Bucket?) && (e.Some? ==> e.value.val.Hash?)
  {
    || e.None? || w > BucketTtl(Last(list).rate, Last(list).burst)
    || forall i | 0 <= i < |list| :: e.value.val.tokens + Refill(list[i].rate, w) >= 1.0
  }

  lemma ReadyPasses(d: Db, k: string, list: seq<LRule>, t: int, w: nat)
    requires list != [] && forall i :: 0 <= i < |list| ==> list[i].Bucket? && list[i].burst >= 1 && list[i].key == k
    requires Standing(Get(d, k), Last(list), t) && Ready(Get(d, k), list, w)
    ensures TryFrom(Live(d, t + w), t + w, list, []).1.AllPass?
  {
    var live := Live(d, t + w);
    var n := Last(list);
    LiveGet(d, t + w, k);
    hide Try, TryFrom, Sound, BucketTtl, Refill;
    forall i | 0 <= i < |list| ensures Try(Get(live, k), list[i], t + w).Pass? { OwnTry(Get(d, k), list[i], n.rate, n.burst, t, w); }
    AllPassAt(live, t + w, list, [], k);
  }

  lemma NextBatch(d: Db, k: string, list: seq<LRule>, t: int, w: nat)
    requires ValidList(k, list) && Standing(Get(d, k), Last(list), t) && Ready(Get(d, k), list, w)
    ensures var n := Last(list);
            var (d', reply) := Batch(d, t + w, list, "");
            var level := Ideal(Get(d, k), n.rate, n.burst, t + w);
            && reply == Ok && level >= 1.0
            && Get(d', k) == Some(Entry(Hash(level - 1.0, t + w), Some(t + w + BucketTtl(n.rate, n.burst))))
  {
    hide *;
    LastIs(k, list);
    var n, now := Last(list), t + w;
    StandingIs(Get(d, k), n, t);
    OwnUse(list, k, now);
    ListLast(Admit(now, list, ""), k, list);
    ReadyPasses(d, k, list, t, w);
    AllOrNothing(d, now, list, "");
    UsesLast(Admit(now, list, ""), k, n.rate, n.burst);
    BucketBatchAt(d, now, list, "", k, n.rate, n.burst, t);
  }

  lemma StandingIs(e: Option<Entry>, n: LRule, t: int)
    requires n.Bucket? && n.burst >= 1 && Standing(e, n, t)
    ensures Sound(e, n.rate, n.burst, t)
  {}

  lemma UsesLast(op: Op, k: string, rate: Rate, burst: nat)
    requires BucketUse(op, k, rate, burst) && Touches(op, k)
    ensures op.Admit? && LastBucket(op.rules, k, rate, burst)
  {
    hide Compatible, LastBucket;
  }

  lemma OwnTry(e: Option<Entry>, r: LRule, rate: Rate, burst: nat, t: int, w: nat)
    requires r.Bucket? && r.burst >= 1
    requires e.None? || (e.value.val.Hash? && e.value.val.ts == t && e.value.exp == Some(t + BucketTtl(rate, burst)))
    requires e.None? || w > BucketTtl(rate, burst) || e.value.val.tokens + Refill(r.rate, w) >= 1.0
    ensures Try(LiveEntry(e, t + w), r, t + w).Pass?
  {
    BucketTrial(LiveEntry(e, t + w), t + w, r);
    hide Try, BucketTtl;
    if w == 0 { NoRefill(r.rate); }
  }

  lemma ListAppend(ops: seq<Op>, op: Op, k: string, list: seq<LRule>)
    requires ListRun(ops, k, list) && ListUse(op, k, list) && (ops != [] ==> ops[|ops| - 1].now <= op.now)
    ensures ListRun(ops + [op], k, list)
  {
    hide ListUse;
  }

  /** What is stored after a run of batches. */
  ghost predicate Stands(k: string, list: seq<LRule>, waits: seq<nat>)
    requires list != [] && Last(list).Bucket? && Last(list).burst >= 1
  {
    var n := Last(list);
    var x := Stored(n.burst, n.rate, waits);
    && Get(Run(map[], RunOf(list, waits)), k) == Some(Entry(Hash(x, Total(waits)), Some(Total(waits) + BucketTtl(n.rate, n.burst))))
    && 0.0 <= x <= n.burst as real
  }

  lemma IdealIs(e: Option<Entry>, rate: Rate, burst: nat, x: real, t: int, w: nat)
    requires e.Some? && e.value.val == Hash(x, t)
    ensures Ideal(e, rate, burst, t + w) == MinReal(burst as real, x + Refill(rate, w))
  {
    assert t + w - t == w;
  }

  lemma StandsSound(k: string, list: seq<LRule>, waits: seq<nat>)
    requires list != [] && Last(list).Bucket? && Last(list).burst >= 1 && Stands(k, list, waits)
    ensures Sound(Get(Run(map[], RunOf(list, waits)), k), Last(list).rate, Last(list).burst, Total(waits))
  {
    hide Run, RunOf, BucketTtl, Total, Stored;
  }

  lemma RunUnfold(list: seq<LRule>, waits: seq<nat>)
    ensures waits == [] ==> RunOf(list, waits) == [] + [Admit(0, list, "")]
    ensures waits != [] ==> RunOf(list, waits) == RunOf(list, waits[..|waits| - 1]) + [Admit(Total(waits), list, "")]
                            && Total(waits) == Total(waits[..|waits| - 1]) + waits[|waits| - 1]
    ensures Total([]) == 0
  {}

  lemma PassesLast(list: seq<LRule>, burst: nat, rate: Rate, waits: seq<nat>)
    requires waits != [] && (forall i :: 0 <= i < |list| ==> list[i].Bucket?) && Passes(list, burst, rate, waits)
    ensures var n := |waits| - 1;
            && Passes(list, burst, rate, waits[..n])
            && (waits[n] > BucketTtl(rate, burst)
                || forall i | 0 <= i < |list| :: Stored(burst, rate, waits[..n]) + Refill(list[i].rate, waits[n]) >= 1.0)
  {
    hide Stored, Refill, BucketTtl;
  }

  lemma StoredStep(burst: nat, rate: Rate, waits: seq<nat>)
    ensures waits == [] ==> Stored(burst, rate, waits) == burst as real - 1.0
    ensures waits != [] ==> var n := |waits| - 1;
              Stored(burst, rate, waits) == MinReal(burst as real, Stored(burst, rate, waits[..n]) + Refill(rate, waits[n])) - 1.0
  {
    hide Refill;
  }

  /** The batch that follows `ops` is admitted. */
  lemma StandsReady(e: Option<Entry>, list: seq<LRule>, t: int, w: nat, x: real)
    requires list != [] && (forall i :: 0 <= i < |list| ==> list[i].Bucket?) && Last(list).burst >= 1
    requires Sound(e, Last(list).rate, Last(list).burst, t)
    requires e.Some? ==> e.value == Entry(Hash(x, t), Some(t + BucketTtl(Last(list).rate, Last(list).burst)))
    requires e.None? || w > BucketTtl(Last(list).rate, Last(list).burst) || forall i | 0 <= i < |list| :: x + Refill(list[i].rate, w) >= 1.0
    ensures Standing(e, Last(list), t) && Ready(e, list, w)
  {
    hide BucketTtl, Refill, Sound;
  }

  /** One more batch after a wait, if every rule then sees a token. */
  lemma OneMore(ops: seq<Op>, k: string, list: seq<LRule>, t: int, w: nat)
    requires ValidList(k, list) && ListRun(ops, k, list) && Admitted(map[], ops, k) == |ops|
    requires ops != [] ==> ops[|ops| - 1].now == t
    requires Standing(Get(Run(map[], ops), k), Last(list), t) && Ready(Get(Run(map[], ops), k), list, w)
    ensures var n := Last(list);
            var ops' := ops + [Admit(t + w, list, "")];
            var level := Ideal(Get(Run(map[], ops), k), n.rate, n.burst, t + w);
            && ListRun(ops', k, list) && Admitted(map[], ops', k) == |ops'| && level >= 1.0
            && Get(Run(map[], ops'), k) == Some(Entry(Hash(level - 1.0, t + w), Some(t + w + BucketTtl(n.rate, n.burst))))
  {
    hide *;
    LastIs(k, list);
    var op := Admit(t + w, list, "");
    var ops' := ops + [op];
    assert ops'[..|ops|] == ops;
    NextBatch(Run(map[], ops), k, list, t, w);
    OwnUse(list, k, t + w);
    LastStep(map[], ops', k);
    StepIsBatch(Run(map[], ops), op);
    ListAppend(ops, op, k, list);
  }

  lemma OneAdmitted(ops: seq<Op>, k: string, list: seq<LRule>, t: int, w: nat, x: real)
    requires ValidList(k, list) && ListRun(ops, k, list) && Admitted(map[], ops, k) == |ops|
    requires ops != [] ==> ops[|ops| - 1].now == t
    requires var n := Last(list);
             var e := Get(Run(map[], ops), k);
             && Sound(e, n.rate, n.burst, t)
             && (e.Some? ==> e.value == Entry(Hash(x, t), Some(t + BucketTtl(n.rate, n.burst))))
             && (e.None? || w > BucketTtl(n.rate, n.burst) || forall i | 0 <= i < |list| :: x + Refill(list[i].rate, w) >= 1.0)
    ensures var n := Last(list);
            var ops' := ops + [Admit(t + w, list, "")];
            var level := Ideal(Get(Run(map[], ops), k), n.rate, n.burst, t + w);
            && ListRun(ops', k, list) && Admitted(map[], ops', k) == |ops'| && 1.0 <= level <= n.burst as real
            && Get(Run(map[], ops'), k) == Some(Entry(Hash(level - 1.0, t + w), Some(t + w + BucketTtl(n.rate, n.burst))))
  {
    LastIs(k, list);
    hide *;
    StandsReady(Get(Run(map[], ops), k), list, t, w, x);
    ExpiryInvisible(Get(Run(map[], ops), k), Last(list).rate, Last(list).burst, t, t + w);
    OneMore(ops, k, list, t, w);
  }

  /** After a first batch at time 0 and one after each wait, all have been admitted. */
  lemma {:induction false} RunAdmits(k: string, list: seq<LRule>, waits: seq<nat>)
    requires ValidList(k, list) && list != [] && Last(list).Bucket? && Last(list).burst >= 1
    requires (forall i :: 0 <= i < |list| ==> list[i].Bucket?) && Passes(list, Last(list).burst, Last(list).rate, waits)
    ensures var ops := RunOf(list, waits);
            ListRun(ops, k, list) && Admitted(map[], ops, k) == |waits| + 1 && Stands(k, list, waits)
    decreases waits, 1
  {
    hide *;
    RunUnfold(list, waits);
    if waits == [] {
      EmptyList(k, list);
      StoredStep(Last(list).burst, Last(list).rate, waits);
      OneAdmitted([], k, list, 0, 0, 0.0);
      StandsIs(k, list, waits);
    } else {
      RunGoesOn(k, list, waits);
    }
  }

  lemma {:induction false} RunGoesOn(k: string, list: seq<LRule>, waits: seq<nat>)
    requires ValidList(k, list) && list != [] && Last(list).Bucket? && Last(list).burst >= 1 && waits != []
    requires (forall i :: 0 <= i < |list| ==> list[i].Bucket?) && Passes(list, Last(list).burst, Last(list).rate, waits)
    ensures var ops := RunOf(list, waits);
            ListRun(ops, k, list) && Admitted(map[], ops, k) == |waits| + 1 && Stands(k, list, waits)
    decreases waits, 0
  {
    hide *;
    var n := Last(list);
    var before := waits[..|waits| - 1];
    var x := Stored(n.burst, n.rate, before);
    PassesLast(list, n.burst, n.rate, waits);
    RunAdmits(k, list, before);
    StandsSound(k, list, before);
    StandsIs(k, list, before);
    RunUnfold(list, waits);
    OneAdmitted(RunOf(list, before), k, list, Total(before), waits[|waits| - 1], x);
    IdealIs(Get(Run(map[], RunOf(list, before)), k), n.rate, n.burst, x, Total(before), waits[|waits| - 1]);
    StoredStep(n.burst, n.rate, waits);
    StandsIs(k, list, waits);
  }

  lemma StandsIs(k: string, list: seq<LRule>, waits: seq<nat>)
    requires list != [] && Last(list).Bucket? && Last(list).burst >= 1
    ensures var n := Last(list);
            var x := Stored(n.burst, n.rate, waits);
            Stands(k, list, waits)
            <==> Get(Run(map[], RunOf(list, waits)), k)
                 == Some(Entry(Hash(x, Total(waits)), Some(Total(waits) + BucketTtl(n.rate, n.burst))))
                 && 0.0 <= x <= n.burst as real
  {
    hide Run, RunOf, BucketTtl, Total, Stored;
  }

  lemma EmptyList(k: string, list: seq<LRule>)
    requires list != [] && Last(list).Bucket? && Last(list).burst >= 1
    ensures var n := Last(list);
            var e := Get(Run(map[], []), k);
            && e == None && ListRun([], k, list) && Admitted(map[], [], k) == 0 && Sound(e, n.rate, n.burst, 0)
            && Ideal(e, n.rate, n.burst, 0) == n.burst as real
  {}

  // What exceeds a rule's own bound.

  /** A run of batches that admits more than rule `j` allows for shows that the bound fails. */
  lemma Exceeds(k: string, list: seq<LRule>, waits: seq<nat>, j: nat)
    requires ValidList(k, list) && list != [] && Last(list).Bucket? && Last(list).burst >= 1
    requires (forall i :: 0 <= i < |list| ==> list[i].Bucket?) && Passes(list, Last(list).burst, Last(list).rate, waits)
    requires j < |list| && (|waits| + 1) as real > list[j].burst as real + Refill(list[j].rate, Total(waits))
    ensures !EachOwnBound(k, list)
  {
    hide *;
    var ops := RunOf(list, waits);
    RunAdmits(k, list, waits);
    EmptyList(k, list);
    assert ops[..0] == [];
    TimeIs(ops);
    WithinIs(ops, k, list[j], 0);
    if EachOwnBound(k, list) { OwnBoundAt(k, list, ops, j, 0); }
  }

  lemma WithinIs(ops: seq<Op>, k: string, r: LRule, i: nat)
    requires r.Bucket? && i < |ops|
    ensures WithinOwn(ops, k, r, i)
            <==> (Admitted(map[], ops, k) - Admitted(map[], ops[..i], k)) as real
                 <= r.burst as real + Refill(r.rate, LastTime(ops) - ops[i].now)
  {
    hide Refill, Admitted;
  }

  lemma OwnBoundAt(k: string, list: seq<LRule>, ops: seq<Op>, j: nat, i: nat)
    requires ValidList(k, list) && EachOwnBound(k, list) && ListRun(ops, k, list) && j < |list| && i < |ops|
    ensures list[j].Bucket? && WithinOwn(ops, k, list[j], i)
  {
    hide ListRun, WithinOwn;
  }

  function Every(n: nat, w: nat): (s: seq<nat>)
    ensures |s| == n
  {
    seq(n, i => w)
  }

  lemma EverySnoc(n: nat, w: nat)
    ensures Every(n + 1, w)[..n] == Every(n, w) && Every(n + 1, w)[n] == w && Every(0, w) == []
  {}

  lemma {:induction false} EveryTotal(n: nat, w: nat)
    ensures Total(Every(n, w)) == n * w
  {
    if n > 0 {
      EverySnoc(n - 1, w);
      EveryTotal(n - 1, w);
      assert n * w == (n - 1) * w + w;
    }
  }

  lemma RefillTimes(rate: Rate, n: nat, w: nat)
    ensures Refill(rate, n * w) == n as real * Refill(rate, w)
  {
    RealProduct(n, w);
    var x, y := n as real, w as real;
    assert x * y / 1000.0 * rate == x * (y / 1000.0 * rate);
  }

  lemma {:induction false} RealProduct(n: nat, w: nat)
    ensures (n * w) as real == n as real * w as real
  {
    if n > 0 {
      RealProduct(n - 1, w);
      assert n * w == (n - 1) * w + w;
      assert n as real * w as real == (n - 1) as real * w as real + w as real;
    }
  }

  /** The wait is past the key's expiry, or refills a token of the last rule, whose burst is more than one. */
  predicate GoodPeriod(burst: nat, rate: Rate, w: nat) {
    w > BucketTtl(rate, burst) || (burst >= 2 && Refill(rate, w) >= 1.0)
  }

  lemma {:induction false} PeriodPasses(list: seq<LRule>, burst: nat, rate: Rate, w: nat, n: nat)
    requires (forall i :: 0 <= i < |list| ==> list[i].Bucket?) && GoodPeriod(burst, rate, w)
    ensures Passes(list, burst, rate, Every(n, w))
    ensures burst >= 2 && Refill(rate, w) >= 1.0 ==> Stored(burst, rate, Every(n, w)) >= 1.0
  {
    EverySnoc(0, w);
    if n > 0 {
      EverySnoc(n - 1, w);
      PeriodPasses(list, burst, rate, w, n - 1);
      hide Refill, BucketTtl;
      forall i | 0 <= i < |list| ensures Refill(list[i].rate, w) >= 0.0 { RefillPositive(list[i].rate, w); }
    }
  }

  /** An integer not below a real that is not negative. */
  function NatCeil(x: real): (n: nat)
    ensures x <= n as real && (x >= 0.0 ==> n as real < x + 1.0)
  {
    if x <= 0.0 then 0 else Ceil(x)
  }

  lemma Outruns(b: real, q: real, n: nat)
    requires b >= 0.0 && 0.0 <= q < 1.0 && n as real >= b / (1.0 - q)
    ensures (n + 1) as real > b + n as real * q
  {
    var d := 1.0 - q;
    var z := b / d;
    assert z * d == b;
    Scale(z, n as real, d);
    assert n as real * d == n as real - n as real * q;
  }

  /** Batches at a steady period that refills less than a token of rule `j` exceed its bound. */
  lemma Periodic(k: string, list: seq<LRule>, j: nat, w: nat)
    requires ValidList(k, list) && list != [] && Last(list).Bucket? && Last(list).burst >= 1
    requires j < |list| && list[j].Bucket? && list[j].burst >= 1
    requires GoodPeriod(Last(list).burst, Last(list).rate, w) && Refill(list[j].rate, w) < 1.0
    ensures !EachOwnBound(k, list)
  {
    hide *;
    LastIs(k, list);
    var r := list[j];
    RefillPositive(r.rate, w);
    var q := Refill(r.rate, w);
    var n := NatCeil(r.burst as real / (1.0 - q));
    Outruns(r.burst as real, q, n);
    PeriodPasses(list, Last(list).burst, Last(list).rate, w, n);
    EveryTotal(n, w);
    RefillTimes(r.rate, n, w);
    Exceeds(k, list, Every(n, w), j);
  }

  lemma {:induction false} AtOncePasses(list: seq<LRule>, burst: nat, rate: Rate, n: nat)
    requires (forall i :: 0 <= i < |list| ==> list[i].Bucket?) && n < burst
    ensures Passes(list, burst, rate, Every(n, 0)) && Stored(burst, rate, Every(n, 0)) == (burst - 1 - n) as real
  {
    EverySnoc(0, 0);
    if n > 0 {
      EverySnoc(n - 1, 0);
      AtOncePasses(list, burst, rate, n - 1);
      NoRefill(rate);
      forall i | 0 <= i < |list| ensures Refill(list[i].rate, 0) == 0.0 { NoRefill(list[i].rate); }
      hide Refill, BucketTtl;
    }
  }

  /** A larger last burst is admitted at once. */
  lemma AtOnce(k: string, list: seq<LRule>, j: nat)
    requires ValidList(k, list) && list != [] && Last(list).Bucket? && Last(list).burst >= 1
    requires j < |list| && list[j].Bucket? && list[j].burst < Last(list).burst
    ensures !EachOwnBound(k, list)
  {
    hide *;
    LastIs(k, list);
    var n := Last(list).burst - 1;
    AtOncePasses(list, Last(list).burst, Last(list).rate, n);
    EveryTotal(n, 0);
    NoRefill(list[j].rate);
    Exceeds(k, list, Every(n, 0), j);
  }

  /** The milliseconds in which `rate` refills `x` tokens, rounded up. */
  function WaitFor(rate: Rate, x: real): (w: nat) { NatCeil(x / rate * 1000.0) }

  lemma WaitEnough(rate: Rate, x: real)
    requires x >= 0.0
    ensures x <= Refill(rate, WaitFor(rate, x)) < x + rate / 1000.0
  {
    var y := x / rate;
    assert y * rate == x;
    NegativeTimes(y, rate);
    WaitWith(rate, x, y, WaitFor(rate, x));
  }

  lemma WaitWith(rate: Rate, x: real, y: real, w: nat)
    requires y * rate == x && y * 1000.0 <= w as real < y * 1000.0 + 1.0
    ensures x <= Refill(rate, w) < x + rate / 1000.0
  {
    var m := w as real / 1000.0;
    ScaledBetween(y, m, rate, x, Refill(rate, w));
  }

  lemma NegativeTimes(y: real, rate: Rate)
    ensures y < 0.0 ==> y * rate < 0.0
  {
    if y < 0.0 {
      Product(-y, rate);
      assert (-y) * rate == -(y * rate);
    }
  }

  lemma ScaledBetween(y: real, m: real, rate: Rate, b: real, a: real)
    requires y <= m < y + 0.001 && y * rate == b && m * rate == a
    ensures b <= a < b + rate / 1000.0
  {
    Excess(m, y, rate, a, b);
    var z := y + 0.001;
    Excess(z, m, rate, b + rate / 1000.0, a);
  }

  lemma Excess(p: real, q: real, rate: Rate, a: real, b: real)
    requires p * rate == a && q * rate == b
    ensures q <= p ==> b <= a
    ensures q < p ==> b < a
  {
    var d := p - q;
    assert d * rate == a - b;
    if q <= p { Product(d, rate); }
  }

  /** Keep the stored tokens at one or more: every rule passes without waiting. */
  function Climb(burst: nat, rate: Rate, n: nat): (waits: seq<nat>)
    ensures |waits| == n
  {
    if n == 0 then []
    else
      var ws := Climb(burst, rate, n - 1);
      ws + [if Stored(burst, rate, ws) >= 2.0 then 0 else WaitFor(rate, 2.0 - Stored(burst, rate, ws))]
  }

  /** The stored tokens stay in [lo, burst] and nothing refilled is lost. */
  predicate Lossless(burst: nat, rate: Rate, waits: seq<nat>, lo: real) {
    var x := Stored(burst, rate, waits);
    lo <= x <= burst as real - 1.0 && x == burst as real - 1.0 + Refill(rate, Total(waits)) - |waits| as real
  }

  lemma LosslessStep(burst: nat, rate: Rate, waits: seq<nat>, lo: real, lo': real)
    requires waits != [] && Lossless(burst, rate, waits[..|waits| - 1], lo)
    requires var level := Stored(burst, rate, waits[..|waits| - 1]) + Refill(rate, waits[|waits| - 1]);
             lo' + 1.0 <= level <= burst as real
    ensures Lossless(burst, rate, waits, lo')
  {
    var n := |waits| - 1;
    RefillSplits(rate, 0, Total(waits[..n]), Total(waits[..n]) + waits[n]);
    hide Refill;
    assert Total(waits) == Total(waits[..n]) + waits[n];
  }

  lemma RateBelow(burst: nat, rate: Rate)
    requires burst >= rate.Floor
    ensures rate / 1000.0 < (burst as real + 1.0) / 1000.0
  {}

  lemma LosslessStart(burst: nat, rate: Rate, lo: real)
    requires burst >= 1 && lo <= burst as real - 1.0
    ensures Lossless(burst, rate, [], lo)
  {
    NoRefill(rate);
  }

  lemma ClimbLast(burst: nat, rate: Rate, n: nat)
    ensures Climb(burst, rate, 0) == []
    ensures n > 0 ==> var ws := Climb(burst, rate, n - 1);
              && Climb(burst, rate, n)[..n - 1] == ws
              && Climb(burst, rate, n)[n - 1] == if Stored(burst, rate, ws) >= 2.0 then 0 else WaitFor(rate, 2.0 - Stored(burst, rate, ws))
  {
    hide Stored, WaitFor;
  }

  lemma {:induction false} ClimbPasses(list: seq<LRule>, burst: nat, rate: Rate, n: nat)
    requires (forall i :: 0 <= i < |list| ==> list[i].Bucket?) && burst >= 3 && burst >= rate.Floor
    ensures Passes(list, burst, rate, Climb(burst, rate, n)) && Lossless(burst, rate, Climb(burst, rate, n), 1.0)
  {
    hide *;
    ClimbLast(burst, rate, n);
    if n == 0 {
      LosslessStart(burst, rate, 1.0);
      NoWaits(list, burst, rate);
    } else {
      var ws, waits := Climb(burst, rate, n - 1), Climb(burst, rate, n);
      ClimbPasses(list, burst, rate, n - 1);
      LosslessAtLeast(burst, rate, ws, 1.0);
      var x := Stored(burst, rate, ws);
      RateBelow(burst, rate);
      NoRefill(rate);
      if x < 2.0 { WaitEnough(rate, 2.0 - x); }
      LosslessStep(burst, rate, waits, 1.0, 1.0);
      PassesOne(list, burst, rate, waits);
    }
  }

  lemma NoWaits(list: seq<LRule>, burst: nat, rate: Rate)
    requires forall i :: 0 <= i < |list| ==> list[i].Bucket?
    ensures Passes(list, burst, rate, [])
  {}

  lemma LosslessAtLeast(burst: nat, rate: Rate, waits: seq<nat>, lo: real)
    requires Lossless(burst, rate, waits, lo)
    ensures var x := Stored(burst, rate, waits);
            lo <= x <= burst as real - 1.0 && x == burst as real - 1.0 + Refill(rate, Total(waits)) - |waits| as real
  {
    hide Stored, Refill, Total;
  }

  /** From one stored token every rule passes. */
  lemma PassesOne(list: seq<LRule>, burst: nat, rate: Rate, waits: seq<nat>)
    requires waits != [] && (forall i :: 0 <= i < |list| ==> list[i].Bucket?)
    requires Passes(list, burst, rate, waits[..|waits| - 1]) && Stored(burst, rate, waits[..|waits| - 1]) >= 1.0
    ensures Passes(list, burst, rate, waits)
  {
    hide Stored, Refill, BucketTtl;
    forall i | 0 <= i < |list| ensures Refill(list[i].rate, waits[|waits| - 1]) >= 0.0 { RefillPositive(list[i].rate, waits[|waits| - 1]); }
  }

  // Without loss, the faster last rule outruns a slower one.

  function Enough(burst: nat, fast: Rate, slow: Rate, bound: nat): nat
    requires slow < fast
  {
    burst + NatCeil(bound as real * fast / (fast - slow)) + 1
  }

  lemma FasterOutruns(burst: nat, fast: Rate, slow: Rate, bound: nat, n: nat, t: nat, x: real)
    requires burst >= 1 && slow < fast && n >= Enough(burst, fast, slow, bound)
    requires 0.0 <= x <= burst as real - 1.0 && x == burst as real - 1.0 + Refill(fast, t) - n as real
    ensures (n + 1) as real > bound as real + Refill(slow, t)
  {
    var d := fast - slow;
    var tau := t as real / 1000.0;
    var z := bound as real * fast / d;
    assert z * d == bound as real * fast;
    assert tau * fast == Refill(fast, t) && tau * slow == Refill(slow, t);
    assert tau * fast >= z + 1.0;
    Spread(tau, fast, d, z, bound as real);
    assert tau * slow == tau * fast - tau * d;
  }

  lemma Spread(tau: real, fast: real, d: real, z: real, b: real)
    requires fast > 0.0 && d > 0.0 && z * d == b * fast && tau * fast >= z + 1.0
    ensures tau * d > b
  {
    Product(tau * fast - z, d);
    assert (tau * fast - z) * d == (tau * d) * fast - b * fast;
    assert ((tau * d) - b) * fast == (tau * d) * fast - b * fast;
    if tau * d <= b { Product(b - tau * d, fast); }
  }

  lemma Climbs(k: string, list: seq<LRule>, j: nat)
    requires ValidList(k, list) && list != [] && Last(list).Bucket? && Last(list).burst >= 3
    requires j < |list| && list[j].Bucket? && list[j].burst >= 1 && list[j].rate < Last(list).rate
    ensures !EachOwnBound(k, list)
  {
    hide *;
    LastIs(k, list);
    LastRoomy(k, list);
    var n := Last(list);
    var m := Enough(n.burst, n.rate, list[j].rate, list[j].burst);
    var waits := Climb(n.burst, n.rate, m);
    ClimbPasses(list, n.burst, n.rate, m);
    LosslessAtLeast(n.burst, n.rate, waits, 1.0);
    FasterOutruns(n.burst, n.rate, list[j].rate, list[j].burst, m, Total(waits), Stored(n.burst, n.rate, waits));
    Exceeds(k, list, waits, j);
  }

  lemma LastRoomy(k: string, list: seq<LRule>)
    requires ValidList(k, list)
    ensures list != [] && Last(list).Bucket? && Last(list).burst >= Last(list).rate.Floor
  {}

  // A last burst of two: the slowest rule decides when the next batch passes.

  /** Wait just as long as the slowest rule needs. */
  function Glide(rate: Rate, slow: Rate, n: nat): (waits: seq<nat>)
    ensures |waits| == n
  {
    if n == 0 then []
    else
      var ws := Glide(rate, slow, n - 1);
      ws + [WaitFor(slow, 1.0 - Stored(2, rate, ws))]
  }

  lemma GlideLast(rate: Rate, slow: Rate, n: nat)
    ensures Glide(rate, slow, 0) == []
    ensures n > 0 ==> var ws := Glide(rate, slow, n - 1);
              Glide(rate, slow, n)[..n - 1] == ws && Glide(rate, slow, n)[n - 1] == WaitFor(slow, 1.0 - Stored(2, rate, ws))
  {
    hide Stored, WaitFor;
  }

  /** The last rule is hardly faster: whole milliseconds cannot tell the two apart. */
  predicate Close(rate: Rate, slow: Rate) { slow < rate < 3.0 && rate * (1000.0 - slow) < 1000.0 * slow }

  lemma GlideLevel(rate: Rate, slow: Rate, x: real)
    requires Close(rate, slow) && 0.0 <= x <= 1.0
    ensures var w := WaitFor(slow, 1.0 - x);
            x + Refill(slow, w) >= 1.0 && 1.0 <= x + Refill(rate, w) <= 2.0
  {
    var y := 1.0 - x;
    var w := WaitFor(slow, y);
    WaitEnough(slow, y);
    RefillRates(slow, rate, w);
    var u, v := Refill(slow, w), Refill(rate, w);
    RateRatio(rate, slow, w);
    assert v * slow == u * rate;
    CloseLevel(rate, slow, y, u, v);
  }

  lemma RateRatio(rate: Rate, slow: Rate, w: nat)
    ensures Refill(rate, w) * slow == Refill(slow, w) * rate
  {
    var m := w as real / 1000.0;
    assert (m * rate) * slow == (m * slow) * rate;
  }

  lemma CloseLevel(rate: Rate, slow: Rate, y: real, u: real, v: real)
    requires Close(rate, slow) && 0.0 <= y <= 1.0 && y <= u < y + slow / 1000.0 && v * slow == u * rate
    ensures v <= 1.0 + y
  {
    var d := 1000.0 - slow;
    Cross(rate, slow, u, v, d);
    Spare(slow, y, d);
    Below(v, 1.0 + y, d, 1000.0 * u);
  }

  lemma Below(a: real, b: real, d: real, m: real)
    requires d > 0.0 && a * d <= m <= b * d
    ensures a <= b
  {
    Scale(a, b, d);
  }

  lemma Spare(slow: Rate, y: real, d: real)
    requires 0.0 <= y <= 1.0 && d == 1000.0 - slow && slow < 3.0
    ensures (1.0 + y) * d >= 1000.0 * y + slow
  {
    Product(slow, 1.0 - y);
    assert slow * (1.0 - y) == slow - slow * y;
    assert (1.0 + y) * d == d + y * d;
    assert y * d == 1000.0 * y - slow * y by { assert y * (1000.0 - slow) == 1000.0 * y - y * slow; }
  }

  lemma Cross(rate: Rate, slow: Rate, u: real, v: real, d: real)
    requires rate * d <= 1000.0 * slow && u >= 0.0 && v * slow == u * rate
    ensures v * d <= 1000.0 * u
  {
    Product(1000.0 * slow - rate * d, u);
    CrossTerms(rate, slow, u, v, d);
    SignOf(slow, 1000.0 * u - v * d);
  }

  lemma CrossTerms(rate: real, slow: real, u: real, v: real, d: real)
    requires v * slow == u * rate
    ensures (1000.0 * slow - rate * d) * u == slow * (1000.0 * u - v * d)
  {
    assert (rate * d) * u == (u * rate) * d;
    assert (v * slow) * d == slow * (v * d);
    assert (1000.0 * slow - rate * d) * u == 1000.0 * slow * u - (rate * d) * u;
    assert slow * (1000.0 * u - v * d) == 1000.0 * slow * u - slow * (v * d);
  }

  lemma SignOf(f: Rate, x: real)
    ensures f * x >= 0.0 ==> x >= 0.0
  {
    if x < 0.0 {
      Product(f, -x);
      assert f * (-x) == -(f * x);
    }
  }

  /** The slowest rule of the list. */
  function Slowest(list: seq<LRule>): (j: nat)
    requires list != [] && forall i :: 0 <= i < |list| ==> list[i].Bucket?
    ensures j < |list| && forall i :: 0 <= i < |list| ==> list[j].rate <= list[i].rate
  {
    if |list| == 1 then 0
    else
      var n := |list| - 1;
      var j := Slowest(list[..n]);
      assert forall i :: 0 <= i < n ==> list[..n][i] == list[i];
      if list[n].rate < list[j].rate then n else j
  }

  lemma {:induction false} GlidePasses(list: seq<LRule>, rate: Rate, slow: Rate, n: nat)
    requires (forall i :: 0 <= i < |list| ==> list[i].Bucket? && slow <= list[i].rate) && Close(rate, slow)
    ensures Passes(list, 2, rate, Glide(rate, slow, n)) && Lossless(2, rate, Glide(rate, slow, n), 0.0)
  {
    hide *;
    GlideLast(rate, slow, n);
    if n == 0 {
      LosslessStart(2, rate, 0.0);
      NoWaits(list, 2, rate);
    } else {
      var ws, waits := Glide(rate, slow, n - 1), Glide(rate, slow, n);
      GlidePasses(list, rate, slow, n - 1);
      LosslessAtLeast(2, rate, ws, 0.0);
      GlideLevel(rate, slow, Stored(2, rate, ws));
      LosslessStep(2, rate, waits, 0.0, 0.0);
      PassesSlowest(list, 2, rate, slow, waits);
    }
  }

  lemma PassesSlowest(list: seq<LRule>, burst: nat, rate: Rate, slow: Rate, waits: seq<nat>)
    requires waits != [] && (forall i :: 0 <= i < |list| ==> list[i].Bucket? && slow <= list[i].rate)
    requires Passes(list, burst, rate, waits[..|waits| - 1])
    requires Stored(burst, rate, waits[..|waits| - 1]) + Refill(slow, waits[|waits| - 1]) >= 1.0
    ensures Passes(list, burst, rate, waits)
  {
    hide Stored, Refill, BucketTtl;
    forall i | 0 <= i < |list| ensures Refill(list[i].rate, waits[|waits| - 1]) >= Refill(slow, waits[|waits| - 1]) {
      RefillRates(slow, list[i].rate, waits[|waits| - 1]);
    }
  }

  lemma Glides(k: string, list: seq<LRule>, j: nat)
    requires ValidList(k, list) && list != [] && Last(list).Bucket? && Last(list).burst == 2
    requires j < |list| && (forall i :: 0 <= i < |list| ==> list[i].Bucket? && list[j].rate <= list[i].rate) && list[j].burst >= 1
    requires Close(Last(list).rate, list[j].rate)
    ensures !EachOwnBound(k, list)
  {
    var n := Last(list);
    assert list[j].rate < n.rate;
    hide *;
    var m := Enough(2, n.rate, list[j].rate, list[j].burst);
    var waits := Glide(n.rate, list[j].rate, m);
    GlidePasses(list, n.rate, list[j].rate, m);
    LosslessAtLeast(2, n.rate, waits, 0.0);
    FasterOutruns(2, n.rate, list[j].rate, list[j].burst, m, Total(waits), Stored(2, n.rate, waits));
    Exceeds(k, list, waits, j);
  }

  /** When the last rule's token does not fit the slow rule's period, the two rates are close. */
  lemma CloseRates(rate: Rate, slow: Rate)
    requires slow < rate < 3.0 && Refill(slow, WaitFor(rate, 1.0)) >= 1.0
    ensures Close(rate, slow)
  {
    var w := WaitFor(rate, 1.0);
    WaitEnough(rate, 1.0);
    RateRatio(rate, slow, w);
    var u, v := Refill(slow, w), Refill(rate, w);
    assert v * slow == u * rate && v < 1.0 + rate / 1000.0;
    Excess(1.0 + rate / 1000.0, v, slow, slow + rate / 1000.0 * slow, v * slow);
    Product(u - 1.0, rate);
    assert (u - 1.0) * rate == u * rate - rate;
    assert rate < slow + rate / 1000.0 * slow;
    assert rate * (1000.0 - slow) == 1000.0 * rate - rate * slow;
    assert 1000.0 * (rate / 1000.0 * slow) == rate * slow;
  }

  /** A last burst of two and a slower rule in the list. */
  lemma TwoTokens(k: string, list: seq<LRule>, i: nat)
    requires ValidList(k, list) && list != [] && Last(list).Bucket? && Last(list).burst == 2
    requires i < |list| && list[i].Bucket? && list[i].rate < Last(list).rate
    ensures !EachOwnBound(k, list)
  {
    LastIs(k, list);
    LastRoomy(k, list);
    var n := Last(list);
    var j := Slowest(list);
    assert list[j].rate < n.rate < 3.0;
    var w := WaitFor(n.rate, 1.0);
    hide *;
    WaitEnough(n.rate, 1.0);
    GoodIs(2, n.rate, w);
    if Refill(list[j].rate, w) < 1.0 {
      Periodic(k, list, j, w);
    } else {
      CloseRates(n.rate, list[j].rate);
      Glides(k, list, j);
    }
  }

  lemma GoodIs(burst: nat, rate: Rate, w: nat)
    ensures (burst >= 2 && Refill(rate, w) >= 1.0) || w > BucketTtl(rate, burst) ==> GoodPeriod(burst, rate, w)
  {
    hide Refill, BucketTtl;
  }

  /** The exact condition. Every rule's own bound, burst plus refill, holds in every run of batches that carry this list on the
      key if and only if the last rule is the strictest in burst and rate, or its burst is 1 and no rule needs longer for a
      token than the key lives. */
  lemma EachOwnBoundIff(k: string, list: seq<LRule>)
    requires ValidList(k, list)
    ensures list != [] && (forall i :: 0 <= i < |list| ==> list[i].Bucket?)
    ensures EachOwnBound(k, list) <==> LastStrictest(list) || SingleToken(list)
  {
    LastIs(k, list);
    if LastStrictest(list) || SingleToken(list) {
      forall ops, j, i | ListRun(ops, k, list) && 0 <= j < |list| && 0 <= i < |ops| ensures WithinOwn(ops, k, list[j], i) {
        if LastStrictest(list) { StrictestSuffices(ops, k, list, j, i); } else { SingleSuffices(ops, k, list, j, i); }
      }
    } else {
      OtherwiseFails(k, list);
    }
  }

  lemma OtherwiseFails(k: string, list: seq<LRule>)
    requires ValidList(k, list) && list != [] && forall i :: 0 <= i < |list| ==> list[i].Bucket?
    requires !LastStrictest(list) && !SingleToken(list)
    ensures !EachOwnBound(k, list)
  {
    LastIs(k, list);
    var n := Last(list);
    var i :| 0 <= i < |list| && !(n.burst <= list[i].burst && n.rate <= list[i].rate);
    hide EachOwnBound, ValidList, Refill, BucketTtl;
    if list[i].burst < n.burst {
      AtOnce(k, list, i);
    } else if n.burst == 1 {
      var j :| 0 <= j < |list| && Refill(list[j].rate, BucketTtl(n.rate, 1) + 1) < 1.0;
      BucketTtlPositive(n.rate, 1);
      GoodIs(1, n.rate, BucketTtl(n.rate, 1) + 1);
      Periodic(k, list, j, BucketTtl(n.rate, 1) + 1);
    } else if n.burst == 2 {
      TwoTokens(k, list, i);
    } else {
      Climbs(k, list, i);
    }
  }
}
