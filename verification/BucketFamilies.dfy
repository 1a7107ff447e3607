/** One bucket key under several lists of rules. The key carries no domain (internal/limiter/key.go: TokenBucketKey), so each
    domain brings its own list to it (internal/config/store.go: Rules), and a reload brings new ones. */
module BucketFamilies {
  import opened Prelude
  import opened Redis
  import opened BatchCheck
  import opened TwoPhase
  import opened AtKey
  import opened Runs
  import opened TokenBucket
  import opened BucketRules

  type Family = set<seq<LRule>>

  predicate ValidFamily(k: string, fam: Family) { forall list | list in fam :: ValidList(k, list) }

  /** Every batch that uses `k` carries one of the lists there. */
  ghost predicate FamilyUse(op: Op, k: string, fam: Family) {
    Touches(op, k) ==> op.Admit? && Compatible(op.rules) && RulesAt(op.rules, k) in fam
  }

  ghost predicate FamilyRun(ops: seq<Op>, k: string, fam: Family) {
    Ordered(ops) && forall i :: 0 <= i < |ops| ==> FamilyUse(ops[i], k, fam)
  }

  /** The batch carries rule `r` on `k`, under which it is counted. */
  predicate Carries(op: Op, k: string, r: LRule) { op.Admit? && r in RulesAt(op.rules, k) }

  /** How many batches that carry `r` were admitted. */
  function Granted(ops: seq<Op>, k: string, r: LRule): nat {
    if ops == [] then 0
    else
      var n := |ops| - 1;
      Granted(ops[..n], k, r) + (if Carries(ops[n], k, r) && ReplyTo(map[], ops, n) == Ok then 1 else 0)
  }

  /** The bucket as the last admission left it. */
  function Written(ops: seq<Op>, k: string): Option<Entry> {
    if ops == [] then None
    else
      var n := |ops| - 1;
      if ops[n].Admit? && Touches(ops[n], k) && ReplyTo(map[], ops, n) == Ok then Get(Run(map[], ops), k) else Written(ops[..n], k)
  }

  function Tokens(e: Option<Entry>): real { if e.Some? && e.value.val.Hash? then e.value.val.tokens else 0.0 }

  function Since(e: Option<Entry>): int { if e.Some? && e.value.val.Hash? then e.value.val.ts else 0 }

  /** From call `i` on: what the rule granted, plus the tokens left, is at most its burst plus its refill. */
  predicate WithinBurst(ops: seq<Op>, k: string, r: LRule, i: nat)
    requires r.Bucket? && i < |ops|
  {
    (Granted(ops, k, r) - Granted(ops[..i], k, r)) as real + Tokens(Written(ops, k)) <= r.burst as real + Refill(r.rate, Time(ops) - ops[i].now)
  }

  /** After the first `i` calls: what the rule grants, plus the tokens left, is at most the tokens there were plus its refill. */
  predicate WithinRate(ops: seq<Op>, k: string, r: LRule, i: nat)
    requires r.Bucket? && i <= |ops|
  {
    var e, e' := Written(ops[..i], k), Written(ops, k);
    e.Some? ==> (Granted(ops, k, r) - Granted(ops[..i], k, r)) as real + Tokens(e') <= Tokens(e) + Refill(r.rate, Since(e') - Since(e))
  }

  /** For every rule of every list the bucket is never fuller than the rule's burst nor filled faster than the rule's rate, as far
      as the requests that carry the rule can tell. */
  ghost predicate EachKept(k: string, fam: Family)
    requires ValidFamily(k, fam)
  {
    forall ops, list, r | FamilyRun(ops, k, fam) && list in fam && r in list :: Keeps(ops, k, r)
  }

  ghost predicate Keeps(ops: seq<Op>, k: string, r: LRule) {
    && r.Bucket?
    && (forall i :: 0 <= i < |ops| ==> WithinBurst(ops, k, r, i))
    && (forall i :: 0 <= i <= |ops| ==> WithinRate(ops, k, r, i))
  }

  // The condition.

  function TtlOf(list: seq<LRule>): int
    requires list != [] && Last(list).Bucket? && Last(list).burst >= 0
  {
    BucketTtl(Last(list).rate, Last(list).burst)
  }

  /** The first millisecond at which an empty bucket of this rule is full. */
  function FullAt(n: LRule): int
    requires n.Bucket?
  {
    Ceil(n.burst as real / n.rate * 1000.0)
  }

  /** A write by `n`, the last rule of a list that does not have `r`, costs a token and gains at most one on `r`'s refill: it is no
      faster, or it gains no more until it is full. */
  predicate Slower(n: LRule, r: LRule)
    requires n.Bucket? && r.Bucket?
  {
    || n.rate <= r.rate
    || (n.burst as real <= 1.0 + Refill(r.rate, FullAt(n)) && Refill(n.rate, FullAt(n) - 1) <= 1.0 + Refill(r.rate, FullAt(n) - 1))
  }

  /** What a list may do to a bucket that `r` reads. */
  predicate Spares(list: seq<LRule>, r: LRule)
    requires list != [] && Last(list).Bucket? && r.Bucket?
  {
    var n := Last(list);
    if r in list then n.burst <= r.burst && (n.rate <= r.rate || n.burst == 1)
    else n.burst <= r.burst + 1 && Slower(n, r)
  }

  /** When the key has expired after a write of `before`, the burst that `list` finds is `r`'s own refill. */
  predicate Rested(before: seq<LRule>, list: seq<LRule>, r: LRule)
    requires before != [] && Last(before).Bucket? && Last(before).burst >= 0 && list != [] && Last(list).Bucket? && r.Bucket?
  {
    (Last(list).burst - (if r in list then 0 else 1)) as real <= Refill(r.rate, TtlOf(before) + 1)
  }

  predicate Agrees(k: string, fam: Family)
    requires ValidFamily(k, fam)
  {
    forall list, own, r, before | list in fam && own in fam && before in fam && r in own :: Agreed(k, list, r, before)
  }

  predicate Agreed(k: string, list: seq<LRule>, r: LRule, before: seq<LRule>)
    requires ValidList(k, list) && ValidList(k, before)
  {
    r.Bucket? && Spares(list, r) && Rested(before, list, r)
  }

  lemma RulesOf(k: string, list: seq<LRule>, r: LRule)
    requires ValidList(k, list) && r in list
    ensures r.Bucket? && r.key == k && r.burst >= 1 && r.burst >= r.rate.Floor
  {}

  // One batch.

  /** What rule `r` sees at `now` in a bucket last written as `e`. */
  function Sees(e: Option<Entry>, r: LRule, now: int): real
    requires r.Bucket? && (e.Some? ==> e.value.val.Hash?)
  {
    BucketLevel(LiveEntry(e, now), r.rate, r.burst, now)
  }

  /** `e` was written at some time up to `t` by a list of the family. */
  ghost predicate WrittenBy(e: Entry, fam: Family, k: string, t: int)
    requires ValidFamily(k, fam)
  {
    && e.val.Hash? && 0.0 <= e.val.tokens && e.val.ts <= t
    && exists list | list in fam :: ValidList(k, list) && e.exp == Some(e.val.ts + TtlOf(list))
  }

  /** What a run keeps. */
  ghost predicate Follows(ops: seq<Op>, k: string, fam: Family)
    requires ValidFamily(k, fam)
  {
    var e, now := Written(ops, k), Get(Run(map[], ops), k);
    match e
    case None => now.None?
    case Some(w) => ops != [] && WrittenBy(w, fam, k, Time(ops)) && (now == e || (now.None? && Time(ops) > w.exp.value))
  }

  /** A batch at a written bucket, alive or expired, is decided by what its rules see. */
  lemma BatchSees(d: Db, now: int, rules: seq<LRule>, id: string, k: string, list: seq<LRule>, e: Option<Entry>)
    requires Compatible(rules) && RulesAt(rules, k) == list && ValidList(k, list)
    requires (e.Some? ==> e.value.val.Hash? && e.value.val.ts <= now) && LiveEntry(Get(d, k), now) == LiveEntry(e, now)
    ensures list != [] && Last(list).Bucket? && Last(list).burst >= 0 && Reads(rules, |rules|, k)
    ensures var (d', reply) := Batch(d, now, rules, id);
            && (reply == Ok ==>
                  && (forall r | r in list :: r.Bucket? && Sees(e, r, now) >= 1.0)
                  && Get(d', k) == Some(Entry(Hash(Sees(e, Last(list), now) - 1.0, now), Some(now + TtlOf(list)))))
            && (reply != Ok ==> Get(d', k) == LiveEntry(e, now))
  {
    RulesAtLast(rules, k);
    LastIs(k, list);
    ListOfLast(rules, k, list);
    hide Batch, Compatible, BucketTtl, BucketLevel, LiveEntry, LastOn, LastBucket, RulesAt;
    BucketBatchOn(d, now, rules, id, k, Last(list).rate, Last(list).burst);
    forall r | r in list && Batch(d, now, rules, id).1 == Ok ensures r.Bucket? && Sees(e, r, now) >= 1.0 {
      var i :| 0 <= i < |rules| && rules[i] == r;
      assert rules[i].key == k;
    }
  }

  lemma ListOfLast(rules: seq<LRule>, k: string, list: seq<LRule>)
    requires RulesAt(rules, k) == list && ValidList(k, list)
    ensures list != [] && Last(list).Bucket? && Last(list).burst >= 0 && LastBucket(rules, k, Last(list).rate, Last(list).burst)
  {
    RulesAtLast(rules, k);
    hide LastOn, RulesAt;
    assert forall i | 0 <= i < |rules| && rules[i].key == k :: rules[i] in list;
    assert Last(list) in list;
  }

  // Runs, call by call.

  lemma FamilyLast(ops: seq<Op>, k: string, fam: Family)
    requires ops != [] && FamilyRun(ops, k, fam)
    ensures var n := |ops| - 1;
            && FamilyRun(ops[..n], k, fam) && FamilyUse(ops[n], k, fam) && Time(ops) == ops[n].now && Ordered(ops)
            && (n > 0 ==> Time(ops[..n]) <= ops[n].now)
  {
    hide FamilyUse;
  }

  lemma FamilyUseIs(op: Op, k: string, fam: Family)
    requires ValidFamily(k, fam) && FamilyUse(op, k, fam) && Touches(op, k)
    ensures op.Admit? && Compatible(op.rules) && RulesAt(op.rules, k) in fam && ValidList(k, RulesAt(op.rules, k))
  {
    hide Compatible, RulesAt;
  }

  lemma CarriesTouches(op: Op, k: string, r: LRule)
    ensures Carries(op, k, r) ==> Touches(op, k)
    ensures op.Admit? ==> (Carries(op, k, r) <==> r in RulesAt(op.rules, k))
  {
    if op.Admit? { RulesAtLast(op.rules, k); }
    hide RulesAt;
  }

  lemma StepIs(ops: seq<Op>, k: string, r: LRule)
    requires ops != []
    ensures var n := |ops| - 1;
            var ok := ops[n].Admit? && Touches(ops[n], k) && ReplyTo(map[], ops, n) == Ok;
            && Written(ops, k) == (if ok then Get(Run(map[], ops), k) else Written(ops[..n], k))
            && Granted(ops, k, r) == Granted(ops[..n], k, r) + (if ok && r in RulesAt(ops[n].rules, k) then 1 else 0)
  {
    CarriesTouches(ops[|ops| - 1], k, r);
    hide Touches, ReplyTo, Run, RulesAt, Carries;
  }

  lemma StoreFollows(ops: seq<Op>, k: string, fam: Family, now: int)
    requires ValidFamily(k, fam) && Follows(ops, k, fam) && (ops != [] ==> Time(ops) <= now)
    ensures var e := Written(ops, k);
            && LiveEntry(Get(Run(map[], ops), k), now) == LiveEntry(e, now)
            && (e.Some? ==> e.value.val.Hash? && e.value.val.ts <= now && 0.0 <= e.value.val.tokens)
  {
    hide Written, Run, BucketTtl, ValidList;
  }

  /** What one more call does. */
  lemma Advance(ops: seq<Op>, k: string, fam: Family, r: LRule)
    requires ValidFamily(k, fam) && ops != [] && FamilyRun(ops, k, fam) && Follows(ops[..|ops| - 1], k, fam)
    ensures Follows(ops, k, fam)
    ensures var n := |ops| - 1;
            var pre, now := ops[..n], ops[n].now;
            var e := Written(pre, k);
            && (e.Some? ==> e.value.val.Hash? && e.value.val.ts <= now)
            && if ops[n].Admit? && Touches(ops[n], k) && ReplyTo(map[], ops, n) == Ok then
                 var list := RulesAt(ops[n].rules, k);
                 && list in fam && ValidList(k, list) && list != [] && Last(list).Bucket? && Last(list).burst >= 0
                 && (forall s | s in list :: s.Bucket? && Sees(e, s, now) >= 1.0)
                 && Written(ops, k) == Some(Entry(Hash(Sees(e, Last(list), now) - 1.0, now), Some(now + TtlOf(list))))
                 && Granted(ops, k, r) == Granted(pre, k, r) + (if r in list then 1 else 0)
               else Written(ops, k) == e && Granted(ops, k, r) == Granted(pre, k, r)
  {
    hide *;
    var n := |ops| - 1;
    var pre, op := ops[..n], ops[n];
    FamilyLast(ops, k, fam);
    StepIs(ops, k, r);
    LastStep(map[], ops, k);
    FollowsNone(pre, k, fam);
    StoreFollows(pre, k, fam, op.now);
    var d, e := Run(map[], pre), Written(pre, k);
    if Touches(op, k) {
      FamilyUseIs(op, k, fam);
      BatchSees(d, op.now, op.rules, op.id, k, RulesAt(op.rules, k), e);
      StepIsBatch(d, op);
    } else {
      Untouched(d, op, k);
    }
    if op.Admit? && Touches(op, k) && ReplyTo(map[], ops, n) == Ok {
      LastIs(k, RulesAt(op.rules, k));
      NewFollows(ops, k, fam, RulesAt(op.rules, k), Sees(e, Last(RulesAt(op.rules, k)), op.now) - 1.0);
    } else {
      OldFollows(ops, k, fam);
    }
  }

  lemma FollowsNone(ops: seq<Op>, k: string, fam: Family)
    requires ValidFamily(k, fam) && Follows(ops, k, fam)
    ensures Written(ops, k).Some? ==> ops != []
  {
    hide Written, Run, WrittenBy;
  }

  lemma NewFollows(ops: seq<Op>, k: string, fam: Family, list: seq<LRule>, x: real)
    requires ValidFamily(k, fam) && ops != [] && list in fam && list != [] && Last(list).Bucket? && Last(list).burst >= 0 && x >= 0.0
    requires Written(ops, k) == Some(Entry(Hash(x, Time(ops)), Some(Time(ops) + TtlOf(list)))) == Get(Run(map[], ops), k)
    ensures Follows(ops, k, fam)
  {
    hide Written, Run, BucketTtl;
  }

  lemma OldFollows(ops: seq<Op>, k: string, fam: Family)
    requires ValidFamily(k, fam) && ops != [] && Follows(ops[..|ops| - 1], k, fam)
    requires |ops| > 1 ==> Time(ops[..|ops| - 1]) <= Time(ops)
    requires Written(ops, k) == Written(ops[..|ops| - 1], k)
    requires Get(Run(map[], ops), k) == LiveEntry(Written(ops, k), Time(ops))
    ensures Follows(ops, k, fam)
  {
    hide Written, Run, BucketTtl, ValidList;
  }

  lemma {:induction false} FollowsAll(ops: seq<Op>, k: string, fam: Family)
    requires ValidFamily(k, fam) && FamilyRun(ops, k, fam)
    ensures Follows(ops, k, fam)
  {
    hide *;
    if ops == [] {
      NothingWritten(k, fam);
    } else {
      FamilyLast(ops, k, fam);
      FollowsAll(ops[..|ops| - 1], k, fam);
      Advance(ops, k, fam, Unknown(k));
    }
  }

  lemma NothingWritten(k: string, fam: Family)
    requires ValidFamily(k, fam)
    ensures Follows([], k, fam) && Written([], k) == None && FamilyRun([], k, fam) && forall r :: Granted([], k, r) == 0
  {}

  // The condition suffices.

  /** A slower list never gains more than the token its write costs. */
  lemma SlowerMeans(n: LRule, r: LRule, w: nat)
    requires n.Bucket? && n.burst >= 0 && r.Bucket? && Slower(n, r)
    ensures MinReal(n.burst as real, Refill(n.rate, w)) <= 1.0 + Refill(r.rate, w)
  {
    if n.rate <= r.rate {
      RefillRates(n.rate, r.rate, w);
    } else if w >= FullAt(n) {
      RefillMonotone(r.rate, FullAt(n), w);
    } else {
      var v := FullAt(n) - 1;
      hide FullAt;
      GapGrows(n.rate, r.rate, w, v);
    }
  }

  lemma GapGrows(fast: Rate, slow: Rate, w: int, v: int)
    requires slow <= fast && w <= v
    ensures Refill(fast, w) - Refill(slow, w) <= Refill(fast, v) - Refill(slow, v)
  {
    RefillMonotone(fast, w, v);
    RefillMonotone(slow, w, v);
    RefillRates(slow, fast, v - w);
  }

  lemma SeesIs(e: Option<Entry>, r: LRule, now: int)
    requires r.Bucket? && (e.Some? ==> e.value.val.Hash? && e.value.val.ts <= now && e.value.exp.Some?)
    ensures Sees(e, r, now) ==
            if e.None? || now > e.value.exp.value then r.burst as real
            else if now > e.value.val.ts then MinReal(r.burst as real, e.value.val.tokens + Refill(r.rate, now - e.value.val.ts))
            else e.value.val.tokens
  {}

  /** One admission, on the numbers: what it grants and leaves is covered by what there was and the rule's refill, and by the
      rule's burst. */
  lemma OneMove(k: string, e: Entry, list: seq<LRule>, before: seq<LRule>, r: LRule, now: int)
    requires ValidList(k, list) && ValidList(k, before) && Agreed(k, list, r, before)
    requires e.val.Hash? && 0.0 <= e.val.tokens && e.val.ts <= now && e.exp == Some(e.val.ts + TtlOf(before))
    requires Sees(Some(e), Last(list), now) >= 1.0 && (r in list ==> Sees(Some(e), r, now) >= 1.0)
    ensures var all := (if r in list then 1.0 else 0.0) + Sees(Some(e), Last(list), now) - 1.0;
            all <= e.val.tokens + Refill(r.rate, now - e.val.ts) && (e.val.tokens <= r.burst as real ==> all <= r.burst as real)
  {
    var n, w, x := Last(list), now - e.val.ts, e.val.tokens;
    LastIs(k, list);
    SeesIs(Some(e), n, now);
    SeesIs(Some(e), r, now);
    NoRefill(r.rate);
    if now > e.exp.value {
      RefillMonotone(r.rate, TtlOf(before) + 1, w);
    } else if w > 0 {
      if r !in list {
        SlowerMeans(n, r, w);
      } else if n.rate <= r.rate {
        RefillRates(n.rate, r.rate, w);
      }
    }
    hide Refill, Sees, BucketTtl, Slower, ValidList;
  }

  lemma FirstMove(k: string, list: seq<LRule>, r: LRule, now: int)
    requires ValidList(k, list) && Agreed(k, list, r, list)
    ensures (if r in list then 1.0 else 0.0) + Sees(None, Last(list), now) - 1.0 <= r.burst as real
  {
    hide BucketTtl, Refill, Slower;
    LastIs(k, list);
  }

  /** What one more call, at `now`, does to a rule of the family: the bucket before and after it, and what it grants. */
  predicate FairStep(r: LRule, e: Option<Entry>, e': Option<Entry>, d: int, now: int)
    requires r.Bucket?
  {
    || (e' == e && d == 0)
    || (&& d >= 0 && e'.Some? && Since(e') == now
        && (e.Some? ==> Since(e) <= now && d as real + Tokens(e') <= Tokens(e) + Refill(r.rate, now - Since(e)))
        && (Tokens(e) <= r.burst as real ==> d as real + Tokens(e') <= r.burst as real))
  }

  predicate Fair(ops: seq<Op>, k: string, r: LRule)
    requires ops != [] && r.Bucket?
  {
    var n := |ops| - 1;
    FairStep(r, Written(ops[..n], k), Written(ops, k), Granted(ops, k, r) - Granted(ops[..n], k, r), ops[n].now)
  }

  lemma AgreedOn(k: string, fam: Family, list: seq<LRule>, own: seq<LRule>, r: LRule, before: seq<LRule>)
    requires ValidFamily(k, fam) && Agrees(k, fam) && list in fam && own in fam && before in fam && r in own
    ensures ValidList(k, list) && ValidList(k, before) && Agreed(k, list, r, before)
  {
    hide Agreed, ValidList;
  }

  lemma WrittenByWhom(ops: seq<Op>, k: string, fam: Family) returns (before: seq<LRule>)
    requires ValidFamily(k, fam) && Follows(ops, k, fam) && Written(ops, k).Some?
    ensures var e := Written(ops, k).value;
            && before in fam && ValidList(k, before) && before != [] && Last(before).Bucket? && Last(before).burst >= 0
            && e.val.Hash? && 0.0 <= e.val.tokens && e.exp == Some(e.val.ts + TtlOf(before))
  {
    hide Written, Run, BucketTtl;
    before :| before in fam && ValidList(k, before) && Written(ops, k).value.exp == Some(Written(ops, k).value.val.ts + TtlOf(before));
  }

  lemma NoneIs(e: Option<Entry>)
    ensures Tokens(None) == 0.0 && (e.Some? && e.value.val.Hash? ==> Tokens(e) == e.value.val.tokens && Since(e) == e.value.val.ts)
  {}

  lemma IsFair(ops: seq<Op>, k: string, fam: Family, own: seq<LRule>, r: LRule)
    requires ValidFamily(k, fam) && Agrees(k, fam) && own in fam && r in own && r.Bucket?
    requires ops != [] && FamilyRun(ops, k, fam) && Follows(ops[..|ops| - 1], k, fam)
    ensures Fair(ops, k, r)
  {
    hide *;
    var n := |ops| - 1;
    var pre, now := ops[..n], ops[n].now;
    var e := Written(pre, k);
    Advance(ops, k, fam, r);
    if ops[n].Admit? && Touches(ops[n], k) && ReplyTo(map[], ops, n) == Ok {
      var list := RulesAt(ops[n].rules, k);
      LastIs(k, list);
      if e.Some? {
        var before := WrittenByWhom(pre, k, fam);
        AgreedOn(k, fam, list, own, r, before);
        OneMove(k, e.value, list, before, r, now);
      } else {
        AgreedOn(k, fam, list, own, r, list);
        FirstMove(k, list, r, now);
      }
      NoneIs(e);
      NoneIs(Written(ops, k));
    }
    FairIs(ops, k, r);
    FairStepIs(r, e, Written(ops, k), Granted(ops, k, r) - Granted(pre, k, r), now);
  }

  lemma FairIs(ops: seq<Op>, k: string, r: LRule)
    requires ops != [] && r.Bucket?
    ensures var n := |ops| - 1;
            Fair(ops, k, r)
            <==> FairStep(r, Written(ops[..n], k), Written(ops, k), Granted(ops, k, r) - Granted(ops[..n], k, r), ops[n].now)
  {
    hide Written, Granted, FairStep;
  }

  lemma FairStepIs(r: LRule, e: Option<Entry>, e': Option<Entry>, d: int, now: int)
    requires r.Bucket?
    ensures FairStep(r, e, e', d, now) <==>
            || (e' == e && d == 0)
            || (&& d >= 0 && e'.Some? && Since(e') == now
                && (e.Some? ==> Since(e) <= now && d as real + Tokens(e') <= Tokens(e) + Refill(r.rate, now - Since(e)))
                && (Tokens(e) <= r.burst as real ==> d as real + Tokens(e') <= r.burst as real))
  {
    hide Tokens, Since, Refill;
  }

  /** The invariant of a run from call `i` on, on the numbers: the bucket then and now, what the rule granted in between, the time
      of call `i` if there has been one, and the time now. */
  predicate Cover(r: LRule, e: Option<Entry>, e': Option<Entry>, granted: int, from: Option<int>, now: int)
    requires r.Bucket?
  {
    && Tokens(e') <= r.burst as real
    && (e.Some? ==> e'.Some? && granted as real + Tokens(e') <= Tokens(e) + Refill(r.rate, Since(e') - Since(e)))
    && ((granted == 0 && e' == e)
        || (e'.Some? && from.Some? && from.value <= Since(e') <= now
            && granted as real + Tokens(e') <= r.burst as real + Refill(r.rate, Since(e') - from.value)))
  }

  predicate Covered(ops: seq<Op>, k: string, r: LRule, i: nat)
    requires r.Bucket? && i <= |ops|
  {
    Cover(r, Written(ops[..i], k), Written(ops, k), Granted(ops, k, r) - Granted(ops[..i], k, r),
          if i < |ops| then Some(ops[i].now) else None, Time(ops))
  }

  lemma CoverStart(r: LRule, e: Option<Entry>, now: int)
    requires r.Bucket? && Tokens(e) <= r.burst as real
    ensures Cover(r, e, e, 0, None, now)
  {
    NoRefill(r.rate);
    hide Refill, Tokens;
    if e.Some? { assert Since(e) - Since(e) == 0; }
  }

  lemma CoverMoves(r: LRule, e: Option<Entry>, p: Option<Entry>, e': Option<Entry>, a: int, d: nat, from: Option<int>, t: int, now: int, start: int)
    requires r.Bucket? && Cover(r, e, p, a, from, t) && start <= now && (from.Some? ==> from.value == start)
    requires e'.Some? && Since(e') == now && Tokens(None) == 0.0
    requires p.Some? ==> Since(p) <= now && d as real + Tokens(e') <= Tokens(p) + Refill(r.rate, now - Since(p))
    requires d as real + Tokens(e') <= r.burst as real
    ensures Cover(r, e, e', a + d, Some(start), now)
  {
    RefillNotNegative(r.rate, now - start);
    assert (a + d) as real == a as real + d as real;
    hide Refill, Tokens, Since;
    if e.Some? { Adds(r.rate, a as real, d as real, Tokens(e), Tokens(p), Tokens(e'), Since(e), Since(p), now); }
    if !(a == 0 && p == e) { Adds(r.rate, a as real, d as real, r.burst as real, Tokens(p), Tokens(e'), start, Since(p), now); }
  }

  lemma Adds(rate: Rate, a: real, d: real, x: real, y: real, z: real, t: int, u: int, v: int)
    requires u <= v && a + y <= x + Refill(rate, u - t) && d + z <= y + Refill(rate, v - u)
    ensures a + d + z <= x + Refill(rate, v - t)
  {
    RefillSplits(rate, t, u, v);
  }

  lemma CoverTokens(r: LRule, e: Option<Entry>, p: Option<Entry>, granted: int, from: Option<int>, t: int)
    requires r.Bucket? && Cover(r, e, p, granted, from, t)
    ensures Tokens(p) <= r.burst as real
  {
    hide Refill, Tokens, Since;
  }

  lemma CoveredIs(ops: seq<Op>, k: string, r: LRule, i: nat)
    requires r.Bucket? && i <= |ops|
    ensures Covered(ops, k, r, i) <==>
            Cover(r, Written(ops[..i], k), Written(ops, k), Granted(ops, k, r) - Granted(ops[..i], k, r),
                  if i < |ops| then Some(ops[i].now) else None, Time(ops))
  {
    hide Cover, Written, Granted, Time;
  }

  lemma {:induction false} StaysCovered(ops: seq<Op>, k: string, fam: Family, own: seq<LRule>, r: LRule, i: nat)
    requires ValidFamily(k, fam) && Agrees(k, fam) && own in fam && r in own && r.Bucket? && r.burst >= 0
    requires FamilyRun(ops, k, fam) && i <= |ops|
    ensures Covered(ops, k, r, i)
    decreases |ops|
  {
    hide *;
    CoveredIs(ops, k, r, i);
    NoneIs(None);
    if ops == [] {
      NothingWritten(k, fam);
      assert ops[..i] == [];
      CoverStart(r, None, Time(ops));
    } else {
      var n := |ops| - 1;
      var pre := ops[..n];
      FamilyLast(ops, k, fam);
      FollowsAll(pre, k, fam);
      IsFair(ops, k, fam, own, r);
      StaysCovered(pre, k, fam, own, r, if i <= n then i else n);
      CoveredStep(ops, k, r, if i <= n then i else n);
      if i == |ops| {
        assert ops[..i] == ops && ops[..n] == pre;
        CoveredIs(ops, k, r, n);
        CoverTokens(r, Written(pre, k), Written(ops, k), Granted(ops, k, r) - Granted(pre, k, r), Some(ops[n].now), Time(ops));
        CoverStart(r, Written(ops, k), Time(ops));
      }
    }
  }

  lemma CoveredStep(ops: seq<Op>, k: string, r: LRule, i: nat)
    requires ops != [] && i < |ops| && r.Bucket? && Ordered(ops) && Fair(ops, k, r) && Covered(ops[..|ops| - 1], k, r, i)
    ensures Covered(ops, k, r, i)
  {
    hide *;
    var pre := ops[..|ops| - 1];
    OrderedStep(ops, i);
    FairIs(ops, k, r);
    CoveredIs(pre, k, r, i);
    CoveredIs(ops, k, r, i);
    var from := if i < |pre| then Some(pre[i].now) else None;
    var e, p, e' := Written(pre[..i], k), Written(pre, k), Written(ops, k);
    var g: int, h: int, g': int := Granted(pre[..i], k, r), Granted(pre, k, r), Granted(ops, k, r);
    CoverNext(r, e, p, e', h - g, g' - h, from, Time(pre), ops[|ops| - 1].now, ops[i].now, pre == []);
    assert h - g + (g' - h) == g' - g;
  }

  lemma OrderedStep(ops: seq<Op>, i: nat)
    requires i < |ops| && Ordered(ops)
    ensures var n := |ops| - 1;
            && ops[i].now <= ops[n].now && ops[..n][..i] == ops[..i] && (i < n ==> ops[..n][i] == ops[i])
            && Time(ops) == ops[n].now && (n > 0 ==> Time(ops[..n]) <= ops[n].now)
  {}

  lemma CoverNext(r: LRule, e: Option<Entry>, p: Option<Entry>, e': Option<Entry>, a: int, d: int, from: Option<int>, t: int, now: int,
                  start: int, first: bool)
    requires r.Bucket? && Cover(r, e, p, a, from, t) && FairStep(r, p, e', d, now) && start <= now
    requires (from.Some? ==> from.value == start) && if first then from.None? else t <= now
    ensures Cover(r, e, e', a + d, Some(start), now)
  {
    hide *;
    FairStepIs(r, p, e', d, now);
    CoverTokens(r, e, p, a, from, t);
    if e' == p && d == 0 {
      CoverAnyTime(r, e, p, a, from, t, Some(start), now, first);
    } else {
      NoneIs(None);
      CoverMoves(r, e, p, e', a, d, from, t, now, start);
    }
  }

  /** Before the first call there is no time yet. */
  lemma CoverAnyTime(r: LRule, e: Option<Entry>, p: Option<Entry>, granted: int, from: Option<int>, t: int, from': Option<int>, now: int, first: bool)
    requires r.Bucket? && Cover(r, e, p, granted, from, t) && (from.Some? ==> from' == from)
    requires if first then from.None? else t <= now
    ensures Cover(r, e, p, granted, from', now)
  {
    hide Refill, Tokens, Since;
  }

  lemma RefillNotNegative(rate: Rate, ms: int)
    requires ms >= 0
    ensures Refill(rate, ms) >= 0.0
  {
    RefillRates(rate, rate, ms);
  }

  lemma CoveredKeeps(ops: seq<Op>, k: string, r: LRule, i: nat)
    requires r.Bucket? && i <= |ops| && Covered(ops, k, r, i) && Ordered(ops)
    ensures WithinRate(ops, k, r, i) && (i < |ops| ==> WithinBurst(ops, k, r, i))
  {
    InTime(ops);
    hide Ordered, Written, Granted, Time;
    CoverKeeps(r, Written(ops[..i], k), Written(ops, k), Granted(ops, k, r) - Granted(ops[..i], k, r),
               if i < |ops| then Some(ops[i].now) else None, Time(ops));
    hide Cover, Tokens, Since, Refill;
  }

  lemma InTime(ops: seq<Op>)
    requires Ordered(ops)
    ensures forall i :: 0 <= i < |ops| ==> ops[i].now <= Time(ops)
  {}

  lemma CoverKeeps(r: LRule, e: Option<Entry>, e': Option<Entry>, granted: int, from: Option<int>, now: int)
    requires r.Bucket? && Cover(r, e, e', granted, from, now) && (from.Some? ==> from.value <= now)
    ensures e.Some? ==> granted as real + Tokens(e') <= Tokens(e) + Refill(r.rate, Since(e') - Since(e))
    ensures from.Some? ==> granted as real + Tokens(e') <= r.burst as real + Refill(r.rate, now - from.value)
  {
    if from.Some? {
      RefillNotNegative(r.rate, now - from.value);
      if Since(e') <= now { RefillMonotone(r.rate, Since(e') - from.value, now - from.value); }
    }
    hide Tokens, Since, Refill;
  }

  lemma AgreeingKeeps(k: string, fam: Family)
    requires ValidFamily(k, fam) && Agrees(k, fam)
    ensures EachKept(k, fam)
  {
    hide Agrees, Keeps, FamilyUse, WithinRate, WithinBurst, Covered, Written, Granted;
    forall ops, list, r | FamilyRun(ops, k, fam) && list in fam && r in list ensures Keeps(ops, k, r) {
      RulesOf(k, list, r);
      forall i: nat | i <= |ops| ensures WithinRate(ops, k, r, i) && (i < |ops| ==> WithinBurst(ops, k, r, i)) {
        StaysCovered(ops, k, fam, list, r, i);
        CoveredKeeps(ops, k, r, i);
      }
      KeepsIs(ops, k, r);
    }
  }

  lemma KeepsIs(ops: seq<Op>, k: string, r: LRule)
    requires r.Bucket?
    ensures Keeps(ops, k, r) <==>
            && (forall i :: 0 <= i < |ops| ==> WithinBurst(ops, k, r, i))
            && (forall i :: 0 <= i <= |ops| ==> WithinRate(ops, k, r, i))
  {
    hide WithinBurst, WithinRate;
  }

  // The condition is needed.

  /** One more batch of a list whose rules all see a token. */
  lemma Move(ops: seq<Op>, k: string, fam: Family, list: seq<LRule>, now: int) returns (ops': seq<Op>)
    requires ValidFamily(k, fam) && FamilyRun(ops, k, fam) && list in fam && (ops != [] ==> Time(ops) <= now)
    requires var e := Written(ops, k); e.Some? ==> e.value.val.Hash? && e.value.val.ts <= now
    requires forall r | r in list :: r.Bucket? && Sees(Written(ops, k), r, now) >= 1.0
    ensures ops' == ops + [Admit(now, list, "")] && FamilyRun(ops', k, fam) && Time(ops') == now
    ensures list != [] && Last(list).Bucket? && Last(list).burst >= 0
    ensures Written(ops', k) == Some(Entry(Hash(Sees(Written(ops, k), Last(list), now) - 1.0, now), Some(now + TtlOf(list))))
    ensures forall r :: Granted(ops', k, r) == Granted(ops, k, r) + (if r in list then 1 else 0)
  {
    ListValid(k, fam, list);
    LastIs(k, list);
    hide *;
    var op := Admit(now, list, "");
    ops' := ops + [op];
    assert ops'[..|ops|] == ops;
    MoveBatch(ops, k, fam, list, now);
    StepIsBatch(Run(map[], ops), op);
    LastStep(map[], ops', k);
    OwnUse(list, k, now);
    OwnList(list, k);
    FamilyAppend(ops, op, k, fam);
    GrantedNow(ops', k, list);
  }

  lemma MoveBatch(ops: seq<Op>, k: string, fam: Family, list: seq<LRule>, now: int)
    requires ValidFamily(k, fam) && FamilyRun(ops, k, fam) && ValidList(k, list) && (ops != [] ==> Time(ops) <= now)
    requires var e := Written(ops, k); e.Some? ==> e.value.val.Hash? && e.value.val.ts <= now
    requires forall r | r in list :: r.Bucket? && Sees(Written(ops, k), r, now) >= 1.0
    ensures list != [] && Last(list).Bucket? && Last(list).burst >= 0
    ensures var (d, reply) := Batch(Run(map[], ops), now, list, "");
            && reply == Ok
            && Get(d, k) == Some(Entry(Hash(Sees(Written(ops, k), Last(list), now) - 1.0, now), Some(now + TtlOf(list))))
  {
    hide *;
    FollowsAll(ops, k, fam);
    StoreFollows(ops, k, fam, now);
    var d, e := Run(map[], ops), Written(ops, k);
    OwnUse(list, k, now);
    OwnList(list, k);
    SeesPasses(d, k, list, e, now);
    AllOrNothing(d, now, list, "");
    BatchSees(d, now, list, "", k, list, e);
  }

  lemma GrantedNow(ops: seq<Op>, k: string, list: seq<LRule>)
    requires ops != [] && ReplyTo(map[], ops, |ops| - 1) == Ok && Touches(ops[|ops| - 1], k)
    requires ops[|ops| - 1].Admit? && RulesAt(ops[|ops| - 1].rules, k) == list
    ensures Written(ops, k) == Get(Run(map[], ops), k)
    ensures forall r :: Granted(ops, k, r) == Granted(ops[..|ops| - 1], k, r) + (if r in list then 1 else 0)
  {
    hide *;
    forall r ensures Granted(ops, k, r) == Granted(ops[..|ops| - 1], k, r) + (if r in list then 1 else 0) { StepIs(ops, k, r); }
    StepIs(ops, k, Unknown(k));
  }

  lemma ListValid(k: string, fam: Family, list: seq<LRule>)
    requires ValidFamily(k, fam) && list in fam
    ensures ValidList(k, list)
  {
    hide ValidList;
  }

  lemma OwnList(list: seq<LRule>, k: string)
    requires ValidList(k, list)
    ensures RulesAt(list, k) == list
  {
    RulesAtOwn(list, k);
  }

  lemma SeesPasses(d: Db, k: string, list: seq<LRule>, e: Option<Entry>, now: int)
    requires ValidList(k, list) && LiveEntry(Get(d, k), now) == LiveEntry(e, now) && (e.Some? ==> e.value.val.Hash?)
    requires forall r | r in list :: r.Bucket? && Sees(e, r, now) >= 1.0
    ensures TryFrom(Live(d, now), now, list, []).1.AllPass?
  {
    LastIs(k, list);
    LiveGet(d, now, k);
    hide Try, TryFrom, BucketLevel, LiveEntry;
    var live := Live(d, now);
    forall i | 0 <= i < |list| ensures Try(Get(live, k), list[i], now).Pass? {
      BucketTrial(LiveEntry(e, now), now, list[i]);
      assert list[i] in list;
      assert Sees(e, list[i], now) >= 1.0;
    }
    AllPassAt(live, now, list, [], k);
  }

  lemma FamilyAppend(ops: seq<Op>, op: Op, k: string, fam: Family)
    requires FamilyRun(ops, k, fam) && (ops != [] ==> Time(ops) <= op.now)
    requires op.Admit? && Compatible(op.rules) && RulesAt(op.rules, k) in fam
    ensures FamilyRun(ops + [op], k, fam) && Time(ops + [op]) == op.now
  {
    hide Compatible, RulesAt, Touches;
  }

  /** The run ends with a bucket that holds `x` tokens, written at `t` by `list`. */
  ghost predicate Ends(ops: seq<Op>, k: string, fam: Family, x: real, t: int, list: seq<LRule>)
    requires list != [] && Last(list).Bucket? && Last(list).burst >= 0
  {
    FamilyRun(ops, k, fam) && ops != [] && Time(ops) == t && Written(ops, k) == Some(Entry(Hash(x, t), Some(t + TtlOf(list))))
  }

  lemma TtlPositive(list: seq<LRule>)
    requires list != [] && Last(list).Bucket? && Last(list).burst >= 0
    ensures TtlOf(list) > 0
  {
    BucketTtlPositive(Last(list).rate, Last(list).burst);
  }

  lemma SeesNow(e: Option<Entry>, x: real, t: int, ttl: int, r: LRule)
    requires r.Bucket? && e == Some(Entry(Hash(x, t), Some(t + ttl))) && ttl >= 0
    ensures Sees(e, r, t) == x
  {
    SeesIs(e, r, t);
  }

  /** `n` more batches of `list` at once. */
  lemma {:induction false} Drain(ops: seq<Op>, k: string, fam: Family, x: real, t: int, before: seq<LRule>, list: seq<LRule>, n: nat)
    returns (ops': seq<Op>)
    requires ValidFamily(k, fam) && list in fam && ValidList(k, list) && list != [] && Last(list).Bucket? && Last(list).burst >= 0
    requires before != [] && Last(before).Bucket? && Last(before).burst >= 0
    requires Ends(ops, k, fam, x, t, before) && x >= n as real
    ensures ops <= ops' && Ends(ops', k, fam, x - n as real, t, if n == 0 then before else list)
    ensures forall r :: Granted(ops', k, r) == Granted(ops, k, r) + (if r in list then n else 0)
    decreases n
  {
    hide *;
    ops' := ops;
    if n > 0 {
      EndsIs(ops, k, fam, x, t, before);
      TtlPositive(before);
      ListBuckets(k, list);
      forall r | r in list ensures r.Bucket? && Sees(Written(ops, k), r, t) >= 1.0 { SeesNow(Written(ops, k), x, t, TtlOf(before), r); }
      LastIs(k, list);
      SeesNow(Written(ops, k), x, t, TtlOf(before), Last(list));
      var next := Move(ops, k, fam, list, t);
      EndsIs(next, k, fam, x - 1.0, t, list);
      ops' := Drain(next, k, fam, x - 1.0, t, list, list, n - 1);
    }
  }

  lemma ListBuckets(k: string, list: seq<LRule>)
    requires ValidList(k, list)
    ensures forall r | r in list :: r.Bucket? && r.burst >= 1
  {}

  lemma EndsIs(ops: seq<Op>, k: string, fam: Family, x: real, t: int, list: seq<LRule>)
    requires list != [] && Last(list).Bucket? && Last(list).burst >= 0
    ensures Ends(ops, k, fam, x, t, list) <==>
            FamilyRun(ops, k, fam) && ops != [] && Time(ops) == t && Written(ops, k) == Some(Entry(Hash(x, t), Some(t + TtlOf(list))))
  {
    hide FamilyRun, Written, TtlOf, Time;
  }

  /** From the empty store: `n` batches of `list` at time 0. */
  lemma Fill(k: string, fam: Family, list: seq<LRule>, n: nat) returns (ops: seq<Op>)
    requires ValidFamily(k, fam) && list in fam && ValidList(k, list) && list != [] && Last(list).Bucket? && 1 <= n <= Last(list).burst
    ensures Ends(ops, k, fam, (Last(list).burst - n) as real, 0, list) && ops != [] && ops[0].now == 0
    ensures forall r :: Granted(ops, k, r) == if r in list then n else 0
  {
    hide *;
    NothingWritten(k, fam);
    ListBuckets(k, list);
    LastIs(k, list);
    forall r | r in list ensures r.Bucket? && Sees(None, r, 0) >= 1.0 { SeesIs(None, r, 0); }
    SeesIs(None, Last(list), 0);
    var one := Move([], k, fam, list, 0);
    EndsIs(one, k, fam, Last(list).burst as real - 1.0, 0, list);
    ops := Drain(one, k, fam, Last(list).burst as real - 1.0, 0, list, list, n - 1);
    assert Last(list).burst as real - 1.0 - (n - 1) as real == (Last(list).burst - n) as real;
  }

  lemma KeptIs(k: string, fam: Family, ops: seq<Op>, own: seq<LRule>, r: LRule, i: nat)
    requires ValidFamily(k, fam) && EachKept(k, fam) && FamilyRun(ops, k, fam) && own in fam && r in own && i <= |ops|
    ensures r.Bucket? && WithinRate(ops, k, r, i) && (i < |ops| ==> WithinBurst(ops, k, r, i))
  {
    hide FamilyRun, WithinRate, WithinBurst, ValidFamily;
    assert Keeps(ops, k, r);
  }

  lemma BurstIs(ops: seq<Op>, k: string, r: LRule)
    requires r.Bucket? && ops != [] && WithinBurst(ops, k, r, 0) && Time(ops) == ops[0].now
    ensures Granted(ops, k, r) as real + Tokens(Written(ops, k)) <= r.burst as real
  {
    assert ops[..0] == [] && Granted([], k, r) == 0;
    NoRefill(r.rate);
    hide Granted, Written, Tokens, Refill;
    assert Time(ops) - ops[0].now == 0;
  }

  lemma RateIs(ops: seq<Op>, k: string, r: LRule, i: nat)
    requires r.Bucket? && i <= |ops| && WithinRate(ops, k, r, i) && Written(ops[..i], k).Some?
    ensures (Granted(ops, k, r) - Granted(ops[..i], k, r)) as real + Tokens(Written(ops, k))
            <= Tokens(Written(ops[..i], k)) + Refill(r.rate, Since(Written(ops, k)) - Since(Written(ops[..i], k)))
  {
    hide Granted, Written, Tokens, Refill, Since;
  }

  lemma EndsTokens(ops: seq<Op>, k: string, fam: Family, x: real, t: int, list: seq<LRule>)
    requires list != [] && Last(list).Bucket? && Last(list).burst >= 0 && Ends(ops, k, fam, x, t, list)
    ensures FamilyRun(ops, k, fam) && Time(ops) == t && Written(ops, k).Some? && Tokens(Written(ops, k)) == x && Since(Written(ops, k)) == t
  {
    hide FamilyRun, Written, TtlOf, Time;
  }

  /** All at once. */
  lemma NeedsBurst(k: string, fam: Family, list: seq<LRule>, own: seq<LRule>, r: LRule)
    requires ValidFamily(k, fam) && EachKept(k, fam) && list in fam && own in fam && r in own
    ensures list != [] && Last(list).Bucket? && r.Bucket? && Last(list).burst <= r.burst + (if r in list then 0 else 1)
  {
    ListValid(k, fam, list);
    LastIs(k, list);
    hide *;
    var c := Last(list).burst;
    var n := if r in list then c else 1;
    var ops := Fill(k, fam, list, n);
    EndsTokens(ops, k, fam, (c - n) as real, 0, list);
    KeptIs(k, fam, ops, own, r, 0);
    BurstIs(ops, k, r);
  }

  /** The last batch of a run, seen by the rule. */
  lemma LastGains(ops: seq<Op>, ops': seq<Op>, k: string, fam: Family, own: seq<LRule>, r: LRule, x: real, t: int, before: seq<LRule>,
                  y: real, now: int, list: seq<LRule>)
    requires ValidFamily(k, fam) && EachKept(k, fam) && own in fam && r in own && |ops'| == |ops| + 1 && ops == ops'[..|ops|]
    requires before != [] && Last(before).Bucket? && Last(before).burst >= 0 && Ends(ops, k, fam, x, t, before)
    requires list != [] && Last(list).Bucket? && Last(list).burst >= 0 && Ends(ops', k, fam, y, now, list)
    requires Granted(ops', k, r) == Granted(ops, k, r) + (if r in list then 1 else 0)
    ensures r.Bucket? && (if r in list then 1.0 else 0.0) + y <= x + Refill(r.rate, now - t)
  {
    hide *;
    EndsTokens(ops, k, fam, x, t, before);
    EndsTokens(ops', k, fam, y, now, list);
    KeptIs(k, fam, ops', own, r, |ops|);
    RateThen(ops, ops', k, r, x, t, y, now, if r in list then 1 else 0);
  }

  lemma RateThen(ops: seq<Op>, ops': seq<Op>, k: string, r: LRule, x: real, t: int, y: real, now: int, c: nat)
    requires |ops| <= |ops'| && ops == ops'[..|ops|] && r.Bucket? && WithinRate(ops', k, r, |ops|)
    requires Written(ops, k).Some? && Tokens(Written(ops, k)) == x && Since(Written(ops, k)) == t
    requires Tokens(Written(ops', k)) == y && Since(Written(ops', k)) == now && Granted(ops', k, r) == Granted(ops, k, r) + c
    ensures c as real + y <= x + Refill(r.rate, now - t)
  {
    hide *;
    RateIs(ops', k, r, |ops|);
  }

  /** What one more batch grants and leaves. */
  lemma Gains(ops: seq<Op>, k: string, fam: Family, own: seq<LRule>, r: LRule, x: real, t: int, before: seq<LRule>, list: seq<LRule>, now: int)
    requires ValidFamily(k, fam) && EachKept(k, fam) && own in fam && r in own && list in fam && t <= now
    requires before != [] && Last(before).Bucket? && Last(before).burst >= 0 && Ends(ops, k, fam, x, t, before)
    requires list != [] && Last(list).Bucket? && Last(list).burst >= 0
    requires Written(ops, k).Some? && Written(ops, k).value.val.Hash?
    requires forall s | s in list :: s.Bucket? && Sees(Written(ops, k), s, now) >= 1.0
    ensures r.Bucket? && (if r in list then 1.0 else 0.0) + Sees(Written(ops, k), Last(list), now) - 1.0 <= x + Refill(r.rate, now - t)
  {
    hide *;
    EndsIs(ops, k, fam, x, t, before);
    var ops' := Move(ops, k, fam, list, now);
    var y := Sees(Written(ops, k), Last(list), now) - 1.0;
    EndsIs(ops', k, fam, y, now, list);
    LastGains(ops, ops', k, fam, own, r, x, t, before, y, now, list);
  }

  /** What rules see of a bucket that was left with `x` tokens at time 0. */
  lemma SeesLater(ops: seq<Op>, k: string, fam: Family, x: real, before: seq<LRule>, r: LRule, now: int)
    requires before != [] && Last(before).Bucket? && Last(before).burst >= 0 && Ends(ops, k, fam, x, 0, before)
    requires r.Bucket? && r.burst >= 1 && 0 <= now
    ensures Written(ops, k).Some? && Written(ops, k).value.val.Hash?
    ensures Sees(Written(ops, k), r, now) ==
            if now > TtlOf(before) then r.burst as real else if now > 0 then MinReal(r.burst as real, x + Refill(r.rate, now)) else x
  {
    hide *;
    EndsIs(ops, k, fam, x, 0, before);
    SeesIs(Written(ops, k), r, now);
  }

  /** A millisecond after a bucket was left with one token. */
  lemma NeedsRate(k: string, fam: Family, list: seq<LRule>, r: LRule)
    requires ValidFamily(k, fam) && EachKept(k, fam) && list in fam && r in list
    ensures list != [] && Last(list).Bucket? && r.Bucket? && (Last(list).rate <= r.rate || Last(list).burst == 1)
  {
    ListValid(k, fam, list);
    LastIs(k, list);
    ListBuckets(k, list);
    RulesOf(k, list, Last(list));
    hide *;
    var n := Last(list);
    if n.burst >= 2 {
      var ops := Fill(k, fam, list, n.burst - 1);
      TtlPositive(list);
      assert (n.burst - (n.burst - 1)) as real == 1.0;
      SeesLater(ops, k, fam, 1.0, list, n, 1);
      forall s | s in list ensures s.Bucket? && Sees(Written(ops, k), s, 1) >= 1.0 {
        SeesLater(ops, k, fam, 1.0, list, s, 1);
        RefillNotNegative(s.rate, 1);
        AtLeast(s.burst, 1.0 + Refill(s.rate, 1));
      }
      Gains(ops, k, fam, list, r, 1.0, 0, list, list, 1);
      OneMillisecond(n.rate, r.rate, n.burst);
    }
  }

  lemma AtLeast(burst: int, x: real)
    requires burst >= 1 && x >= 1.0
    ensures MinReal(burst as real, x) >= 1.0
  {}

  lemma OneMillisecond(fast: Rate, slow: Rate, burst: int)
    requires burst >= 2 && burst >= fast.Floor && MinReal(burst as real, 1.0 + Refill(fast, 1)) <= 1.0 + Refill(slow, 1)
    ensures fast <= slow
  {}

  /** A bucket left empty by `own`, and `list` after a wait. */
  lemma NeverGains(k: string, fam: Family, list: seq<LRule>, own: seq<LRule>, r: LRule, w: nat)
    requires ValidFamily(k, fam) && EachKept(k, fam) && list in fam && own in fam && r in own && r !in list
    requires list != [] && Last(list).Bucket? && forall s | s in list :: s.Bucket? && s.burst >= 1 && Last(list).rate <= s.rate
    ensures r.Bucket? && MinReal(Last(list).burst as real, Refill(Last(list).rate, w)) <= 1.0 + Refill(r.rate, w)
  {
    ListValid(k, fam, own);
    ListValid(k, fam, list);
    RulesOf(k, own, r);
    LastIs(k, own);
    LastIs(k, list);
    hide *;
    var n := Last(list);
    RefillNotNegative(r.rate, w);
    NoRefill(n.rate);
    if MinReal(n.burst as real, Refill(n.rate, w)) > 1.0 + Refill(r.rate, w) {
      MoreThan(n.burst, Refill(n.rate, w), 1.0);
      GainAt(k, fam, list, own, r, w);
    }
  }

  lemma GainAt(k: string, fam: Family, list: seq<LRule>, own: seq<LRule>, r: LRule, w: nat)
    requires ValidFamily(k, fam) && EachKept(k, fam) && list in fam && own in fam && r in own && r !in list && w > 0
    requires list != [] && Last(list).Bucket? && forall s | s in list :: s.Bucket? && s.burst >= 1 && Last(list).rate <= s.rate
    requires MinReal(Last(list).burst as real, Refill(Last(list).rate, w)) > 1.0
    ensures r.Bucket? && MinReal(Last(list).burst as real, Refill(Last(list).rate, w)) <= 1.0 + Refill(r.rate, w)
  {
    hide *;
    ListValid(k, fam, own);
    ListValid(k, fam, list);
    LastIs(k, own);
    LastIs(k, list);
    var ops := Fill(k, fam, own, Last(own).burst);
    assert (Last(own).burst - Last(own).burst) as real == 0.0;
    AllSee(ops, k, fam, own, list, w);
    Gains(ops, k, fam, own, r, 0.0, 0, own, list, w);
  }

  lemma AllSee(ops: seq<Op>, k: string, fam: Family, own: seq<LRule>, list: seq<LRule>, w: nat)
    requires own != [] && Last(own).Bucket? && Last(own).burst >= 0 && Ends(ops, k, fam, 0.0, 0, own)
    requires list != [] && Last(list).Bucket? && Last(list) in list
    requires forall s | s in list :: s.Bucket? && s.burst >= 1 && Last(list).rate <= s.rate
    requires w > 0 && MinReal(Last(list).burst as real, Refill(Last(list).rate, w)) > 1.0
    ensures Written(ops, k).Some? && Written(ops, k).value.val.Hash?
    ensures forall s | s in list :: s.Bucket? && Sees(Written(ops, k), s, w) >= 1.0
    ensures Sees(Written(ops, k), Last(list), w) >= MinReal(Last(list).burst as real, Refill(Last(list).rate, w))
  {
    hide *;
    var n := Last(list);
    MoreThan(n.burst, Refill(n.rate, w), 1.0);
    SeesLater(ops, k, fam, 0.0, own, n, w);
    LessThan(n.burst, Refill(n.rate, w));
    forall s | s in list ensures s.Bucket? && Sees(Written(ops, k), s, w) >= 1.0 {
      SeesLater(ops, k, fam, 0.0, own, s, w);
      RefillRates(n.rate, s.rate, w);
      AtLeast(s.burst, if Refill(s.rate, w) >= 1.0 then Refill(s.rate, w) else 1.0);
    }
  }

  lemma MoreThan(burst: int, x: real, y: real)
    requires MinReal(burst as real, x) > y
    ensures x > y && burst as real > y
  {}

  lemma LessThan(burst: int, x: real)
    ensures MinReal(burst as real, x) <= burst as real && MinReal(burst as real, 0.0 + x) == MinReal(burst as real, x)
  {}

  lemma NeedsSlower(k: string, fam: Family, list: seq<LRule>, own: seq<LRule>, r: LRule)
    requires ValidFamily(k, fam) && EachKept(k, fam) && list in fam && own in fam && r in own && r !in list
    ensures list != [] && Last(list).Bucket? && r.Bucket? && Slower(Last(list), r)
  {
    ListValid(k, fam, own);
    ListValid(k, fam, list);
    RulesOf(k, own, r);
    LastIs(k, list);
    ListBuckets(k, list);
    var n := Last(list);
    FullIs(n);
    RefillNotNegative(r.rate, FullAt(n));
    RefillNotNegative(r.rate, FullAt(n) - 1);
    hide EachKept, ValidFamily, ValidList, Refill, FullAt, Last;
    if n.burst >= 2 {
      forall s | s in list ensures n.rate <= s.rate { NeedsRate(k, fam, list, s); }
      NeverGains(k, fam, list, own, r, FullAt(n));
      NeverGains(k, fam, list, own, r, FullAt(n) - 1);
    }
  }

  lemma FullIs(n: LRule)
    requires n.Bucket? && n.burst >= 1
    ensures FullAt(n) >= 1 && Refill(n.rate, FullAt(n)) >= n.burst as real && Refill(n.rate, FullAt(n) - 1) < n.burst as real
  {
    var x := n.burst as real / n.rate;
    RefillReaches(n.rate, FullAt(n), n.burst as real);
    RefillReaches(n.rate, FullAt(n) - 1, n.burst as real);
    assert x > 0.0 by { if x <= 0.0 { NotPositive(x, n.rate); } }
  }

  lemma NotPositive(x: real, rate: Rate)
    requires x <= 0.0
    ensures x * rate <= 0.0
  {
    Product(-x, rate);
  }

  /** A bucket left empty by `before`, and `list` once the key has expired. */
  lemma NeedsRest(k: string, fam: Family, list: seq<LRule>, own: seq<LRule>, r: LRule, before: seq<LRule>)
    requires ValidFamily(k, fam) && EachKept(k, fam) && list in fam && own in fam && r in own && before in fam
    ensures before != [] && Last(before).Bucket? && Last(before).burst >= 0 && list != [] && Last(list).Bucket? && r.Bucket?
    ensures Rested(before, list, r)
  {
    ListValid(k, fam, list);
    ListValid(k, fam, before);
    ListValid(k, fam, own);
    RulesOf(k, own, r);
    LastIs(k, list);
    LastIs(k, before);
    ListBuckets(k, list);
    hide *;
    var ops := Fill(k, fam, before, Last(before).burst);
    var now := TtlOf(before) + 1;
    TtlPositive(before);
    forall s | s in list ensures s.Bucket? && Sees(Written(ops, k), s, now) >= 1.0 { SeesLater(ops, k, fam, 0.0, before, s, now); }
    SeesLater(ops, k, fam, 0.0, before, Last(list), now);
    Gains(ops, k, fam, own, r, 0.0, 0, before, list, now);
    RestedIs(before, list, r);
  }

  lemma RestedIs(before: seq<LRule>, list: seq<LRule>, r: LRule)
    requires before != [] && Last(before).Bucket? && Last(before).burst >= 0 && list != [] && Last(list).Bucket? && r.Bucket?
    ensures Rested(before, list, r)
            <==> (if r in list then 1.0 else 0.0) + Last(list).burst as real - 1.0 <= 0.0 + Refill(r.rate, TtlOf(before) + 1 - 0)
  {
    hide TtlOf, Refill;
  }

  /** The exact condition. Over every run of batches that carry any of the lists, the bucket is kept for every rule of every list
      if and only if the lists agree. */
  lemma EachKeptIff(k: string, fam: Family)
    requires ValidFamily(k, fam)
    ensures EachKept(k, fam) <==> Agrees(k, fam)
  {
    if Agrees(k, fam) {
      AgreeingKeeps(k, fam);
    }
    if EachKept(k, fam) {
      hide EachKept, Slower, Rested, ValidList;
      forall list, own, r, before | list in fam && own in fam && before in fam && r in own ensures Agreed(k, list, r, before) {
        NeedsBurst(k, fam, list, own, r);
        NeedsRest(k, fam, list, own, r, before);
        if r in list { NeedsRate(k, fam, list, r); } else { NeedsSlower(k, fam, list, own, r); }
      }
    }
  }

  // The counts alone.

  /** From call `i` on the rule granted no more than its burst and its refill. */
  predicate WithinCount(ops: seq<Op>, k: string, r: LRule, i: nat)
    requires r.Bucket? && i < |ops|
  {
    (Granted(ops, k, r) - Granted(ops[..i], k, r)) as real <= r.burst as real + Refill(r.rate, Time(ops) - ops[i].now)
  }

  /** Each rule's own bound, counted over the batches that carry it, holds in every run. */
  ghost predicate EachCounted(k: string, fam: Family)
    requires ValidFamily(k, fam)
  {
    forall ops, list, r, i | FamilyRun(ops, k, fam) && list in fam && r in list && 0 <= i < |ops| :: r.Bucket? && WithinCount(ops, k, r, i)
  }

  lemma {:induction false} TokensLeft(ops: seq<Op>, k: string, fam: Family)
    requires ValidFamily(k, fam) && FamilyRun(ops, k, fam)
    ensures Tokens(Written(ops, k)) >= 0.0
  {
    hide *;
    NoneIs(None);
    FollowsAll(ops, k, fam);
    NoneIs(Written(ops, k));
    if Written(ops, k).Some? { var before := WrittenByWhom(ops, k, fam); }
  }

  lemma CountIs(ops: seq<Op>, k: string, r: LRule, i: nat)
    requires r.Bucket? && i < |ops|
    ensures WithinCount(ops, k, r, i)
            <==> (Granted(ops, k, r) - Granted(ops[..i], k, r)) as real <= r.burst as real + Refill(r.rate, Time(ops) - ops[i].now)
    ensures WithinBurst(ops, k, r, i) && Tokens(Written(ops, k)) >= 0.0 ==> WithinCount(ops, k, r, i)
  {
    hide Granted, Tokens, Written, Refill, Time;
  }

  /** A list of a family that keeps the counts does this to a rule of it. */
  predicate Near(list: seq<LRule>, r: LRule, before: seq<LRule>)
    requires before != [] && Last(before).Bucket? && Last(before).burst >= 0 && list != [] && Last(list).Bucket? && r.Bucket?
  {
    var n := Last(list);
    && n.burst <= r.burst + (if r in list then 0 else 1)
    && (r !in list ==> n.rate <= r.rate || n.burst as real <= 1.0 + Refill(r.rate, FullAt(n)))
    && (n.burst >= 2 ==>
          (n.burst - 2 + (if r in list then 1 else 0) + (if r in before then 1 else 0)) as real <= Refill(r.rate, TtlOf(before) + 1))
  }

  /** A bucket that is kept for every rule keeps every rule's own bound. And where the bounds hold, each list keeps its own rules'
      bounds by itself, the last bursts agree as the condition says, no list gains more than the token it costs by the time it is
      full, and what lists find on an expired key is off by at most one token. */
  lemma CountsNeed(k: string, fam: Family)
    requires ValidFamily(k, fam)
    ensures EachKept(k, fam) ==> EachCounted(k, fam)
    ensures EachCounted(k, fam) ==>
              forall list, own, r, before | list in fam && own in fam && r in own && before in fam :: Counts(k, list, r, before)
  {
    hide FamilyRun, WithinCount, WithinBurst, WithinRate, EachOwnBound, Counts;
    if EachKept(k, fam) {
      forall ops, list, r, i | FamilyRun(ops, k, fam) && list in fam && r in list && 0 <= i < |ops|
        ensures r.Bucket? && WithinCount(ops, k, r, i)
      {
        KeptIs(k, fam, ops, list, r, i);
        TokensLeft(ops, k, fam);
        CountIs(ops, k, r, i);
      }
    }
    if EachCounted(k, fam) {
      forall list, own, r, before | list in fam && own in fam && r in own && before in fam ensures Counts(k, list, r, before) {
        CountsOf(k, fam, list, own, r, before);
      }
    }
  }

  ghost predicate Counts(k: string, list: seq<LRule>, r: LRule, before: seq<LRule>) {
    && ValidList(k, list) && ValidList(k, before) && EachOwnBound(k, list)
    && before != [] && Last(before).Bucket? && Last(before).burst >= 0 && list != [] && Last(list).Bucket? && r.Bucket?
    && Near(list, r, before)
  }

  lemma CountsOf(k: string, fam: Family, list: seq<LRule>, own: seq<LRule>, r: LRule, before: seq<LRule>)
    requires ValidFamily(k, fam) && EachCounted(k, fam) && list in fam && own in fam && r in own && before in fam
    ensures Counts(k, list, r, before)
  {
    ListValid(k, fam, list);
    ListValid(k, fam, own);
    ListValid(k, fam, before);
    LastIs(k, list);
    LastIs(k, before);
    RulesOf(k, own, r);
    hide EachCounted, ValidFamily, ValidList, Last, Refill, FullAt, TtlOf, EachOwnBound;
    OwnCounted(k, fam, list);
    CountedBurst(k, fam, list, own, r);
    if r !in list { CountedRate(k, fam, list, own, r); }
    if Last(list).burst >= 2 { CountedRest(k, fam, list, own, r, before); }
  }

  // Steady rounds.

  /** A wait after which an emptied bucket that `before` wrote is full for `list`: it has expired, or refilled. */
  predicate FillsUp(list: seq<LRule>, before: seq<LRule>, w: nat)
    requires list != [] && Last(list).Bucket? && before != [] && Last(before).Bucket? && Last(before).burst >= 0
  {
    || w > TtlOf(before)
    || (w > 0 && Refill(Last(list).rate, w) >= Last(list).burst as real && forall s | s in list :: s.Bucket? && Last(list).rate <= s.rate)
  }

  lemma FullAgain(ops: seq<Op>, k: string, fam: Family, list: seq<LRule>, before: seq<LRule>, t: int, w: nat)
    requires before != [] && Last(before).Bucket? && Last(before).burst >= 0 && Ends(ops, k, fam, 0.0, t, before)
    requires ValidList(k, list) && list != [] && Last(list).Bucket? && FillsUp(list, before, w)
    ensures Written(ops, k).Some? && Written(ops, k).value.val.Hash? && Written(ops, k).value.val.ts <= t + w
    ensures forall s | s in list :: s.Bucket? && Sees(Written(ops, k), s, t + w) >= 1.0
    ensures Sees(Written(ops, k), Last(list), t + w) == Last(list).burst as real
  {
    ListBuckets(k, list);
    LastIs(k, list);
    hide *;
    EndsIs(ops, k, fam, 0.0, t, before);
    var e := Written(ops, k);
    forall s | s in list ensures s.Bucket? && Sees(e, s, t + w) >= 1.0 { FullSees(e, list, before, t, w, s); }
    FullSees(e, list, before, t, w, Last(list));
  }

  lemma FullSees(e: Option<Entry>, list: seq<LRule>, before: seq<LRule>, t: int, w: nat, s: LRule)
    requires before != [] && Last(before).Bucket? && Last(before).burst >= 0 && e == Some(Entry(Hash(0.0, t), Some(t + TtlOf(before))))
    requires list != [] && Last(list).Bucket? && Last(list).burst >= 1 && FillsUp(list, before, w)
    requires s in list && s.Bucket? && s.burst >= 1
    ensures Sees(e, s, t + w) >= 1.0 && Sees(e, Last(list), t + w) == Last(list).burst as real
  {
    SeesIs(e, s, t + w);
    SeesIs(e, Last(list), t + w);
    if w <= TtlOf(before) { RefillRates(Last(list).rate, s.rate, w); }
    hide Refill, Sees, TtlOf, Last;
  }

  /** What one round grants a rule. */
  function Share(r: LRule, list: seq<LRule>, own: seq<LRule>, before: seq<LRule>, a: nat, b: nat): nat {
    (if r in list then 1 else 0) + (if r in own then a else 0) + (if r in before then b else 0)
  }

  lemma ShareIs(r: LRule, list: seq<LRule>, own: seq<LRule>, before: seq<LRule>, a: nat, b: nat)
    ensures Share(r, list, own, before, a, b) == (if r in list then 1 else 0) + (if r in own then a else 0) + (if r in before then b else 0)
  {}

  /** One round: the wait, one batch of `list`, `a` of `own`, `b` of `before`, and the bucket is empty again. */
  lemma Round(ops: seq<Op>, k: string, fam: Family, list: seq<LRule>, own: seq<LRule>, before: seq<LRule>, t: int, w: nat, a: nat, b: nat)
    returns (ops': seq<Op>)
    requires ValidFamily(k, fam) && list in fam && own in fam && before in fam
    requires ValidList(k, list) && ValidList(k, own) && ValidList(k, before)
    requires list != [] && Last(list).Bucket? && own != [] && Last(own).Bucket? && Last(own).burst >= 0
    requires before != [] && Last(before).Bucket? && Last(before).burst >= 0 && Ends(ops, k, fam, 0.0, t, before)
    requires FillsUp(list, before, w) && 1 + a + b == Last(list).burst && b >= 1
    ensures ops <= ops' && Ends(ops', k, fam, 0.0, t + w, before)
    ensures forall r :: Granted(ops', k, r) == Granted(ops, k, r) + Share(r, list, own, before, a, b)
  {
    hide *;
    FullAgain(ops, k, fam, list, before, t, w);
    EndsIs(ops, k, fam, 0.0, t, before);
    var one := Move(ops, k, fam, list, t + w);
    var x := Last(list).burst as real - 1.0;
    EndsIs(one, k, fam, x, t + w, list);
    var two := Drain(one, k, fam, x, t + w, list, own, a);
    ops' := Drain(two, k, fam, x - a as real, t + w, if a == 0 then list else own, before, b);
    assert x - a as real - b as real == 0.0;
    forall r ensures Granted(ops', k, r) == Granted(ops, k, r) + Share(r, list, own, before, a, b) { ShareIs(r, list, own, before, a, b); }
  }

  lemma {:induction false} Rounds(k: string, fam: Family, list: seq<LRule>, own: seq<LRule>, before: seq<LRule>, w: nat, a: nat, b: nat, n: nat)
    returns (ops: seq<Op>)
    requires ValidFamily(k, fam) && list in fam && own in fam && before in fam
    requires ValidList(k, list) && ValidList(k, own) && ValidList(k, before)
    requires list != [] && Last(list).Bucket? && own != [] && Last(own).Bucket? && Last(own).burst >= 0
    requires before != [] && Last(before).Bucket? && Last(before).burst >= 1
    requires FillsUp(list, before, w) && 1 + a + b == Last(list).burst && b >= 1
    ensures Ends(ops, k, fam, 0.0, n * w, before) && ops != [] && ops[0].now == 0
    ensures forall r :: Granted(ops, k, r) >= n * Share(r, list, own, before, a, b)
    decreases n
  {
    hide *;
    if n == 0 {
      ops := Fill(k, fam, before, Last(before).burst);
      assert (Last(before).burst - Last(before).burst) as real == 0.0;
    } else {
      var pre := Rounds(k, fam, list, own, before, w, a, b, n - 1);
      ops := Round(pre, k, fam, list, own, before, (n - 1) * w, w, a, b);
      assert (n - 1) * w + w == n * w;
      forall r ensures Granted(ops, k, r) >= n * Share(r, list, own, before, a, b) {
        var q := Share(r, list, own, before, a, b);
        assert (n - 1) * q + q == n * q;
      }
    }
  }

  /** Rounds that grant a rule more than it refills break its bound in the long run. */
  lemma SteadyRounds(k: string, fam: Family, list: seq<LRule>, own: seq<LRule>, before: seq<LRule>, w: nat, a: nat, b: nat, mine: seq<LRule>, r: LRule)
    requires ValidFamily(k, fam) && EachCounted(k, fam) && list in fam && own in fam && before in fam && mine in fam && r in mine
    requires list != [] && Last(list).Bucket? && before != [] && Last(before).Bucket? && Last(before).burst >= 0
    requires FillsUp(list, before, w) && 1 + a + b == Last(list).burst && b >= 1
    ensures r.Bucket?
    ensures Share(r, list, own, before, a, b) as real <= Refill(r.rate, w)
  {
    hide *;
    ListValid(k, fam, mine);
    RulesOf(k, mine, r);
    var d := Share(r, list, own, before, a, b) as real - Refill(r.rate, w);
    if d > 0.0 {
      var n := Enough(r.burst, d);
      ManyRounds(k, fam, list, own, before, w, a, b, mine, r, n);
    }
  }

  lemma ManyRounds(k: string, fam: Family, list: seq<LRule>, own: seq<LRule>, before: seq<LRule>, w: nat, a: nat, b: nat, mine: seq<LRule>,
                   r: LRule, n: nat)
    requires ValidFamily(k, fam) && EachCounted(k, fam) && list in fam && own in fam && before in fam && mine in fam && r in mine && r.Bucket?
    requires list != [] && Last(list).Bucket? && before != [] && Last(before).Bucket? && Last(before).burst >= 0
    requires FillsUp(list, before, w) && 1 + a + b == Last(list).burst && b >= 1
    ensures n as real * (Share(r, list, own, before, a, b) as real - Refill(r.rate, w)) <= r.burst as real
  {
    hide *;
    ListValid(k, fam, list);
    ListValid(k, fam, own);
    ListValid(k, fam, before);
    LastIs(k, own);
    LastIs(k, before);
    var ops := Rounds(k, fam, list, own, before, w, a, b, n);
    RunTooLong(k, fam, ops, mine, before, r, n, Share(r, list, own, before, a, b), w);
  }

  lemma RunTooLong(k: string, fam: Family, ops: seq<Op>, mine: seq<LRule>, before: seq<LRule>, r: LRule, n: nat, q: nat, w: nat)
    requires ValidFamily(k, fam) && EachCounted(k, fam) && mine in fam && r in mine && r.Bucket?
    requires before != [] && Last(before).Bucket? && Last(before).burst >= 0 && Ends(ops, k, fam, 0.0, n * w, before)
    requires ops != [] && ops[0].now == 0 && Granted(ops, k, r) >= n * q
    ensures n as real * (q as real - Refill(r.rate, w)) <= r.burst as real
  {
    hide *;
    EndsTokens(ops, k, fam, 0.0, n * w, before);
    CountedAt(k, fam, ops, mine, r, 0);
    FromStart(ops, k, r, n * w);
    RefillTimes(r.rate, n, w);
    if n as real * (q as real - Refill(r.rate, w)) > r.burst as real { TooMany(n, q, Refill(r.rate, w), r.burst, Granted(ops, k, r)); }
  }

  lemma FromStart(ops: seq<Op>, k: string, r: LRule, t: int)
    requires r.Bucket? && ops != [] && WithinCount(ops, k, r, 0) && Time(ops) == t && ops[0].now == 0
    ensures Granted(ops, k, r) as real <= r.burst as real + Refill(r.rate, t)
  {
    assert ops[..0] == [] && Granted([], k, r) == 0;
    hide Granted, Refill;
    assert Time(ops) - ops[0].now == t;
  }

  lemma Enough(b: int, d: real) returns (n: nat)
    requires b >= 1 && d > 0.0
    ensures n as real * d > b as real
  {
    var z := b as real / d;
    assert z * d == b as real;
    if z < 0.0 { Product(-z, d); }
    n := Ceil(z) + 1;
    Scale(n as real, z, d);
  }

  lemma TooMany(n: nat, q: nat, f: real, b: int, granted: nat)
    requires n as real * (q as real - f) > b as real && granted >= n * q
    ensures granted as real > b as real + n as real * f
  {
    RealProduct(n, q);
    assert n as real * (q as real - f) == n as real * q as real - n as real * f;
  }

  /** What another list refills up to the brim, the rule's own list takes. */
  lemma CountedRate(k: string, fam: Family, list: seq<LRule>, own: seq<LRule>, r: LRule)
    requires ValidFamily(k, fam) && EachCounted(k, fam) && list in fam && own in fam && r in own && r !in list
    ensures list != [] && Last(list).Bucket? && r.Bucket?
    ensures Last(list).rate <= r.rate || Last(list).burst as real <= 1.0 + Refill(r.rate, FullAt(Last(list)))
  {
    ListValid(k, fam, list);
    ListValid(k, fam, own);
    LastIs(k, list);
    LastIs(k, own);
    ListBuckets(k, list);
    RulesOf(k, own, r);
    OwnCounted(k, fam, list);
    EachOwnBoundIff(k, list);
    hide EachCounted, ValidFamily, ValidList, EachOwnBound, Refill, FullAt, TtlOf, Last;
    var n := Last(list);
    FullIs(n);
    RefillNotNegative(r.rate, FullAt(n));
    if n.burst >= 2 {
      forall s | s in list ensures s.Bucket? && n.rate <= s.rate { var i :| 0 <= i < |list| && list[i] == s; }
      SteadyRounds(k, fam, list, own, own, FullAt(n), 0, n.burst - 1, own, r);
      ShareIs(r, list, own, own, 0, n.burst - 1);
    }
  }

  /** What a list finds on an expired key, its rule's list takes but for one token, which the list before takes. */
  lemma CountedRest(k: string, fam: Family, list: seq<LRule>, own: seq<LRule>, r: LRule, before: seq<LRule>)
    requires ValidFamily(k, fam) && EachCounted(k, fam) && list in fam && own in fam && r in own && before in fam
    requires list != [] && Last(list).Bucket? && Last(list).burst >= 2 && before != [] && Last(before).Bucket? && Last(before).burst >= 0
    ensures r.Bucket?
    ensures (Last(list).burst - 2 + (if r in list then 1 else 0) + (if r in before then 1 else 0)) as real <= Refill(r.rate, TtlOf(before) + 1)
  {
    hide EachCounted, ValidFamily, Refill, TtlOf, Last;
    TtlPositive(before);
    SteadyRounds(k, fam, list, own, before, TtlOf(before) + 1, Last(list).burst - 2, 1, own, r);
    ShareIs(r, list, own, before, Last(list).burst - 2, 1);
  }

  lemma CountedAt(k: string, fam: Family, ops: seq<Op>, own: seq<LRule>, r: LRule, i: nat)
    requires ValidFamily(k, fam) && EachCounted(k, fam) && FamilyRun(ops, k, fam) && own in fam && r in own && i < |ops|
    ensures r.Bucket? && WithinCount(ops, k, r, i)
  {
    hide FamilyRun, WithinCount, ValidFamily;
  }

  lemma FirstCount(ops: seq<Op>, k: string, r: LRule)
    requires r.Bucket? && ops != [] && WithinCount(ops, k, r, 0) && Time(ops) == ops[0].now
    ensures Granted(ops, k, r) <= r.burst
  {
    assert ops[..0] == [] && Granted([], k, r) == 0;
    NoRefill(r.rate);
    hide Granted, Refill;
    assert Time(ops) - ops[0].now == 0;
  }

  /** What `list` leaves, `own` takes at once. */
  lemma CountedBurst(k: string, fam: Family, list: seq<LRule>, own: seq<LRule>, r: LRule)
    requires ValidFamily(k, fam) && EachCounted(k, fam) && list in fam && own in fam && r in own
    ensures list != [] && Last(list).Bucket? && r.Bucket? && Last(list).burst <= r.burst + (if r in list then 0 else 1)
  {
    ListValid(k, fam, list);
    ListValid(k, fam, own);
    LastIs(k, list);
    LastIs(k, own);
    hide *;
    var ops := LeaveAndTake(k, fam, list, own, if r in list then Last(list).burst else 1);
    CountedAt(k, fam, ops, own, r, 0);
    FirstCount(ops, k, r);
  }

  lemma LeaveAndTake(k: string, fam: Family, list: seq<LRule>, own: seq<LRule>, n: nat) returns (ops: seq<Op>)
    requires ValidFamily(k, fam) && list in fam && own in fam && ValidList(k, list) && ValidList(k, own)
    requires list != [] && Last(list).Bucket? && own != [] && Last(own).Bucket? && Last(own).burst >= 0 && 1 <= n <= Last(list).burst
    ensures FamilyRun(ops, k, fam) && ops != [] && Time(ops) == ops[0].now == 0
    ensures forall r :: Granted(ops, k, r) == (if r in list then n else 0) + (if r in own then Last(list).burst - n else 0)
  {
    hide *;
    var left := Last(list).burst - n;
    var first := Fill(k, fam, list, n);
    ops := Drain(first, k, fam, left as real, 0, list, own, left);
    EndsTokens(ops, k, fam, left as real - left as real, 0, if left == 0 then list else own);
  }

  lemma {:induction false} AllGranted(ops: seq<Op>, k: string, list: seq<LRule>, r: LRule)
    requires ListRun(ops, k, list) && r in list && list != []
    ensures Granted(ops, k, r) == Admitted(map[], ops, k)
  {
    if ops != [] {
      var n := |ops| - 1;
      LastStep(map[], ops, k);
      ListRunLast(ops, k, list);
      AllGranted(ops[..n], k, list, r);
      StepIs(ops, k, r);
      hide RulesAt, Touches, ReplyTo, Step, Compatible, Granted, Admitted, Run;
    }
  }

  lemma OwnCounted(k: string, fam: Family, list: seq<LRule>)
    requires ValidFamily(k, fam) && EachCounted(k, fam) && list in fam && ValidList(k, list)
    ensures EachOwnBound(k, list)
  {
    LastIs(k, list);
    hide EachCounted, ValidFamily, ValidList, ListRun, WithinOwn;
    forall ops, j, i | ListRun(ops, k, list) && 0 <= j < |list| && 0 <= i < |ops| ensures WithinOwn(ops, k, list[j], i) {
      OwnWithin(k, fam, list, ops, j, i);
    }
  }

  lemma OwnWithin(k: string, fam: Family, list: seq<LRule>, ops: seq<Op>, j: nat, i: nat)
    requires ValidFamily(k, fam) && EachCounted(k, fam) && list in fam && ListRun(ops, k, list) && j < |list| && i < |ops|
    ensures list[j].Bucket? && WithinOwn(ops, k, list[j], i)
  {
    hide *;
    ListRunsInFamily(ops, k, fam, list);
    CountedAt(k, fam, ops, list, list[j], i);
    CountIs(ops, k, list[j], i);
    WithinIs(ops, k, list[j], i);
    PrefixRun(ops, k, list, i);
    AllGranted(ops, k, list, list[j]);
    AllGranted(ops[..i], k, list, list[j]);
    TimeIs(ops);
  }

  lemma ListRunsInFamily(ops: seq<Op>, k: string, fam: Family, list: seq<LRule>)
    requires ListRun(ops, k, list) && list in fam
    ensures FamilyRun(ops, k, fam)
  {
    hide RulesAt, Compatible, Touches;
  }

  lemma PrefixRun(ops: seq<Op>, k: string, list: seq<LRule>, i: nat)
    requires ListRun(ops, k, list) && i <= |ops|
    ensures ListRun(ops[..i], k, list)
  {
    hide ListUse;
  }

  /** For a single list the bucket is kept exactly when every rule's own bound holds. */
  lemma OneListIff(k: string, list: seq<LRule>)
    requires ValidList(k, list)
    ensures ValidFamily(k, {list}) && (EachKept(k, {list}) <==> EachOwnBound(k, list))
  {
    LastIs(k, list);
    ListBuckets(k, list);
    hide EachKept, EachOwnBound, Agrees, ValidList;
    assert ValidFamily(k, {list});
    EachKeptIff(k, {list});
    EachOwnBoundIff(k, list);
    OneAgrees(k, list);
  }

  lemma OneAgrees(k: string, list: seq<LRule>)
    requires ValidList(k, list) && list != [] && (forall i :: 0 <= i < |list| ==> list[i].Bucket?) && ValidFamily(k, {list})
    requires Last(list).burst >= 1
    ensures Agrees(k, {list}) <==> LastStrictest(list) || SingleToken(list)
  {
    var n := Last(list);
    LastIs(k, list);
    ListBuckets(k, list);
    hide Slower, Refill, BucketTtl;
    if Agrees(k, {list}) {
      forall i | 0 <= i < |list| ensures n.burst <= list[i].burst && (n.rate <= list[i].rate || n.burst == 1)
        ensures n.burst as real <= Refill(list[i].rate, TtlOf(list) + 1)
      {
        assert list[i] in list;
        assert Agreed(k, list, list[i], list);
      }
      hide Agrees, ValidList;
    }
    if LastStrictest(list) || SingleToken(list) {
      forall r | r in list ensures Agreed(k, list, r, list) {
        var i :| 0 <= i < |list| && list[i] == r;
        if n.rate <= r.rate {
          TtlFills(n.rate, n.burst, TtlOf(list) + 1);
          TtlPositive(list);
          RefillRates(n.rate, r.rate, TtlOf(list) + 1);
        }
      }
      assert Agrees(k, {list});
    }
  }
}
