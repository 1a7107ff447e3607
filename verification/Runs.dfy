/** Runs: the script calls of any number of gateway instances in the order Redis executes them. */
module Runs {
  import opened Prelude
  import opened Redis
  import opened BatchCheck
  import opened TwoPhase
  import opened AtKey

  datatype Op =
    | Admit(now: int, rules: seq<LRule>, id: string)
    | Release(now: int, keys: seq<string>, id: string)
    | Reserve(now: int, key: string, delta: int, expire: int)
    | Settle(now: int, key: string, reserved: int, actual: int, expire: int)

  function LedgerStep(db: Db, op: Op): Db
    requires op.Reserve? || op.Settle?
  {
    var e := Get(db, op.key);
    if e.Some? && !e.value.val.Str? then db
    else if op.Reserve? then Put(db, op.key, ReserveEntry(e, op.now, op.delta, op.expire))
    else Put(db, op.key, SettleEntry(e, op.now, op.reserved, op.actual, op.expire))
  }

  function Step(db: Db, op: Op): (Db, Reply) {
    if op.Admit? then Batch(db, op.now, op.rules, op.id)
    else if op.Release? then (ReleaseAll(Live(db, op.now), op.keys, op.id).0, Ok)
    else (LedgerStep(Live(db, op.now), op), Ok)
  }

  lemma StepIsBatch(d: Db, op: Op)
    requires op.Admit?
    ensures Step(d, op) == Batch(d, op.now, op.rules, op.id)
  {
    hide Batch;
  }

  function Run(db: Db, ops: seq<Op>): Db {
    if ops == [] then db else Step(Run(db, ops[..|ops| - 1]), ops[|ops| - 1]).0
  }

  /** The reply to call number `i` of the run. */
  function ReplyTo(db: Db, ops: seq<Op>, i: nat): Reply
    requires i < |ops|
  {
    Step(Run(db, ops[..i]), ops[i]).1
  }

  ghost predicate Ordered(ops: seq<Op>) {
    forall i, j :: 0 <= i < j < |ops| ==> ops[i].now <= ops[j].now
  }

  predicate Touches(op: Op, k: string) {
    match op
    case Admit(_, rules, _) => Reads(rules, |rules|, k)
    case Release(_, keys, _) => k in keys
    case Reserve(_, key, _, _) => key == k
    case Settle(_, key, _, _, _) => key == k
  }

  /** How many batches that use `k` were admitted. */
  function Admitted(db: Db, ops: seq<Op>, k: string): nat {
    if ops == [] then 0
    else
      var n := |ops| - 1;
      Admitted(db, ops[..n], k)
      + (if ops[n].Admit? && Touches(ops[n], k) && ReplyTo(db, ops, n) == Ok then 1 else 0)
  }

  /** The last call of a run. */
  lemma LastStep(db: Db, ops: seq<Op>, k: string)
    requires ops != []
    ensures var n := |ops| - 1;
            var (d, reply) := Step(Run(db, ops[..n]), ops[n]);
            && Run(db, ops) == d && ReplyTo(db, ops, n) == reply
            && Admitted(db, ops, k)
               == Admitted(db, ops[..n], k) + (if ops[n].Admit? && Touches(ops[n], k) && reply == Ok then 1 else 0)
  {
    hide Step, Touches;
  }

  lemma {:induction false} ReleaseFrame(db: Db, keys: seq<string>, id: string, k: string)
    ensures Get(ReleaseAll(db, keys, id).0, k) == if k in keys then ZRem(Get(db, k), id) else Get(db, k)
  {
    if keys != [] {
      var n := |keys| - 1;
      ReleaseFrame(db, keys[..n], id, k);
      assert k in keys <==> k in keys[..n] || k == keys[n];
      ZRemTwice(Get(db, k), id);
    }
  }

  lemma ZRemTwice(e: Option<Entry>, id: string)
    ensures ZRem(ZRem(e, id), id) == ZRem(e, id)
  {}

  /** A call that does not use `k` leaves it alone, up to expiry. */
  lemma Untouched(db: Db, op: Op, k: string)
    requires !Touches(op, k)
    ensures Get(Step(db, op).0, k) == LiveEntry(Get(db, k), op.now)
  {
    LiveGet(db, op.now, k);
    match op {
      case Admit(now, rules, id) =>
        var live := Live(db, now);
        TryAt(live, now, rules, [], k, None, Get(live, k));
        var (mid, t) := TryFrom(live, now, rules, []);
        if t.AllPass? {
          TryFromReadOnly(live, now, rules, []);
          CountAgrees(t.plans, rules, 0, k);
          NoPlansAt(t.plans, rules, k);
          LastPlanIn(t.plans, 0, k);
          CommitLastAt(mid, now, id, t.plans, 0, k);
        }
      case Release(now, keys, id) => ReleaseFrame(Live(db, now), keys, id, k);
      case Reserve(_, _, _, _) =>
      case Settle(_, _, _, _, _) =>
    }
  }

  lemma NoPlansAt(plans: seq<Plan>, rules: seq<LRule>, k: string)
    requires |plans| == |rules| && PlansFor(plans, rules) && !Reads(rules, |rules|, k)
    ensures AllOverride(plans, k)
  {
    forall i | 0 <= i < |plans| && !plans[i].Noop? ensures plans[i].key != k {
      PlanKeys(plans[i], rules[i]);
      assert rules[i].key != k;
    }
  }

  /** All rules on `k` are fixed-window counters with one expiry. */
  predicate FixedOnly(rules: seq<LRule>, k: string, expire: int) {
    forall i | 0 <= i < |rules| && rules[i].key == k :: rules[i].Fixed? && rules[i].expire == expire
  }

  predicate Counter(e: Option<Entry>) { e.Some? ==> e.value.val.Str? }

  function Used(e: Option<Entry>): int
    requires Counter(e)
  {
    if e.None? then 0 else e.value.val.n
  }

  lemma FixedTrial(e: Option<Entry>, r: LRule, now: int)
    requires Counter(e) && r.Fixed?
    ensures Try(e, r, now).Pass? ==> Used(e) + 1 <= r.limit
    ensures Try(e, r, now).Pass? ==> Try(e, r, now).plan == PFixed(r.key, r.expire, Used(e) == 0)
    ensures Try(e, r, now).Fail? ==> Used(e) + 1 > r.limit
  {}

  lemma FixedSole(e: Option<Entry>, rules: seq<LRule>, plans: seq<Plan>, k: string, expire: int, now: int)
    requires Counter(e) && FixedOnly(rules, k, expire)
    requires |plans| == |rules| && PlansFor(plans, rules) && Passed(e, rules, plans, k, now)
    ensures Sole(plans, k, PFixed(k, expire, Used(e) == 0))
    ensures forall i | 0 <= i < |rules| && rules[i].key == k :: Used(e) + 1 <= rules[i].limit
  {
    hide Try, PlanFor;
    forall i | 0 <= i < |rules| && rules[i].key == k
      ensures Used(e) + 1 <= rules[i].limit && plans[i] == PFixed(k, expire, Used(e) == 0)
    {
      FixedTrial(e, rules[i], now);
    }
    forall i | 0 <= i < |plans| && !plans[i].Noop? ensures plans[i].key == rules[i].key {
      assert PlanFor(plans[i], rules[i]);
      PlanKeys(plans[i], rules[i]);
    }
  }

  /** A batch whose rules on `k` are fixed-window counters. */
  lemma FixedBatchAt(db: Db, now: int, rules: seq<LRule>, id: string, k: string, expire: int)
    requires Compatible(rules) && expire > 0 && Reads(rules, |rules|, k) && FixedOnly(rules, k, expire)
    requires Counter(LiveEntry(Get(db, k), now))
    ensures var (d, reply) := Batch(db, now, rules, id);
            var e := LiveEntry(Get(db, k), now);
            && (reply == Ok ==>
                  && (forall i | 0 <= i < |rules| && rules[i].key == k :: Used(e) + 1 <= rules[i].limit)
                  && Get(d, k) == Some(Entry(Str(Used(e) + CountRules(rules, 0, k)),
                                             if Used(e) == 0 then Some(now + expire * 1000) else e.value.exp)))
            && (reply != Ok ==> Get(d, k) == e)
            && (reply.Denied? ==> 1 <= reply.index <= |rules|)
            && (reply.Denied? && rules[reply.index - 1].key == k ==> Used(e) + 1 > rules[reply.index - 1].limit)
            && CountRules(rules, 0, k) >= 1
  {
    hide Try, Commit, PlanFor, Compatible, Clean;
    var live := Live(db, now);
    var e := Get(live, k);
    LiveGet(db, now, k);
    AllOrNothing(db, now, rules, id);
    FixedPurge(rules, k, now, expire);
    TryAt(live, now, rules, [], k, None, e);
    var (mid, t) := TryFrom(live, now, rules, []);
    CountReads(rules, 0, k);
    if t.AllPass? {
      CountAgrees(t.plans, rules, 0, k);
      FixedSole(e, rules, t.plans, k, expire, now);
      CommitFixedAt(mid, now, id, t.plans, 0, k, expire, Used(e) == 0);
    } else if t.reply.Denied? {
      var i := t.reply.index - 1;
      if rules[i].key == k { FixedTrial(e, rules[i], now); }
    }
  }

  lemma FixedPurge(rules: seq<LRule>, k: string, now: int, expire: int)
    requires FixedOnly(rules, k, expire)
    ensures Uniform(rules, k, now, None)
    ensures Reads(rules, |rules|, k) ==> exists i :: 0 <= i < |rules| && Writes(rules[i]) && rules[i].key == k
  {}

  lemma {:induction false} CountReads(rules: seq<LRule>, from: nat, k: string)
    requires from <= |rules|
    ensures (exists i :: from <= i < |rules| && Writes(rules[i]) && rules[i].key == k) <==> CountRules(rules, from, k) >= 1
    decreases |rules| - from
  {
    if from < |rules| { CountReads(rules, from + 1, k); }
  }

  /** All rules on `k` are of one of the kinds whose writes replace one another. */
  predicate OneKind(rules: seq<LRule>, k: string) {
    || (forall i | 0 <= i < |rules| && rules[i].key == k :: rules[i].Sliding? && rules[i].window > 0)
    || (forall i | 0 <= i < |rules| && rules[i].key == k :: rules[i].Bucket? && rules[i].burst >= 0)
    || (forall i | 0 <= i < |rules| && rules[i].key == k :: rules[i].Conc? && rules[i].ttl > 0)
  }

  /** The last rule on `k`. */
  function LastOn(rules: seq<LRule>, k: string): (n: nat)
    requires Reads(rules, |rules|, k)
    ensures n < |rules| && rules[n].key == k && forall i :: n < i < |rules| ==> rules[i].key != k
  {
    var m := |rules| - 1;
    if rules[m].key == k then m
    else
      assert Reads(rules[..m], m, k) by {
        var i :| 0 <= i < |rules| && rules[i].key == k;
        assert rules[..m][i].key == k;
      }
      var n := LastOn(rules[..m], k);
      assert forall i :: n < i < m ==> rules[i] == rules[..m][i];
      n
  }

  lemma KindWrites(rules: seq<LRule>, k: string)
    requires OneKind(rules, k)
    ensures forall i | 0 <= i < |rules| && rules[i].key == k :: Writes(rules[i])
  {}

  /** The plans of such rules replace one another, and the last one is that of the last rule. */
  lemma KindPlans(plans: seq<Plan>, rules: seq<LRule>, k: string)
    requires |plans| == |rules| && PlansFor(plans, rules) && OneKind(rules, k) && Reads(rules, |rules|, k)
    ensures AllOverride(plans, k) && LastPlan(plans, 0, k) == plans[LastOn(rules, k)]
  {
    KindWrites(rules, k);
    forall i | 0 <= i < |plans| ensures !plans[i].Noop? && plans[i].key == k <==> rules[i].key == k {
      PlanKeys(plans[i], rules[i]);
    }
    assert forall i :: 0 <= i < |plans| ==> PlanFor(plans[i], rules[i]);
    hide LastPlan, LastOn;
    LastPlanAt(plans, 0, LastOn(rules, k), k);
  }

  lemma {:induction false} LastPlanAt(plans: seq<Plan>, i: nat, n: nat, k: string)
    requires i <= n < |plans| && !plans[n].Noop? && plans[n].key == k
    requires forall j :: n < j < |plans| ==> plans[j].Noop? || plans[j].key != k
    ensures LastPlan(plans, i, k) == plans[n]
    decreases n - i
  {
    if i < n { LastPlanAt(plans, i + 1, n, k); } else { NonePlanned(plans, n + 1, k); }
  }

  lemma {:induction false} NonePlanned(plans: seq<Plan>, i: nat, k: string)
    requires i <= |plans| && forall j :: i <= j < |plans| ==> plans[j].Noop? || plans[j].key != k
    ensures LastPlan(plans, i, k).Noop?
    decreases |plans| - i
  {
    if i < |plans| { NonePlanned(plans, i + 1, k); }
  }

  /** A batch whose rules on `k` write sets or hashes of one kind: every one of them has to pass, and the last one's write is
      all that remains. */
  lemma PlanBatchAt(db: Db, now: int, rules: seq<LRule>, id: string, k: string, hi: Option<int>)
    requires Compatible(rules) && Reads(rules, |rules|, k) && Uniform(rules, k, now, hi) && OneKind(rules, k)
    ensures var (d, reply) := Batch(db, now, rules, id);
            var e := PurgeTo(LiveEntry(Get(db, k), now), hi);
            var last := Try(e, rules[LastOn(rules, k)], now);
            && (reply == Ok ==>
                  && (forall i | 0 <= i < |rules| && rules[i].key == k :: Try(e, rules[i], now).Pass?)
                  && last.Pass? && Commit(e, last.plan, now, id) == Some(Get(d, k)))
            && (reply != Ok ==> Get(d, k) == LiveEntry(Get(db, k), now) || Get(d, k) == e)
            && (reply.Denied? ==> 1 <= reply.index <= |rules|)
            && (reply.Denied? && rules[reply.index - 1].key == k ==> Try(e, rules[reply.index - 1], now) == Fail(reply.retry))
  {
    hide *;
    BatchIs(db, now, rules, id);
    AllOrNothing(db, now, rules, id);
    TrialAt(db, now, rules, k, hi);
    var (mid, t) := TryFrom(Live(db, now), now, rules, []);
    if t.AllPass? { LastWrite(mid, now, rules, t.plans, id, k, PurgeTo(LiveEntry(Get(db, k), now), hi)); }
  }

  /** Phase 1 of such a batch at `k`. */
  lemma TrialAt(db: Db, now: int, rules: seq<LRule>, k: string, hi: Option<int>)
    requires Reads(rules, |rules|, k) && Uniform(rules, k, now, hi)
    ensures var (mid, t) := TryFrom(Live(db, now), now, rules, []);
            var e := PurgeTo(LiveEntry(Get(db, k), now), hi);
            && (Get(mid, k) == LiveEntry(Get(db, k), now) || Get(mid, k) == e)
            && (t.AllPass? ==> Get(mid, k) == e && Passed(e, rules, t.plans, k, now))
            && (t.Stopped? && t.reply.Denied? ==> 1 <= t.reply.index <= |rules|)
            && (t.Stopped? && t.reply.Denied? && rules[t.reply.index - 1].key == k ==>
                  Try(e, rules[t.reply.index - 1], now) == Fail(t.reply.retry))
  {
    hide *;
    LiveGet(db, now, k);
    var e := PurgeTo(LiveEntry(Get(db, k), now), hi);
    NothingPassed(e, rules, k, now);
    TryAt(Live(db, now), now, rules, [], k, hi, e);
  }

  lemma NothingPassed(e: Option<Entry>, rules: seq<LRule>, k: string, now: int)
    ensures Passed(e, rules, [], k, now) && !Reads(rules, 0, k)
  {
    hide Try;
  }

  /** Phase 2 of such a batch at `k`. */
  lemma LastWrite(mid: Db, now: int, rules: seq<LRule>, plans: seq<Plan>, id: string, k: string, e: Option<Entry>)
    requires Reads(rules, |rules|, k) && OneKind(rules, k) && |plans| == |rules| && PlansFor(plans, rules)
    requires Get(mid, k) == e && Passed(e, rules, plans, k, now)
    ensures var (d, ok) := CommitFrom(mid, now, id, plans, 0);
            var last := Try(e, rules[LastOn(rules, k)], now);
            && (forall i | 0 <= i < |rules| && rules[i].key == k :: Try(e, rules[i], now).Pass?)
            && last.Pass? && (ok ==> Commit(e, last.plan, now, id) == Some(Get(d, k)))
  {
    var n := LastOn(rules, k);
    KindPlans(plans, rules, k);
    KindWrites(rules, k);
    PlanKeys(plans[n], rules[n]);
    CommitLastAt(mid, now, id, plans, 0, k);
    hide Try, Commit, CommitFrom, LastOn, PlanFor, OneKind, LastPlan, AllOverride;
  }
}
