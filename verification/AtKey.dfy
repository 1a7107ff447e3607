/** One key's view of a batch: what phase 1 lets through and what phase 2 leaves on it. */
module AtKey {
  import opened Prelude
  import opened Redis
  import opened BatchCheck
  import opened TwoPhase

  /** Every rule on `k` cleans up to the same score. */
  predicate Uniform(rules: seq<LRule>, k: string, now: int, hi: Option<int>) {
    forall i | 0 <= i < |rules| && rules[i].key == k :: PurgeBound(rules[i], now) == hi
  }

  /** The first `n` rules that read `k` passed on its cleaned entry `e` and planned `plans`. */
  predicate Passed(e: Option<Entry>, rules: seq<LRule>, plans: seq<Plan>, k: string, now: int) {
    && |plans| <= |rules|
    && forall i | 0 <= i < |plans| && rules[i].key == k :: Try(e, rules[i], now) == Pass(plans[i])
  }

  predicate Reads(rules: seq<LRule>, n: nat, k: string)
    requires n <= |rules|
  {
    exists i :: 0 <= i < n && rules[i].key == k
  }

  lemma PurgeTwice(e: Option<Entry>, hi: Option<int>)
    ensures PurgeTo(PurgeTo(e, hi), hi) == PurgeTo(e, hi)
  {
    if hi.Some? && e.Some? && e.value.val.ZSet? {
      var m := DropUpTo(e.value.val.scores, hi.value);
      assert DropUpTo(m, hi.value) == m;
    }
  }

  lemma PurgedSet(e: Option<Entry>, hi: int)
    ensures var c := ZRemUpTo(e, hi);
            ZRemUpTo(c, hi) == c && (e.None? ==> c.None?) && (e.Some? && e.value.val.ZSet? && c.Some? ==> c.value.val.ZSet?)
  {
    PurgeTwice(e, Some(hi));
  }

  lemma PurgeIs(e: Option<Entry>, hi: int)
    ensures PurgeTo(e, Some(hi)) == ZRemUpTo(e, hi) && PurgeTo(e, None) == e
  {}

  lemma PurgeBoundIs(r: LRule, now: int)
    ensures PurgeBound(r, now)
            == match r case Sliding(_, _, window) => Some(now - window) case Conc(_, _, _) => Some(now) case _ => None
  {}

  lemma TryCleaned(e: Option<Entry>, r: LRule, now: int)
    ensures !Try(e, r, now).WrongType? ==> Try(PurgeTo(e, PurgeBound(r, now)), r, now) == Try(e, r, now)
  {
    hide *;
    PurgeBoundIs(r, now);
    match r {
      case Sliding(k, limit, window) =>
        PurgeIs(e, now - window);
        SlidingCleaned(e, k, limit, window, now);
        SlidingTryIs(e, k, limit, window, now);
      case Conc(k, limit, ttl) =>
        PurgeIs(e, now);
        ConcCleaned(e, k, limit, ttl, now);
        ConcTryIs(e, k, limit, ttl, now);
      case _ =>
        PurgeIs(e, 0);
    }
  }

  lemma SlidingTryIs(e: Option<Entry>, k: string, limit: int, window: int, now: int)
    ensures Try(e, Sliding(k, limit, window), now)
            == if e.Some? && !e.value.val.ZSet? then WrongType
               else
                 var m := Scores(ZRemUpTo(e, now - window));
                 if |m| + 1 > limit then Fail(SlidingWait(m, window, now)) else Pass(PSliding(k, window))
  {
    hide ZRemUpTo, Scores, SlidingWait;
  }

  lemma SlidingCleaned(e: Option<Entry>, k: string, limit: int, window: int, now: int)
    ensures var r := Sliding(k, limit, window);
            e.None? || e.value.val.ZSet? ==> Try(ZRemUpTo(e, now - window), r, now) == Try(e, r, now)
  {
    hide *;
    var c := ZRemUpTo(e, now - window);
    PurgedSet(e, now - window);
    SlidingTryIs(e, k, limit, window, now);
    SlidingTryIs(c, k, limit, window, now);
  }

  lemma ConcTryIs(e: Option<Entry>, k: string, limit: int, ttl: int, now: int)
    ensures Try(e, Conc(k, limit, ttl), now)
            == if e.Some? && !e.value.val.ZSet? then WrongType
               else if |Scores(ZRemUpTo(e, now))| + 1 > limit then Fail(ttl) else Pass(PConc(k, now + ttl, ttl))
  {
    hide ZRemUpTo, Scores;
  }

  lemma ConcCleaned(e: Option<Entry>, k: string, limit: int, ttl: int, now: int)
    ensures var r := Conc(k, limit, ttl);
            e.None? || e.value.val.ZSet? ==> Try(ZRemUpTo(e, now), r, now) == Try(e, r, now)
  {
    hide *;
    var c := ZRemUpTo(e, now);
    PurgedSet(e, now);
    ConcTryIs(e, k, limit, ttl, now);
    ConcTryIs(c, k, limit, ttl, now);
  }

  /** One trial at `k`, and the cleanup it leaves. */
  lemma TryStep(db: Db, now: int, rules: seq<LRule>, plans: seq<Plan>, k: string, hi: Option<int>, e: Option<Entry>)
    requires Uniform(rules, k, now, hi) && |plans| < |rules|
    requires PurgeTo(Get(db, k), hi) == e && (Reads(rules, |plans|, k) ==> Get(db, k) == e)
    requires Passed(e, rules, plans, k, now)
    ensures var r := rules[|plans|];
            var v := Try(Get(db, r.key), r, now);
            var d := Clean(db, r, now);
            && PurgeTo(Get(d, k), hi) == e
            && Get(d, k) == (if r.key == k then e else Get(db, k))
            && (Reads(rules, |plans| + 1, k) ==> Get(d, k) == e)
            && (v.Pass? ==> Passed(e, rules, plans + [v.plan], k, now))
            && (r.key == k && !v.WrongType? ==> Try(e, r, now) == v)
  {
    var r := rules[|plans|];
    TryCleaned(Get(db, r.key), r, now);
    PurgeTwice(Get(db, k), hi);
    PutGet(db, r.key, PurgeTo(Get(db, r.key), PurgeBound(r, now)), k);
    assert r.key == k ==> PurgeBound(r, now) == hi;
    hide Try, PurgeTo, PurgeBound, Get, Put;
    assert Reads(rules, |plans| + 1, k) ==> Reads(rules, |plans|, k) || r.key == k;
  }

  lemma TryUnfold(db: Db, now: int, rules: seq<LRule>, plans: seq<Plan>)
    requires |plans| <= |rules|
    ensures TryFrom(db, now, rules, plans)
            == if |plans| == |rules| then (db, AllPass(plans))
               else
                 var r := rules[|plans|];
                 match Try(Get(db, r.key), r, now)
                 case WrongType => (db, Stopped(ScriptError))
                 case Fail(retry) => (Clean(db, r, now), Stopped(Denied(|plans| + 1, retry)))
                 case Pass(p) => TryFrom(Clean(db, r, now), now, rules, plans + [p])
  {
    hide Try, Clean;
  }

  /** Phase 1 at `k`: the entry is left alone or cleaned; a pass or a refusal there is the trial of a rule on the cleaned entry. */
  lemma {:induction false} TryAt(db: Db, now: int, rules: seq<LRule>, plans: seq<Plan>, k: string, hi: Option<int>, e: Option<Entry>)
    requires Uniform(rules, k, now, hi) && |plans| <= |rules|
    requires PurgeTo(Get(db, k), hi) == e && (Reads(rules, |plans|, k) ==> Get(db, k) == e)
    requires Passed(e, rules, plans, k, now)
    ensures var (d, t) := TryFrom(db, now, rules, plans);
            && PurgeTo(Get(d, k), hi) == e
            && (Get(d, k) == Get(db, k) || Get(d, k) == e)
            && (t.AllPass? ==> Passed(e, rules, t.plans, k, now) && (Reads(rules, |rules|, k) ==> Get(d, k) == e))
            && (t.Stopped? && t.reply.Denied? ==>
                  && 1 <= t.reply.index <= |rules|
                  && (rules[t.reply.index - 1].key == k ==> Try(e, rules[t.reply.index - 1], now) == Fail(t.reply.retry)))
    decreases |rules| - |plans|
  {
    hide *;
    TryUnfold(db, now, rules, plans);
    if |plans| < |rules| {
      var r := rules[|plans|];
      var v := Try(Get(db, r.key), r, now);
      TryStep(db, now, rules, plans, k, hi, e);
      if v.Pass? { TryAt(Clean(db, r, now), now, rules, plans + [v.plan], k, hi, e); }
    }
  }

  function Count(plans: seq<Plan>, from: nat, k: string): nat
    requires from <= |plans|
    decreases |plans| - from
  {
    if from == |plans| then 0
    else (if !plans[from].Noop? && plans[from].key == k then 1 else 0) + Count(plans, from + 1, k)
  }

  /** Every plan for `k` is the one plan `p`. */
  predicate Sole(plans: seq<Plan>, k: string, p: Plan) {
    forall i | 0 <= i < |plans| && !plans[i].Noop? && plans[i].key == k :: plans[i] == p
  }

  /** Plans of one kind, neither of which is a counter: whichever comes second replaces what the first wrote. */
  predicate Overrides(p: Plan, q: Plan) {
    match p
    case PSliding(_, window) => q.PSliding? && window > 0
    case PBucket(_, _, _, _, burst) => q.PBucket? && burst >= 0
    case PConc(_, _, ttl) => q.PConc? && ttl > 0
    case _ => false
  }

  predicate AllOverride(plans: seq<Plan>, k: string) {
    forall i, j | 0 <= i < |plans| && 0 <= j < |plans| && !plans[i].Noop? && !plans[j].Noop? ::
      plans[i].key == k == plans[j].key ==> Overrides(plans[i], plans[j])
  }

  /** The last plan for `k` from index `i` on; Noop when there is none. */
  function LastPlan(plans: seq<Plan>, i: nat, k: string): (p: Plan)
    requires i <= |plans|
    decreases |plans| - i
  {
    if i == |plans| then Noop
    else
      var rest := LastPlan(plans, i + 1, k);
      if rest.Noop? && !plans[i].Noop? && plans[i].key == k then plans[i] else rest
  }

  lemma {:induction false} LastPlanIn(plans: seq<Plan>, i: nat, k: string)
    requires i <= |plans|
    ensures var p := LastPlan(plans, i, k); !p.Noop? ==> p.key == k && exists j :: i <= j < |plans| && plans[j] == p
    ensures LastPlan(plans, i, k).Noop? <==> Count(plans, i, k) == 0
    decreases |plans| - i
  {
    if i < |plans| { LastPlanIn(plans, i + 1, k); }
  }

  lemma BucketTtlPositive(rate: Rate, burst: int)
    requires burst >= 0
    ensures BucketTtl(rate, burst) > 0
  {
    var x := burst as real / rate;
    assert x * rate == burst as real;
    Product(if x < 0.0 then -x else x, rate);
    assert x < 0.0 ==> x * rate == -((-x) * rate);
    assert x >= 0.0;
  }

  /** The second of two such writes is all that remains. */
  lemma CommitOver(e: Option<Entry>, p: Plan, q: Plan, now: int, id: string)
    requires Overrides(p, q) && Commit(e, p, now, id).Some?
    ensures Commit(Commit(e, p, now, id).value, q, now, id) == Commit(e, q, now, id)
  {
    match p {
      case PSliding(_, window) =>
        assert Scores(e)[id + ":1" := now][id + ":1" := now] == Scores(e)[id + ":1" := now];
      case PConc(_, deadline, ttl) =>
        assert Scores(e)[id := deadline][id := q.deadline] == Scores(e)[id := q.deadline];
      case PBucket(_, _, _, rate, burst) =>
        BucketTtlPositive(rate, burst);
    }
  }

  lemma LastPlanStep(plans: seq<Plan>, i: nat, k: string)
    requires i < |plans| && AllOverride(plans, k)
    ensures var q, p := plans[i], LastPlan(plans, i + 1, k);
            && LastPlan(plans, i, k) == (if p.Noop? && !q.Noop? && q.key == k then q else p)
            && (!q.Noop? && q.key == k && !p.Noop? ==> Overrides(q, p))
  {
    LastPlanIn(plans, i + 1, k);
    hide Overrides, Count;
  }

  /** Phase 2 at `k` when its plans replace one another: the last one is all that remains. */
  lemma {:induction false} CommitLastAt(db: Db, now: int, id: string, plans: seq<Plan>, i: nat, k: string)
    requires i <= |plans| && AllOverride(plans, k)
    ensures var (d, ok) := CommitFrom(db, now, id, plans, i);
            var p := LastPlan(plans, i, k);
            && (p.Noop? ==> Get(d, k) == Get(db, k))
            && (ok && !p.Noop? ==> Some(Get(d, k)) == Commit(Get(db, k), p, now, id))
    decreases |plans| - i
  {
    hide *;
    CommitUnfold(db, now, id, plans, i);
    if i == |plans| {
      NoLastPlan(plans, k);
    } else {
      var q := plans[i];
      LastPlanStep(plans, i, k);
      if q.Noop? {
        CommitLastAt(db, now, id, plans, i + 1, k);
      } else {
        var c := Commit(Get(db, q.key), q, now, id);
        if c.Some? {
          PutGet(db, q.key, c.value, k);
          CommitLastAt(Put(db, q.key, c.value), now, id, plans, i + 1, k);
          if q.key == k && !LastPlan(plans, i + 1, k).Noop? {
            CommitOver(Get(db, k), q, LastPlan(plans, i + 1, k), now, id);
          }
        }
      }
    }
  }

  lemma NoLastPlan(plans: seq<Plan>, k: string)
    ensures LastPlan(plans, |plans|, k).Noop?
  {}

  /** Phase 2 at `k` when all its plans are counter writes planned on the same entry: one increment a plan. */
  lemma {:induction false} CommitFixedAt(db: Db, now: int, id: string, plans: seq<Plan>, i: nat, k: string, expire: int, isNew: bool)
    requires i <= |plans| && Sole(plans, k, PFixed(k, expire, isNew)) && expire > 0
    requires var e := Get(db, k); e.Some? ==> e.value.val.Str?
    requires !isNew ==> Get(db, k).Some?
    ensures var (d, ok) := CommitFrom(db, now, id, plans, i);
            var c := Count(plans, i, k);
            && (c == 0 ==> Get(d, k) == Get(db, k))
            && (ok && c > 0 ==> Get(d, k) == Some(Entry(
                  Str((if Get(db, k).None? then 0 else Get(db, k).value.val.n) + c),
                  if isNew then Some(now + expire * 1000) else Get(db, k).value.exp)))
    decreases |plans| - i
  {
    if i < |plans| {
      var q := plans[i];
      if q.Noop? {
        CommitFixedAt(db, now, id, plans, i + 1, k, expire, isNew);
      } else if Commit(Get(db, q.key), q, now, id).Some? {
        var e := Commit(Get(db, q.key), q, now, id).value;
        PutGet(db, q.key, e, k);
        assert q.key == k ==> e.Some? && e.value.val.Str?;
        CommitFixedAt(Put(db, q.key, e), now, id, plans, i + 1, k, expire, isNew);
      }
    }
  }

  function CountRules(rules: seq<LRule>, from: nat, k: string): nat
    requires from <= |rules|
    decreases |rules| - from
  {
    if from == |rules| then 0
    else (if Writes(rules[from]) && rules[from].key == k then 1 else 0) + CountRules(rules, from + 1, k)
  }

  lemma {:induction false} CountAgrees(plans: seq<Plan>, rules: seq<LRule>, from: nat, k: string)
    requires from <= |plans| == |rules| && PlansFor(plans, rules)
    ensures Count(plans, from, k) == CountRules(rules, from, k)
    ensures Count(plans, from, k) > 0 <==> exists i :: from <= i < |rules| && Writes(rules[i]) && rules[i].key == k
    decreases |plans| - from
  {
    if from < |plans| {
      PlanKeys(plans[from], rules[from]);
      CountAgrees(plans, rules, from + 1, k);
    }
  }
}
