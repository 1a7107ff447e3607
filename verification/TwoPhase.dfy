/** The two-phase property of the admission script: a batch commits every writing rule or changes
    nothing, exactly when no two writing rules of different value types share a key. */
module TwoPhase {
  import opened Prelude
  import opened Redis
  import opened BatchCheck

  predicate Writes(r: LRule) { !r.TkAdmit? && !r.Unknown? }

  /** Whether an entry is of the type the rule's commands need; an absent key fits every type. */
  predicate Fits(e: Option<Entry>, r: LRule) {
    e.Some? ==>
      match r
      case Fixed(_, _, _) => e.value.val.Str?
      case TkAdmit(_, _) => e.value.val.Str?
      case Bucket(_, _, _) => e.value.val.Hash?
      case Sliding(_, _, _) => e.value.val.ZSet?
      case Conc(_, _, _) => e.value.val.ZSet?
      case Unknown(_) => true
  }

  predicate SameType(r: LRule, s: LRule) {
    || (r.Fixed? && s.Fixed?)
    || (r.Bucket? && s.Bucket?)
    || ((r.Sliding? || r.Conc?) && (s.Sliding? || s.Conc?))
  }

  /** What a caller can check before the call: writing rules on one key agree on the value type. */
  predicate Compatible(rules: seq<LRule>) {
    forall i, j | 0 <= i < |rules| && 0 <= j < |rules| && rules[i].key == rules[j].key ::
      Writes(rules[i]) && Writes(rules[j]) ==> SameType(rules[i], rules[j])
  }

  /** A score the cleanup of some rule on this key removes. */
  predicate Stale(rules: seq<LRule>, k: string, score: int, now: int) {
    exists i :: 0 <= i < |rules| && rules[i].key == k && PurgeBound(rules[i], now).Some?
      && 0 <= score <= PurgeBound(rules[i], now).value
  }

  /** `d` reads as `e` at key `k` up to set members that are stale for one of the rules. */
  predicate StaleAt(e: Option<Entry>, d: Option<Entry>, rules: seq<LRule>, k: string, now: int) {
    if e.None? || !e.value.val.ZSet? then d == e
    else
      && (d.Some? ==> d.value.val.ZSet? && d.value.exp == e.value.exp)
      && (forall m :: m in Scores(d) ==> m in Scores(e) && Scores(d)[m] == Scores(e)[m])
      && (forall m :: m in Scores(e) && m !in Scores(d) ==> Stale(rules, k, Scores(e)[m], now))
  }

  ghost predicate OnlyStaleRemoved(db: Db, d: Db, rules: seq<LRule>, now: int) {
    forall k :: StaleAt(Get(db, k), Get(d, k), rules, k, now)
  }

  /** Plan `p` is the write that rule `r` planned. */
  predicate PlanFor(p: Plan, r: LRule) {
    match p
    case Noop => !Writes(r)
    case PFixed(k, x, _) => r.Fixed? && r.key == k && r.expire == x
    case PSliding(k, w) => r.Sliding? && r.key == k && r.window == w
    case PBucket(k, _, _, rate, burst) => r.Bucket? && r.key == k && r.rate == rate && r.burst == burst
    case PConc(k, _, ttl) => r.Conc? && r.key == k && r.ttl == ttl
  }

  predicate PlansFor(plans: seq<Plan>, rules: seq<LRule>) {
    |plans| <= |rules| && forall i :: 0 <= i < |plans| ==> PlanFor(plans[i], rules[i])
  }

  predicate Fitted(db: Db, rules: seq<LRule>, from: nat, to: nat)
    requires from <= to <= |rules|
  {
    forall i :: from <= i < to && Writes(rules[i]) ==> Fits(Get(db, rules[i].key), rules[i])
  }

  lemma BatchIs(db: Db, now: int, rules: seq<LRule>, id: string)
    ensures var (d, t) := TryFrom(Live(db, now), now, rules, []);
            Batch(db, now, rules, id)
            == match t
               case Stopped(reply) => (d, reply)
               case AllPass(plans) => (CommitFrom(d, now, id, plans, 0).0, if CommitFrom(d, now, id, plans, 0).1 then Ok else ScriptError)
  {
    hide TryFrom, CommitFrom;
  }

  // Phase 1.

  lemma CleanStale(db: Db, rules: seq<LRule>, i: nat, now: int)
    requires i < |rules|
    ensures OnlyStaleRemoved(db, Clean(db, rules[i], now), rules, now)
    ensures forall k, r :: Fits(Get(db, k), r) ==> Fits(Get(Clean(db, rules[i], now), k), r)
  {
    forall k ensures StaleAt(Get(db, k), Get(Clean(db, rules[i], now), k), rules, k, now) {
      PutGet(db, rules[i].key, PurgeTo(Get(db, rules[i].key), PurgeBound(rules[i], now)), k);
    }
  }

  lemma StaleTrans(a: Db, b: Db, c: Db, rules: seq<LRule>, now: int)
    requires OnlyStaleRemoved(a, b, rules, now) && OnlyStaleRemoved(b, c, rules, now)
    ensures OnlyStaleRemoved(a, c, rules, now)
  {
    forall k ensures StaleAt(Get(a, k), Get(c, k), rules, k, now) {
      assert StaleAt(Get(a, k), Get(b, k), rules, k, now) && StaleAt(Get(b, k), Get(c, k), rules, k, now);
    }
  }

  lemma TryPlans(e: Option<Entry>, r: LRule, now: int)
    ensures Try(e, r, now).Pass? ==> PlanFor(Try(e, r, now).plan, r) && Fits(e, r)
  {}

  /** Phase 1 removes stale set members and nothing else; when it passes, every planned write fits its key. */
  lemma {:induction false} TryFromReadOnly(db: Db, now: int, rules: seq<LRule>, plans: seq<Plan>)
    requires PlansFor(plans, rules) && Fitted(db, rules, 0, |plans|)
    ensures var (d, t) := TryFrom(db, now, rules, plans);
            && OnlyStaleRemoved(db, d, rules, now)
            && (t.AllPass? ==> |t.plans| == |rules| && PlansFor(t.plans, rules) && Fitted(d, rules, 0, |rules|))
            && (t.Stopped? ==> t.reply != Ok)
    decreases |rules| - |plans|
  {
    if |plans| < |rules| {
      hide Try, Clean, PlanFor, Fits, OnlyStaleRemoved, StaleAt;
      var r := rules[|plans|];
      var v := Try(Get(db, r.key), r, now);
      TryPlans(Get(db, r.key), r, now);
      CleanStale(db, rules, |plans|, now);
      SelfStale(db, rules, now);
      if v.Pass? {
        TryFromReadOnly(Clean(db, r, now), now, rules, plans + [v.plan]);
        StaleTrans(db, Clean(db, r, now), TryFrom(db, now, rules, plans).0, rules, now);
      }
    } else {
      SelfStale(db, rules, now);
    }
  }

  lemma SelfStale(db: Db, rules: seq<LRule>, now: int)
    ensures OnlyStaleRemoved(db, db, rules, now)
  {}

  // Phase 2.

  lemma CommitFits(e: Option<Entry>, p: Plan, now: int, id: string, r: LRule)
    requires PlanFor(p, r) && Writes(r)
    ensures Commit(e, p, now, id).Some? <==> Fits(e, r)
    ensures forall s :: Fits(e, r) && Writes(s) ==> (SameType(r, s) ==> Fits(Commit(e, p, now, id).value, s))
    ensures Fits(e, r) && Lasting(r) ==> Commit(e, p, now, id).value.Some?
    ensures forall s :: Fits(e, r) && Lasting(r) && Writes(s) ==>
              (Fits(Commit(e, p, now, id).value, s) <==> SameType(r, s))
  {}

  /** The expiries Check sends for validated rules are positive, except a fixed rule's on a key that already has one. */
  predicate Lasting(r: LRule) {
    match r
    case Fixed(_, _, expire) => expire > 0
    case Sliding(_, _, window) => window > 0
    case Bucket(_, _, burst) => burst >= 0
    case Conc(_, _, ttl) => ttl > 0
    case TkAdmit(_, _) => true
    case Unknown(_) => true
  }

  lemma {:induction false} CommitFromSucceeds(db: Db, now: int, id: string, plans: seq<Plan>, rules: seq<LRule>, i: nat)
    requires i <= |plans| == |rules| && PlansFor(plans, rules) && Fitted(db, rules, i, |rules|) && Compatible(rules)
    ensures CommitFrom(db, now, id, plans, i).1
    decreases |plans| - i
  {
    if i < |plans| {
      if plans[i].Noop? {
        CommitFromSucceeds(db, now, id, plans, rules, i + 1);
      } else {
        hide Commit, PlanFor, Fits;
        var e := Get(db, plans[i].key);
        assert PlanFor(plans[i], rules[i]);
        PlanKeys(plans[i], rules[i]);
        CommitFits(e, plans[i], now, id, rules[i]);
        CommitFromSucceeds(Put(db, plans[i].key, Commit(e, plans[i], now, id).value), now, id, plans, rules, i + 1);
      }
    }
  }

  lemma PlanKeys(p: Plan, r: LRule)
    requires PlanFor(p, r)
    ensures p.Noop? <==> !Writes(r)
    ensures !p.Noop? ==> p.key == r.key
  {}

  /** All or nothing: for compatible rules the reply Ok means every plan was committed, and any other
      reply means that nothing but stale set members went away. */
  lemma AllOrNothing(db: Db, now: int, rules: seq<LRule>, id: string)
    requires Compatible(rules)
    ensures var (d, reply) := Batch(db, now, rules, id);
            var (mid, t) := TryFrom(Live(db, now), now, rules, []);
            && OnlyStaleRemoved(Live(db, now), mid, rules, now)
            && (reply == Ok <==> t.AllPass?)
            && (reply == Ok ==> |t.plans| == |rules| && PlansFor(t.plans, rules) && (d, true) == CommitFrom(mid, now, id, t.plans, 0))
            && (reply != Ok ==> d == mid)
  {
    TryFromReadOnly(Live(db, now), now, rules, []);
    var (mid, t) := TryFrom(Live(db, now), now, rules, []);
    if t.AllPass? {
      CommitFromSucceeds(mid, now, id, t.plans, rules, 0);
    }
  }

  // The converse: an incompatible list can stop half way.

  /** A rule that admits at least one request on an unused key. */
  predicate Usable(r: LRule) {
    && Lasting(r)
    && match r
       case Fixed(_, limit, _) => limit >= 1
       case Sliding(_, limit, _) => limit >= 1
       case Bucket(_, _, burst) => burst >= 1
       case Conc(_, limit, _) => limit >= 1
       case TkAdmit(_, limit) => limit >= 1
       case Unknown(_) => true
  }

  predicate AllUsable(rules: seq<LRule>) { forall i :: 0 <= i < |rules| ==> Usable(rules[i]) }

  lemma {:induction false} EmptyStorePasses(now: int, rules: seq<LRule>, plans: seq<Plan>)
    requires AllUsable(rules) && |plans| <= |rules|
    ensures TryFrom(map[], now, rules, plans).0 == map[] && TryFrom(map[], now, rules, plans).1.AllPass?
    decreases |rules| - |plans|
  {
    if |plans| < |rules| {
      var r := rules[|plans|];
      assert Usable(r);
      EmptyTrial(r, now);
      hide Try, Clean, Usable;
      EmptyStorePasses(now, rules, plans + [Try(None, r, now).plan]);
    }
  }

  lemma EmptyTrial(r: LRule, now: int)
    requires Usable(r)
    ensures Try(None, r, now).Pass? && Clean(map[], r, now) == map[]
  {}

  predicate Clashes(rules: seq<LRule>, from: nat, w: nat)
    requires w < |rules|
  {
    exists j :: from <= j < |rules| && Writes(rules[j]) && rules[j].key == rules[w].key && !SameType(rules[w], rules[j])
  }

  /** Once a rule's write is in, its key holds that type until a write of another type fails. */
  lemma {:induction false} WrittenStays(db: Db, now: int, id: string, plans: seq<Plan>, rules: seq<LRule>, i: nat, w: nat)
    requires w < i <= |plans| == |rules| && PlansFor(plans, rules) && AllUsable(rules) && Writes(rules[w])
    requires Get(db, rules[w].key).Some? && Fits(Get(db, rules[w].key), rules[w])
    ensures Get(CommitFrom(db, now, id, plans, i).0, rules[w].key).Some?
    ensures Clashes(rules, i, w) ==> !CommitFrom(db, now, id, plans, i).1
    decreases |plans| - i
  {
    if i < |plans| {
      if plans[i].Noop? {
        WrittenStays(db, now, id, plans, rules, i + 1, w);
      } else {
        var e := Get(db, plans[i].key);
        assert Usable(rules[i]) && Usable(rules[w]);
        CommitFits(e, plans[i], now, id, rules[i]);
        StrictFit(e, rules[w], rules[i]);
        if Commit(e, plans[i], now, id).Some? {
          hide Commit;
          WrittenStays(Put(db, plans[i].key, Commit(e, plans[i], now, id).value), now, id, plans, rules, i + 1, w);
        }
      }
    }
  }

  lemma StrictFit(e: Option<Entry>, w: LRule, r: LRule)
    requires Writes(w) && Writes(r)
    ensures e.Some? && Fits(e, w) ==> (Fits(e, r) <==> SameType(w, r))
  {}

  lemma {:induction false} SkipNoops(db: Db, now: int, id: string, plans: seq<Plan>, i: nat, w: nat)
    requires i <= w < |plans| && !plans[w].Noop? && forall j :: i <= j < w ==> plans[j].Noop?
    ensures CommitFrom(db, now, id, plans, i) == CommitFrom(db, now, id, plans, w)
    decreases w - i
  {
    hide Commit;
    if i < w { SkipNoops(db, now, id, plans, i + 1, w); }
  }

  /** On the empty store an incompatible list of usable rules fails half way: an error is reported, yet a write stays. */
  lemma IncompatibleTears(now: int, rules: seq<LRule>, id: string)
    requires AllUsable(rules) && !Compatible(rules)
    ensures Batch(map[], now, rules, id).1 == ScriptError && Batch(map[], now, rules, id).0 != map[]
  {
    var i, j :| 0 <= i < |rules| && 0 <= j < |rules| && Writes(rules[i]) && Writes(rules[j])
      && rules[i].key == rules[j].key && !SameType(rules[i], rules[j]);
    Tears(now, rules, id, Min(i, j), Max(i, j));
  }

  lemma Tears(now: int, rules: seq<LRule>, id: string, i: nat, j: nat)
    requires AllUsable(rules) && i < j < |rules| && Writes(rules[i]) && Writes(rules[j])
    requires rules[i].key == rules[j].key && !SameType(rules[i], rules[j])
    ensures Batch(map[], now, rules, id).1 == ScriptError && Batch(map[], now, rules, id).0 != map[]
  {
    hide *;
    EmptyLive(now);
    EmptyStorePasses(now, rules, []);
    NoPlans(rules);
    TryFromReadOnly(map[], now, rules, []);
    var plans := TryFrom(map[], now, rules, []).1.plans;
    var w := FirstWrite(rules, i);
    var db := FirstCommit(now, rules, id, plans, w);
    WrittenStays(db, now, id, plans, rules, w + 1, w);
    if w < i {
      ClashFails(db, now, id, plans, rules, w + 1, i, j);
    } else {
      Clashing(rules, w, j);
    }
    BatchIs(map[], now, rules, id);
    EmptyGet(rules[w].key);
  }

  lemma EmptyLive(now: int)
    ensures Live(map[], now) == map[]
  {}

  lemma EmptyGet(k: string)
    ensures Get(map[], k).None?
  {}

  lemma NoPlans(rules: seq<LRule>)
    ensures PlansFor([], rules) && Fitted(map[], rules, 0, 0)
  {}

  lemma Clashing(rules: seq<LRule>, w: nat, j: nat)
    requires w < j < |rules| && Writes(rules[j]) && rules[j].key == rules[w].key && !SameType(rules[w], rules[j])
    ensures Clashes(rules, w + 1, w)
  {}

  /** The first write of a passed batch goes through on an empty store. */
  lemma FirstCommit(now: int, rules: seq<LRule>, id: string, plans: seq<Plan>, w: nat) returns (db: Db)
    requires w < |plans| == |rules| && PlansFor(plans, rules) && AllUsable(rules)
    requires Writes(rules[w]) && forall j :: 0 <= j < w ==> !Writes(rules[j])
    ensures CommitFrom(map[], now, id, plans, 0) == CommitFrom(db, now, id, plans, w + 1)
    ensures Get(db, rules[w].key).Some? && Fits(Get(db, rules[w].key), rules[w])
  {
    hide Commit, Try, CommitFrom, Fits;
    forall n | 0 <= n <= w ensures plans[n].Noop? <==> n < w { PlanKeys(plans[n], rules[n]); }
    PlanKeys(plans[w], rules[w]);
    SkipNoops(map[], now, id, plans, 0, w);
    assert Usable(rules[w]) && Get(map[], rules[w].key).None?;
    EmptyFits(rules[w]);
    CommitFits(None, plans[w], now, id, rules[w]);
    db := Put(map[], plans[w].key, Commit(None, plans[w], now, id).value);
    CommitUnfold(map[], now, id, plans, w);
  }

  lemma EmptyFits(r: LRule)
    ensures Fits(None, r) && SameType(r, r) == (Writes(r))
  {}

  lemma CommitUnfold(db: Db, now: int, id: string, plans: seq<Plan>, i: nat)
    requires i <= |plans|
    ensures CommitFrom(db, now, id, plans, i)
            == if i == |plans| then (db, true)
               else if plans[i].Noop? then CommitFrom(db, now, id, plans, i + 1)
               else
                 var c := Commit(Get(db, plans[i].key), plans[i], now, id);
                 if c.None? then (db, false) else CommitFrom(Put(db, plans[i].key, c.value), now, id, plans, i + 1)
  {
    hide Commit;
  }

  function FirstWrite(rules: seq<LRule>, i: nat): (w: nat)
    requires i < |rules| && Writes(rules[i])
    ensures w <= i && Writes(rules[w]) && forall j :: 0 <= j < w ==> !Writes(rules[j])
  {
    if Writes(rules[0]) then 0
    else
      var w := FirstWrite(rules[1..], i - 1);
      assert forall j :: 0 < j < w + 1 ==> rules[j] == rules[1..][j - 1];
      w + 1
  }

  lemma {:induction false} ClashFails(db: Db, now: int, id: string, plans: seq<Plan>, rules: seq<LRule>, n: nat, i: nat, j: nat)
    requires n <= i < j < |plans| == |rules| && PlansFor(plans, rules) && AllUsable(rules)
    requires Writes(rules[i]) && Writes(rules[j]) && rules[i].key == rules[j].key && !SameType(rules[i], rules[j])
    ensures !CommitFrom(db, now, id, plans, n).1
    decreases i - n
  {
    hide Commit;
    assert PlanFor(plans[n], rules[n]) && Usable(rules[n]);
    if plans[n].Noop? {
      ClashFails(db, now, id, plans, rules, n + 1, i, j);
    } else {
      var e := Get(db, plans[n].key);
      CommitFits(e, plans[n], now, id, rules[n]);
      if Commit(e, plans[n], now, id).Some? {
        var db' := Put(db, plans[n].key, Commit(e, plans[n], now, id).value);
        if n == i {
          WrittenStays(db', now, id, plans, rules, n + 1, n);
        } else {
          ClashFails(db', now, id, plans, rules, n + 1, i, j);
        }
      }
    }
  }

  /** The exact condition, over every store, time and request: a batch of usable rules is all-or-nothing
      if and only if its writing rules agree on the type of every key they share. */
  ghost predicate Atomic(rules: seq<LRule>) {
    forall db, now, id | Batch(db, now, rules, id).1 != Ok ::
      OnlyStaleRemoved(Live(db, now), Batch(db, now, rules, id).0, rules, now)
  }

  lemma AtomicIffCompatible(rules: seq<LRule>)
    requires AllUsable(rules)
    ensures Atomic(rules) <==> Compatible(rules)
  {
    if Compatible(rules) {
      forall db, now, id | Batch(db, now, rules, id).1 != Ok
        ensures OnlyStaleRemoved(Live(db, now), Batch(db, now, rules, id).0, rules, now)
      {
        AllOrNothing(db, now, rules, id);
      }
    } else {
      IncompatibleTears(0, rules, "");
      var d := Batch(map[], 0, rules, "").0;
      var k :| k in d;
      assert Live(map[], 0) == map[];
      assert !StaleAt(Get(map[], k), Get(d, k), rules, k, 0);
    }
  }
}
