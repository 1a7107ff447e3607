/** Without Redis: the local quotas a request is charged, and what they bound over a run (internal/limiter/limiter.go: degrade). */
module Degraded {
  import opened Prelude
  import opened Limiter
  import opened GateRuns
  import Keys
  import Rules
  import Local = LocalFallback
  import Breaker

  // Degraded quotas of several instances.

  /** Instances that each use their local quota stay within the total exactly when there are no more of them than units, and
      then they leave fewer units unused than there are instances. */
  lemma QuotasSumIff(limit: int, n: int)
    requires limit >= 1 && n >= 1
    ensures n * LocalQuota(limit, n) <= limit <==> n <= limit
    ensures if n <= limit then limit - n < n * LocalQuota(limit, n) else LocalQuota(limit, n) == 1
  {
    assert limit == n * (limit / n) + limit % n;
    QuotientSmall(limit, n);
  }

  lemma QuotientSmall(a: nat, n: nat)
    requires n >= 1
    ensures a < n <==> a / n <= 0
  {
    assert a == n * (a / n) + a % n;
    Grows(n, a / n);
  }

  // What a degraded request is charged.

  /** Token budgets and concurrency rules have a degraded quota; other rules have none. */
  predicate Metered(d: Rules.Rule) { (d.kind == "rate" && d.metric == "token") || d.kind == "concurrency" }

  function QuotaKey(c: Config, d: Rules.Rule, meta: Meta, now: int): string {
    var vals := DimValues(meta, d.dims);
    if d.kind == "concurrency" then Keys.ConcurrencyKey(c.sha, meta.biz, d.dims, vals) + "|deg"
    else Keys.RateKey(c.sha, d.dims, vals, d.winSec, BoundaryOf(c, d, now))
  }

  function Allowance(d: Rules.Rule): int { if d.kind == "concurrency" then d.maxConc else d.limit }

  function QuotaSeconds(d: Rules.Rule): int {
    if d.kind != "concurrency" then d.winSec else if d.timeout <= 0 then 120 else d.timeout
  }

  function QuotaCall(c: Config, d: Rules.Rule, meta: Meta, instances: int, now: int): Local.Call {
    Local.TakeQuota(QuotaKey(c, d, meta, now), LocalQuota(Allowance(d), instances), QuotaSeconds(d) * 1_000_000_000, now)
  }

  /** The enabled metered rules of a request, in order. */
  function MeteredRules(rules: seq<Rule>): (m: seq<Rule>)
    ensures forall r :: r in m <==> r in rules && r.enabled && Metered(r.def)
  {
    if rules == [] then []
    else
      var n := |rules| - 1;
      MeteredRules(rules[..n]) + (if rules[n].enabled && Metered(rules[n].def) then [rules[n]] else [])
  }

  function MeteredFrom(items: seq<Item>, i: nat): seq<Rule>
    requires i <= |items|
    decreases |items| - i
  {
    if i == |items| then []
    else (if Metered(items[i].rule.def) then [items[i].rule] else []) + MeteredFrom(items, i + 1)
  }

  lemma {:induction false} MeteredSnoc(items: seq<Item>, it: Item, i: nat)
    requires i <= |items|
    ensures MeteredFrom(items + [it], i) == MeteredFrom(items, i) + (if Metered(it.rule.def) then [it.rule] else [])
    decreases |items| - i
  {
    hide Metered;
    if i < |items| { MeteredSnoc(items, it, i + 1); }
  }

  lemma {:induction false} MeteredItems(c: Config, rules: seq<Rule>, meta: Meta, now: int)
    requires AllLoaded(rules)
    ensures MeteredFrom(Items(c, rules, meta, now), 0) == MeteredRules(rules)
  {
    hide *;
    if rules == [] {
      NoRules(c, meta, now);
    } else {
      var n := |rules| - 1;
      assert rules[..n + 1] == rules;
      ItemsPrefix(c, rules, meta, now, n);
      LastMetered(rules);
      MeteredItems(c, rules[..n], meta, now);
      if rules[n].enabled {
        var it := Item(rules[n], ToLua(c, rules[n].def, meta, now));
        MeteredSnoc(Items(c, rules[..n], meta, now), it, 0);
      } else {
        assert Items(c, rules, meta, now) == Items(c, rules[..n], meta, now);
      }
    }
  }

  lemma NoRules(c: Config, meta: Meta, now: int)
    ensures AllLoaded([]) && Items(c, [], meta, now) == [] && MeteredFrom([], 0) == [] && MeteredRules([]) == []
  {}

  lemma LastMetered(rules: seq<Rule>)
    requires rules != []
    ensures var r := rules[|rules| - 1];
            MeteredRules(rules) == MeteredRules(rules[..|rules| - 1]) + (if r.enabled && Metered(r.def) then [r] else [])
  {}

  /** What charging the rules `m` one after another leads to: all are granted, or the first that is not granted refuses. */
  ghost predicate Charged(c: Config, l: Local.Local, instances: int, m: seq<Rule>, meta: Meta, now: int, d: Decision, calls: seq<Local.Call>) {
    && InTurn(c, instances, m, meta, now, calls)
    && (forall j :: 0 <= j < |calls| - 1 ==> Grants(l, calls, j))
    && if calls != [] && !Grants(l, calls, |calls| - 1) then
         var r := m[|calls| - 1];
         d == Deny(r, QuotaSeconds(r.def) * 1_000_000_000, true)
       else if |calls| < |m| then QuotaSeconds(m[|calls|].def) <= 0 && d == Deny(m[|calls|], 1_000_000_000, true)
       else d == Allow(true)
  }

  /** The calls are those of the first rules. */
  predicate InTurn(c: Config, instances: int, m: seq<Rule>, meta: Meta, now: int, calls: seq<Local.Call>) {
    |calls| <= |m|
    && forall j :: 0 <= j < |calls| ==> calls[j] == QuotaCall(c, m[j].def, meta, instances, now) && QuotaSeconds(m[j].def) > 0
  }

  /** Call `j` was let through. */
  predicate Grants(l: Local.Local, calls: seq<Local.Call>, j: nat)
    requires j < |calls|
  {
    Local.AnswerAt(l, calls, j) == Local.Allowed(true)
  }

  lemma GrantsFirst(l: Local.Local, call: Local.Call, rest: seq<Local.Call>)
    ensures Grants(l, [call] + rest, 0) <==> Local.Do(l, call).1 == Local.Allowed(true)
    ensures forall j :: 0 < j < |rest| + 1 ==> (Grants(l, [call] + rest, j) <==> Grants(Local.Do(l, call).0, rest, j - 1))
  {
    var calls := [call] + rest;
    hide Local.Do;
    assert calls[..0] == [];
    forall j | 0 < j < |calls| ensures Grants(l, calls, j) <==> Grants(Local.Do(l, call).0, rest, j - 1) {
      assert calls[..j] == [call] + rest[..j - 1];
      LocalConcat(l, [call], rest[..j - 1]);
      LocalOne(l, call);
    }
  }

  lemma ChargedMore(c: Config, l: Local.Local, instances: int, r: Rule, m: seq<Rule>, meta: Meta, now: int, d: Decision, rest: seq<Local.Call>)
    requires QuotaSeconds(r.def) > 0
    requires var call := QuotaCall(c, r.def, meta, instances, now);
             Local.Do(l, call).1 == Local.Allowed(true) && Charged(c, Local.Do(l, call).0, instances, m, meta, now, d, rest)
    ensures Charged(c, l, instances, [r] + m, meta, now, d, [QuotaCall(c, r.def, meta, instances, now)] + rest)
  {
    hide Local.Do, QuotaCall, QuotaSeconds, Grants, Deny, InTurn;
    var call := QuotaCall(c, r.def, meta, instances, now);
    GrantsFirst(l, call, rest);
    TurnsMore(c, instances, r, m, meta, now, rest);
  }

  lemma TurnsMore(c: Config, instances: int, r: Rule, m: seq<Rule>, meta: Meta, now: int, rest: seq<Local.Call>)
    requires QuotaSeconds(r.def) > 0 && InTurn(c, instances, m, meta, now, rest)
    ensures InTurn(c, instances, [r] + m, meta, now, [QuotaCall(c, r.def, meta, instances, now)] + rest)
  {
    hide QuotaCall, QuotaSeconds;
  }

  lemma ChargedLast(c: Config, l: Local.Local, instances: int, r: Rule, m: seq<Rule>, meta: Meta, now: int)
    requires QuotaSeconds(r.def) > 0 && Local.Do(l, QuotaCall(c, r.def, meta, instances, now)).1 != Local.Allowed(true)
    ensures Charged(c, l, instances, [r] + m, meta, now, Deny(r, QuotaSeconds(r.def) * 1_000_000_000, true),
                    [QuotaCall(c, r.def, meta, instances, now)])
  {
    var call := QuotaCall(c, r.def, meta, instances, now);
    GrantsFirst(l, call, []);
    assert [call] + [] == [call];
    hide Local.Do, QuotaCall, QuotaSeconds, Grants, Deny;
  }

  /** The quota of a rule, by its own fields. */
  lemma RuleQuota(c: Config, l: Local.Local, d: Rules.Rule, meta: Meta, instances: int, now: int)
    ensures FailModeOf(d) == if Metered(d) then FailLocalQuota else FailOpen
    ensures var p := DegradeParams(c, d, meta, now);
            Metered(d) ==>
              && p.window == (if QuotaSeconds(d) <= 0 then 0 else QuotaSeconds(d) * 1_000_000_000)
              && (p.window > 0 ==>
                    && QuotaCall(c, d, meta, instances, now) == Local.TakeQuota(p.key, LocalQuota(p.limit, instances), p.window, now)
                    && (var (l', ok) := Local.AllowQuota(l, p.key, LocalQuota(p.limit, instances), p.window, now);
                        Local.Do(l, QuotaCall(c, d, meta, instances, now)) == (l', Local.Allowed(ok))))
  {
    hide Keys.ConcurrencyKey, Keys.RateKey, BoundaryOf, LocalQuota, Local.AllowQuota, DimValues;
  }

  lemma DegradeStep(c: Config, l: Local.Local, instances: int, items: seq<Item>, meta: Meta, now: int, i: nat)
    requires i < |items|
    ensures var r := items[i].rule;
            var call := QuotaCall(c, r.def, meta, instances, now);
            var (l', answer) := Local.Do(l, call);
            var all, after := DegradeFrom(c, l, instances, items, meta, now, i), DegradeFrom(c, l', instances, items, meta, now, i + 1);
            if !Metered(r.def) then all == DegradeFrom(c, l, instances, items, meta, now, i + 1)
            else if QuotaSeconds(r.def) <= 0 then all == (l, Deny(r, 1_000_000_000, true), [])
            else if answer == Local.Allowed(true) then all == (after.0, after.1, [call] + after.2)
            else all == (l', Deny(r, QuotaSeconds(r.def) * 1_000_000_000, true), [call])
  {
    RuleQuota(c, l, items[i].rule.def, meta, instances, now);
    hide Metered, FailModeOf, DegradeParams, QuotaCall, QuotaSeconds, LocalQuota, Local.AllowQuota, Local.Do, Deny;
  }

  /** A degraded batch charges its metered rules in order, by their own fields. */
  lemma {:induction false} DegradeCharges(c: Config, l: Local.Local, instances: int, items: seq<Item>, meta: Meta, now: int, i: nat)
    requires i <= |items|
    ensures var r := DegradeFrom(c, l, instances, items, meta, now, i);
            Charged(c, l, instances, MeteredFrom(items, i), meta, now, r.1, r.2)
    decreases |items| - i
  {
    hide *;
    MeteredStep(items, i);
    if i == |items| {
      ChargedNothing(c, l, instances, items, meta, now);
    } else {
      var r := items[i].rule;
      var m := MeteredFrom(items, i + 1);
      var l' := Local.Do(l, QuotaCall(c, r.def, meta, instances, now)).0;
      DegradeStep(c, l, instances, items, meta, now, i);
      DegradeCharges(c, l, instances, items, meta, now, i + 1);
      DegradeCharges(c, l', instances, items, meta, now, i + 1);
      if Metered(r.def) {
        if QuotaSeconds(r.def) <= 0 {
          ChargedNone(c, l, instances, r, m, meta, now);
        } else if Local.Do(l, QuotaCall(c, r.def, meta, instances, now)).1 == Local.Allowed(true) {
          var after := DegradeFrom(c, l', instances, items, meta, now, i + 1);
          ChargedMore(c, l, instances, r, m, meta, now, after.1, after.2);
        } else {
          ChargedLast(c, l, instances, r, m, meta, now);
        }
      }
    }
  }

  lemma MeteredStep(items: seq<Item>, i: nat)
    requires i <= |items|
    ensures i == |items| ==> MeteredFrom(items, i) == []
    ensures i < |items| ==>
              MeteredFrom(items, i) == if Metered(items[i].rule.def) then [items[i].rule] + MeteredFrom(items, i + 1) else MeteredFrom(items, i + 1)
  {}

  lemma ChargedNothing(c: Config, l: Local.Local, instances: int, items: seq<Item>, meta: Meta, now: int)
    ensures var r := DegradeFrom(c, l, instances, items, meta, now, |items|);
            Charged(c, l, instances, [], meta, now, r.1, r.2)
  {}

  lemma ChargedNone(c: Config, l: Local.Local, instances: int, r: Rule, m: seq<Rule>, meta: Meta, now: int)
    requires QuotaSeconds(r.def) <= 0
    ensures Charged(c, l, instances, [r] + m, meta, now, Deny(r, 1_000_000_000, true), [])
  {}

  /** A request whose script run fails during an outage is charged one unit of local quota for every enabled token or concurrency
      rule, in order, and passes exactly when all of them are granted; the first that is not granted is the one that
      refuses. Without such a rule it passes with no quota call. */
  lemma DegradedCharges(c: Config, g: Gate, q: Request)
    requires AllLoaded(q.rules)
    requires var items := Items(c, q.rules, q.meta, q.now);
             && items != [] && FirstBlocked(g.local.blocks, items, q.now, 0).None? && q.run(Payload(items)).Failed?
             && Breaker.Degraded(Breaker.OnFailure(g.breaker, q.later), q.later).1
    ensures var r := Decide(c, g, q);
            var m := MeteredRules(q.rules);
            && Charged(c, g.local, g.instances, m, q.meta, q.later, r.decision, r.calls)
            && (m == [] ==> r.decision == Allow(true) && r.calls == [])
  {
    hide *;
    var items := Items(c, q.rules, q.meta, q.now);
    DecideIs(c, g, q);
    FailedItems(c, g, q, items);
    DegradeCharges(c, g.local, g.instances, items, q.meta, q.later, 0);
    MeteredItems(c, q.rules, q.meta, q.now);
    NothingCharged(c, g.local, g.instances, q.meta, q.later, Decide(c, g, q).decision, Decide(c, g, q).calls);
  }

  lemma FailedItems(c: Config, g: Gate, q: Request, items: seq<Item>)
    requires items != [] && q.run(Payload(items)).Failed? && Breaker.Degraded(Breaker.OnFailure(g.breaker, q.later), q.later).1
    ensures var r, d := CheckItems(c, g, q, items), DegradeFrom(c, g.local, g.instances, items, q.meta, q.later, 0);
            r.decision == d.1 && r.calls == d.2
  {
    hide DegradeFrom, Breaker.Degraded, Breaker.OnFailure;
  }

  lemma NothingCharged(c: Config, l: Local.Local, instances: int, meta: Meta, now: int, d: Decision, calls: seq<Local.Call>)
    ensures Charged(c, l, instances, [], meta, now, d, calls) ==> d == Allow(true) && calls == []
  {}

  /** In every run a request that passes without Redis was granted a unit for every enabled token or concurrency rule. */
  lemma AdmittedIsCharged(c: Config, instances: int, start: int, turns: seq<Turn>, i: nat)
    requires Serves(turns) && i < |turns| && turns[i].Ask?
    ensures var g := GateAfter(c, instances, start, turns[..i]);
            var r := At(c, instances, start, turns, i);
            var q := turns[i].q;
            var m := MeteredRules(q.rules);
            r.decision.allowed && r.decision.degraded ==>
              && |r.calls| == |m|
              && (forall j :: 0 <= j < |m| ==>
                    && r.calls[j] == QuotaCall(c, m[j].def, q.meta, InstancesAfter(instances, turns[..i]), q.later)
                    && Grants(g.local, r.calls, j))
  {
    hide *;
    AskIsDecide(c, instances, start, turns, i);
    RunLogs(c, instances, start, turns[..i]);
    var g := GateAfter(c, instances, start, turns[..i]);
    AdmittedCharged(c, g, turns[i].q);
  }

  lemma AskIsDecide(c: Config, instances: int, start: int, turns: seq<Turn>, i: nat)
    requires Serves(turns) && i < |turns| && turns[i].Ask?
    ensures Serves(turns[..i]) && AllLoaded(turns[i].q.rules)
    ensures At(c, instances, start, turns, i) == Decide(c, GateAfter(c, instances, start, turns[..i]), turns[i].q)
  {
    hide Decide, AllLoaded, GateAfter;
    assert Fit(turns[i]);
  }

  /** One request let through degraded: every metered rule has been granted. */
  lemma AdmittedCharged(c: Config, g: Gate, q: Request)
    requires AllLoaded(q.rules)
    ensures var r := Decide(c, g, q);
            var m := MeteredRules(q.rules);
            r.decision.allowed && r.decision.degraded ==>
              && |r.calls| == |m|
              && (forall j :: 0 <= j < |m| ==>
                    && r.calls[j] == QuotaCall(c, m[j].def, q.meta, g.instances, q.later)
                    && QuotaSeconds(m[j].def) > 0 && Grants(g.local, r.calls, j))
  {
    hide *;
    var items := Items(c, q.rules, q.meta, q.now);
    var r := Decide(c, g, q);
    CallShapes(c, g, q);
    DegradeCharges(c, g.local, g.instances, items, q.meta, q.later, 0);
    MeteredItems(c, q.rules, q.meta, q.now);
    if r.decision.allowed && r.decision.degraded {
      ChargedAll(c, g.local, g.instances, MeteredRules(q.rules), q.meta, q.later, r.decision, r.calls);
    }
  }

  lemma ChargedAll(c: Config, l: Local.Local, instances: int, m: seq<Rule>, meta: Meta, now: int, d: Decision, calls: seq<Local.Call>)
    requires Charged(c, l, instances, m, meta, now, d, calls) && d.allowed
    ensures |calls| == |m|
    ensures forall j :: 0 <= j < |m| ==>
              calls[j] == QuotaCall(c, m[j].def, meta, instances, now) && QuotaSeconds(m[j].def) > 0 && Grants(l, calls, j)
  {
    hide QuotaCall, QuotaSeconds, Grants;
  }

  // Degraded quotas over a run.

  /** The degraded quota of an enabled rule of the request lives under `key`. */
  predicate Uses(c: Config, q: Request, key: string) {
    exists r | r in q.rules :: r.enabled && Metered(r.def) && QuotaKey(c, r.def, q.meta, q.later) == key
  }

  /** Every enabled rule of the request whose quota lives under `key` has the same window and a quota of at most `quota`. */
  predicate SetsQuota(c: Config, q: Request, instances: int, key: string, quota: int, window: int) {
    forall r | r in q.rules && r.enabled && Metered(r.def) ::
      QuotaKey(c, r.def, q.meta, q.later) == key && QuotaSeconds(r.def) > 0 ==>
        LocalQuota(Allowance(r.def), instances) <= quota && QuotaSeconds(r.def) * 1_000_000_000 == window
  }

  /** So does every request of the run, with the number of instances known at the time. */
  ghost predicate QuotaAtMost(c: Config, instances: int, turns: seq<Turn>, key: string, quota: int, window: int)
    requires Serves(turns)
  {
    forall i | 0 <= i < |turns| && turns[i].Ask? ::
      var q := turns[i].q;
      SetsQuota(c, q, InstancesAfter(instances, turns[..i]), key, quota, window)
  }

  /** Requests using `key` that were let through without Redis between `x` and `x + window`. */
  function DegradedAllows(c: Config, instances: int, start: int, turns: seq<Turn>, key: string, x: int, window: int): nat
    requires Serves(turns)
  {
    if turns == [] then 0
    else
      var n := |turns| - 1;
      var d := At(c, instances, start, turns, n).decision;
      DegradedAllows(c, instances, start, turns[..n], key, x, window)
      + (if turns[n].Ask? && d.allowed && d.degraded && Uses(c, turns[n].q, key) && x <= When(turns[n]) <= x + window then 1 else 0)
  }

  /** Granted calls add up along a run. */
  lemma {:induction false} GrantedConcat(l: Local.Local, a: seq<Local.Call>, b: seq<Local.Call>, key: string, x: int, window: int)
    ensures Local.Granted(l, a + b, key, x, window)
            == Local.Granted(l, a, key, x, window) + Local.Granted(Local.After(l, a), b, key, x, window)
  {
    hide *;
    if b == [] {
      assert a + b == a;
      NoneGranted(Local.After(l, a), key, x, window);
    } else {
      var n := |b| - 1;
      assert (a + b)[..|a| + n] == a + b[..n] && (a + b)[|a| + n] == b[n] && |a + b| - 1 == |a| + n;
      GrantedLast(l, a + b, key, x, window);
      GrantedLast(Local.After(l, a), b, key, x, window);
      GrantedConcat(l, a, b[..n], key, x, window);
      LocalConcat(l, a, b[..n]);
    }
  }

  lemma NoneGranted(l: Local.Local, key: string, x: int, window: int)
    ensures Local.Granted(l, [], key, x, window) == 0
  {}

  lemma GrantedLast(l: Local.Local, b: seq<Local.Call>, key: string, x: int, window: int)
    requires b != []
    ensures var n := |b| - 1;
            var ok := Local.Do(Local.After(l, b[..n]), b[n]).1 == Local.Allowed(true);
            Local.Granted(l, b, key, x, window)
            == Local.Granted(l, b[..n], key, x, window)
               + (if b[n].TakeQuota? && b[n].key == key && ok && x <= b[n].now <= x + window then 1 else 0)
  {
    hide Local.Do, Local.After;
  }

  /** A call that was let through adds to the grants. */
  lemma {:induction false} GrantCounts(l: Local.Local, calls: seq<Local.Call>, j: nat, key: string, window: int, x: int)
    requires j < |calls| && calls[j].TakeQuota? && calls[j].key == key && Grants(l, calls, j) && x <= calls[j].now <= x + window
    ensures Local.Granted(l, calls, key, x, window) >= 1
  {
    hide Local.Granted, Local.Do, Local.After;
    var n := |calls| - 1;
    GrantedLast(l, calls, key, x, window);
    if j < n {
      assert calls[..n][..j] == calls[..j];
      GrantCounts(l, calls[..n], j, key, window, x);
    }
  }

  /** The calls Check makes on the local state: none, one new block, or those of a degraded batch. */
  lemma CallShapes(c: Config, g: Gate, q: Request)
    requires AllLoaded(q.rules)
    ensures var r := Decide(c, g, q);
            var d := DegradeFrom(c, g.local, g.instances, Items(c, q.rules, q.meta, q.now), q.meta, q.later, 0);
            && (r.calls == [] || (|r.calls| == 1 && r.calls[0].AddBlock?) || (r.decision, r.calls) == (d.1, d.2))
            && (r.decision.allowed && r.decision.degraded ==> (r.decision, r.calls) == (d.1, d.2))
  {
    hide ToLua, FirstBlocked, DegradeFrom, Local.Block, Breaker.OnFailure, Breaker.OnSuccess, Breaker.Degraded, Payload, ConcKeys;
  }

  /** A degraded batch makes only its rules' quota calls. */
  lemma ChargedCapped(c: Config, l: Local.Local, q: Request, instances: int, d: Decision, calls: seq<Local.Call>, key: string,
                      quota: int, window: int)
    requires Charged(c, l, instances, MeteredRules(q.rules), q.meta, q.later, d, calls) && SetsQuota(c, q, instances, key, quota, window)
    ensures Local.CappedQuota(calls, key, quota, window)
  {
    hide QuotaKey, QuotaSeconds, Allowance, LocalQuota, Metered, Grants, Deny, Allow;
    var m := MeteredRules(q.rules);
    forall j | 0 <= j < |calls| && calls[j].TakeQuota? && calls[j].key == key
      ensures calls[j].limit <= quota && calls[j].window == window
    {
      assert m[j] in m;
    }
  }

  lemma DegradedMeansGranted(c: Config, g: Gate, q: Request, key: string, quota: int, window: int, x: int)
    requires AllLoaded(q.rules) && SetsQuota(c, q, g.instances, key, quota, window)
    ensures var r := Decide(c, g, q);
            && Local.CappedQuota(r.calls, key, quota, window)
            && (r.decision.allowed && r.decision.degraded && Uses(c, q, key) && x <= q.later <= x + window ==>
                  Local.Granted(g.local, r.calls, key, x, window) >= 1)
  {
    hide *;
    var items := Items(c, q.rules, q.meta, q.now);
    var r := Decide(c, g, q);
    var d := DegradeFrom(c, g.local, g.instances, items, q.meta, q.later, 0);
    CallShapes(c, g, q);
    DegradeCharges(c, g.local, g.instances, items, q.meta, q.later, 0);
    MeteredItems(c, q.rules, q.meta, q.now);
    ChargedCapped(c, g.local, q, g.instances, d.1, d.2, key, quota, window);
    CappedBlock(r.calls, key, quota, window);
    AdmittedCharged(c, g, q);
    if r.decision.allowed && r.decision.degraded && Uses(c, q, key) && x <= q.later <= x + window {
      var j := UsesOne(c, q, key, g.instances);
      GrantCounts(g.local, r.calls, j, key, window, x);
    }
  }

  lemma UsesOne(c: Config, q: Request, key: string, instances: int) returns (j: nat)
    requires Uses(c, q, key)
    ensures var m := MeteredRules(q.rules);
            j < |m| && var call := QuotaCall(c, m[j].def, q.meta, instances, q.later); call.TakeQuota? && call.key == key && call.now == q.later
  {
    hide QuotaKey, Metered, LocalQuota;
    var m := MeteredRules(q.rules);
    var r :| r in q.rules && r.enabled && Metered(r.def) && QuotaKey(c, r.def, q.meta, q.later) == key;
    assert r in m;
    j :| j < |m| && m[j] == r;
  }

  lemma CappedBlock(calls: seq<Local.Call>, key: string, quota: int, window: int)
    ensures calls == [] || (|calls| == 1 && calls[0].AddBlock?) ==> Local.CappedQuota(calls, key, quota, window)
  {}

  ghost predicate InOrder(start: int, turns: seq<Turn>) {
    && (forall i :: 0 <= i < |turns| ==> start <= When(turns[i]))
    && (forall i, j :: 0 <= i < j < |turns| ==> When(turns[i]) <= When(turns[j]))
  }

  lemma {:induction false} CallsInOrder(c: Config, instances: int, start: int, turns: seq<Turn>)
    requires Serves(turns) && InOrder(start, turns)
    ensures var calls := Calls(c, instances, start, turns);
            && Local.InOrder(calls, start)
            && (forall j :: 0 <= j < |calls| ==> turns != [] && calls[j].now <= When(turns[|turns| - 1]))
  {
    hide *;
    CallsLast(c, instances, start, turns);
    if turns != [] {
      var n := |turns| - 1;
      InOrderLast(start, turns);
      CallsInOrder(c, instances, start, turns[..n]);
      TakeLogs(c, GateAfter(c, instances, start, turns[..n]), turns[n]);
      AppendInOrder(Calls(c, instances, start, turns[..n]), At(c, instances, start, turns, n).calls, start,
                    if n == 0 then start else When(turns[n - 1]), When(turns[n]));
    }
  }

  lemma CallsLast(c: Config, instances: int, start: int, turns: seq<Turn>)
    requires Serves(turns)
    ensures turns == [] ==> Calls(c, instances, start, turns) == [] && Local.InOrder([], start)
    ensures turns != [] ==>
              var n := |turns| - 1;
              && Serves(turns[..n]) && Fit(turns[n])
              && At(c, instances, start, turns, n) == Take(c, GateAfter(c, instances, start, turns[..n]), turns[n])
              && Calls(c, instances, start, turns) == Calls(c, instances, start, turns[..n]) + At(c, instances, start, turns, n).calls
  {
    hide Take, Fit;
  }

  lemma InOrderLast(start: int, turns: seq<Turn>)
    requires turns != [] && InOrder(start, turns)
    ensures var n := |turns| - 1; InOrder(start, turns[..n]) && start <= When(turns[n]) && (n > 0 ==> When(turns[n - 1]) <= When(turns[n]))
  {}

  lemma AppendInOrder(a: seq<Local.Call>, b: seq<Local.Call>, start: int, last: int, now: int)
    requires Local.InOrder(a, start) && start <= now && last <= now
    requires forall j :: 0 <= j < |a| ==> a[j].now <= last
    requires forall j :: 0 <= j < |b| ==> b[j].now == now
    ensures Local.InOrder(a + b, start) && forall j :: 0 <= j < |a + b| ==> (a + b)[j].now <= now
  {}

  lemma TurnGrants(c: Config, g: Gate, t: Turn, key: string, quota: int, window: int, x: int)
    requires Fit(t)
    requires t.Ask? ==> SetsQuota(c, t.q, g.instances, key, quota, window)
    ensures var r := Take(c, g, t);
            && Local.CappedQuota(r.calls, key, quota, window)
            && (t.Ask? && r.decision.allowed && r.decision.degraded && Uses(c, t.q, key) && x <= When(t) <= x + window ==>
                  Local.Granted(g.local, r.calls, key, x, window) >= 1)
  {
    if t.Ask? { DegradedMeansGranted(c, g, t.q, key, quota, window, x); }
    hide Decide, Local.Granted, SetsQuota, Uses, AllLoaded;
  }

  lemma LastQuota(c: Config, instances: int, turns: seq<Turn>, key: string, quota: int, window: int)
    requires turns != [] && Serves(turns) && QuotaAtMost(c, instances, turns, key, quota, window)
    ensures var n := |turns| - 1;
            && Serves(turns[..n]) && QuotaAtMost(c, instances, turns[..n], key, quota, window) && Fit(turns[n])
            && (turns[n].Ask? ==> SetsQuota(c, turns[n].q, InstancesAfter(instances, turns[..n]), key, quota, window))
  {
    hide SetsQuota, AllLoaded, InstancesAfter;
    var n := |turns| - 1;
    assert forall i :: 0 <= i < n ==> turns[..n][..i] == turns[..i];
  }

  lemma AllowsLast(c: Config, instances: int, start: int, turns: seq<Turn>, key: string, x: int, window: int)
    requires Serves(turns)
    ensures turns == [] ==> DegradedAllows(c, instances, start, turns, key, x, window) == 0
    ensures turns != [] ==>
              var n := |turns| - 1;
              var d := At(c, instances, start, turns, n).decision;
              && Serves(turns[..n]) && Fit(turns[n])
              && DegradedAllows(c, instances, start, turns, key, x, window)
                 == DegradedAllows(c, instances, start, turns[..n], key, x, window)
                    + (if turns[n].Ask? && d.allowed && d.degraded && Uses(c, turns[n].q, key) && x <= When(turns[n]) <= x + window
                       then 1 else 0)
  {
    hide At, AllLoaded, Uses;
  }

  lemma CappedConcat(a: seq<Local.Call>, b: seq<Local.Call>, key: string, quota: int, window: int)
    requires Local.CappedQuota(a, key, quota, window) && Local.CappedQuota(b, key, quota, window)
    ensures Local.CappedQuota(a + b, key, quota, window)
  {}

  lemma NoCalls(key: string, quota: int, window: int)
    ensures Local.CappedQuota([], key, quota, window)
  {}

  lemma {:induction false} AllowsAreGrants(c: Config, instances: int, start: int, turns: seq<Turn>, key: string, quota: int,
                                           window: int, x: int)
    requires Serves(turns) && QuotaAtMost(c, instances, turns, key, quota, window)
    ensures var calls := Calls(c, instances, start, turns);
            && Local.CappedQuota(calls, key, quota, window)
            && DegradedAllows(c, instances, start, turns, key, x, window)
               <= Local.Granted(Local.Local(map[], map[], start), calls, key, x, window)
  {
    hide *;
    CallsLast(c, instances, start, turns);
    AllowsLast(c, instances, start, turns, key, x, window);
    var init := Local.Local(map[], map[], start);
    if turns == [] {
      NoCalls(key, quota, window);
      NoneGranted(init, key, x, window);
    } else {
      var n := |turns| - 1;
      var g := GateAfter(c, instances, start, turns[..n]);
      var r := At(c, instances, start, turns, n);
      LastQuota(c, instances, turns, key, quota, window);
      AllowsAreGrants(c, instances, start, turns[..n], key, quota, window, x);
      RunLogs(c, instances, start, turns[..n]);
      TurnGrants(c, g, turns[n], key, quota, window, x);
      var before := Calls(c, instances, start, turns[..n]);
      GrantedConcat(init, before, r.calls, key, x, window);
      CappedConcat(before, r.calls, key, quota, window);
    }
  }

  /** The degraded bound over a whole run: through rejected batches that leave earlier quotas consumed, negative-cache entries,
      cleanup, recoveries and changes of the number of instances, no closed interval as long as the rule's window sees more
      than twice the largest local quota in force. */
  lemma DegradedAllowsBounded(c: Config, instances: int, start: int, turns: seq<Turn>, key: string, quota: nat, window: int, x: int)
    requires Serves(turns) && InOrder(start, turns) && window > 0
    requires QuotaAtMost(c, instances, turns, key, quota, window)
    ensures DegradedAllows(c, instances, start, turns, key, x, window) <= 2 * quota
  {
    hide *;
    CallsInOrder(c, instances, start, turns);
    AllowsAreGrants(c, instances, start, turns, key, quota, window, x);
    Local.GrantsBounded(start, Calls(c, instances, start, turns), key, quota, window, x);
  }

  // Rules without a quota.

  lemma {:induction false} OpenRulesPass(c: Config, l: Local.Local, instances: int, items: seq<Item>, meta: Meta, now: int, i: nat)
    requires i <= |items| && forall j :: 0 <= j < |items| ==> !Metered(items[j].rule.def)
    ensures DegradeFrom(c, l, instances, items, meta, now, i) == (l, Allow(true), [])
    decreases |items| - i
  {
    if i < |items| { OpenRulesPass(c, l, instances, items, meta, now, i + 1); }
  }

  /** A request without token and concurrency rules whose own script run failed is let through, without any limit, exactly in a
      proven outage; errors of the script count towards one like a Redis that is down. */
  lemma ErrorsFailOpen(start: int, es: seq<Breaker.Event>, at: int, c: Config, l: Local.Local, instances: int, items: seq<Item>, meta: Meta)
    requires items != [] && forall j :: 0 <= j < |items| ==> !Metered(items[j].rule.def)
    ensures OnError(c, l, instances, items, meta, Breaker.Degraded(Breaker.After(start, es), at).1, at)
            == (l, if ProvenOutage(start, es) then Allow(true) else Deny(items[0].rule, 100_000_000, true), [])
  {
    Breaker.NotClosedIffTripped(start, es);
    OpenRulesPass(c, l, instances, items, meta, at, 0);
    hide DegradeFrom, Breaker.After;
  }
}
