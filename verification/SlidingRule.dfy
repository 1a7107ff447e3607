/** What a sliding rule bounds, and what it does not: its key carries the window boundary (internal/limiter/limiter.go: Check),
    so every boundary starts an empty set. */
module SlidingRule {
  import opened Prelude
  import opened BatchCheck
  import opened TwoPhase
  import opened Runs
  import opened Window
  import opened Limiter
  import Keys
  import GateRuns
  import S = SlidingWindow

  /** A sliding rule, and the values of its dimensions for the requests it counts together. */
  datatype Setup = Setup(c: Config, rule: Rule, meta: Meta)

  /** What reaches Redis: a Check with its rules, its gateway's clock in nanoseconds and Redis's in milliseconds, or a release or a
      charge. */
  datatype Call =
    | Check(rules: seq<Rule>, meta: Meta, now: int, redis: int)
    | Other(redis: int, op: Op)

  predicate Fit(call: Call) { call.Check? ==> AllLoaded(call.rules) }

  ghost predicate ValidSetup(u: Setup) {
    Keys.IsDigest(u.c.sha) && Loaded(u.rule.def) && u.rule.enabled && IsSlidingRule(u.rule.def) && u.rule.def.winSec > 0
  }

  function WindowMs(u: Setup): int { u.rule.def.winSec * 1000 }

  /** The rule's dimension values, encoded and joined. */
  function Values(u: Setup, meta: Meta): string { Keys.Join('.', Keys.SafeVals(u.c.sha, DimValues(meta, u.rule.def.dims))) }

  /** The call is a Check that carries the rule, and one of those it counts together. */
  predicate Counted(u: Setup, call: Call) { call.Check? && u.rule in call.rules && Values(u, call.meta) == Values(u, u.meta) }

  /** The boundary of the rule's window at the time of a Check. */
  function BoundaryAt(u: Setup, call: Call): int { BoundaryOf(u.c, u.rule.def, if call.Check? then call.now else 0) }

  function KeyAt(u: Setup, b: int): string {
    Keys.RateKey(u.c.sha, u.rule.def.dims, DimValues(u.meta, u.rule.def.dims), u.rule.def.winSec, b)
  }

  function OpOf(u: Setup, call: Call): Op
    requires Fit(call)
  {
    match call
    case Check(rules, meta, now, redis) => Admit(redis, Payload(Items(u.c, rules, meta, now)), meta.id)
    case Other(_, op) => op
  }

  /** The call uses one of the rule's keys. */
  ghost predicate Uses(u: Setup, call: Call) { Fit(call) && exists b :: Touches(OpOf(u, call), KeyAt(u, b)) }

  /** No fixed rule counts the same dimensions over the same window. */
  predicate NoFixedTwin(u: Setup, rules: seq<Rule>) {
    forall r | r in rules :: !(IsFixedRule(r.def) && r.def.dims == u.rule.def.dims && r.def.winSec == u.rule.def.winSec)
  }

  /** Any Check, with the rule or without it, that does not clash if it uses one of the rule's keys; releases and charges use keys
      of other kinds. */
  ghost predicate ValidCall(u: Setup, call: Call) {
    && Fit(call) && call.redis >= 0
    && match call
       case Check(rules, meta, now, _) =>
         Uses(u, call) ==> NoFixedTwin(u, rules) && !GateRuns.TypeClash(u.c, Items(u.c, rules, meta, now), now)
       case Other(redis, op) => !op.Admit? && op.now == redis && !Uses(u, call)
  }

  ghost predicate ValidCalls(u: Setup, calls: seq<Call>) {
    && (forall i :: 0 <= i < |calls| ==> ValidCall(u, calls[i]))
    && (forall i, j :: 0 <= i < j < |calls| ==> calls[i].redis <= calls[j].redis)
  }

  /** Checks at the rule's keys less than a window apart carry different ids. */
  ghost predicate DistinctIds(u: Setup, calls: seq<Call>) {
    forall i, j | 0 <= i < j < |calls| && calls[i].Check? && calls[j].Check? && calls[j].redis - calls[i].redis < WindowMs(u) ::
      Uses(u, calls[i]) && Uses(u, calls[j]) ==> calls[i].meta.id != calls[j].meta.id
  }

  function Ops(u: Setup, calls: seq<Call>): (ops: seq<Op>)
    requires forall i :: 0 <= i < |calls| ==> Fit(calls[i])
    ensures |ops| == |calls|
  {
    seq(|calls|, i requires 0 <= i < |calls| => OpOf(u, calls[i]))
  }

  /** Call `n` is counted by the rule and admitted, later than `lo` and not later than `hi`. */
  predicate AdmittedAt(u: Setup, calls: seq<Call>, n: nat, lo: int, hi: int)
    requires forall i :: 0 <= i < |calls| ==> Fit(calls[i])
    requires n < |calls|
  {
    Counted(u, calls[n]) && lo < calls[n].redis <= hi && ReplyTo(map[], Ops(u, calls), n) == Ok
  }

  /** The admissions the rule counts between `lo` and `hi`, of the window that starts at `b` or of all of them. */
  function AdmittedIn(u: Setup, calls: seq<Call>, b: Option<int>, lo: int, hi: int): nat
    requires forall i :: 0 <= i < |calls| ==> Fit(calls[i])
  {
    if calls == [] then 0
    else
      var n := |calls| - 1;
      AdmittedIn(u, calls[..n], b, lo, hi)
      + (if AdmittedAt(u, calls, n, lo, hi) && (b.None? || BoundaryAt(u, calls[n]) == b.value) then 1 else 0)
  }

  // One Check at the rule's keys.

  /** An item of a Check under one of the rule's keys is a sliding rule of the same window. */
  lemma ItemAtKey(u: Setup, d: Limiter.Rules.Rule, meta: Meta, now: int, b: int)
    requires ValidSetup(u) && Loaded(d)
    requires !(IsFixedRule(d) && d.dims == u.rule.def.dims && d.winSec == u.rule.def.winSec)
    ensures var l := ToLua(u.c, d, meta, now);
            l.key == KeyAt(u, b) ==> l.Sliding? && l.window == WindowMs(u)
  {
    hide ToLua, KeySpecOf, Keys.Build, Keys.ValidDims, DimValues, BoundaryOf, Keys.SafeVals, Keys.SafeVal, Keys.Join, IsFixedRule;
    GateRuns.LuaShape(u.c, d, meta, now);
    SlidingEntry(u.c, d, meta, now);
    RuleDims(u);
    KeyIsBuild(u, b);
    Keys.KeysCoincideIff(u.c.sha, KeySpecOf(u.c, d, meta, now),
                         Keys.RateSpec(u.rule.def.dims, DimValues(u.meta, u.rule.def.dims), u.rule.def.winSec, b));
  }

  lemma KeyIsBuild(u: Setup, b: int)
    ensures KeyAt(u, b) == Keys.Build(u.c.sha, Keys.RateSpec(u.rule.def.dims, DimValues(u.meta, u.rule.def.dims), u.rule.def.winSec, b))
  {}

  lemma RuleDims(u: Setup)
    requires ValidSetup(u)
    ensures Keys.ValidDims(u.rule.def.dims) && u.rule.def.limit > 0
  {}

  lemma SlidingEntry(c: Config, d: Limiter.Rules.Rule, meta: Meta, now: int)
    requires Loaded(d)
    ensures var l := ToLua(c, d, meta, now);
            l.Sliding? ==> l.window == d.winSec * 1000 && l.limit == d.limit
  {
    hide Keys.Build, KeySpecOf, Keys.ValidDims;
  }

  /** The rule's own item: its key is that of the call's boundary exactly when the rule counts the call. */
  lemma OwnItem(u: Setup, call: Call, b: int)
    requires ValidSetup(u) && call.Check? && u.rule in call.rules
    ensures var l := ToLua(u.c, u.rule.def, call.meta, call.now);
            && l.Sliding? && l.limit == u.rule.def.limit && l.window == WindowMs(u)
            && (l.key == KeyAt(u, b) <==> Counted(u, call) && BoundaryAt(u, call) == b)
  {
    hide ToLua, KeySpecOf, Keys.Build, Keys.ValidDims, DimValues, BoundaryOf, Keys.SafeVals, Keys.SafeVal, Keys.Join;
    GateRuns.LuaShape(u.c, u.rule.def, call.meta, call.now);
    SlidingEntry(u.c, u.rule.def, call.meta, call.now);
    RuleDims(u);
    KeyIsBuild(u, b);
    Keys.KeysCoincideIff(u.c.sha, KeySpecOf(u.c, u.rule.def, call.meta, call.now),
                         Keys.RateSpec(u.rule.def.dims, DimValues(u.meta, u.rule.def.dims), u.rule.def.winSec, b));
  }

  /** A Check that the rule counts uses the key of its window, under the rule's limit. */
  lemma CountedUses(u: Setup, call: Call)
    requires ValidSetup(u) && Fit(call) && Counted(u, call)
    ensures var k := KeyAt(u, BoundaryAt(u, call));
            S.HasLimit(OpOf(u, call), k, u.rule.def.limit) && Touches(OpOf(u, call), k) && Uses(u, call)
  {
    var items := Items(u.c, call.rules, call.meta, call.now);
    var p := Payload(items);
    GateRuns.EnabledItem(u.c, call.rules, call.meta, call.now, u.rule);
    var i :| 0 <= i < |items| && items[i].rule == u.rule;
    OwnItem(u, call, BoundaryAt(u, call));
    RuleDims(u);
    hide Items, ToLua, KeyAt, Counted, BoundaryAt, Values, WindowMs;
    assert p[i] == ToLua(u.c, u.rule.def, call.meta, call.now);
  }

  /** Seen from the key of window `b`, every call is a sliding batch or something else; if the rule counts it there, the rule's
      limit applies. */
  lemma CheckAtKey(u: Setup, call: Call, b: int)
    requires ValidSetup(u) && ValidCall(u, call)
    ensures var op := OpOf(u, call);
            && S.SlidingUse(op, KeyAt(u, b), WindowMs(u))
            && (Counted(u, call) && BoundaryAt(u, call) == b ==> S.HasLimit(op, KeyAt(u, b), u.rule.def.limit))
  {
    if Counted(u, call) { CountedUses(u, call); }
    hide Counted, BoundaryAt;
    if call.Check? && Touches(OpOf(u, call), KeyAt(u, b)) {
      assert Uses(u, call);
      UsedAtKey(u, call, b);
    }
    hide Items, ToLua, KeyAt, Compatible, GateRuns.TypeClash, S.SlidingOnly, S.HasLimit;
  }

  lemma UsedAtKey(u: Setup, call: Call, b: int)
    requires ValidSetup(u) && ValidCall(u, call) && call.Check? && Uses(u, call)
    ensures var p := Payload(Items(u.c, call.rules, call.meta, call.now)); Compatible(p) && S.SlidingOnly(p, KeyAt(u, b), WindowMs(u))
  {
    var items := Items(u.c, call.rules, call.meta, call.now);
    var p := Payload(items);
    GateRuns.PayloadCompatibleIff(u.c, call.rules, call.meta, call.now);
    GateRuns.ItemRules(u.c, call.rules, call.meta, call.now);
    forall i | 0 <= i < |p| && p[i].key == KeyAt(u, b) ensures p[i].Sliding? && p[i].window == WindowMs(u) {
      ItemAtKey(u, items[i].rule.def, call.meta, call.now, b);
    }
  }

  /** Concurrency and ledger keys are none of the rule's. */
  lemma OtherKinds(u: Setup, k: Keys.KeySpec, b: int)
    requires ValidSetup(u) && Keys.ValidDims(k.dims) && !k.RateSpec?
    ensures Keys.Build(u.c.sha, k) != KeyAt(u, b)
  {
    RuleDims(u);
    KeyIsBuild(u, b);
    hide KeyAt, Keys.Build, Keys.ValidDims, Keys.IsDigest;
    Keys.KeysCoincideIff(u.c.sha, k, Keys.RateSpec(u.rule.def.dims, DimValues(u.meta, u.rule.def.dims), u.rule.def.winSec, b));
  }

  // Runs.

  lemma CallsLast(u: Setup, calls: seq<Call>)
    requires calls != [] && ValidCalls(u, calls)
    ensures var n := |calls| - 1;
            && ValidCalls(u, calls[..n]) && ValidCall(u, calls[n]) && (n > 0 ==> calls[n - 1].redis <= calls[n].redis)
            && Ops(u, calls)[..n] == Ops(u, calls[..n]) && Ops(u, calls)[n] == OpOf(u, calls[n])
            && (DistinctIds(u, calls) ==> DistinctIds(u, calls[..n]))
  {
    hide OpOf, ValidCall;
    assert forall i :: 0 <= i < |calls| ==> ValidCall(u, calls[i]);
    CallsLoaded(u, calls);
  }

  lemma CallsLoaded(u: Setup, calls: seq<Call>)
    requires ValidCalls(u, calls)
    ensures forall i :: 0 <= i < |calls| ==> Fit(calls[i])
  {
    hide AllLoaded, Uses;
  }

  lemma OpIs(u: Setup, call: Call)
    requires ValidCall(u, call)
    ensures Fit(call) && OpOf(u, call).now == call.redis && (OpOf(u, call).Admit? <==> call.Check?)
    ensures call.Check? ==> OpOf(u, call).id == call.meta.id
  {
    hide AllLoaded, Uses, Items;
  }

  lemma {:induction false} RunAtKey(u: Setup, calls: seq<Call>, b: int)
    requires ValidSetup(u) && ValidCalls(u, calls)
    ensures S.SlidingRun(Ops(u, calls), KeyAt(u, b), WindowMs(u))
    ensures S.LastTime(Ops(u, calls)) == if calls == [] then 0 else calls[|calls| - 1].redis
  {
    hide OpOf, S.SlidingUse, KeyAt, WindowMs, ValidCall, ValidSetup;
    if calls != [] {
      var n := |calls| - 1;
      CallsLast(u, calls);
      RunAtKey(u, calls[..n], b);
      CheckAtKey(u, calls[n], b);
      CallsLoaded(u, calls);
      OpIs(u, calls[n]);
      FirstTime(u, calls);
    }
  }

  lemma FirstTime(u: Setup, calls: seq<Call>)
    requires ValidCalls(u, calls) && calls != []
    ensures calls[|calls| - 1].redis >= 0
  {}

  /** Every id in a history was admitted there at the time noted. */
  lemma {:induction false} HistoryFrom(ops: seq<Op>, k: string, m: string) returns (i: nat)
    requires m in S.History(map[], ops, k)
    ensures i < |ops| && ops[i].Admit? && Touches(ops[i], k) && S.Member(ops[i].id) == m && S.History(map[], ops, k)[m] == ops[i].now
  {
    hide ReplyTo, Touches, S.Member;
    var n := |ops| - 1;
    var h := S.History(map[], ops[..n], k);
    if S.History(map[], ops, k) == h || m != S.Member(ops[n].id) {
      i := HistoryFrom(ops[..n], k, m);
    } else {
      i := n;
    }
  }

  lemma UsesIs(u: Setup, call: Call, b: int)
    requires Fit(call) && Touches(OpOf(u, call), KeyAt(u, b))
    ensures Uses(u, call)
  {}

  lemma IdsDiffer(u: Setup, calls: seq<Call>, i: nat, j: nat)
    requires DistinctIds(u, calls) && i < j < |calls| && calls[i].Check? && calls[j].Check?
    requires calls[j].redis - calls[i].redis < WindowMs(u) && Uses(u, calls[i]) && Uses(u, calls[j])
    ensures calls[i].meta.id != calls[j].meta.id
  {
    hide Uses;
  }

  lemma {:induction false} IdsAtKey(u: Setup, calls: seq<Call>, b: int)
    requires ValidSetup(u) && ValidCalls(u, calls) && DistinctIds(u, calls)
    ensures S.Distinct(map[], Ops(u, calls), KeyAt(u, b), WindowMs(u))
  {
    hide OpOf, KeyAt, ValidCall, ValidSetup, Touches, S.History, DistinctIds, Uses;
    if calls != [] {
      var n := |calls| - 1;
      CallsLast(u, calls);
      CallsLoaded(u, calls);
      IdsAtKey(u, calls[..n], b);
      var ops := Ops(u, calls);
      OpIs(u, calls[n]);
      if Touches(ops[n], KeyAt(u, b)) && ops[n].Admit? { NewId(u, calls, b); }
    }
  }

  lemma NewId(u: Setup, calls: seq<Call>, b: int)
    requires ValidCalls(u, calls) && DistinctIds(u, calls) && calls != [] && calls[|calls| - 1].Check?
    requires forall i :: 0 <= i < |calls| ==> Fit(calls[i])
    requires Touches(OpOf(u, calls[|calls| - 1]), KeyAt(u, b))
    ensures var n := |calls| - 1;
            S.Member(calls[n].meta.id) !in S.Since(S.History(map[], Ops(u, calls)[..n], KeyAt(u, b)), calls[n].redis - WindowMs(u))
  {
    var n := |calls| - 1;
    var ops, m := Ops(u, calls), S.Member(calls[n].meta.id);
    var h := S.History(map[], ops[..n], KeyAt(u, b));
    hide ValidCall, OpOf, KeyAt, Touches, S.History, S.Member, DistinctIds, Uses, WindowMs;
    if m in h && h[m] > calls[n].redis - WindowMs(u) {
      var i := HistoryFrom(ops[..n], KeyAt(u, b), m);
      assert ops[i] == OpOf(u, calls[i]);
      OpIs(u, calls[i]);
      UsesIs(u, calls[i], b);
      UsesIs(u, calls[n], b);
      IdsDiffer(u, calls, i, n);
      S.MembersDiffer(calls[i].meta.id, calls[n].meta.id);
    }
  }

  lemma AdmittedLast(u: Setup, calls: seq<Call>, b: Option<int>, lo: int, hi: int)
    requires calls != [] && ValidCalls(u, calls)
    ensures var n := |calls| - 1;
            var inside := AdmittedAt(u, calls, n, lo, hi) && (b.None? || BoundaryAt(u, calls[n]) == b.value);
            AdmittedIn(u, calls, b, lo, hi) == AdmittedIn(u, calls[..n], b, lo, hi) + (if inside then 1 else 0)
  {
    hide AdmittedAt, Fit, BoundaryAt;
    CallsLoaded(u, calls);
  }

  /** What the rule admits in the window that starts at `b` is counted at that window's key. */
  lemma {:induction false} BoundaryCount(u: Setup, calls: seq<Call>, b: int, lo: int, hi: int)
    requires ValidSetup(u) && ValidCalls(u, calls) && u.rule.def.limit >= 0
    ensures AdmittedIn(u, calls, Some(b), lo, hi) <= S.CountIn(map[], Ops(u, calls), KeyAt(u, b), u.rule.def.limit, lo, hi)
  {
    hide *;
    CallsLoaded(u, calls);
    if calls == [] {
      NoneAdmitted(u, b, lo, hi);
    } else {
      var n := |calls| - 1;
      var ops := Ops(u, calls);
      CallsLast(u, calls);
      BoundaryCount(u, calls[..n], b, lo, hi);
      AdmittedLast(u, calls, Some(b), lo, hi);
      S.CountStep(map[], ops, KeyAt(u, b), u.rule.def.limit, lo, hi);
      S.CountsIs(map[], ops, KeyAt(u, b), u.rule.def.limit, lo, hi);
      CheckAtKey(u, calls[n], b);
      OpIs(u, calls[n]);
      AdmittedAtIs(u, calls, n, lo, hi);
    }
  }

  lemma NoneAdmitted(u: Setup, b: int, lo: int, hi: int)
    ensures AdmittedIn(u, [], Some(b), lo, hi) == 0 && AdmittedIn(u, [], None, lo, hi) == 0
  {}

  lemma AdmittedAtIs(u: Setup, calls: seq<Call>, n: nat, lo: int, hi: int)
    requires ValidCalls(u, calls) && n < |calls|
    ensures AdmittedAt(u, calls, n, lo, hi)
            <==> Counted(u, calls[n]) && lo < calls[n].redis <= hi && ReplyTo(map[], Ops(u, calls), n) == Ok
  {
    CallsLoaded(u, calls);
    hide Counted, ReplyTo, Fit;
  }

  /** Admissions that share a boundary keep the limit, whatever the clocks: no interval of one window length holds more. */
  lemma LimitPerBoundary(u: Setup, calls: seq<Call>, b: int, t: int)
    requires ValidSetup(u) && ValidCalls(u, calls) && DistinctIds(u, calls)
    ensures AdmittedIn(u, calls, Some(b), t - WindowMs(u), t) <= u.rule.def.limit
  {
    hide *;
    RuleDims(u);
    WindowPositive(u);
    CallsLoaded(u, calls);
    RunAtKey(u, calls, b);
    IdsAtKey(u, calls, b);
    BoundaryCount(u, calls, b, t - WindowMs(u), t);
    S.NoWindowOversold(map[], Ops(u, calls), KeyAt(u, b), WindowMs(u), u.rule.def.limit, t);
  }

  lemma WindowPositive(u: Setup)
    requires ValidSetup(u)
    ensures WindowMs(u) > 0 && u.rule.def.winSec > 0
  {}

  // Across boundaries.

  /** The admissions of `n` windows in a row, the first starting at `b`. */
  function Summed(u: Setup, calls: seq<Call>, b: int, n: nat, lo: int, hi: int): nat
    requires forall i :: 0 <= i < |calls| ==> Fit(calls[i])
  {
    if n == 0 then 0
    else Summed(u, calls, b, n - 1, lo, hi) + AdmittedIn(u, calls, Some(Nth(u, b, n - 1)), lo, hi)
  }

  /** The `j`-th boundary from `b` on. */
  function Nth(u: Setup, b: int, j: nat): int { b + j * u.rule.def.winSec }

  /** `x` is one of the `n` boundaries. */
  predicate OneOf(u: Setup, b: int, n: nat, x: int) { exists j :: 0 <= j < n && x == Nth(u, b, j) }

  lemma OneOfStep(u: Setup, b: int, n: nat, x: int)
    ensures n == 0 ==> !OneOf(u, b, n, x)
    ensures n > 0 ==> (OneOf(u, b, n, x) <==> OneOf(u, b, n - 1, x) || x == Nth(u, b, n - 1))
  {
    hide Nth;
    if n > 0 && x == Nth(u, b, n - 1) { assert OneOf(u, b, n, x); }
  }

  lemma {:induction false} SummedLast(u: Setup, calls: seq<Call>, b: int, n: nat, lo: int, hi: int)
    requires calls != [] && ValidCalls(u, calls)
    requires forall i :: 0 <= i < |calls| ==> Fit(calls[i])
    ensures var m := |calls| - 1;
            && Summed(u, calls, b, n, lo, hi) >= Summed(u, calls[..m], b, n, lo, hi)
            && (AdmittedAt(u, calls, m, lo, hi) && OneOf(u, b, n, BoundaryAt(u, calls[m])) ==>
                  Summed(u, calls, b, n, lo, hi) >= Summed(u, calls[..m], b, n, lo, hi) + 1)
  {
    hide *;
    var m := |calls| - 1;
    OneOfStep(u, b, n, BoundaryAt(u, calls[m]));
    if n == 0 {
      SummedNone(u, calls, b, lo, hi);
      SummedNone(u, calls[..m], b, lo, hi);
    } else {
      SummedLast(u, calls, b, n - 1, lo, hi);
      AdmittedLast(u, calls, Some(Nth(u, b, n - 1)), lo, hi);
      SummedStep(u, calls, b, n, lo, hi);
      SummedStep(u, calls[..m], b, n, lo, hi);
    }
  }

  predicate InRow(u: Setup, calls: seq<Call>, b: int, n: nat, lo: int, hi: int) {
    forall i | 0 <= i < |calls| && Counted(u, calls[i]) && lo < calls[i].redis <= hi :: OneOf(u, b, n, BoundaryAt(u, calls[i]))
  }

  lemma {:induction false} RowSum(u: Setup, calls: seq<Call>, b: int, n: nat, lo: int, hi: int)
    requires ValidCalls(u, calls) && InRow(u, calls, b, n, lo, hi)
    ensures AdmittedIn(u, calls, None, lo, hi) <= Summed(u, calls, b, n, lo, hi)
  {
    hide *;
    CallsLoaded(u, calls);
    if calls == [] {
      NoneAdmitted(u, b, lo, hi);
    } else {
      CallsLast(u, calls);
      RowLast(u, calls, b, n, lo, hi);
      RowSum(u, calls[..|calls| - 1], b, n, lo, hi);
      AdmittedLast(u, calls, None, lo, hi);
      SummedLast(u, calls, b, n, lo, hi);
      AdmittedAtIs(u, calls, |calls| - 1, lo, hi);
    }
  }

  lemma RowLast(u: Setup, calls: seq<Call>, b: int, n: nat, lo: int, hi: int)
    requires calls != [] && InRow(u, calls, b, n, lo, hi)
    ensures var m := |calls| - 1;
            && InRow(u, calls[..m], b, n, lo, hi)
            && (Counted(u, calls[m]) && lo < calls[m].redis <= hi ==> OneOf(u, b, n, BoundaryAt(u, calls[m])))
  {
    hide BoundaryAt, OneOf, Counted;
  }

  lemma {:induction false} SummedAtMost(u: Setup, calls: seq<Call>, b: int, n: nat, t: int)
    requires ValidSetup(u) && ValidCalls(u, calls) && DistinctIds(u, calls)
    ensures Summed(u, calls, b, n, t - WindowMs(u), t) <= n * u.rule.def.limit
  {
    hide *;
    CallsLoaded(u, calls);
    if n == 0 {
      SummedNone(u, calls, b, t - WindowMs(u), t);
    } else {
      SummedAtMost(u, calls, b, n - 1, t);
      LimitPerBoundary(u, calls, Nth(u, b, n - 1), t);
      SummedStep(u, calls, b, n, t - WindowMs(u), t);
      assert n * u.rule.def.limit == (n - 1) * u.rule.def.limit + u.rule.def.limit;
    }
  }

  lemma SummedNone(u: Setup, calls: seq<Call>, b: int, lo: int, hi: int)
    requires forall i :: 0 <= i < |calls| ==> Fit(calls[i])
    ensures Summed(u, calls, b, 0, lo, hi) == 0
  {}

  lemma SummedStep(u: Setup, calls: seq<Call>, b: int, n: nat, lo: int, hi: int)
    requires n > 0 && forall i :: 0 <= i < |calls| ==> Fit(calls[i])
    ensures Summed(u, calls, b, n, lo, hi) == Summed(u, calls, b, n - 1, lo, hi) + AdmittedIn(u, calls, Some(Nth(u, b, n - 1)), lo, hi)
  {
    hide Fit, AdmittedIn, Nth;
  }

  /** Gateway clocks within `skew` seconds of Redis's, past the first aligned boundary. */
  predicate Timely(u: Setup, calls: seq<Call>, skew: nat) {
    forall i | 0 <= i < |calls| && calls[i].Check? ::
      && UnixSec(calls[i].now) - calls[i].redis / 1000 <= skew
      && calls[i].redis / 1000 - UnixSec(calls[i].now) <= skew
      && UnixSec(calls[i].now) + Offset(u.c.tz, u.rule.def.natural) >= 0
  }

  lemma TimesInRow(u: Setup, calls: seq<Call>, t: int, skew: nat, n: nat, b: int)
    requires ValidSetup(u) && Timely(u, calls, skew) && u.rule.def.winSec != 0
    requires u.rule.def.winSec + 2 * skew <= (n - 1) * u.rule.def.winSec && b == Floor(t / 1000 - u.rule.def.winSec - skew, u)
    ensures InRow(u, calls, b, n, t - WindowMs(u), t)
  {
    var w := u.rule.def.winSec;
    hide BoundaryAt, Nth, ValidSetup, Floor;
    WindowPositive(u);
    forall i | 0 <= i < |calls| && Counted(u, calls[i]) && t - WindowMs(u) < calls[i].redis <= t
      ensures OneOf(u, b, n, BoundaryAt(u, calls[i]))
    {
      var s := UnixSec(calls[i].now);
      SecondsBack(t, calls[i].redis, w);
      var j := NthBoundary(u, s, t / 1000 - w - skew, n);
      BoundaryIs(u, calls[i]);
    }
  }

  lemma SecondsBack(t: int, r: int, w: int)
    requires t - w * 1000 < r <= t
    ensures t / 1000 - w <= r / 1000 <= t / 1000
  {}

  lemma BoundaryIs(u: Setup, call: Call)
    requires call.Check?
    ensures BoundaryAt(u, call) == WindowBoundary(UnixSec(call.now), u.rule.def.winSec, u.c.tz, u.rule.def.natural)
  {}

  lemma NthBoundary(u: Setup, s: int, a: int, n: nat) returns (j: nat)
    requires u.rule.def.winSec > 0 && s + Offset(u.c.tz, u.rule.def.natural) >= 0
    requires a <= s <= a + (n - 1) * u.rule.def.winSec
    ensures j < n && WindowBoundary(s, u.rule.def.winSec, u.c.tz, u.rule.def.natural) == Nth(u, Floor(a, u), j)
  {
    var w, off := u.rule.def.winSec, Offset(u.c.tz, u.rule.def.natural);
    var b := WindowBoundary(s, w, u.c.tz, u.rule.def.natural);
    BoundaryTiles(s, w, u.c.tz, u.rule.def.natural);
    hide WindowBoundary;
    DivMod(b + off, w);
    DivMod(a + off, w);
    var x, y := (b + off) / w, (a + off) / w;
    assert b == x * w - off && Floor(a, u) == y * w - off;
    assert y * w - off <= a < y * w - off + w;
    Steps(x, y, w, n);
    j := x - y;
    assert x * w == y * w + (x - y) * w;
  }

  lemma Steps(x: int, y: int, w: int, n: nat)
    requires w > 0 && y * w - w < x * w < y * w + n * w
    ensures y <= x < y + n
  {
    MulLe(x + 1, y, w);
    MulLe(y + n, x, w);
    assert (x + 1) * w == x * w + w;
    assert (y + n) * w == y * w + n * w;
  }

  /** A rule counts at most n times its limit in any interval of one window length, where n - 1 windows cover a window and twice
      the clock skew: twice the limit for clocks that agree. */
  lemma RuleBound(u: Setup, calls: seq<Call>, t: int, skew: nat, n: nat)
    requires ValidSetup(u) && ValidCalls(u, calls) && DistinctIds(u, calls) && Timely(u, calls, skew)
    requires n >= 1 && u.rule.def.winSec + 2 * skew <= (n - 1) * u.rule.def.winSec
    ensures AdmittedIn(u, calls, None, t - WindowMs(u), t) <= n * u.rule.def.limit
  {
    hide *;
    CallsLoaded(u, calls);
    WindowPositive(u);
    var b := Floor(t / 1000 - u.rule.def.winSec - skew, u);
    TimesInRow(u, calls, t, skew, n, b);
    RowSum(u, calls, b, n, t - WindowMs(u), t);
    SummedAtMost(u, calls, b, n, t);
  }

  /** The last aligned second up to `s`. */
  function Floor(s: int, u: Setup): int
    requires u.rule.def.winSec != 0
  {
    var off := Offset(u.c.tz, u.rule.def.natural);
    (s + off) / u.rule.def.winSec * u.rule.def.winSec - off
  }

  // Twice the limit is reached, by every sliding rule.

  /** A request with only this rule, its gateway's clock agreeing with Redis's. */
  function Single(u: Setup, redis: int, id: string): Call { Check([u.rule], u.meta.(id := id), redis * 1_000_000, redis) }

  lemma SingleIs(u: Setup, redis: int, id: string)
    requires ValidSetup(u) && redis >= 0
    ensures var call := Single(u, redis, id);
            && ValidCall(u, call) && Counted(u, call)
            && BoundaryAt(u, call) == WindowBoundary(redis / 1000, u.rule.def.winSec, u.c.tz, u.rule.def.natural)
            && OpOf(u, call) == S.One(redis, KeyAt(u, BoundaryAt(u, call)), u.rule.def.limit, WindowMs(u), id)
  {
    var call := Single(u, redis, id);
    SameValues(u.meta, id, u.rule.def.dims);
    SingleItems(u, call.meta, call.now);
    OwnItem(u, call, BoundaryAt(u, call));
    NotBoth(u.rule.def);
    assert UnixSec(call.now) == redis / 1000;
    hide DimValues, KeyAt, BoundaryOf, WindowBoundary, IsSlidingRule, Keys.Join, Keys.SafeVals;
  }

  lemma NotBoth(d: Limiter.Rules.Rule)
    ensures !(IsFixedRule(d) && IsSlidingRule(d))
  {}

  lemma SingleItems(u: Setup, meta: Meta, now: int)
    requires ValidSetup(u)
    ensures Items(u.c, [u.rule], meta, now) == [Item(u.rule, ToLua(u.c, u.rule.def, meta, now))]
    ensures Payload(Items(u.c, [u.rule], meta, now)) == [ToLua(u.c, u.rule.def, meta, now)]
  {
    assert [u.rule][..0] == [];
    hide ToLua, Keys.IsDigest, Loaded;
  }

  /** `n` requests at one moment, with consecutive ids. */
  function Burst(u: Setup, redis: int, first: nat, n: nat): (calls: seq<Call>)
    ensures |calls| == n
  {
    seq(n, i requires 0 <= i < n => Single(u, redis, Dec(first + i)))
  }

  lemma BurstSnoc(u: Setup, redis: int, first: nat, n: nat)
    ensures Burst(u, redis, first, n + 1) == Burst(u, redis, first, n) + [Single(u, redis, Dec(first + n))]
    ensures Burst(u, redis, first, 0) == []
  {}

  /** Room at the key of the moment `redis`: `used` ids there in the last window. */
  ghost predicate Room(u: Setup, calls: seq<Call>, redis: int, used: nat)
    requires forall i :: 0 <= i < |calls| ==> Fit(calls[i])
  {
    && (calls != [] ==> calls[|calls| - 1].redis <= redis)
    && |S.Since(S.History(map[], Ops(u, calls), KeyAt(u, BoundaryAt(u, Single(u, redis, "")))), redis - WindowMs(u))| <= used
  }

  lemma OneMore(u: Setup, calls: seq<Call>, redis: int, used: nat, id: string)
    requires ValidSetup(u) && ValidCalls(u, calls) && redis >= 0
    requires forall i :: 0 <= i < |calls| ==> Fit(calls[i])
    requires Room(u, calls, redis, used) && used + 1 <= u.rule.def.limit
    ensures var calls' := calls + [Single(u, redis, id)];
            && ValidCalls(u, calls') && (forall i :: 0 <= i < |calls'| ==> Fit(calls'[i]))
            && Room(u, calls', redis, used + 1)
            && (forall lo, hi :: AdmittedIn(u, calls', None, lo, hi) == AdmittedIn(u, calls, None, lo, hi) + (if lo < redis <= hi then 1 else 0))
  {
    hide *;
    var calls' := calls + [Single(u, redis, id)];
    assert calls'[..|calls|] == calls;
    SingleIs(u, redis, id);
    RoomIs(u, calls, redis, used);
    Appended(u, calls, redis, id);
    CallsLoaded(u, calls');
    OneOk(u, calls, redis, used, id);
    forall lo, hi
      ensures AdmittedIn(u, calls', None, lo, hi) == AdmittedIn(u, calls, None, lo, hi) + (if lo < redis <= hi then 1 else 0)
    {
      AdmittedLast(u, calls', None, lo, hi);
      AdmittedAtIs(u, calls', |calls|, lo, hi);
    }
  }

  lemma OneOk(u: Setup, calls: seq<Call>, redis: int, used: nat, id: string)
    requires ValidSetup(u) && ValidCalls(u, calls) && redis >= 0
    requires forall i :: 0 <= i < |calls| ==> Fit(calls[i])
    requires Room(u, calls, redis, used) && used + 1 <= u.rule.def.limit
    ensures var calls' := calls + [Single(u, redis, id)];
            && ValidCalls(u, calls') && (forall i :: 0 <= i < |calls'| ==> Fit(calls'[i]))
            && Room(u, calls', redis, used + 1) && ReplyTo(map[], Ops(u, calls'), |calls|) == Ok
  {
    hide *;
    var call := Single(u, redis, id);
    var calls' := calls + [call];
    var k := KeyAt(u, BoundaryAt(u, call));
    SingleIs(u, redis, id);
    SingleIs(u, redis, "");
    RoomIs(u, calls, redis, used);
    WindowPositive(u);
    Appended(u, calls, redis, id);
    CallsLoaded(u, calls');
    RunAtKey(u, calls, BoundaryAt(u, call));
    S.Extend(Ops(u, calls), k, WindowMs(u), u.rule.def.limit, redis, id);
    SinceOne(S.History(map[], Ops(u, calls), k), S.Member(id), redis, redis - WindowMs(u));
    RoomIs(u, calls', redis, used + 1);
  }

  lemma SinceOne(h: map<string, int>, m: string, t: int, after: int)
    ensures |S.Since(h[m := t], after)| <= |S.Since(h, after)| + 1
  {
    Submap(S.Since(h[m := t], after), S.Since(h, after)[m := t]);
  }

  lemma RoomIs(u: Setup, calls: seq<Call>, redis: int, used: nat)
    requires forall i :: 0 <= i < |calls| ==> Fit(calls[i])
    ensures Room(u, calls, redis, used)
            <==> (calls != [] ==> calls[|calls| - 1].redis <= redis)
                 && |S.Since(S.History(map[], Ops(u, calls), KeyAt(u, BoundaryAt(u, Single(u, redis, "")))), redis - WindowMs(u))| <= used
  {
    hide S.Since, S.History, KeyAt, BoundaryAt, Ops, Fit;
  }

  lemma Appended(u: Setup, calls: seq<Call>, redis: int, id: string)
    requires ValidSetup(u) && ValidCalls(u, calls) && redis >= 0 && ValidCall(u, Single(u, redis, id))
    requires calls != [] ==> calls[|calls| - 1].redis <= redis
    ensures var calls' := calls + [Single(u, redis, id)];
            && ValidCalls(u, calls') && Ops(u, calls') == Ops(u, calls) + [OpOf(u, Single(u, redis, id))]
            && calls'[|calls|].redis == redis && calls'[|calls|] == Single(u, redis, id)
            && (calls == [] || S.LastTime(Ops(u, calls)) <= redis)
  {
    hide ValidCall, OpOf, ValidSetup;
    CallsLoaded(u, calls);
    var calls' := calls + [Single(u, redis, id)];
    CallsLoaded(u, [Single(u, redis, id)]);
    if calls != [] { OpTime(u, calls); }
  }

  lemma OpTime(u: Setup, calls: seq<Call>)
    requires calls != [] && ValidCalls(u, calls) && forall i :: 0 <= i < |calls| ==> Fit(calls[i])
    ensures S.LastTime(Ops(u, calls)) == calls[|calls| - 1].redis
  {
    hide ValidCall, OpOf;
    OpIs(u, calls[|calls| - 1]);
  }

  /** Into room for `n` more, `n` requests are all admitted. */
  lemma {:induction false} Fills(u: Setup, calls: seq<Call>, redis: int, first: nat, n: nat)
    requires ValidSetup(u) && ValidCalls(u, calls) && redis >= 0
    requires forall i :: 0 <= i < |calls| ==> Fit(calls[i])
    requires Room(u, calls, redis, 0) && n <= u.rule.def.limit
    ensures var calls' := calls + Burst(u, redis, first, n);
            && ValidCalls(u, calls') && (forall i :: 0 <= i < |calls'| ==> Fit(calls'[i]))
            && Room(u, calls', redis, n)
            && (forall lo, hi :: AdmittedIn(u, calls', None, lo, hi) == AdmittedIn(u, calls, None, lo, hi) + (if lo < redis <= hi then n else 0))
  {
    hide *;
    if n == 0 {
      BurstSnoc(u, redis, first, 0);
      assert calls + [] == calls;
    } else {
      Fills(u, calls, redis, first, n - 1);
      BurstSnoc(u, redis, first, n - 1);
      OneMore(u, calls + Burst(u, redis, first, n - 1), redis, n - 1, Dec(first + n - 1));
      assert calls + Burst(u, redis, first, n) == calls + Burst(u, redis, first, n - 1) + [Single(u, redis, Dec(first + n - 1))];
    }
  }

  lemma {:induction false} Untouched(ops: seq<Op>, k: string)
    requires forall i :: 0 <= i < |ops| ==> !Touches(ops[i], k)
    ensures S.History(map[], ops, k) == map[]
  {
    hide Touches, ReplyTo;
    if ops != [] {
      assert forall i :: 0 <= i < |ops| - 1 ==> ops[..|ops| - 1][i] == ops[i];
      Untouched(ops[..|ops| - 1], k);
    }
  }

  /** An aligned second past which every window is in order. */
  lemma AlignedSecond(u: Setup) returns (s: nat)
    requires u.rule.def.winSec > 0
    ensures s >= 1 && s - 1 + Offset(u.c.tz, u.rule.def.natural) >= 0
    ensures WindowBoundary(s, u.rule.def.winSec, u.c.tz, u.rule.def.natural) == s
    ensures WindowBoundary(s - 1, u.rule.def.winSec, u.c.tz, u.rule.def.natural) < s
  {
    var w, off := u.rule.def.winSec, Offset(u.c.tz, u.rule.def.natural);
    var k := (if off < 0 then -off else off) + 1;
    Grows(w, k);
    s := k * w - off;
    DivUnique(s + off, w, k);
    BoundaryTiles(s, w, u.c.tz, u.rule.def.natural);
    BoundaryTiles(s - 1, w, u.c.tz, u.rule.def.natural);
    hide WindowBoundary;
    var b := WindowBoundary(s, w, u.c.tz, u.rule.def.natural);
    DivMod(b + off, w);
    Steps((b + off) / w, k, w, 1);
  }

  lemma BurstRoom(u: Setup, r: int, r': int, n: nat)
    requires ValidSetup(u) && 0 <= r <= r' && ValidCalls(u, Burst(u, r, 0, n))
    requires BoundaryAt(u, Single(u, r, "")) != BoundaryAt(u, Single(u, r', ""))
    ensures (forall i :: 0 <= i < n ==> Fit(Burst(u, r, 0, n)[i])) && Room(u, Burst(u, r, 0, n), r', 0)
  {
    hide *;
    var calls := Burst(u, r, 0, n);
    CallsLoaded(u, calls);
    var k' := KeyAt(u, BoundaryAt(u, Single(u, r', "")));
    OtherWindow(u, BoundaryAt(u, Single(u, r, "")), BoundaryAt(u, Single(u, r', "")));
    BurstOps(u, r, n);
    forall i | 0 <= i < n ensures !Touches(Ops(u, calls)[i], k') { BurstElsewhere(u, r, i, k'); }
    Untouched(Ops(u, calls), k');
    NoneSince(r' - WindowMs(u));
    RoomIs(u, calls, r', 0);
  }

  lemma OtherWindow(u: Setup, b: int, b': int)
    requires ValidSetup(u) && b != b'
    ensures KeyAt(u, b) != KeyAt(u, b')
  {
    Keys.BoundariesDiffer(u.c.sha, u.rule.def.dims, DimValues(u.meta, u.rule.def.dims), u.rule.def.winSec, b, b');
  }

  lemma BurstOps(u: Setup, r: int, n: nat)
    requires forall i :: 0 <= i < n ==> Fit(Burst(u, r, 0, n)[i])
    ensures var calls := Burst(u, r, 0, n);
            (n > 0 ==> calls[n - 1].redis == r)
            && forall i :: 0 <= i < n ==> Fit(Single(u, r, Dec(i))) && Ops(u, calls)[i] == OpOf(u, Single(u, r, Dec(i)))
  {
    hide OpOf, Fit, Dec;
    assert forall i :: 0 <= i < n ==> Burst(u, r, 0, n)[i] == Single(u, r, Dec(i));
  }

  lemma NoneSince(after: int)
    ensures |S.Since(map[], after)| == 0
  {
    assert S.Since(map[], after) == map[];
  }

  lemma BurstElsewhere(u: Setup, r: int, i: nat, k: string)
    requires ValidSetup(u) && r >= 0 && KeyAt(u, BoundaryAt(u, Single(u, r, ""))) != k
    ensures Fit(Single(u, r, Dec(i))) && !Touches(OpOf(u, Single(u, r, Dec(i))), k)
  {
    hide KeyAt, ValidSetup, Touches;
    SingleIs(u, r, Dec(i));
    SingleIs(u, r, "");
    RuleDims(u);
    S.OneTouches(r, KeyAt(u, BoundaryAt(u, Single(u, r, Dec(i)))), u.rule.def.limit, WindowMs(u), Dec(i), k);
  }

  lemma NothingYet(u: Setup, redis: int)
    ensures Room(u, [], redis, 0) && ValidCalls(u, []) && AdmittedIn(u, [], None, 0, 0) == 0
    ensures forall lo, hi :: AdmittedIn(u, [], None, lo, hi) == 0
  {
    assert S.Since(map[], redis - WindowMs(u)) == map[];
    assert Ops(u, []) == [];
  }

  /** Every sliding rule admits twice its limit within one window length, and within two milliseconds: its limit just before a
      boundary and its limit again at it, by requests with distinct ids on clocks that agree. */
  lemma TwiceReached(u: Setup) returns (calls: seq<Call>, t: int)
    requires ValidSetup(u)
    ensures ValidCalls(u, calls) && DistinctIds(u, calls) && Timely(u, calls, 0)
    ensures forall i :: 0 <= i < |calls| ==> Fit(calls[i])
    ensures u.rule.def.limit > 0 && AdmittedIn(u, calls, None, t - WindowMs(u), t) == 2 * u.rule.def.limit
    ensures AdmittedIn(u, calls, None, t - 2, t) == 2 * u.rule.def.limit
  {
    hide *;
    RuleDims(u);
    WindowPositive(u);
    var s := AlignedSecond(u);
    var n := u.rule.def.limit;
    var r := s * 1000 - 1;
    t := s * 1000;
    SingleIs(u, r, "");
    SingleIs(u, t, "");
    NothingYet(u, r);
    Fills(u, [], r, 0, n);
    var a := Burst(u, r, 0, n);
    assert [] + a == a;
    BurstRoom(u, r, t, n);
    Fills(u, a, t, n, n);
    calls := a + Burst(u, t, n, n);
    WindowSpan(u);
    BurstsTimely(u, r, t, n);
  }

  lemma WindowSpan(u: Setup)
    requires u.rule.def.winSec > 0
    ensures WindowMs(u) >= 1000
  {}

  lemma BurstsAre(u: Setup, r: int, t: int, n: nat)
    ensures var calls := Burst(u, r, 0, n) + Burst(u, t, n, n);
            forall i :: 0 <= i < |calls| ==> calls[i] == Single(u, if i < n then r else t, Dec(i))
  {
    hide Dec;
  }

  lemma BurstsTimely(u: Setup, r: int, t: int, n: nat)
    requires 0 <= r <= t && r / 1000 + Offset(u.c.tz, u.rule.def.natural) >= 0
    ensures var calls := Burst(u, r, 0, n) + Burst(u, t, n, n);
            DistinctIds(u, calls) && Timely(u, calls, 0)
  {
    var calls := Burst(u, r, 0, n) + Burst(u, t, n, n);
    BurstsAre(u, r, t, n);
    hide Dec, Burst, WindowMs, UnixSec, Offset;
    forall i, j | 0 <= i < j < |calls| ensures calls[i].meta.id != calls[j].meta.id {
      assert calls[i] == Single(u, if i < n then r else t, Dec(i)) && calls[j] == Single(u, if j < n then r else t, Dec(j));
      if Dec(i) == Dec(j) { DecInjective(i, j); }
    }
    forall i | 0 <= i < |calls|
      ensures UnixSec(calls[i].now) == calls[i].redis / 1000 && UnixSec(calls[i].now) + Offset(u.c.tz, u.rule.def.natural) >= 0
    {
      SecondOf(r);
      SecondOf(t);
      Sooner(r, t);
      assert calls[i] == Single(u, if i < n then r else t, Dec(i));
    }
  }

  lemma Sooner(r: int, t: int)
    requires r <= t
    ensures r / 1000 <= t / 1000
  {}

  lemma SecondOf(r: int)
    ensures UnixSec(r * 1_000_000) == r / 1000
  {}
}
