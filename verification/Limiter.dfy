/** The gateway's decision for one request (internal/limiter/limiter.go): building the script's payload, the negative
    cache, the breaker's choice after an error, and the degraded quotas. Times are nanoseconds. */
module Limiter {
  import opened Prelude
  import opened Window
  import opened BatchCheck
  import Keys
  import Rules
  import Local = LocalFallback
  import Breaker

  datatype Meta = Meta(biz: string, path: string, token: string, ip: string, verb: string, id: string)

  /** A rule as the config store hands it out. */
  datatype Rule = Rule(id: int, enabled: bool, def: Rules.Rule)

  /** What validation guarantees; a `winSec` that wrapped around is excluded separately. */
  predicate Loaded(d: Rules.Rule) {
    && Keys.ValidDims(d.dims)
    && (d.kind == "concurrency" ==> d.maxConc > 0 && d.timeout > 0)
    && (d.kind != "concurrency" ==> d.kind == "rate" && d.limit > 0)
    && (d.kind == "rate" && d.metric != "token" && d.algorithm == "token_bucket" ==> d.burst > 0)
  }

  predicate AllLoaded(rules: seq<Rule>) { forall i :: 0 <= i < |rules| ==> Loaded(rules[i].def) }

  /** Every validated rule is loaded in this sense, and its window is positive unless the product wrapped. */
  lemma ValidatedIsLoaded(d: Rules.Rule)
    requires Rules.Verdict(d).0.None? && Rules.Verdict(d).1 == d
    ensures Loaded(d)
    ensures d.kind == "rate" && Rules.Meaning(d.window) <= INT64_MAX ==> d.winSec == Rules.Meaning(d.window) > 0
  {
    VerdictParts(d);
    Rules.DimsSettled(d.dims);
    KindSettled(d);
    if d.kind == "rate" { Rules.SecondsExactIff(d.window); }
    hide Rules.DimsFault, Rules.NormalDims, Rules.KindVerdict, Keys.ValidDims, Rules.ParseWindow, Rules.Meaning, Rules.Verdict;
  }

  lemma VerdictParts(d: Rules.Rule)
    requires Rules.Verdict(d).0.None? && Rules.Verdict(d).1 == d
    ensures Rules.DimsFault(d.dims).None? && Rules.NormalDims(d.dims) == d.dims && Rules.KindVerdict(d) == (None, d)
  {
    hide Rules.DimsFault, Rules.NormalDims, Rules.KindVerdict;
    Rules.KindIdempotent(d.(dims := Rules.NormalDims(d.dims)));
    assert d.(dims := d.dims) == d;
  }

  lemma KindSettled(d: Rules.Rule)
    ensures Rules.KindVerdict(d).0.None? && Rules.KindVerdict(d).1 == d ==>
              && (d.kind == "concurrency" ==> d.maxConc > 0 && d.timeout > 0)
              && (d.kind != "concurrency" ==> d.kind == "rate" && d.limit > 0)
              && (d.kind == "rate" ==> Rules.ParseWindow(d.window) == Rules.Window(d.winSec, d.natural))
              && (d.kind == "rate" && d.metric != "token" && d.algorithm == "token_bucket" ==> d.burst > 0)
  {
    hide Rules.ParseWindow;
  }

  // Payload.

  function DimValue(meta: Meta, d: string): Option<string> {
    match d
    case "global" => Some("_")
    case "biz" => Some(meta.biz)
    case "path" => Some(meta.path)
    case "token" => Some(meta.token)
    case "ip" => Some(meta.ip)
    case "method" => Some(meta.verb)
    case _ => None
  }

  function DimValues(meta: Meta, dims: seq<string>): (r: seq<string>)
    ensures |r| <= |dims|
  {
    if dims == [] then []
    else
      var n := |dims| - 1;
      var v := DimValue(meta, dims[n]);
      DimValues(meta, dims[..n]) + (if v.Some? then [v.value] else [])
  }

  /** `v` is the field of the request that dimension `d` names. */
  predicate IsField(meta: Meta, d: string, v: string) {
    || (d == "global" && v == "_")
    || (d == "biz" && v == meta.biz)
    || (d == "path" && v == meta.path)
    || (d == "token" && v == meta.token)
    || (d == "ip" && v == meta.ip)
    || (d == "method" && v == meta.verb)
  }

  /** Every known dimension contributes exactly the field it names, in order. */
  lemma {:induction false} DimValuesAligned(meta: Meta, dims: seq<string>)
    requires forall d :: d in dims ==> d in Keys.DIMS
    ensures var r := DimValues(meta, dims);
            |r| == |dims| && forall i :: 0 <= i < |dims| ==> IsField(meta, dims[i], r[i])
  {
    if dims != [] {
      var n := |dims| - 1;
      DimValuesAligned(meta, dims[..n]);
      KnownDim(meta, dims[n]);
      hide DimValue, IsField;
    }
  }

  lemma KnownDim(meta: Meta, d: string)
    requires d in Keys.DIMS
    ensures DimValue(meta, d).Some? && IsField(meta, d, DimValue(meta, d).value)
  {
    assert d == Keys.DIMS[0] || d == Keys.DIMS[1] || d == Keys.DIMS[2] || d == Keys.DIMS[3] || d == Keys.DIMS[4] || d == Keys.DIMS[5];
  }

  /** The id is no dimension. */
  lemma {:induction false} SameValues(meta: Meta, id: string, dims: seq<string>)
    ensures DimValues(meta.(id := id), dims) == DimValues(meta, dims)
  {
    if dims != [] { SameValues(meta, id, dims[..|dims| - 1]); }
  }

  datatype Config = Config(sha: string -> string, tz: int)

  function UnixSec(now: int): int { now / 1_000_000_000 }

  function RateOf(d: Rules.Rule): Rate
    requires d.limit > 0
  {
    if d.winSec <= 0 then d.limit as real else d.limit as real / d.winSec as real
  }

  predicate IsTokenRule(d: Rules.Rule) { d.kind == "rate" && d.metric == "token" }

  predicate IsFixedRule(d: Rules.Rule) {
    d.kind == "rate" && d.metric != "token" && d.algorithm !in ["token_bucket", "sliding_window"]
  }

  predicate IsSlidingRule(d: Rules.Rule) {
    d.kind == "rate" && d.metric != "token" && d.algorithm == "sliding_window"
  }

  function BoundaryOf(c: Config, d: Rules.Rule, now: int): int {
    WindowBoundary(UnixSec(now), d.winSec, c.tz, d.natural)
  }

  function KeySpecOf(c: Config, d: Rules.Rule, meta: Meta, now: int): Keys.KeySpec {
    var vals := DimValues(meta, d.dims);
    if IsTokenRule(d) then Keys.LedgerSpec(d.dims, vals, d.winSec, BoundaryOf(c, d, now))
    else if d.kind == "concurrency" then Keys.ConcSpec(meta.biz, d.dims, vals)
    else if d.algorithm == "token_bucket" then Keys.BucketSpec(d.dims, vals)
    else Keys.RateSpec(d.dims, vals, d.winSec, BoundaryOf(c, d, now))
  }

  /** What Check sends for one rule. */
  function ToLua(c: Config, d: Rules.Rule, meta: Meta, now: int): LRule
    requires Loaded(d)
  {
    var key := Keys.Build(c.sha, KeySpecOf(c, d, meta, now));
    if IsTokenRule(d) then TkAdmit(key, d.limit)
    else if d.kind == "concurrency" then Conc(key, d.maxConc, d.timeout * 1000)
    else if d.algorithm == "token_bucket" then Bucket(key, RateOf(d), d.burst)
    else if d.algorithm == "sliding_window" then Sliding(key, d.limit, d.winSec * 1000)
    else Fixed(key, d.limit, d.winSec + 60)
  }

  datatype Item = Item(rule: Rule, lua: LRule)

  function Items(c: Config, rules: seq<Rule>, meta: Meta, now: int): (r: seq<Item>)
    requires AllLoaded(rules)
    ensures forall i :: 0 <= i < |r| ==> Loaded(r[i].rule.def) && r[i].lua == ToLua(c, r[i].rule.def, meta, now)
  {
    if rules == [] then []
    else
      var n := |rules| - 1;
      Items(c, rules[..n], meta, now)
      + (if rules[n].enabled then [Item(rules[n], ToLua(c, rules[n].def, meta, now))] else [])
  }

  function Payload(items: seq<Item>): (r: seq<LRule>)
    ensures |r| == |items|
  {
    seq(|items|, i requires 0 <= i < |items| => items[i].lua)
  }

  function ConcKeys(items: seq<Item>): seq<string> {
    if items == [] then []
    else
      var n := |items| - 1;
      ConcKeys(items[..n]) + (if items[n].lua.Conc? then [items[n].lua.key] else [])
  }

  // Decisions.

  datatype Decision = Decision(allowed: bool, name: string, id: int, dimension: string, retry: int, degraded: bool)

  function Allow(degraded: bool): Decision { Decision(true, "", 0, "", 0, degraded) }

  function Deny(r: Rule, retry: int, degraded: bool): Decision {
    Decision(false, r.def.name, r.id, Keys.Join('.', r.def.dims), retry, degraded)
  }

  datatype Hold = Hold(keys: seq<string>, id: string)

  /** What came back from the script: an error, or the three numbers of its reply. */
  datatype Outcome = Failed | Answer(ok: bool, index: int, retryMs: int)

  /** The reply of the script itself, as its caller sees it. */
  function OutcomeOf(r: Reply): Outcome {
    match r
    case Ok => Answer(true, 0, 0)
    case Denied(index, retry) => Answer(false, index, retry)
    case ScriptError => Failed
  }

  datatype FailMode = FailOpen | FailClose | FailLocalQuota

  function FailModeOf(d: Rules.Rule): FailMode {
    if IsTokenRule(d) || d.kind == "concurrency" then FailLocalQuota else FailOpen
  }

  function LocalQuota(limit: int, instances: int): int {
    Max(1, GoDiv(limit, Max(1, instances)))
  }

  datatype QuotaParams = QuotaParams(key: string, limit: int, window: int)

  function DegradeParams(c: Config, d: Rules.Rule, meta: Meta, now: int): QuotaParams {
    var vals := DimValues(meta, d.dims);
    if d.kind == "concurrency" then
      QuotaParams(Keys.Build(c.sha, Keys.DegradedSpec(meta.biz, d.dims, vals)), d.maxConc,
                  (if d.timeout <= 0 then 120 else d.timeout) * 1_000_000_000)
    else if d.winSec <= 0 then QuotaParams("", d.limit, 0)
    else QuotaParams(Keys.RateKey(c.sha, d.dims, vals, d.winSec, BoundaryOf(c, d, now)), d.limit, d.winSec * 1_000_000_000)
  }

  /** degrade from rule `i` on: the local state it leaves, its decision and the quota calls it makes. */
  function DegradeFrom(c: Config, l: Local.Local, instances: int, items: seq<Item>, meta: Meta, now: int, i: nat)
    : (Local.Local, Decision, seq<Local.Call>)
    requires i <= |items|
    decreases |items| - i
  {
    if i == |items| then (l, Allow(true), [])
    else
      var r := items[i].rule;
      match FailModeOf(r.def)
      case FailOpen => DegradeFrom(c, l, instances, items, meta, now, i + 1)
      case FailClose => (l, Deny(r, 1_000_000_000, true), [])
      case FailLocalQuota =>
        var p := DegradeParams(c, r.def, meta, now);
        if p.window <= 0 then (l, Deny(r, 1_000_000_000, true), [])
        else
          var quota := LocalQuota(p.limit, instances);
          var call := Local.TakeQuota(p.key, quota, p.window, now);
          var (l', ok) := Local.AllowQuota(l, p.key, quota, p.window, now);
          if !ok then (l', Deny(r, p.window, true), [call])
          else
            var (l'', d, calls) := DegradeFrom(c, l', instances, items, meta, now, i + 1);
            (l'', d, [call] + calls)
  }

  /** One instance's state. */
  datatype Gate = Gate(instances: int, local: Local.Local, breaker: Breaker.B)

  /** A request: what Check is given, when it starts, what the script run would answer, and when that has come back. */
  datatype Request = Request(rules: seq<Rule>, meta: Meta, run: seq<LRule> -> Outcome, now: int, later: int)

  /** The result of Check, with the calls it makes on the local state and the breaker. */
  datatype Result = Result(gate: Gate, decision: Decision, hold: Option<Hold>,
                           calls: seq<Local.Call>, events: seq<Breaker.Event>)

  /** The first item whose key is blocked, from `i` on. */
  function FirstBlocked(blocks: map<string, int>, items: seq<Item>, now: int, i: nat): Option<nat>
    requires i <= |items|
    decreases |items| - i
  {
    if i == |items| then None
    else if Local.Blocked(blocks, items[i].lua.key, now).Some? then Some(i)
    else FirstBlocked(blocks, items, now, i + 1)
  }

  lemma {:induction false} FirstBlockedIndex(blocks: map<string, int>, items: seq<Item>, now: int, i: nat)
    requires i <= |items|
    ensures var b := FirstBlocked(blocks, items, now, i);
            b.Some? ==> i <= b.value < |items| && Local.Blocked(blocks, items[b.value].lua.key, now).Some?
    decreases |items| - i
  {
    if i < |items| { FirstBlockedIndex(blocks, items, now, i + 1); }
  }

  const BLOCK_MAX := 10_000_000_000

  /** A failed script run, once the breaker has said whether Redis is down. */
  function OnError(c: Config, l: Local.Local, instances: int, items: seq<Item>, meta: Meta, down: bool, later: int)
    : (Local.Local, Decision, seq<Local.Call>)
    requires items != []
  {
    if !down then (l, Deny(items[0].rule, 100_000_000, true), [])
    else DegradeFrom(c, l, instances, items, meta, later, 0)
  }

  /** The reply of the script. */
  function OnAnswer(l: Local.Local, items: seq<Item>, q: Request, a: Outcome)
    : (Local.Local, Decision, Option<Hold>, seq<Local.Call>)
    requires a.Answer?
  {
    if a.ok then
      (l, Allow(false), if ConcKeys(items) == [] then None else Some(Hold(ConcKeys(items), q.meta.id)), [])
    else if a.index < 1 || a.index > |items| then (l, Decision(false, "unknown", 0, "", 0, false), None, [])
    else
      var it := items[a.index - 1];
      var retry := a.retryMs * 1_000_000;
      var d := Deny(it.rule, retry, false);
      if 0 < retry <= BLOCK_MAX then
        (Local.Block(l, it.lua.key, q.now + retry, q.later), d, None, [Local.AddBlock(it.lua.key, q.now + retry, q.later)])
      else (l, d, None, [])
  }

  function CheckItems(c: Config, g: Gate, q: Request, items: seq<Item>): Result
    requires items != []
  {
    var a := q.run(Payload(items));
    match a
    case Failed =>
      var (b, down) := Breaker.Degraded(Breaker.OnFailure(g.breaker, q.later), q.later);
      var (l, d, calls) := OnError(c, g.local, g.instances, items, q.meta, down, q.later);
      Result(g.(local := l, breaker := b), d, None, calls, [Breaker.Failed(q.later), Breaker.Asked(q.later)])
    case Answer(_, _, _) =>
      var (l, d, hold, calls) := OnAnswer(g.local, items, q, a);
      Result(g.(local := l, breaker := Breaker.OnSuccess(g.breaker, q.later)), d, hold, calls, [Breaker.Succeeded(q.later)])
  }

  /** Check as a function of the state. */
  function Decide(c: Config, g: Gate, q: Request): Result
    requires AllLoaded(q.rules)
  {
    var items := Items(c, q.rules, q.meta, q.now);
    var b := FirstBlocked(g.local.blocks, items, q.now, 0);
    FirstBlockedIndex(g.local.blocks, items, q.now, 0);
    if b.Some? then
      var it := items[b.value];
      Result(g, Deny(it.rule, g.local.blocks[it.lua.key] - q.now, false), None, [], [])
    else if items == [] then Result(g, Allow(false), None, [], [])
    else CheckItems(c, g, q, items)
  }

  /** The three ways a request takes. */
  lemma DecideIs(c: Config, g: Gate, q: Request)
    requires AllLoaded(q.rules)
    ensures var items := Items(c, q.rules, q.meta, q.now);
            var b := FirstBlocked(g.local.blocks, items, q.now, 0);
            if b.Some? then
              && b.value < |items| && items[b.value].lua.key in g.local.blocks
              && Decide(c, g, q)
                 == Result(g, Deny(items[b.value].rule, g.local.blocks[items[b.value].lua.key] - q.now, false), None, [], [])
            else Decide(c, g, q) == if items == [] then Result(g, Allow(false), None, [], []) else CheckItems(c, g, q, items)
  {
    hide ToLua, FirstBlocked, Items, CheckItems, Deny, AllLoaded, Local.Blocked, Allow;
    var items := Items(c, q.rules, q.meta, q.now);
    var b := FirstBlocked(g.local.blocks, items, q.now, 0);
    FirstBlockedIndex(g.local.blocks, items, q.now, 0);
    if b.Some? { BlockedUntil(g.local.blocks, items[b.value].lua.key, q.now); }
  }

  // The object.

  class Gateway {
    const c: Config
    var instances: int
    const local: Local.Fallback
    const breaker: Breaker.CircuitBreaker

    constructor (c: Config, instances: int, now: int)
      ensures fresh(local) && fresh(breaker)
      ensures this.c == c && State() == NewGate(instances, now)
    {
      this.c := c;
      this.instances := if instances <= 0 then 1 else instances;
      local := new Local.Fallback(now);
      breaker := new Breaker.CircuitBreaker(now);
    }

    function State(): Gate
      reads this, local, breaker
    {
      Gate(instances, local.State(), breaker.State())
    }

    method SetInstances(n: int)
      modifies this
      ensures State() == Resized(old(State()), n)
    {
      if n <= 0 { return; }
      instances := n;
    }

    method QuotaPerInstance(limit: int) returns (q: int)
      ensures q == LocalQuota(limit, instances)
    {
      var inst := instances;
      if inst < 1 { inst := 1; }
      q := GoDiv(limit, inst);
      if q < 1 { q := 1; }
    }

    method ValuesOf(meta: Meta, dims: seq<string>) returns (vals: seq<string>)
      ensures vals == DimValues(meta, dims)
    {
      vals := [];
      for i := 0 to |dims|
        invariant vals == DimValues(meta, dims[..i])
      {
        assert dims[..i + 1][..i] == dims[..i];
        match dims[i] {
          case "global" => vals := vals + ["_"];
          case "biz" => vals := vals + [meta.biz];
          case "path" => vals := vals + [meta.path];
          case "token" => vals := vals + [meta.token];
          case "ip" => vals := vals + [meta.ip];
          case "method" => vals := vals + [meta.verb];
          case _ =>
        }
      }
      assert dims[..|dims|] == dims;
    }

    method Describe(d: Rules.Rule, meta: Meta, now: int) returns (lr: LRule)
      requires Loaded(d)
      ensures lr == ToLua(c, d, meta, now)
    {
      var vals := ValuesOf(meta, d.dims);
      var b := WindowBoundary(UnixSec(now), d.winSec, c.tz, d.natural);
      if d.kind == "rate" && d.metric == "token" {
        var key := Keys.BuildTokenLedgerKey(c.sha, d.dims, vals, d.winSec, b);
        lr := TkAdmit(key, d.limit);
      } else if d.kind == "concurrency" {
        var key := Keys.BuildConcurrencyKey(c.sha, meta.biz, d.dims, vals);
        lr := Conc(key, d.maxConc, d.timeout * 1000);
      } else if d.algorithm == "token_bucket" {
        var key := Keys.BuildTokenBucketKey(c.sha, d.dims, vals);
        lr := Bucket(key, RateOf(d), d.burst);
      } else {
        var key := Keys.BuildRateKey(c.sha, d.dims, vals, d.winSec, b);
        lr := if d.algorithm == "sliding_window" then Sliding(key, d.limit, d.winSec * 1000)
              else Fixed(key, d.limit, d.winSec + 60);
      }
    }

    method Check(q: Request) returns (d: Decision, hold: Option<Hold>)
      requires AllLoaded(q.rules)
      modifies local, breaker
      ensures var r := Decide(c, old(State()), q);
              d == r.decision && hold == r.hold && State() == r.gate
    {
      hide *;
      StateBlocks(this);
      DecideIs(c, State(), q);
      var items, concKeys, denied := Gather(q);
      if denied.Some? { return denied.value, None; }
      if |items| == 0 { return Allow(false), None; }
      d, hold := Finish(q, items, concKeys);
    }

    /** The loop over the rules, which the negative cache may cut short. */
    method Gather(q: Request) returns (items: seq<Item>, concKeys: seq<string>, denied: Option<Decision>)
      requires AllLoaded(q.rules)
      ensures var all := Items(c, q.rules, q.meta, q.now);
              var b := FirstBlocked(local.blocks, all, q.now, 0);
              if b.Some? then
                b.value < |all| && all[b.value].lua.key in local.blocks
                && denied == Some(Deny(all[b.value].rule, local.blocks[all[b.value].lua.key] - q.now, false))
              else denied == None && items == all && concKeys == ConcKeys(all)
    {
      hide *;
      items, concKeys, denied := [], [], None;
      NoItems(c, q.meta, q.now, local.blocks);
      assert q.rules[..0] == [];
      ghost var all := Items(c, q.rules, q.meta, q.now);
      var i := 0;
      while i < |q.rules|
        invariant 0 <= i <= |q.rules|
        invariant AllLoaded(q.rules[..i]) && items == Items(c, q.rules[..i], q.meta, q.now) && concKeys == ConcKeys(items)
        invariant FirstBlocked(local.blocks, items, q.now, 0).None?
      {
        var r := q.rules[i];
        ItemsPrefix(c, q.rules, q.meta, q.now, i);
        if r.enabled {
          var lr := Describe(r.def, q.meta, q.now);
          var it := Item(r, lr);
          ConcSnoc(items, it);
          if lr.Conc? { concKeys := concKeys + [lr.key]; }
          var until := local.IsBlocked(lr.key, q.now);
          BlockedSnoc(local.blocks, items, it, q.now, 0);
          if until.Some? {
            BlockedUntil(local.blocks, lr.key, q.now);
            BlockedPrefix(local.blocks, items + [it], all, q.now, 0);
            denied := Some(Deny(r, until.value - q.now, false));
            return;
          }
          items := items + [it];
        }
        i := i + 1;
      }
      assert q.rules[..|q.rules|] == q.rules;
    }

    /** From the script run on. */
    method Finish(q: Request, items: seq<Item>, concKeys: seq<string>) returns (d: Decision, hold: Option<Hold>)
      requires items != [] && concKeys == ConcKeys(items)
      modifies local, breaker
      ensures var r := CheckItems(c, old(State()), q, items);
              d == r.decision && hold == r.hold && State() == r.gate
    {
      var a := q.run(Payload(items));
      if a.Failed? {
        breaker.Failure(q.later);
        var down := breaker.IsDegraded(q.later);
        if !down { return Deny(items[0].rule, 100_000_000, true), None; }
        d := Degrade(items, q.meta, q.later);
        return d, None;
      }
      breaker.Success(q.later);
      if a.ok {
        hold := if |concKeys| == 0 then None else Some(Hold(concKeys, q.meta.id));
        return Allow(false), hold;
      }
      if a.index < 1 || a.index > |items| { return Decision(false, "unknown", 0, "", 0, false), None; }
      var it := items[a.index - 1];
      var retry := a.retryMs * 1_000_000;
      if retry > 0 && retry <= BLOCK_MAX { local.AddBlock(it.lua.key, q.now + retry, q.later); }
      d, hold := Deny(it.rule, retry, false), None;
    }

    method Degrade(items: seq<Item>, meta: Meta, now: int) returns (d: Decision)
      modifies local
      ensures var r := DegradeFrom(c, old(local.State()), instances, items, meta, now, 0);
              d == r.1 && local.State() == r.0
    {
      var i := 0;
      while i < |items|
        invariant 0 <= i <= |items|
        invariant var r := DegradeFrom(c, old(local.State()), instances, items, meta, now, 0);
                  var s := DegradeFrom(c, local.State(), instances, items, meta, now, i);
                  r.0 == s.0 && r.1 == s.1
      {
        var r := items[i].rule;
        match FailModeOf(r.def) {
          case FailOpen =>
          case FailClose => return Deny(r, 1_000_000_000, true);
          case FailLocalQuota =>
            var p := DegradeParams(c, r.def, meta, now);
            if p.window <= 0 { return Deny(r, 1_000_000_000, true); }
            var quota := QuotaPerInstance(p.limit);
            var ok := local.TakeQuota(p.key, quota, p.window, now);
            if !ok { return Deny(r, p.window, true); }
        }
        i := i + 1;
      }
      d := Allow(true);
    }
  }

  lemma StateBlocks(g: Gateway)
    ensures g.State().local.blocks == g.local.blocks
  {}

  /** A reported count that is not positive is ignored. */
  function Resized(g: Gate, n: int): Gate { if n <= 0 then g else g.(instances := n) }

  function NewGate(instances: int, now: int): Gate {
    Gate(if instances <= 0 then 1 else instances, Local.Local(map[], map[], now), Breaker.Init(now))
  }

  lemma NoItems(c: Config, meta: Meta, now: int, blocks: map<string, int>)
    ensures AllLoaded([]) && Items(c, [], meta, now) == [] && ConcKeys([]) == [] && FirstBlocked(blocks, [], now, 0).None?
  {}

  lemma {:induction false} ItemsPrefix(c: Config, rules: seq<Rule>, meta: Meta, now: int, i: nat)
    requires i < |rules| && AllLoaded(rules)
    ensures AllLoaded(rules[..i]) && AllLoaded(rules[..i + 1]) && Loaded(rules[i].def)
    ensures Items(c, rules[..i + 1], meta, now) <= Items(c, rules, meta, now)
    ensures Items(c, rules[..i + 1], meta, now)
            == Items(c, rules[..i], meta, now)
               + (if rules[i].enabled then [Item(rules[i], ToLua(c, rules[i].def, meta, now))] else [])
  {
    hide ToLua;
    assert rules[..i + 1][..i] == rules[..i];
    if i + 1 < |rules| {
      var n := |rules| - 1;
      assert rules[..n][..i + 1] == rules[..i + 1] && rules[..n][..i] == rules[..i];
      ItemsPrefix(c, rules[..n], meta, now, i);
    } else {
      assert rules[..i + 1] == rules;
    }
  }

  lemma ConcSnoc(items: seq<Item>, it: Item)
    ensures ConcKeys(items + [it]) == ConcKeys(items) + (if it.lua.Conc? then [it.lua.key] else [])
  {
    assert (items + [it])[..|items|] == items;
  }

  lemma BlockedUntil(blocks: map<string, int>, key: string, now: int)
    ensures var b := Local.Blocked(blocks, key, now);
            b.Some? ==> key in blocks && blocks[key] == b.value
  {}

  lemma {:induction false} BlockedSnoc(blocks: map<string, int>, items: seq<Item>, it: Item, now: int, i: nat)
    requires i <= |items| && FirstBlocked(blocks, items, now, i).None?
    ensures FirstBlocked(blocks, items + [it], now, i)
            == if Local.Blocked(blocks, it.lua.key, now).Some? then Some(|items|) else None
    decreases |items| - i
  {
    if i < |items| { BlockedSnoc(blocks, items, it, now, i + 1); }
  }

  lemma {:induction false} BlockedPrefix(blocks: map<string, int>, p: seq<Item>, items: seq<Item>, now: int, i: nat)
    requires p <= items && i <= |p| && FirstBlocked(blocks, p, now, i).Some?
    ensures FirstBlocked(blocks, items, now, i) == FirstBlocked(blocks, p, now, i)
    decreases |p| - i
  {
    if Local.Blocked(blocks, p[i].lua.key, now).None? { BlockedPrefix(blocks, p, items, now, i + 1); }
  }
}
