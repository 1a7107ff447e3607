/** What a concurrency rule bounds, in its own fields: the slots of one business domain and one set of dimension values
    (internal/limiter/limiter.go: Check, Release). */
module ConcurrencyRule {
  import opened Prelude
  import opened Redis
  import opened BatchCheck
  import opened TwoPhase
  import opened AtKey
  import opened Runs
  import opened Limiter
  import Keys
  import GateRuns
  import Local = LocalFallback
  import S = Concurrency

  /** A concurrency rule, a request whose slots it counts, and the shortest timeout used on them, in seconds. */
  datatype Setup = Setup(c: Config, rule: Rule, meta: Meta, shortest: int)

  /** What reaches Redis: a Check with its rules, its gateway's clock in nanoseconds and Redis's in milliseconds, the end of such a
      request, which releases what it holds, or a charge. */
  datatype Call =
    | Check(rules: seq<Rule>, meta: Meta, now: int, redis: int)
    | End(rules: seq<Rule>, meta: Meta, now: int, redis: int)
    | Charge(redis: int, op: Op)

  predicate Fit(call: Call) { !call.Charge? ==> AllLoaded(call.rules) }

  ghost predicate ValidSetup(u: Setup) {
    Keys.IsDigest(u.c.sha) && Loaded(u.rule.def) && u.rule.enabled && u.rule.def.kind == "concurrency" && u.shortest > 0
  }

  function Values(u: Setup, meta: Meta): string { Keys.Join('.', Keys.SafeVals(u.c.sha, DimValues(meta, u.rule.def.dims))) }

  /** The request is of the same domain and has the same dimension values. */
  predicate Alike(u: Setup, meta: Meta) {
    Keys.SafeVal(u.c.sha, meta.biz) == Keys.SafeVal(u.c.sha, u.meta.biz) && Values(u, meta) == Values(u, u.meta)
  }

  /** A rule over the same slots: the rule itself, or one that differs in its limit or its timeout. */
  predicate Peer(u: Setup, r: Rule) { r.enabled && r.def.kind == "concurrency" && r.def.dims == u.rule.def.dims }

  /** The call takes or gives back one of the slots. */
  predicate Uses(u: Setup, call: Call) { !call.Charge? && Alike(u, call.meta) && exists r | r in call.rules :: Peer(u, r) }

  /** The last of such rules in a list decides how long the slot is held, in seconds. */
  function Timeout(u: Setup, rules: seq<Rule>): int {
    if rules == [] then 0
    else if Peer(u, rules[|rules| - 1]) then rules[|rules| - 1].def.timeout
    else Timeout(u, rules[..|rules| - 1])
  }

  function KeyOf(u: Setup): string { Keys.ConcurrencyKey(u.c.sha, u.meta.biz, u.rule.def.dims, DimValues(u.meta, u.rule.def.dims)) }

  function OpOf(u: Setup, call: Call): Op
    requires Fit(call)
  {
    match call
    case Check(rules, meta, now, redis) => Admit(redis, Payload(Items(u.c, rules, meta, now)), meta.id)
    case End(rules, meta, now, redis) => Release(redis, ConcKeys(Items(u.c, rules, meta, now)), meta.id)
    case Charge(_, op) => op
  }

  /** Checks of these slots carry a rule of the same limit or less, their timeouts lie within 60 s of the shortest, and no fixed and
      sliding rule of theirs clash. */
  ghost predicate ValidCall(u: Setup, call: Call) {
    && Fit(call) && call.redis >= 0
    && match call
       case Check(rules, meta, now, _) =>
         Uses(u, call) ==>
           && (exists r | r in rules :: Peer(u, r) && r.def.maxConc <= u.rule.def.maxConc)
           && (forall r | r in rules && Peer(u, r) :: u.shortest <= r.def.timeout <= u.shortest + 60)
           && !GateRuns.TypeClash(u.c, Items(u.c, rules, meta, now), now)
       case End(_, _, _, _) => true
       case Charge(redis, op) => (op.Reserve? || op.Settle?) && op.now == redis && op.key != KeyOf(u)
  }

  ghost predicate ValidCalls(u: Setup, calls: seq<Call>) {
    && (forall i :: 0 <= i < |calls| ==> ValidCall(u, calls[i]))
    && (forall i, j :: 0 <= i < j < |calls| ==> calls[i].redis <= calls[j].redis)
  }

  function Ops(u: Setup, calls: seq<Call>): (ops: seq<Op>)
    requires forall i :: 0 <= i < |calls| ==> Fit(calls[i])
    ensures |ops| == |calls|
  {
    seq(|calls|, i requires 0 <= i < |calls| => OpOf(u, calls[i]))
  }

  /** The script's answer to Check `n`. */
  function ReplyAt(u: Setup, calls: seq<Call>, n: nat): Reply
    requires (forall i :: 0 <= i < |calls| ==> Fit(calls[i])) && n < |calls|
  {
    ReplyTo(map[], Ops(u, calls), n)
  }

  function LastRedis(calls: seq<Call>): int { if calls == [] then 0 else calls[|calls| - 1].redis }

  /** The ids that hold a slot, each with the time in milliseconds its slot lapses. */
  function Slots(u: Setup, calls: seq<Call>): map<string, int>
    requires forall i :: 0 <= i < |calls| ==> Fit(calls[i])
  {
    if calls == [] then map[]
    else
      var n := |calls| - 1;
      var call, s := calls[n], Slots(u, calls[..n]);
      if !Uses(u, call) then s
      else if call.End? then s - {call.meta.id}
      else if ReplyAt(u, calls, n) == Ok then s[call.meta.id := call.redis + Timeout(u, call.rules) * 1000]
      else s
  }

  /** How many of them have not lapsed. */
  function Taken(slots: map<string, int>, now: int): nat { |S.Unexpired(slots, now)| }

  /** The requests admitted to the slots that have not ended, in order. */
  function InFlight(u: Setup, calls: seq<Call>): seq<S.Holder>
    requires forall i :: 0 <= i < |calls| ==> Fit(calls[i])
  {
    if calls == [] then []
    else
      var n := |calls| - 1;
      var call, f := calls[n], InFlight(u, calls[..n]);
      if !Uses(u, call) then f
      else if call.End? then S.Ended(f, call.meta.id)
      else if ReplyAt(u, calls, n) == Ok then f + [S.Holder(call.meta.id, call.redis + Timeout(u, call.rules) * 1000)]
      else f
  }

  /** No Check of the slots carries the id of a request in flight there. */
  predicate DistinctIds(u: Setup, calls: seq<Call>)
    requires forall i :: 0 <= i < |calls| ==> Fit(calls[i])
  {
    calls == [] ||
    var n := |calls| - 1;
    && DistinctIds(u, calls[..n])
    && (calls[n].Check? && Uses(u, calls[n]) ==> forall h | h in InFlight(u, calls[..n]) :: h.id != calls[n].meta.id)
  }

  // One Check, seen from the key of the slots.

  /** The entry of a rule lies under that key exactly when it is a rule over the same slots. */
  lemma EntryAtKey(u: Setup, r: Rule, meta: Meta, now: int)
    requires ValidSetup(u) && Loaded(r.def) && r.enabled
    ensures var l := ToLua(u.c, r.def, meta, now);
            && (l.key == KeyOf(u) <==> Alike(u, meta) && Peer(u, r))
            && (r.def.kind == "concurrency" ==> l == Conc(l.key, r.def.maxConc, r.def.timeout * 1000))
            && (l.Conc? <==> r.def.kind == "concurrency")
  {
    var spec := Keys.ConcSpec(u.meta.biz, u.rule.def.dims, DimValues(u.meta, u.rule.def.dims));
    GateRuns.LuaShape(u.c, r.def, meta, now);
    ConcEntry(u.c, r.def, meta, now);
    RuleDims(u);
    assert KeyOf(u) == Keys.Build(u.c.sha, spec);
    hide ToLua, KeySpecOf, Keys.Build, Keys.ValidDims, DimValues, BoundaryOf, Keys.SafeVals, Keys.SafeVal, Keys.Join, KeyOf, Loaded,
         IsFixedRule, IsSlidingRule;
    Keys.KeysCoincideIff(u.c.sha, KeySpecOf(u.c, r.def, meta, now), spec);
  }

  lemma ConcEntry(c: Config, d: Limiter.Rules.Rule, meta: Meta, now: int)
    requires Loaded(d)
    ensures var l, k := ToLua(c, d, meta, now), KeySpecOf(c, d, meta, now);
            && (l.Conc? <==> d.kind == "concurrency") && (k.ConcSpec? <==> d.kind == "concurrency")
            && (l.Conc? ==> l == Conc(l.key, d.maxConc, d.timeout * 1000) && k.biz == meta.biz)
  {
    hide Keys.Build, Keys.ValidDims, DimValues, BoundaryOf, RateOf;
  }

  lemma RuleDims(u: Setup)
    requires ValidSetup(u)
    ensures Keys.ValidDims(u.rule.def.dims) && u.rule.def.maxConc > 0 && u.rule.def.timeout > 0
  {}

  /** The payload's entries under the key are those of the rules over the slots. */
  lemma PayloadAtKey(u: Setup, rules: seq<Rule>, meta: Meta, now: int)
    requires ValidSetup(u) && AllLoaded(rules)
    ensures var items := Items(u.c, rules, meta, now);
            var p := Payload(items);
            forall i :: 0 <= i < |p| ==>
              && p[i] == items[i].lua && items[i].rule in rules
              && (p[i].key == KeyOf(u) <==> Alike(u, meta) && Peer(u, items[i].rule))
              && (p[i].key == KeyOf(u) ==> p[i] == Conc(p[i].key, items[i].rule.def.maxConc, items[i].rule.def.timeout * 1000))
  {
    var items := Items(u.c, rules, meta, now);
    GateRuns.ItemRules(u.c, rules, meta, now);
    GateRuns.LoadedItems(u.c, rules, meta, now);
    forall i | 0 <= i < |items|
      ensures items[i].lua.key == KeyOf(u) <==> Alike(u, meta) && Peer(u, items[i].rule)
      ensures items[i].lua.key == KeyOf(u)
              ==> items[i].lua == Conc(items[i].lua.key, items[i].rule.def.maxConc, items[i].rule.def.timeout * 1000)
    {
      hide Items, KeyOf, Alike;
      ItemIs(u.c, rules, meta, now, i);
      EntryAtKey(u, items[i].rule, meta, now);
    }
    hide *;
    PayloadIs(items);
  }

  lemma ItemIs(c: Config, rules: seq<Rule>, meta: Meta, now: int, i: nat)
    requires AllLoaded(rules) && i < |Items(c, rules, meta, now)|
    ensures var it := Items(c, rules, meta, now)[i]; Loaded(it.rule.def) && it.lua == ToLua(c, it.rule.def, meta, now)
  {
    hide ToLua, Loaded;
  }

  lemma PayloadIs(items: seq<Item>)
    ensures forall i :: 0 <= i < |items| ==> Payload(items)[i] == items[i].lua
  {}

  /** Some entry lies under the key exactly when one of the rules is a rule over the slots. */
  lemma ReadsIff(u: Setup, rules: seq<Rule>, meta: Meta, now: int)
    requires ValidSetup(u) && AllLoaded(rules)
    ensures var items := Items(u.c, rules, meta, now);
            var p := Payload(items);
            var uses := Alike(u, meta) && exists r | r in rules :: Peer(u, r);
            && (Reads(p, |p|, KeyOf(u)) <==> uses)
            && (KeyOf(u) in ConcKeys(items) <==> uses)
  {
    hide *;
    var items := Items(u.c, rules, meta, now);
    PayloadAtKey(u, rules, meta, now);
    ReadsItem(items, KeyOf(u));
    GateRuns.ConcKeysExact(items, KeyOf(u));
    if r :| Alike(u, meta) && r in rules && Peer(u, r) {
      PeerEnabled(u, r);
      GateRuns.EnabledItem(u.c, rules, meta, now, r);
    }
  }

  lemma PeerEnabled(u: Setup, r: Rule)
    ensures Peer(u, r) ==> r.enabled && r.def.kind == "concurrency"
  {}

  lemma ReadsItem(items: seq<Item>, k: string)
    ensures Reads(Payload(items), |Payload(items)|, k) <==> exists i :: 0 <= i < |items| && items[i].lua.key == k
  {
    var p := Payload(items);
    if i :| 0 <= i < |items| && items[i].lua.key == k { assert p[i].key == k; }
  }

  lemma TtlSnoc(p: seq<LRule>, r: LRule, k: string)
    requires r.key == k ==> r.Conc?
    ensures S.TtlOn(p + [r], k) == if r.key == k then r.ttl else S.TtlOn(p, k)
  {
    var q := p + [r];
    assert q[..|q| - 1] == p;
    if r.key == k {
      assert q[|p|].key == k;
    } else {
      assert forall i :: 0 <= i < |p| ==> q[i] == p[i];
    }
  }

  lemma PayloadSnoc(items: seq<Item>, it: Item)
    ensures Payload(items + [it]) == Payload(items) + [it.lua]
  {}

  /** The timeout that remains, in milliseconds. */
  lemma {:induction false} TtlIs(u: Setup, rules: seq<Rule>, meta: Meta, now: int)
    requires ValidSetup(u) && AllLoaded(rules) && Alike(u, meta)
    ensures S.TtlOn(Payload(Items(u.c, rules, meta, now)), KeyOf(u)) == Timeout(u, rules) * 1000
  {
    hide *;
    if rules == [] {
      NoTtl(u, meta, now);
    } else {
      var n := |rules| - 1;
      assert rules[..n + 1] == rules;
      ItemsPrefix(u.c, rules, meta, now, n);
      TtlIs(u, rules[..n], meta, now);
      TimeoutLast(u, rules);
      PeerEnabled(u, rules[n]);
      var items := Items(u.c, rules[..n], meta, now);
      if rules[n].enabled {
        var it := Item(rules[n], ToLua(u.c, rules[n].def, meta, now));
        PayloadSnoc(items, it);
        EntryAtKey(u, rules[n], meta, now);
        TtlSnoc(Payload(items), it.lua, KeyOf(u));
      } else {
        assert Items(u.c, rules, meta, now) == items;
      }
    }
  }

  lemma NoTtl(u: Setup, meta: Meta, now: int)
    ensures AllLoaded([]) && S.TtlOn(Payload(Items(u.c, [], meta, now)), KeyOf(u)) == 0 == Timeout(u, [])
  {}

  lemma TimeoutLast(u: Setup, rules: seq<Rule>)
    requires rules != []
    ensures var n := |rules| - 1;
            Timeout(u, rules) == if Peer(u, rules[n]) then rules[n].def.timeout else Timeout(u, rules[..n])
  {}

  /** Every call, as the slots' key sees it. */
  lemma CallAtKey(u: Setup, call: Call)
    requires ValidSetup(u) && ValidCall(u, call)
    ensures var op, k := OpOf(u, call), KeyOf(u);
            && S.ConcUse(op, k, u.shortest * 1000, (u.shortest + 60) * 1000, u.rule.def.maxConc)
            && op.now == call.redis && (Touches(op, k) <==> Uses(u, call))
            && (op.Admit? <==> call.Check?) && (op.Release? <==> call.End?)
            && (!call.Charge? ==> op.id == call.meta.id)
            && (Uses(u, call) && call.Check? ==> S.TtlOn(op.rules, k) == Timeout(u, call.rules) * 1000)
  {
    hide *;
    SetupIs(u);
    CallIs(u, call);
    CallShape(u, call);
    if !call.Charge? {
      ReadsIff(u, call.rules, call.meta, call.now);
      if call.Check? && Uses(u, call) {
        TtlIs(u, call.rules, call.meta, call.now);
        CheckAtKey(u, call);
      }
    }
    UseIs(u, call);
  }

  lemma CallIs(u: Setup, call: Call)
    requires ValidCall(u, call)
    ensures Fit(call) && call.redis >= 0 && (!call.Charge? ==> AllLoaded(call.rules))
    ensures Uses(u, call) <==> !call.Charge? && Alike(u, call.meta) && exists r | r in call.rules :: Peer(u, r)
  {
    hide AllLoaded, Alike, GateRuns.TypeClash, KeyOf, Peer;
  }

  lemma CallShape(u: Setup, call: Call)
    requires ValidCall(u, call)
    ensures var op, k := OpOf(u, call), KeyOf(u);
            && op.now == call.redis
            && (op.Admit? <==> call.Check?) && (op.Release? <==> call.End?)
            && (call.Check? ==> var p := Payload(Items(u.c, call.rules, call.meta, call.now));
                                op.rules == p && (Touches(op, k) <==> Reads(p, |p|, k)))
            && (call.End? ==> (Touches(op, k) <==> k in ConcKeys(Items(u.c, call.rules, call.meta, call.now))))
            && (call.Charge? ==> !Touches(op, k))
            && (!call.Charge? ==> op.id == call.meta.id)
  {
    hide AllLoaded, Uses, Items, Payload, ConcKeys, KeyOf, Reads, GateRuns.TypeClash;
  }

  /** A Check of the slots: its entries there are slots with timeouts in range, one of them with the limit. */
  lemma CheckAtKey(u: Setup, call: Call)
    requires ValidSetup(u) && ValidCall(u, call) && call.Check? && Uses(u, call)
    ensures var p := Payload(Items(u.c, call.rules, call.meta, call.now));
            && Compatible(p) && S.ConcOnly(p, KeyOf(u), u.shortest * 1000, (u.shortest + 60) * 1000)
            && S.HasLimit(p, KeyOf(u), u.rule.def.maxConc)
  {
    hide *;
    SetupIs(u);
    CallIs(u, call);
    UsesValid(u, call);
    var items := Items(u.c, call.rules, call.meta, call.now);
    var p := Payload(items);
    PayloadAtKey(u, call.rules, call.meta, call.now);
    GateRuns.PayloadCompatibleIff(u.c, call.rules, call.meta, call.now);
    InRange(u, call, items, p);
    var r :| r in call.rules && Peer(u, r) && r.def.maxConc <= u.rule.def.maxConc;
    PeerEnabled(u, r);
    GateRuns.EnabledItem(u.c, call.rules, call.meta, call.now, r);
    var i :| 0 <= i < |items| && items[i].rule == r;
    LimitAt(p, i, KeyOf(u), u.rule.def.maxConc);
  }

  lemma SetupIs(u: Setup)
    requires ValidSetup(u)
    ensures Keys.IsDigest(u.c.sha) && u.rule.def.maxConc > 0 && u.shortest > 0
  {
    hide Keys.IsDigest, Keys.ValidDims;
  }

  lemma UsesValid(u: Setup, call: Call)
    requires ValidCall(u, call) && call.Check? && Uses(u, call)
    ensures exists r | r in call.rules :: Peer(u, r) && r.def.maxConc <= u.rule.def.maxConc
    ensures forall r | r in call.rules && Peer(u, r) :: u.shortest <= r.def.timeout <= u.shortest + 60
    ensures AllLoaded(call.rules) && !GateRuns.TypeClash(u.c, Items(u.c, call.rules, call.meta, call.now), call.now)
  {
    hide AllLoaded, Alike, GateRuns.TypeClash, KeyOf, Peer, Items;
  }

  lemma InRange(u: Setup, call: Call, items: seq<Item>, p: seq<LRule>)
    requires call.Check? && |p| == |items| && forall r | r in call.rules && Peer(u, r) :: u.shortest <= r.def.timeout <= u.shortest + 60
    requires forall i :: 0 <= i < |p| ==>
               && items[i].rule in call.rules
               && (p[i].key == KeyOf(u) ==> Peer(u, items[i].rule))
               && (p[i].key == KeyOf(u) ==> p[i] == Conc(p[i].key, items[i].rule.def.maxConc, items[i].rule.def.timeout * 1000))
    ensures S.ConcOnly(p, KeyOf(u), u.shortest * 1000, (u.shortest + 60) * 1000)
  {
    hide KeyOf, Peer;
  }

  lemma LimitAt(p: seq<LRule>, i: nat, k: string, limit: nat)
    requires i < |p| && p[i].key == k && p[i].Conc? && p[i].limit <= limit
    ensures S.HasLimit(p, k, limit)
  {}

  lemma UseIs(u: Setup, call: Call)
    requires Fit(call) && call.redis == OpOf(u, call).now >= 0 && u.rule.def.maxConc >= 0
    requires var op, k := OpOf(u, call), KeyOf(u);
             && (op.Admit? <==> call.Check?) && (op.Release? <==> call.End?)
             && (Touches(op, k) <==> Uses(u, call)) && (call.Charge? ==> !Touches(op, k))
             && (call.Check? && Uses(u, call) ==>
                   && Compatible(op.rules) && S.ConcOnly(op.rules, k, u.shortest * 1000, (u.shortest + 60) * 1000)
                   && S.HasLimit(op.rules, k, u.rule.def.maxConc))
    ensures S.ConcUse(OpOf(u, call), KeyOf(u), u.shortest * 1000, (u.shortest + 60) * 1000, u.rule.def.maxConc)
  {
    hide Touches, Uses, Compatible, S.ConcOnly, S.HasLimit, OpOf, KeyOf;
  }

  // Runs.

  lemma CallsLast(u: Setup, calls: seq<Call>)
    requires calls != [] && ValidCalls(u, calls)
    ensures var n := |calls| - 1;
            && ValidCalls(u, calls[..n]) && ValidCall(u, calls[n]) && LastRedis(calls) == calls[n].redis
            && LastRedis(calls[..n]) <= calls[n].redis
    ensures forall i :: 0 <= i < |calls| ==> Fit(calls[i])
    ensures var n := |calls| - 1; Ops(u, calls)[..n] == Ops(u, calls[..n]) && Ops(u, calls)[n] == OpOf(u, calls[n])
  {
    hide OpOf, ValidCall;
    CallsLoaded(u, calls);
    assert ValidCall(u, calls[|calls| - 1]);
    NotBefore(u, calls);
  }

  lemma NotBefore(u: Setup, calls: seq<Call>)
    requires calls != [] && ValidCalls(u, calls)
    ensures calls[|calls| - 1].redis >= 0
  {}

  lemma CallsLoaded(u: Setup, calls: seq<Call>)
    requires ValidCalls(u, calls)
    ensures forall i :: 0 <= i < |calls| ==> Fit(calls[i])
  {
    hide AllLoaded, Uses, Peer, KeyOf;
  }

  /** The bookkeeping by rules is that of the key. */
  lemma {:induction false} SlotsAtKey(u: Setup, calls: seq<Call>)
    requires ValidSetup(u) && ValidCalls(u, calls)
    ensures forall i :: 0 <= i < |calls| ==> Fit(calls[i])
    ensures var ops, k := Ops(u, calls), KeyOf(u);
            && u.rule.def.maxConc >= 0
            && S.ConcRun(ops, k, u.shortest * 1000, (u.shortest + 60) * 1000, u.rule.def.maxConc)
            && S.LastTime(ops) == LastRedis(calls)
            && Slots(u, calls) == S.Held(ops, k) && InFlight(u, calls) == S.Flying(ops, k)
            && (DistinctIds(u, calls) ==> S.Distinct(ops, k))
  {
    hide *;
    SetupIs(u);
    CallsLoaded(u, calls);
    if calls == [] {
      NoCalls(u);
    } else {
      var n := |calls| - 1;
      var ops, k := Ops(u, calls), KeyOf(u);
      CallsLast(u, calls);
      SlotsAtKey(u, calls[..n]);
      CallAtKey(u, calls[n]);
      RunLast(ops, k, u.shortest * 1000, (u.shortest + 60) * 1000, u.rule.def.maxConc);
      S.ConcLast(ops, k, u.shortest * 1000, (u.shortest + 60) * 1000, u.rule.def.maxConc);
      S.FlyingStep(ops, k);
      SlotsLast(u, calls);
      UsesIs(u, calls[n]);
      DistinctStep(u, calls, ops, k);
    }
  }

  lemma NoCalls(u: Setup)
    requires u.rule.def.maxConc >= 0
    ensures var ops, k := Ops(u, []), KeyOf(u);
            && S.ConcRun(ops, k, u.shortest * 1000, (u.shortest + 60) * 1000, u.rule.def.maxConc)
            && S.LastTime(ops) == LastRedis([])
            && Slots(u, []) == S.Held(ops, k) && InFlight(u, []) == S.Flying(ops, k) && S.Distinct(ops, k)
  {}

  lemma RunLast(ops: seq<Op>, k: string, lo: int, hi: int, limit: nat)
    requires ops != [] && S.ConcRun(ops[..|ops| - 1], k, lo, hi, limit)
    requires S.LastTime(ops[..|ops| - 1]) <= ops[|ops| - 1].now && S.ConcUse(ops[|ops| - 1], k, lo, hi, limit)
    ensures S.ConcRun(ops, k, lo, hi, limit) && S.LastTime(ops) == ops[|ops| - 1].now
  {
    hide S.ConcUse;
  }

  lemma UsesIs(u: Setup, call: Call)
    ensures Uses(u, call) ==> !call.Charge?
  {
    hide Alike, Peer;
  }

  lemma SlotsLast(u: Setup, calls: seq<Call>)
    requires calls != [] && forall i :: 0 <= i < |calls| ==> Fit(calls[i])
    ensures var n := |calls| - 1;
            var call, s, f := calls[n], Slots(u, calls[..n]), InFlight(u, calls[..n]);
            var ok := ReplyTo(map[], Ops(u, calls), n) == Ok;
            var due := if call.Charge? then 0 else call.redis + Timeout(u, call.rules) * 1000;
            && Slots(u, calls) == (if !Uses(u, call) then s else if call.End? then s - {call.meta.id}
                                   else if ok then s[call.meta.id := due] else s)
            && InFlight(u, calls) == (if !Uses(u, call) then f else if call.End? then S.Ended(f, call.meta.id)
                                      else if ok then f + [S.Holder(call.meta.id, due)] else f)
  {
    hide Alike, Peer, ReplyTo, OpOf, Timeout;
  }

  lemma DistinctStep(u: Setup, calls: seq<Call>, ops: seq<Op>, k: string)
    requires calls != [] && |ops| == |calls| && (forall i :: 0 <= i < |calls| ==> Fit(calls[i]))
    requires var n := |calls| - 1;
             && (Touches(ops[n], k) <==> Uses(u, calls[n])) && (ops[n].Admit? <==> calls[n].Check?)
             && (calls[n].Check? ==> ops[n].Admit? && ops[n].id == calls[n].meta.id)
             && InFlight(u, calls[..n]) == S.Flying(ops[..n], k)
             && (DistinctIds(u, calls[..n]) ==> S.Distinct(ops[..n], k))
    ensures DistinctIds(u, calls) ==> S.Distinct(ops, k)
  {
    hide Uses, Touches, InFlight, S.Flying, Fit;
  }

  /** Never more ids with a slot that has not lapsed than the rule's limit, and the slots are those in the store. */
  lemma SlotsWithin(u: Setup, calls: seq<Call>)
    requires ValidSetup(u) && ValidCalls(u, calls)
    ensures forall i :: 0 <= i < |calls| ==> Fit(calls[i])
    ensures Taken(Slots(u, calls), LastRedis(calls)) <= u.rule.def.maxConc
    ensures var e := Get(Run(map[], Ops(u, calls)), KeyOf(u));
            && (forall m :: m in Slots(u, calls) && Slots(u, calls)[m] > LastRedis(calls) ==> m in Scores(e))
            && (forall m :: m in Scores(e) ==> m in Slots(u, calls) && Scores(e)[m] == Slots(u, calls)[m])
  {
    hide *;
    SetupIs(u);
    SlotsAtKey(u, calls);
    var ops, k, lo, hi := Ops(u, calls), KeyOf(u), u.shortest * 1000, (u.shortest + 60) * 1000;
    S.IdsWithinLimit(ops, k, lo, hi, u.rule.def.maxConc);
    S.SlotsAreHolders(ops, k, lo, hi, u.rule.def.maxConc);
    MirrorIs(Get(Run(map[], ops), k), S.Held(ops, k), lo, S.LastTime(ops));
    TakenIs(Slots(u, calls), LastRedis(calls));
  }

  lemma MirrorIs(e: Option<Entry>, h: map<string, int>, lo: int, now: int)
    requires S.Mirrors(e, h, lo, now)
    ensures forall m :: m in h && h[m] > now ==> m in Scores(e)
    ensures forall m :: m in Scores(e) ==> m in h && Scores(e)[m] == h[m]
    ensures e.Some? ==> e.value.val.ZSet?
  {}

  lemma TakenIs(slots: map<string, int>, now: int)
    ensures Taken(slots, now) == |S.Unexpired(slots, now)|
  {}

  /** Never more requests in flight within their time than the limit, as long as no two of them share an id. */
  lemma RequestsWithin(u: Setup, calls: seq<Call>)
    requires ValidSetup(u) && ValidCalls(u, calls)
    ensures forall i :: 0 <= i < |calls| ==> Fit(calls[i])
    ensures DistinctIds(u, calls) ==> S.Holding(InFlight(u, calls), LastRedis(calls)) <= u.rule.def.maxConc
  {
    hide *;
    SetupIs(u);
    SlotsAtKey(u, calls);
    if DistinctIds(u, calls) {
      S.NeverOverLimit(Ops(u, calls), KeyOf(u), u.shortest * 1000, (u.shortest + 60) * 1000, u.rule.def.maxConc);
    }
  }

  /** Every Check of the slots, whatever rules it carries: it is admitted only with a slot free under each rule over the slots, and a
      refusal by one of them finds its limit taken and asks to wait for its timeout. */
  lemma EveryCheck(u: Setup, calls: seq<Call>)
    requires ValidSetup(u) && ValidCalls(u, calls) && calls != []
    requires var call := calls[|calls| - 1]; call.Check? && Uses(u, call)
    ensures forall i :: 0 <= i < |calls| ==> Fit(calls[i])
    ensures var n := |calls| - 1;
            var call := calls[n];
            var items := Items(u.c, call.rules, call.meta, call.now);
            var taken := Taken(Slots(u, calls[..n]), call.redis);
            var reply := ReplyAt(u, calls, n);
            && (reply == Ok ==> forall i | 0 <= i < |items| && Peer(u, items[i].rule) :: taken < items[i].rule.def.maxConc)
            && (reply.Denied? ==> 1 <= reply.index <= |items|)
            && (reply.Denied? && Peer(u, items[reply.index - 1].rule) ==>
                  var d := items[reply.index - 1].rule.def; taken >= d.maxConc && reply.retry == d.timeout * 1000)
  {
    hide *;
    SetupIs(u);
    SlotsAtKey(u, calls);
    CallsLast(u, calls);
    var n := |calls| - 1;
    var ops, k, call := Ops(u, calls), KeyOf(u), calls[n];
    SlotsAtKey(u, calls[..n]);
    CallAtKey(u, call);
    CallShape(u, call);
    CallIs(u, call);
    PayloadAtKey(u, call.rules, call.meta, call.now);
    S.SlotsAreHolders(ops, k, u.shortest * 1000, (u.shortest + 60) * 1000, u.rule.def.maxConc);
    TakenIs(Slots(u, calls[..n]), call.redis);
    ReplyIs(u, calls, n);
    DecidedRules(u, ReplyAt(u, calls, n), ops[n].rules, Items(u.c, call.rules, call.meta, call.now), Taken(Slots(u, calls[..n]), call.redis));
  }

  lemma ReplyIs(u: Setup, calls: seq<Call>, n: nat)
    requires (forall i :: 0 <= i < |calls| ==> Fit(calls[i])) && n < |calls|
    ensures ReplyAt(u, calls, n) == ReplyTo(map[], Ops(u, calls), n)
  {}

  lemma DecidedRules(u: Setup, reply: Reply, p: seq<LRule>, items: seq<Item>, used: nat)
    requires S.Decided(reply, p, KeyOf(u), used) && |p| == |items|
    requires forall i :: 0 <= i < |p| ==>
               && (p[i].key == KeyOf(u) <==> Peer(u, items[i].rule))
               && (p[i].key == KeyOf(u) ==> p[i] == Conc(p[i].key, items[i].rule.def.maxConc, items[i].rule.def.timeout * 1000))
    ensures reply == Ok ==> forall i | 0 <= i < |items| && Peer(u, items[i].rule) :: used < items[i].rule.def.maxConc
    ensures reply.Denied? ==> 1 <= reply.index <= |items|
    ensures reply.Denied? && Peer(u, items[reply.index - 1].rule) ==>
              var d := items[reply.index - 1].rule.def; used >= d.maxConc && reply.retry == d.timeout * 1000
  {
    hide Peer, KeyOf;
  }

  // The rule alone.

  lemma OneConcBatch(db: Db, now: int, k: string, limit: int, ttl: int, id: string)
    requires ttl > 0
    requires var e := LiveEntry(Get(db, k), now); e.Some? ==> e.value.val.ZSet?
    ensures var used := |Scores(ZRemUpTo(LiveEntry(Get(db, k), now), now))|;
            Batch(db, now, [Conc(k, limit, ttl)], id).1 == if used < limit then Ok else Denied(1, ttl)
  {
    hide *;
    LiveGet(db, now, k);
    var live, r := Live(db, now), Conc(k, limit, ttl);
    if |Scores(ZRemUpTo(Get(live, k), now))| < limit {
      S.OneRuleBatch(db, now, k, limit, ttl, id);
    } else {
      ConcFails(Get(live, k), r, now);
      TryUnfold(live, now, [r], []);
      BatchIs(db, now, [r], id);
    }
  }

  lemma ConcFails(e: Option<Entry>, r: LRule, now: int)
    requires r.Conc? && |Scores(ZRemUpTo(e, now))| >= r.limit && (e.Some? ==> e.value.val.ZSet?)
    ensures Try(e, r, now) == Fail(r.ttl)
  {}

  /** A Check with this rule alone is admitted exactly when fewer than the limit's ids have an unlapsed slot; its id then has one until
      Redis's time plus the rule's timeout. A refusal asks to wait for the whole timeout. */
  lemma AdmittedIff(u: Setup, calls: seq<Call>)
    requires ValidSetup(u) && ValidCalls(u, calls) && calls != []
    requires var call := calls[|calls| - 1]; call.Check? && call.rules == [u.rule] && Alike(u, call.meta)
    ensures forall i :: 0 <= i < |calls| ==> Fit(calls[i])
    ensures var n := |calls| - 1;
            var call, before := calls[n], Slots(u, calls[..n]);
            var taken := Taken(before, call.redis);
            && ReplyAt(u, calls, n) == (if taken < u.rule.def.maxConc then Ok else Denied(1, u.rule.def.timeout * 1000))
            && Slots(u, calls) == (if taken < u.rule.def.maxConc then before[call.meta.id := call.redis + u.rule.def.timeout * 1000]
                                   else before)
            && taken <= u.rule.def.maxConc
            && (taken < u.rule.def.maxConc ==>
                  var stored := Scores(Get(Run(map[], Ops(u, calls)), KeyOf(u)));
                  call.meta.id in stored && stored[call.meta.id] == call.redis + u.rule.def.timeout * 1000)
  {
    hide *;
    CallsLast(u, calls);
    SetupIs(u);
    var n := |calls| - 1;
    var call, ops, k := calls[n], Ops(u, calls), KeyOf(u);
    OneEntry(u, call);
    SlotsAtKey(u, calls[..n]);
    SlotsWithin(u, calls[..n]);
    SlotsWithin(u, calls);
    SlotsLast(u, calls);
    ReplyIs(u, calls, n);
    LastStep(map[], ops, k);
    StepIsBatch(Run(map[], ops[..n]), ops[n]);
    var lo, hi := u.shortest * 1000, (u.shortest + 60) * 1000;
    var e, h := Get(Run(map[], ops[..n]), k), S.Held(ops[..n], k);
    S.SlotsAreHolders(ops[..n], k, lo, hi, u.rule.def.maxConc);
    S.CleanedExactly(e, h, lo, S.LastTime(ops[..n]), call.redis);
    MirrorIs(LiveEntry(e, call.redis), h, lo, call.redis);
    OneConcBatch(Run(map[], ops[..n]), call.redis, k, u.rule.def.maxConc, u.rule.def.timeout * 1000, call.meta.id);
    TakenIs(h, call.redis);
    S.UnexpiredShrinks(h, LastRedis(calls[..n]), call.redis, "");
    TakenIs(h, LastRedis(calls[..n]));
  }

  lemma OneEntry(u: Setup, call: Call)
    requires ValidSetup(u) && ValidCall(u, call) && call.Check? && call.rules == [u.rule] && Alike(u, call.meta)
    ensures Uses(u, call) && Timeout(u, call.rules) == u.rule.def.timeout > 0 && !call.End? && Fit(call)
    ensures OpOf(u, call) == Admit(call.redis, [Conc(KeyOf(u), u.rule.def.maxConc, u.rule.def.timeout * 1000)], call.meta.id)
  {
    OwnPeer(u);
    EntryAtKey(u, u.rule, call.meta, call.now);
    assert [u.rule][..0] == [];
    hide ToLua, Alike, Peer, KeyOf, Loaded, GateRuns.TypeClash;
    var l := ToLua(u.c, u.rule.def, call.meta, call.now);
    assert u.rule in call.rules;
    assert Items(u.c, [], call.meta, call.now) == [];
    assert Items(u.c, [u.rule], call.meta, call.now) == [Item(u.rule, l)];
    assert Payload([Item(u.rule, l)]) == [l];
  }

  lemma OwnPeer(u: Setup)
    requires ValidSetup(u)
    ensures Peer(u, u.rule) && Loaded(u.rule.def) && u.rule.def.timeout > 0
  {}

  // Before the script: the negative cache.

  ghost predicate AsksAlone(u: Setup, q: Request) { q.rules == [u.rule] && Alike(u, q.meta) }

  lemma AloneItem(u: Setup, q: Request)
    requires ValidSetup(u) && AsksAlone(u, q)
    ensures AllLoaded(q.rules)
    ensures Items(u.c, q.rules, q.meta, q.now) == [Item(u.rule, Conc(KeyOf(u), u.rule.def.maxConc, u.rule.def.timeout * 1000))]
  {
    OwnPeer(u);
    EntryAtKey(u, u.rule, q.meta, q.now);
    assert [u.rule][..0] == [];
    hide ToLua, Alike, Peer, KeyOf, Loaded;
    assert Items(u.c, [], q.meta, q.now) == [];
  }

  lemma OneBlocked(blocks: map<string, int>, it: Item, now: int)
    ensures FirstBlocked(blocks, [it], now, 0) == if Local.Blocked(blocks, it.lua.key, now).Some? then Some(0) else None
  {
    assert FirstBlocked(blocks, [it], now, 1) == None;
  }

  /** An instance that was refused a slot refuses the next requests by itself exactly when the timeout is at most 10 s and for as long
      as that, even if a slot has been released in between. */
  lemma RefusalLingersIff(u: Setup, g: Gate, q: Request, db: Db, at: int, next: Request)
    requires ValidSetup(u) && AsksAlone(u, q) && AsksAlone(u, next) && q.later <= next.now
    requires Local.Blocked(g.local.blocks, KeyOf(u), q.now).None? && Local.Blocked(g.local.blocks, KeyOf(u), next.now).None?
    requires AllLoaded(q.rules) && AllLoaded(next.rules)
    requires var p := [Conc(KeyOf(u), u.rule.def.maxConc, u.rule.def.timeout * 1000)];
             q.run(p) == OutcomeOf(Batch(db, at, p, q.meta.id).1) && Batch(db, at, p, q.meta.id).1.Denied?
    ensures var after := Decide(u.c, g, q).gate;
            var r := Decide(u.c, after, next);
            var lingers := u.rule.def.timeout <= 10 && next.now <= q.now + u.rule.def.timeout * 1_000_000_000;
            && (lingers ==> !r.decision.allowed && r.gate == after && r.events == [])
            && (!lingers ==> r == CheckItems(u.c, after, next, Items(u.c, next.rules, next.meta, next.now)))
  {
    hide *;
    OwnPeer(u);
    AloneItem(u, q);
    AloneItem(u, next);
    var it := Item(u.rule, Conc(KeyOf(u), u.rule.def.maxConc, u.rule.def.timeout * 1000));
    var after := Decide(u.c, g, q).gate;
    OneBlocked(g.local.blocks, it, q.now);
    OneBlocked(after.local.blocks, it, next.now);
    PayloadIs([it]);
    assert Payload([it]) == [it.lua];
    var tried := GateRuns.RefusalBlocks(u.c, g, q, db, at, KeyOf(u), next.now);
    ConcRetry(Get(tried, KeyOf(u)), it.lua, at);
    DecideIs(u.c, after, next);
    DenialsRefuse(u.rule);
  }

  lemma ConcRetry(e: Option<Entry>, r: LRule, now: int)
    requires r.Conc?
    ensures Try(e, r, now).Fail? ==> Try(e, r, now).retry == r.ttl
  {}

  lemma DenialsRefuse(r: Rule)
    ensures forall t :: !Deny(r, t, false).allowed
  {}
}
