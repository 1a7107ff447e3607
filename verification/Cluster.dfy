/** One fixed-window request rule on a cluster: instances with their own clocks, negative caches and breakers in front of
    one Redis, each request one Check (internal/limiter/limiter.go). */
module Cluster {
  import opened Prelude
  import opened Redis
  import opened BatchCheck
  import opened TwoPhase
  import opened AtKey
  import opened Runs
  import opened Window
  import opened Limiter
  import Keys
  import Local = LocalFallback

  /** The one enabled rule of every request, and everything about the request but its id. */
  datatype Setup = Setup(c: Config, rule: Rule, meta: Meta)

  /** A healthy request: the instance, its clock in nanoseconds before and after the script, and Redis's in milliseconds. */
  datatype Call = Call(inst: nat, now: int, later: int, redis: int, id: string)

  datatype State = State(db: Db, gates: map<nat, Gate>)

  ghost predicate ValidSetup(u: Setup) {
    Keys.IsDigest(u.c.sha) && Loaded(u.rule.def) && u.rule.enabled && IsFixedRule(u.rule.def) && u.rule.def.winSec > 0
  }

  function BoundaryAt(u: Setup, call: Call): int { BoundaryOf(u.c, u.rule.def, call.now) }

  /** The key of the window starting at `b`. */
  function KeyAt(u: Setup, b: int): string {
    Keys.RateKey(u.c.sha, u.rule.def.dims, DimValues(u.meta, u.rule.def.dims), u.rule.def.winSec, b)
  }

  function RuleAt(u: Setup, b: int): LRule { Fixed(KeyAt(u, b), u.rule.def.limit, u.rule.def.winSec + 60) }

  function GateOf(s: State, inst: nat): Gate { if inst in s.gates then s.gates[inst] else NewGate(1, 0) }

  function RequestOf(u: Setup, s: State, call: Call): Request {
    Request([u.rule], u.meta.(id := call.id), rules => OutcomeOf(Batch(s.db, call.redis, rules, call.id).1), call.now, call.later)
  }

  /** One Check against the store as it stands; a request its negative cache turns away does not reach Redis. */
  function Serve(u: Setup, s: State, call: Call): (State, bool)
    requires Loaded(u.rule.def)
  {
    var g := GateOf(s, call.inst);
    var q := RequestOf(u, s, call);
    var r := Decide(u.c, g, q);
    var items := Items(u.c, q.rules, q.meta, q.now);
    var db := if items == [] || FirstBlocked(g.local.blocks, items, q.now, 0).Some? then s.db
              else Batch(s.db, call.redis, Payload(items), call.id).0;
    (State(db, s.gates[call.inst := r.gate]), r.decision.allowed)
  }

  function ServeAll(u: Setup, calls: seq<Call>): State
    requires Loaded(u.rule.def)
  {
    if calls == [] then State(map[], map[])
    else Serve(u, ServeAll(u, calls[..|calls| - 1]), calls[|calls| - 1]).0
  }

  /** Requests whose own clock puts them in the window starting at `b`, and how many of them were admitted. */
  function Offered(u: Setup, calls: seq<Call>, b: int): nat {
    if calls == [] then 0
    else
      var n := |calls| - 1;
      Offered(u, calls[..n], b) + (if BoundaryAt(u, calls[n]) == b then 1 else 0)
  }

  function Served(u: Setup, calls: seq<Call>, b: int): nat
    requires Loaded(u.rule.def)
  {
    if calls == [] then 0
    else
      var n := |calls| - 1;
      Served(u, calls[..n], b)
      + (if BoundaryAt(u, calls[n]) == b && Serve(u, ServeAll(u, calls[..n]), calls[n]).1 then 1 else 0)
  }

  /** Redis runs the calls in its own time order; every gateway clock is within 30 s of Redis's. */
  predicate Timely(u: Setup, call: Call) {
    -30_000_000_000 <= call.now - call.redis * 1_000_000 <= 30_000_000_000
    && UnixSec(call.now) + Offset(u.c.tz, u.rule.def.natural) >= 0
  }

  ghost predicate Schedule(u: Setup, calls: seq<Call>) {
    && (forall i, j :: 0 <= i < j < |calls| ==> calls[i].redis <= calls[j].redis)
    && (forall i :: 0 <= i < |calls| ==> Timely(u, calls[i]))
  }

  /** Nothing later than this in Redis's time can be a request of the window. */
  function Horizon(u: Setup, b: int): int { b * 1000 - 30000 + (u.rule.def.winSec + 60) * 1000 }

  lemma InWindow(u: Setup, call: Call)
    requires u.rule.def.winSec > 0 && Timely(u, call)
    ensures var b := BoundaryAt(u, call);
            b * 1000 - 30000 <= call.redis <= Horizon(u, b)
  {
    BoundaryTiles(UnixSec(call.now), u.rule.def.winSec, u.c.tz, u.rule.def.natural);
  }

  lemma OtherWindow(u: Setup, b: int, b': int)
    requires ValidSetup(u) && b != b'
    ensures KeyAt(u, b) != KeyAt(u, b')
  {
    Keys.BoundariesDiffer(u.c.sha, u.rule.def.dims, DimValues(u.meta, u.rule.def.dims), u.rule.def.winSec, b, b');
  }

  // One request.

  lemma OneItem(u: Setup, meta: Meta, now: int)
    requires ValidSetup(u) && meta == u.meta.(id := meta.id)
    ensures var items := Items(u.c, [u.rule], meta, now);
            && |items| == 1 && items[0].rule == u.rule && items[0].lua == RuleAt(u, BoundaryOf(u.c, u.rule.def, now))
            && Payload(items) == [items[0].lua]
  {
    SameValues(u.meta, meta.id, u.rule.def.dims);
    var items := Items(u.c, [u.rule], meta, now);
    assert [u.rule][..0] == [];
    hide DimValues, Keys.RateKey, BoundaryOf, Keys.IsDigest;
    assert Keys.Build(u.c.sha, KeySpecOf(u.c, u.rule.def, meta, now)) == KeyAt(u, BoundaryOf(u.c, u.rule.def, now));
  }

  /** What serving means for one request: turned away by its own negative cache, or decided by Redis. */
  lemma ServeIs(u: Setup, s: State, call: Call)
    requires ValidSetup(u)
    requires Counter(LiveEntry(Get(s.db, KeyAt(u, BoundaryAt(u, call))), call.redis))
    ensures var k := KeyAt(u, BoundaryAt(u, call));
            var l := GateOf(s, call.inst).local;
            var (s', ok) := Serve(u, s, call);
            var l' := GateOf(s', call.inst).local;
            && s'.gates.Keys == s.gates.Keys + {call.inst}
            && (forall i :: i in s.gates && i != call.inst ==> s'.gates[i] == s.gates[i])
            && if Local.Blocked(l.blocks, k, call.now).Some? then s'.db == s.db && l' == l && !ok
               else
                 var (d, reply) := Batch(s.db, call.redis, [RuleAt(u, BoundaryAt(u, call))], call.id);
                 && s'.db == d && ok == (reply == Ok) && (ok ==> l' == l)
                 && (forall j :: j in l'.blocks ==> j in l.blocks || j == k)
  {
    var g, q := GateOf(s, call.inst), RequestOf(u, s, call);
    var items := Items(u.c, q.rules, q.meta, q.now);
    OneItem(u, q.meta, q.now);
    DecideIs(u.c, g, q);
    OneBlocked(g.local.blocks, items, q.now);
    hide Items, Batch, DimValues, FirstBlocked, Decide, CheckItems, ValidSetup, Keys.RateKey, BoundaryOf, Local.Blocked;
    if FirstBlocked(g.local.blocks, items, q.now, 0).None? {
      SingleRule(s.db, call.redis, RuleAt(u, BoundaryAt(u, call)), call.id);
      AnswerEffect(u.c, g, q, items, Batch(s.db, call.redis, Payload(items), call.id).1);
    }
  }

  lemma OneBlocked(blocks: map<string, int>, items: seq<Item>, now: int)
    requires |items| == 1
    ensures FirstBlocked(blocks, items, now, 0).Some? <==> Local.Blocked(blocks, items[0].lua.key, now).Some?
    ensures FirstBlocked(blocks, items, now, 0).Some? ==> FirstBlocked(blocks, items, now, 0).value == 0
  {
    assert FirstBlocked(blocks, items, now, 1) == None;
  }

  lemma AnswerEffect(c: Config, g: Gate, q: Request, items: seq<Item>, reply: Reply)
    requires |items| == 1 && q.run(Payload(items)) == OutcomeOf(reply) && !reply.ScriptError?
    requires reply.Denied? ==> reply.index == 1
    ensures var r := CheckItems(c, g, q, items);
            && r.decision.allowed == (reply == Ok)
            && (reply == Ok ==> r.gate.local == g.local)
            && (forall j :: j in r.gate.local.blocks ==> j in g.local.blocks || j == items[0].lua.key)
  {
    hide Payload, ConcKeys, Breaker.OnSuccess, Breaker.OnFailure, Breaker.Degraded, Keys.Join;
  }

  // Runs.

  /** The state after `a` of `offered` requests for the window have been admitted, the last call of all being at `last`. */
  ghost predicate Tracked(u: Setup, s: State, b: int, a: nat, offered: nat, last: int) {
    var e := Get(s.db, KeyAt(u, b));
    && a == Min(offered, u.rule.def.limit)
    && (a > 0 && e.None? ==> last > Horizon(u, b))
    && (e.Some? ==> a > 0 && e.value.val == Str(a) && e.value.exp.Some? && Horizon(u, b) <= e.value.exp.value)
    && (forall i :: i in s.gates && KeyAt(u, b) in s.gates[i].local.blocks ==> a == u.rule.def.limit)
  }

  function LastRedis(calls: seq<Call>): int { if calls == [] then 0 else calls[|calls| - 1].redis }

  /** One request's effect on the window `b`. */
  lemma ServeStep(u: Setup, s: State, call: Call, b: int)
    requires ValidSetup(u)
    requires Counter(LiveEntry(Get(s.db, KeyAt(u, b)), call.redis))
    requires Counter(LiveEntry(Get(s.db, KeyAt(u, BoundaryAt(u, call))), call.redis))
    ensures var k := KeyAt(u, b);
            var e := LiveEntry(Get(s.db, k), call.redis);
            var (s', ok) := Serve(u, s, call);
            var mine := BoundaryAt(u, call) == b;
            && (forall i :: i in s'.gates && k in s'.gates[i].local.blocks ==>
                  (i in s.gates && k in s.gates[i].local.blocks) || (mine && !ok))
            && if !mine then Get(s'.db, k) == e || Get(s'.db, k) == Get(s.db, k)
               else if ok then
                 && Used(e) + 1 <= u.rule.def.limit
                 && Get(s'.db, k) == Some(Entry(Str(Used(e) + 1),
                      if Used(e) == 0 then Some(call.redis + (u.rule.def.winSec + 60) * 1000) else e.value.exp))
               else
                 && (Get(s'.db, k) == e || Get(s'.db, k) == Get(s.db, k))
                 && (Used(e) + 1 > u.rule.def.limit || (call.inst in s.gates && k in s.gates[call.inst].local.blocks))
  {
    hide *;
    SetupIs(u);
    ServeIs(u, s, call);
    var b' := BoundaryAt(u, call);
    var k, k' := KeyAt(u, b), KeyAt(u, b');
    var rules := [RuleAt(u, b')];
    RuleIs(u, b');
    NewGateIs(s, call.inst, k');
    NewGateIs(Serve(u, s, call).0, call.inst, k');
    if b' != b {
      OtherWindow(u, b, b');
      NotTouched(s.db, call.redis, RuleAt(u, b'), call.id, k);
      Untouched(s.db, Admit(call.redis, rules, call.id), k);
    } else {
      SingleRule(s.db, call.redis, RuleAt(u, b), call.id);
    }
  }

  /** For every window, every number of instances and every interleaving: of n requests offered exactly min(n, limit)
      are admitted; the negative caches turn away only requests that Redis would have refused. */
  lemma {:induction false} ExactlyTheLimit(u: Setup, calls: seq<Call>, b: int)
    requires ValidSetup(u) && Schedule(u, calls)
    ensures Served(u, calls, b) == Min(Offered(u, calls, b), u.rule.def.limit)
    ensures Tracked(u, ServeAll(u, calls), b, Served(u, calls, b), Offered(u, calls, b), LastRedis(calls))
    decreases |calls|
  {
    hide *;
    SetupIs(u);
    if calls == [] {
      NothingServed(u, b);
    } else {
      var n := |calls| - 1;
      var pre, call := calls[..n], calls[n];
      var b' := BoundaryAt(u, call);
      ScheduleLast(u, calls);
      ExactlyTheLimit(u, pre, b);
      ExactlyTheLimit(u, pre, b');
      LastServed(u, calls, b);
      var s := ServeAll(u, pre);
      InWindow(u, call);
      TrackedCounter(u, s, b', Served(u, pre, b'), Offered(u, pre, b'), LastRedis(pre), call.redis);
      StepTracked(u, s, call, b, Served(u, pre, b), Offered(u, pre, b), LastRedis(pre));
      TrackedMin(u, Serve(u, s, call).0, b, Served(u, calls, b), Offered(u, calls, b), call.redis);
    }
  }

  lemma SetupIs(u: Setup)
    requires ValidSetup(u)
    ensures Loaded(u.rule.def) && u.rule.def.winSec > 0 && u.rule.def.limit > 0
  {
    hide Keys.ValidDims, Keys.IsDigest;
  }

  lemma NothingServed(u: Setup, b: int)
    requires ValidSetup(u)
    ensures Tracked(u, ServeAll(u, []), b, Served(u, [], b), Offered(u, [], b), LastRedis([]))
    ensures Served(u, [], b) == Min(Offered(u, [], b), u.rule.def.limit)
  {
    hide KeyAt, Horizon;
  }

  lemma ScheduleLast(u: Setup, calls: seq<Call>)
    requires calls != [] && Schedule(u, calls)
    ensures var n := |calls| - 1;
            && Schedule(u, calls[..n]) && Timely(u, calls[n]) && LastRedis(calls) == calls[n].redis
            && (n > 0 ==> LastRedis(calls[..n]) <= calls[n].redis)
  {
    hide Timely;
  }

  lemma LastServed(u: Setup, calls: seq<Call>, b: int)
    requires ValidSetup(u) && calls != []
    ensures var n := |calls| - 1;
            var (s, ok) := Serve(u, ServeAll(u, calls[..n]), calls[n]);
            var mine := BoundaryAt(u, calls[n]) == b;
            && ServeAll(u, calls) == s
            && Served(u, calls, b) == Served(u, calls[..n], b) + (if mine && ok then 1 else 0)
            && Offered(u, calls, b) == Offered(u, calls[..n], b) + (if mine then 1 else 0)
            && (n == 0 ==> Served(u, calls[..n], b) == 0)
  {
    hide Serve, BoundaryAt;
  }

  lemma TrackedMin(u: Setup, s: State, b: int, a: nat, offered: nat, last: int)
    requires Tracked(u, s, b, a, offered, last)
    ensures a == Min(offered, u.rule.def.limit)
  {}

  /** What the invariant says about the entry a later call finds. */
  lemma TrackedCounter(u: Setup, s: State, b: int, a: nat, offered: nat, last: int, now: int)
    requires Tracked(u, s, b, a, offered, last)
    ensures Counter(LiveEntry(Get(s.db, KeyAt(u, b)), now))
    ensures a > 0 && last <= now <= Horizon(u, b) ==>
              LiveEntry(Get(s.db, KeyAt(u, b)), now) == Get(s.db, KeyAt(u, b)) && Used(Get(s.db, KeyAt(u, b))) == a
  {
    hide KeyAt, Horizon;
  }

  lemma StepTracked(u: Setup, s: State, call: Call, b: int, a: nat, offered: nat, last: int)
    requires ValidSetup(u) && Tracked(u, s, b, a, offered, last) && (a > 0 ==> last <= call.redis)
    requires Counter(LiveEntry(Get(s.db, KeyAt(u, BoundaryAt(u, call))), call.redis))
    requires BoundaryAt(u, call) == b ==> b * 1000 - 30000 <= call.redis <= Horizon(u, b)
    ensures var (s', ok) := Serve(u, s, call);
            var mine := BoundaryAt(u, call) == b;
            Tracked(u, s', b, a + (if mine && ok then 1 else 0), offered + (if mine then 1 else 0), call.redis)
  {
    hide Serve, KeyAt, BoundaryAt, Loaded, ValidSetup;
    SetupIs(u);
    TrackedCounter(u, s, b, a, offered, last, call.redis);
    ServeStep(u, s, call, b);
  }

  lemma RuleIs(u: Setup, b: int)
    requires ValidSetup(u)
    ensures var r := RuleAt(u, b);
            r.Fixed? && r.key == KeyAt(u, b) && r.limit == u.rule.def.limit && r.expire == u.rule.def.winSec + 60 > 0
  {
    hide KeyAt, Loaded;
  }

  /** A new instance has blocked nothing. */
  lemma NewGateIs(s: State, inst: nat, k: string)
    ensures var g := GateOf(s, inst);
            && (forall j :: j in g.local.blocks ==> inst in s.gates && g == s.gates[inst])
            && (inst in s.gates ==> g == s.gates[inst])
    ensures forall now :: Local.Blocked(GateOf(s, inst).local.blocks, k, now).Some? ==> k in GateOf(s, inst).local.blocks
  {}

  lemma NotTouched(db: Db, now: int, r: LRule, id: string, k: string)
    requires r.key != k
    ensures !Touches(Admit(now, [r], id), k) && Step(db, Admit(now, [r], id)) == Batch(db, now, [r], id)
  {
    hide Batch;
  }

  /** A batch of one fixed rule is never a script error on a counter key, and is admitted exactly below the limit. */
  lemma SingleRule(db: Db, now: int, r: LRule, id: string)
    requires r.Fixed? && r.expire > 0 && Counter(LiveEntry(Get(db, r.key), now))
    ensures var (d, reply) := Batch(db, now, [r], id);
            var e := LiveEntry(Get(db, r.key), now);
            && (reply == Ok <==> Used(e) + 1 <= r.limit)
            && (reply != Ok ==> reply.Denied? && Get(d, r.key) == e)
            && (reply == Ok ==> Get(d, r.key) == Some(Entry(Str(Used(e) + 1),
                  if Used(e) == 0 then Some(now + r.expire * 1000) else e.value.exp)))
  {
    assert [r][0] == r && Reads([r], 1, r.key);
    assert CountRules([r], 0, r.key) == 1 + CountRules([r], 1, r.key);
    FixedBatchAt(db, now, [r], id, r.key, r.expire);
    LiveGet(db, now, r.key);
    AllOrNothing(db, now, [r], id);
    OneTrial(Live(db, now), now, r);
  }

  lemma OneTrial(live: Db, now: int, r: LRule)
    requires r.Fixed? && Counter(Get(live, r.key))
    ensures var t := TryFrom(live, now, [r], []).1;
            if Used(Get(live, r.key)) + 1 <= r.limit then t.AllPass? else t.Stopped? && t.reply.Denied?
  {
    var v := Try(Get(live, r.key), r, now);
    if v.Pass? {
      assert [] + [v.plan] == [v.plan];
      assert TryFrom(live, now, [r], []) == TryFrom(Clean(live, r, now), now, [r], [v.plan]);
    }
  }
}
