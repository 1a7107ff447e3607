/** A configuration error that looks like an outage, run from an empty store: a fixed and a sliding rule over the same
    dimensions and window (internal/limiter/limiter.go, scripts/batch_check.lua). */
module ClashRun {
  import opened Prelude
  import opened Redis
  import opened BatchCheck
  import opened Limiter
  import TwoPhase
  import Keys
  import Breaker
  import Degraded
  import GateRuns

  datatype Setup = Setup(c: Config, fixed: Rule, sliding: Rule, instances: int, start: int)

  /** A request, its times on the instance's clock and the time on the clock of Redis. */
  datatype Visit = Visit(meta: Meta, now: int, later: int, redis: int)

  datatype World = World(db: Db, gate: Gate)

  /** Two rules over the same dimensions and window, the fixed one sent first and with a limit of at least 2. */
  ghost predicate ValidSetup(u: Setup) {
    var f, s := u.fixed.def, u.sliding.def;
    && Loaded(f) && Loaded(s) && u.fixed.enabled && u.sliding.enabled && IsFixedRule(f) && IsSlidingRule(s)
    && f.dims == s.dims && f.winSec == s.winSec > 0 && f.natural == s.natural && f.limit >= 2
  }

  function RequestOf(u: Setup, db: Db, v: Visit): Request {
    Request([u.fixed, u.sliding], v.meta, rules => OutcomeOf(Batch(db, v.redis, rules, v.meta.id).1), v.now, v.later)
  }

  /** One Check against the store as it stands. */
  function Serve(u: Setup, w: World, v: Visit): (World, Decision)
    requires ValidSetup(u)
  {
    var q := RequestOf(u, w.db, v);
    var r := Decide(u.c, w.gate, q);
    var items := Items(u.c, q.rules, v.meta, v.now);
    var db := if items == [] || FirstBlocked(w.gate.local.blocks, items, v.now, 0).Some? then w.db
              else Batch(w.db, v.redis, Payload(items), v.meta.id).0;
    (World(db, r.gate), r.decision)
  }

  function WorldAfter(u: Setup, vs: seq<Visit>): World
    requires ValidSetup(u)
  {
    if vs == [] then World(map[], NewGate(u.instances, u.start))
    else Serve(u, WorldAfter(u, vs[..|vs| - 1]), vs[|vs| - 1]).0
  }

  function DecisionAt(u: Setup, vs: seq<Visit>, i: nat): Decision
    requires ValidSetup(u) && i < |vs|
  {
    Serve(u, WorldAfter(u, vs[..i]), vs[i]).1
  }

  // One visit.

  function KeyOf(u: Setup, v: Visit): string
    requires ValidSetup(u)
  {
    ToLua(u.c, u.fixed.def, v.meta, v.now).key
  }

  lemma TwoItems(u: Setup, v: Visit)
    requires ValidSetup(u)
    ensures var f, s, k := u.fixed.def, u.sliding.def, KeyOf(u, v);
            AllLoaded([u.fixed, u.sliding])
            && Items(u.c, [u.fixed, u.sliding], v.meta, v.now)
               == [Item(u.fixed, Fixed(k, f.limit, f.winSec + 60)), Item(u.sliding, Sliding(k, s.limit, s.winSec * 1000))]
  {
    OneKey(u, v);
    var rules := [u.fixed, u.sliding];
    assert rules[..1] == [u.fixed] && [u.fixed][..0] == [];
    hide ToLua, Loaded, IsFixedRule, IsSlidingRule;
    assert Items(u.c, [], v.meta, v.now) == [];
    assert Items(u.c, [u.fixed], v.meta, v.now) == [Item(u.fixed, ToLua(u.c, u.fixed.def, v.meta, v.now))];
  }

  lemma OneKey(u: Setup, v: Visit)
    requires ValidSetup(u)
    ensures var f, s, k := u.fixed.def, u.sliding.def, KeyOf(u, v);
            && ToLua(u.c, f, v.meta, v.now) == Fixed(k, f.limit, f.winSec + 60)
            && ToLua(u.c, s, v.meta, v.now) == Sliding(k, s.limit, s.winSec * 1000)
  {
    assert KeySpecOf(u.c, u.fixed.def, v.meta, v.now) == KeySpecOf(u.c, u.sliding.def, v.meta, v.now) by {
      hide Keys.Build, DimValues, Keys.ValidDims, RateOf;
    }
    hide Keys.Build, KeySpecOf, Keys.ValidDims, RateOf;
  }

  /** Every key holds a counter of one. */
  predicate Ones(db: Db) { forall k :: k in db ==> db[k].val == Str(1) }

  /** How far the breaker is after `n` failures, the first twenty of them in its first window. */
  predicate Counting(b: Breaker.B, start: int, n: nat) {
    if n < 20 then b.status == Breaker.Closed && b.failures == n && b.successes == 0 && b.windowAt == start
    else b.status != Breaker.Closed
  }

  lemma CountsOn(b: Breaker.B, start: int, n: nat, at: int)
    requires Counting(b, start, n) && (n < 20 ==> start <= at <= start + 5_000_000_000)
    ensures var (b', down) := Breaker.Degraded(Breaker.OnFailure(b, at), at);
            Counting(b', start, n + 1) && (down <==> n + 1 >= 20)
  {}

  predicate Standing(w: World, start: int, n: nat) {
    Ones(w.db) && w.gate.local.blocks == map[] && Counting(w.gate.breaker, start, n)
  }

  lemma {:induction false} Unblocked(items: seq<Item>, now: int, i: nat)
    requires i <= |items|
    ensures FirstBlocked(map[], items, now, i).None?
    decreases |items| - i
  {
    if i < |items| { Unblocked(items, now, i + 1); }
  }

  lemma BatchFails(u: Setup, db: Db, v: Visit)
    requires ValidSetup(u) && Ones(db)
    ensures var k, f, s := KeyOf(u, v), u.fixed.def, u.sliding.def;
            var (d, reply) := Batch(db, v.redis, [Fixed(k, f.limit, f.winSec + 60), Sliding(k, s.limit, s.winSec * 1000)], v.meta.id);
            Ones(d) && reply == ScriptError
  {
    var k, f, s := KeyOf(u, v), u.fixed.def, u.sliding.def;
    hide Batch, ToLua;
    GateRuns.ClashErrors(db, v.redis, v.meta.id, k, f.limit, f.winSec + 60, s.limit, s.winSec * 1000);
  }

  lemma PayloadTwo(a: Item, b: Item)
    ensures Payload([a, b]) == [a.lua, b.lua]
  {}

  lemma VisitFails(u: Setup, w: World, v: Visit, n: nat)
    requires ValidSetup(u) && Standing(w, u.start, n)
    requires n < 20 ==> u.start <= v.later <= u.start + 5_000_000_000
    ensures Standing(Serve(u, w, v).0, u.start, n + 1)
    ensures Serve(u, w, v).1 == if n + 1 < 20 then Deny(u.fixed, 100_000_000, true) else Allow(true)
  {
    var q := RequestOf(u, w.db, v);
    var items := Items(u.c, q.rules, v.meta, v.now);
    TwoItems(u, v);
    Unblocked(items, v.now, 0);
    PayloadTwo(items[0], items[1]);
    BatchFails(u, w.db, v);
    CountsOn(w.gate.breaker, u.start, n, v.later);
    Degraded.OpenRulesPass(u.c, w.gate.local, w.gate.instances, items, v.meta, v.later, 0);
    DecideIs(u.c, w.gate, q);
    hide Items, Payload, Batch, Decide, FirstBlocked, DegradeFrom, Breaker.Degraded, Breaker.OnFailure, KeyOf, Counting, Ones, Deny, Allow,
         OnAnswer, AllLoaded;
  }

  /** With Redis up, whoever asks: every batch of two such rules fails, so while nothing else succeeds the first nineteen
      requests are refused and, once twenty have failed in five seconds, every later one at any time is let through without
      any limit. */
  lemma {:induction false} ClashFailsOpen(u: Setup, vs: seq<Visit>)
    requires ValidSetup(u)
    requires forall i :: 0 <= i < |vs| && i < 20 ==> u.start <= vs[i].later <= u.start + 5_000_000_000
    ensures Standing(WorldAfter(u, vs), u.start, |vs|)
    ensures forall i :: 0 <= i < |vs| ==>
              DecisionAt(u, vs, i) == if i < 19 then Deny(u.fixed, 100_000_000, true) else Allow(true)
  {
    hide Serve, Deny, Allow, ValidSetup;
    if vs != [] {
      var n := |vs| - 1;
      ClashFailsOpen(u, vs[..n]);
      VisitFails(u, WorldAfter(u, vs[..n]), vs[n], n);
      forall i | 0 <= i < |vs|
        ensures DecisionAt(u, vs, i) == if i < 19 then Deny(u.fixed, 100_000_000, true) else Allow(true)
      {
        if i < n { assert vs[..n][..i] == vs[..i] && DecisionAt(u, vs[..n], i) == DecisionAt(u, vs, i); }
      }
    }
  }

  /** With a limit of 1 the fixed rule, sent first, denies the second request in place of an error. */
  lemma LimitOneDenies(db: Db, now: int, id: string, k: string, expire: int, cap: int, window: int)
    requires var e := LiveEntry(Get(db, k), now); e.Some? && e.value.val == Str(1)
    ensures Batch(db, now, [Fixed(k, 1, expire), Sliding(k, cap, window)], id).1.Denied?
  {
    LiveGet(db, now, k);
    var rules := [Fixed(k, 1, expire), Sliding(k, cap, window)];
    assert TryFrom(Live(db, now), now, rules, []).1.Stopped?;
  }

  /** A fixed rule of one domain and a sliding rule of another clash without ever meeting in one batch: whoever comes first has the
      key, and until that has expired every batch of the other is an error. */
  lemma DomainsClash(k: string, limit: int, expire: int, cap: int, window: int, now: int, id: string)
    requires limit >= 1 && expire > 0 && cap >= 1 && window > 0
    ensures var fixed, sliding := [Fixed(k, limit, expire)], [Sliding(k, cap, window)];
            var (a, first), (b, second) := Batch(map[], 0, fixed, "a"), Batch(map[], 0, sliding, "a");
            && TwoPhase.Compatible(fixed) && TwoPhase.Compatible(sliding) && first == Ok == second
            && (0 <= now <= expire * 1000 ==> Batch(a, now, sliding, id).1 == ScriptError)
            && (0 <= now <= window + 1000 ==> Batch(b, now, fixed, id).1 == ScriptError)
  {
    FixedFirst(k, limit, expire);
    SlidingFirst(k, cap, window);
    var a, b := map[k := Entry(Str(1), Some(expire * 1000))], map[k := Entry(ZSet(map["a:1" := 0]), Some(window + 1000))];
    hide Batch;
    if 0 <= now <= expire * 1000 { WrongKind(a, now, Sliding(k, cap, window), id); }
    if 0 <= now <= window + 1000 { WrongKind(b, now, Fixed(k, limit, expire), id); }
  }

  lemma WrongKind(db: Db, now: int, r: LRule, id: string)
    requires Try(LiveEntry(Get(db, r.key), now), r, now) == WrongType
    ensures Batch(db, now, [r], id).1 == ScriptError
  {
    LiveGet(db, now, r.key);
  }

  lemma FixedFirst(k: string, limit: int, expire: int)
    requires limit >= 1 && expire > 0
    ensures Batch(map[], 0, [Fixed(k, limit, expire)], "a") == (map[k := Entry(Str(1), Some(expire * 1000))], Ok)
  {
    var r, p := Fixed(k, limit, expire), PFixed(k, expire, true);
    assert Live(map[], 0) == map[] && Try(None, r, 0) == Pass(p);
    KeepClean(map[], r, 0);
    assert [] + [p] == [p];
    assert TryFrom(map[], 0, [r], [p]) == (map[], AllPass([p]));
    var d := Put(map[], k, Commit(None, p, 0, "a").value);
    assert CommitFrom(d, 0, "a", [p], 1) == (d, true);
  }

  lemma SlidingFirst(k: string, cap: int, window: int)
    requires cap >= 1 && window > 0
    ensures Batch(map[], 0, [Sliding(k, cap, window)], "a") == (map[k := Entry(ZSet(map["a:1" := 0]), Some(window + 1000))], Ok)
  {
    var r, p := Sliding(k, cap, window), PSliding(k, window);
    assert Live(map[], 0) == map[] && Clean(map[], r, 0) == map[] && Try(None, r, 0) == Pass(p);
    assert [] + [p] == [p];
    assert TryFrom(map[], 0, [r], [p]) == (map[], AllPass([p]));
    assert "a" + ":1" == "a:1";
    var d := Put(map[], k, Commit(None, p, 0, "a").value);
    assert CommitFrom(d, 0, "a", [p], 1) == (d, true);
  }
}
