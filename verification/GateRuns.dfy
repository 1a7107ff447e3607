/** What the limiter's decisions promise over whole runs. */
module GateRuns {
  import opened Prelude
  import opened Limiter
  import opened BatchCheck
  import opened TwoPhase
  import opened Redis
  import Keys
  import Rules
  import Local = LocalFallback
  import Breaker

  // All or nothing, for the payloads Check builds.

  /** A fixed and a sliding rule over the same dimensions and the same window. */
  predicate TypeClash(c: Config, items: seq<Item>, now: int) {
    exists i, j :: 0 <= i < |items| && 0 <= j < |items| && Clash(c, items[i].rule.def, items[j].rule.def, now)
  }

  predicate Clash(c: Config, f: Rules.Rule, s: Rules.Rule, now: int) {
    IsFixedRule(f) && IsSlidingRule(s) && f.dims == s.dims && f.winSec == s.winSec
    && BoundaryOf(c, f, now) == BoundaryOf(c, s, now)
  }

  /** The kind of a rule, its key and its script entry go together. */
  lemma LuaShape(c: Config, d: Rules.Rule, meta: Meta, now: int)
    requires Loaded(d)
    ensures var l, k := ToLua(c, d, meta, now), KeySpecOf(c, d, meta, now);
            && l.key == Keys.Build(c.sha, k) && Keys.ValidDims(k.dims)
            && k.dims == d.dims && k.vals == DimValues(meta, d.dims)
            && (l.TkAdmit? <==> k.LedgerSpec?) && (l.Conc? <==> k.ConcSpec?) && (l.Bucket? <==> k.BucketSpec?)
            && (l.Fixed? <==> IsFixedRule(d)) && (l.Sliding? <==> IsSlidingRule(d))
            && (l.Fixed? || l.Sliding? <==> k.RateSpec?) && !l.Unknown?
            && (k.RateSpec? ==> k.winSec == d.winSec && k.b == BoundaryOf(c, d, now))
  {
    hide Keys.Build, Keys.ValidDims, DimValues, BoundaryOf, RateOf;
  }

  lemma SharedKey(c: Config, d: Rules.Rule, e: Rules.Rule, meta: Meta, now: int)
    requires Keys.IsDigest(c.sha) && Loaded(d) && Loaded(e)
    ensures var l, m := ToLua(c, d, meta, now), ToLua(c, e, meta, now);
            l.key == m.key && Writes(l) && Writes(m) && !SameType(l, m) <==> Clash(c, d, e, now) || Clash(c, e, d, now)
  {
    hide ToLua, KeySpecOf, Keys.Build, Keys.ValidDims, Keys.IsDigest, Loaded, DimValues, BoundaryOf, Keys.SafeVals, Keys.SafeVal, Keys.Join,
         IsFixedRule, IsSlidingRule;
    LuaShape(c, d, meta, now);
    LuaShape(c, e, meta, now);
    Keys.KeysCoincideIff(c.sha, KeySpecOf(c, d, meta, now), KeySpecOf(c, e, meta, now));
  }

  lemma PayloadCompatibleIff(c: Config, rules: seq<Rule>, meta: Meta, now: int)
    requires Keys.IsDigest(c.sha) && AllLoaded(rules)
    ensures var items := Items(c, rules, meta, now);
            Compatible(Payload(items)) <==> !TypeClash(c, items, now)
  {
    var items := Items(c, rules, meta, now);
    var p := Payload(items);
    forall i, j | 0 <= i < |items| && 0 <= j < |items|
      ensures p[i].key == p[j].key && Writes(p[i]) && Writes(p[j]) && !SameType(p[i], p[j])
              <==> Clash(c, items[i].rule.def, items[j].rule.def, now) || Clash(c, items[j].rule.def, items[i].rule.def, now)
    {
      SharedKey(c, items[i].rule.def, items[j].rule.def, meta, now);
    }
    hide Clash, Writes, SameType, ToLua, Loaded;
  }

  predicate PositiveWindows(rules: seq<Rule>) {
    forall i :: 0 <= i < |rules| && rules[i].def.kind == "rate" ==> rules[i].def.winSec > 0
  }

  lemma LoadedUsable(c: Config, d: Rules.Rule, meta: Meta, now: int)
    requires Loaded(d) && (d.kind == "rate" ==> d.winSec > 0)
    ensures Usable(ToLua(c, d, meta, now))
  {
    hide Keys.Build, KeySpecOf, RateOf, Keys.ValidDims;
  }

  /** The items are the enabled rules. */
  lemma {:induction false} ItemRules(c: Config, rules: seq<Rule>, meta: Meta, now: int)
    requires AllLoaded(rules)
    ensures forall i :: 0 <= i < |Items(c, rules, meta, now)| ==>
              Items(c, rules, meta, now)[i].rule in rules && Items(c, rules, meta, now)[i].rule.enabled
  {
    hide ToLua;
    if rules != [] { ItemRules(c, rules[..|rules| - 1], meta, now); }
  }

  lemma {:induction false} EnabledItem(c: Config, rules: seq<Rule>, meta: Meta, now: int, r: Rule)
    requires AllLoaded(rules) && r in rules && r.enabled
    ensures exists i :: 0 <= i < |Items(c, rules, meta, now)| && Items(c, rules, meta, now)[i].rule == r
  {
    hide ToLua;
    var n := |rules| - 1;
    var items := Items(c, rules, meta, now);
    if rules[n] == r {
      assert items[|items| - 1].rule == r;
    } else {
      assert r in rules[..n];
      EnabledItem(c, rules[..n], meta, now, r);
      var i :| 0 <= i < |Items(c, rules[..n], meta, now)| && Items(c, rules[..n], meta, now)[i].rule == r;
      assert items[i].rule == r;
    }
  }

  lemma LoadedItems(c: Config, rules: seq<Rule>, meta: Meta, now: int)
    requires AllLoaded(rules)
    ensures forall j :: 0 <= j < |Items(c, rules, meta, now)| ==> Loaded(Items(c, rules, meta, now)[j].rule.def)
  {
    hide ToLua, Loaded;
  }

  /** For validated rules the batch Check sends is all or nothing, over every store, exactly when no fixed and sliding rule
      count the same dimensions over the same window. */
  lemma CheckAtomicIff(c: Config, rules: seq<Rule>, meta: Meta, now: int)
    requires Keys.IsDigest(c.sha) && AllLoaded(rules) && PositiveWindows(rules)
    ensures var items := Items(c, rules, meta, now);
            Atomic(Payload(items)) <==> !TypeClash(c, items, now)
  {
    var items := Items(c, rules, meta, now);
    ItemRules(c, rules, meta, now);
    forall i | 0 <= i < |items| ensures Usable(Payload(items)[i]) {
      LoadedUsable(c, items[i].rule.def, meta, now);
    }
    AtomicIffCompatible(Payload(items));
    PayloadCompatibleIff(c, rules, meta, now);
  }

  // What an admitted request holds.

  lemma {:induction false} ConcKeysExact(items: seq<Item>, k: string)
    ensures k in ConcKeys(items) <==> exists i :: 0 <= i < |items| && items[i].lua.Conc? && items[i].lua.key == k
  {
    if items != [] {
      var n := |items| - 1;
      ConcKeysExact(items[..n], k);
      if k in ConcKeys(items[..n]) {
        var i :| 0 <= i < n && items[..n][i].lua.Conc? && items[..n][i].lua.key == k;
        assert items[i].lua.key == k;
      }
      if i :| 0 <= i < |items| && items[i].lua.Conc? && items[i].lua.key == k {
        assert i < n ==> items[..n][i] == items[i];
      }
    }
  }

  lemma {:induction false} ReleasedEverywhere(db: Db, keys: seq<string>, id: string, k: string)
    requires k in keys
    ensures id !in Scores(Get(ReleaseAll(db, keys, id).0, k))
  {
    var n := |keys| - 1;
    var d := ReleaseAll(db, keys[..n], id).0;
    PutGet(d, keys[n], ZRem(Get(d, keys[n]), id), k);
    if k != keys[n] { ReleasedEverywhere(db, keys[..n], id, k); }
  }

  /** The hold of an admitted request is exactly what its release needs: releasing it leaves the request in none of the
      concurrency sets of its rules, whatever happened to the store in between; a request that is not admitted holds
      nothing, and neither does one admitted without the script. */
  lemma HoldReleasesAll(c: Config, g: Gate, q: Request, db: Db)
    requires AllLoaded(q.rules)
    ensures var r := Decide(c, g, q);
            var items := Items(c, q.rules, q.meta, q.now);
            && (r.hold.Some? ==> r.decision == Allow(false) && r.hold.value.id == q.meta.id)
            && (r.decision == Allow(false) ==>
                  var keys := if r.hold.Some? then r.hold.value.keys else [];
                  forall i | 0 <= i < |items| && items[i].lua.Conc? ::
                    q.meta.id !in Scores(Get(ReleaseAll(db, keys, q.meta.id).0, items[i].lua.key)))
  {
    var r := Decide(c, g, q);
    var items := Items(c, q.rules, q.meta, q.now);
    HoldShape(c, g, q);
    if r.decision == Allow(false) {
      forall i | 0 <= i < |items| && items[i].lua.Conc?
        ensures q.meta.id !in Scores(Get(ReleaseAll(db, ConcKeys(items), q.meta.id).0, items[i].lua.key))
      {
        ConcKeysExact(items, items[i].lua.key);
        ReleasedEverywhere(db, ConcKeys(items), q.meta.id, items[i].lua.key);
      }
    }
  }

  lemma HoldShape(c: Config, g: Gate, q: Request)
    requires AllLoaded(q.rules)
    ensures var r := Decide(c, g, q);
            var keys := ConcKeys(Items(c, q.rules, q.meta, q.now));
            && (r.hold.Some? ==> r.decision == Allow(false) && r.hold.value == Hold(keys, q.meta.id))
            && (r.decision == Allow(false) && r.hold.None? ==> keys == [])
  {
    hide ToLua, FirstBlocked, DegradeFrom;
    DegradeMarks(c, g.local, g.instances, Items(c, q.rules, q.meta, q.now), q.meta, q.later, 0);
  }

  lemma {:induction false} DegradeMarks(c: Config, l: Local.Local, instances: int, items: seq<Item>, meta: Meta, now: int, i: nat)
    requires i <= |items|
    ensures DegradeFrom(c, l, instances, items, meta, now, i).1.degraded
    decreases |items| - i
  {
    if i < |items| {
      var p := DegradeParams(c, items[i].rule.def, meta, now);
      hide DegradeParams, LocalQuota;
      var l' := Local.AllowQuota(l, p.key, LocalQuota(p.limit, instances), p.window, now).0;
      hide Local.AllowQuota;
      DegradeMarks(c, l, instances, items, meta, now, i + 1);
      DegradeMarks(c, l', instances, items, meta, now, i + 1);
    }
  }

  // Errors.

  /** Of all the events of all the requests so far, one tripped the breaker and no script run has succeeded since. */
  ghost predicate ProvenOutage(start: int, es: seq<Breaker.Event>) {
    exists i :: 0 <= i < |es| && Breaker.TripsAt(start, es, i) && Breaker.NoSuccess(es, i)
  }

  /** Fail closed until proven outage. `es` is any history of the instance, other requests' events interleaved at will, up to
      the moment the failed request asks the breaker: it is let through only in a proven outage, and refused at once,
      leaving the local quotas alone, otherwise. */
  lemma FailClosedUntilOutage(start: int, es: seq<Breaker.Event>, at: int, c: Config, l: Local.Local, instances: int,
                              items: seq<Item>, meta: Meta)
    requires items != []
    ensures var down := Breaker.Degraded(Breaker.After(start, es), at).1;
            var r := OnError(c, l, instances, items, meta, down, at);
            && (down <==> ProvenOutage(start, es))
            && (r.1.allowed ==> ProvenOutage(start, es))
            && (!ProvenOutage(start, es) ==> !r.1.allowed && r.0 == l && r.2 == [])
  {
    Breaker.NotClosedIffTripped(start, es);
    hide DegradeFrom, Breaker.After;
  }

  /** So a history with fewer than 20 failures never lets an errored request through. */
  lemma FewFailuresNeverAdmit(start: int, es: seq<Breaker.Event>, at: int, c: Config, l: Local.Local, instances: int,
                              items: seq<Item>, meta: Meta)
    requires items != [] && Breaker.InTime(start, es) && Breaker.Failures(es) < 20
    ensures !OnError(c, l, instances, items, meta, Breaker.Degraded(Breaker.After(start, es), at).1, at).1.allowed
  {
    Breaker.FewFailuresStayClosed(start, es);
    hide DegradeFrom, Breaker.After;
  }

  // One instance's runs.

  /** What an instance does: it decides a request, or it learns how many instances there are. */
  datatype Turn = Ask(q: Request) | Resize(n: int, at: int)

  function When(t: Turn): int {
    match t
    case Ask(q) => q.later
    case Resize(_, at) => at
  }

  predicate Fit(t: Turn) { t.Ask? ==> AllLoaded(t.q.rules) }

  predicate Serves(turns: seq<Turn>) { forall i :: 0 <= i < |turns| ==> Fit(turns[i]) }

  /** One turn; a resize decides nothing. */
  function Take(c: Config, g: Gate, t: Turn): Result
    requires Fit(t)
  {
    match t
    case Ask(q) => Decide(c, g, q)
    case Resize(n, _) => Result(Resized(g, n), Allow(false), None, [], [])
  }

  function GateAfter(c: Config, instances: int, start: int, turns: seq<Turn>): Gate
    requires Serves(turns)
  {
    if turns == [] then NewGate(instances, start)
    else
      var n := |turns| - 1;
      Take(c, GateAfter(c, instances, start, turns[..n]), turns[n]).gate
  }

  /** The decision of turn `i` and its side effects. */
  function At(c: Config, instances: int, start: int, turns: seq<Turn>, i: nat): Result
    requires Serves(turns) && i < |turns|
  {
    Take(c, GateAfter(c, instances, start, turns[..i]), turns[i])
  }

  /** How many instances it then knows of. */
  function InstancesAfter(instances: int, turns: seq<Turn>): int {
    if turns == [] then (if instances <= 0 then 1 else instances)
    else
      var n := |turns| - 1;
      if turns[n].Resize? && turns[n].n > 0 then turns[n].n else InstancesAfter(instances, turns[..n])
  }

  function Events(c: Config, instances: int, start: int, turns: seq<Turn>): seq<Breaker.Event>
    requires Serves(turns)
  {
    if turns == [] then []
    else
      var n := |turns| - 1;
      Events(c, instances, start, turns[..n]) + At(c, instances, start, turns, n).events
  }

  function Calls(c: Config, instances: int, start: int, turns: seq<Turn>): seq<Local.Call>
    requires Serves(turns)
  {
    if turns == [] then []
    else
      var n := |turns| - 1;
      Calls(c, instances, start, turns[..n]) + At(c, instances, start, turns, n).calls
  }

  lemma AfterSnoc(start: int, es: seq<Breaker.Event>, e: Breaker.Event)
    ensures Breaker.After(start, es + [e]) == Breaker.StepTo(Breaker.After(start, es), e)
  {
    assert (es + [e])[..|es|] == es;
  }

  lemma {:induction false} LocalConcat(l: Local.Local, a: seq<Local.Call>, b: seq<Local.Call>)
    ensures Local.After(l, a + b) == Local.After(Local.After(l, a), b)
  {
    if b == [] {
      assert a + b == a;
    } else {
      var n := |b| - 1;
      assert (a + b)[..|a| + n] == a + b[..n];
      LocalConcat(l, a, b[..n]);
    }
  }

  lemma LocalOne(l: Local.Local, c: Local.Call)
    ensures Local.After(l, [c]) == Local.Do(l, c).0
  {
    assert [c][..0] == [];
  }

  lemma {:induction false} DegradeCalls(c: Config, l: Local.Local, instances: int, items: seq<Item>, meta: Meta, now: int, i: nat)
    requires i <= |items|
    ensures var (l', d, calls) := DegradeFrom(c, l, instances, items, meta, now, i);
            l' == Local.After(l, calls) && forall j :: 0 <= j < |calls| ==> calls[j].now == now
    decreases |items| - i
  {
    if i < |items| {
      var p := DegradeParams(c, items[i].rule.def, meta, now);
      var call := Local.TakeQuota(p.key, LocalQuota(p.limit, instances), p.window, now);
      var l' := Local.Do(l, call).0;
      assert l' == Local.AllowQuota(l, p.key, LocalQuota(p.limit, instances), p.window, now).0;
      LocalOne(l, call);
      LocalConcat(l, [call], DegradeFrom(c, l', instances, items, meta, now, i + 1).2);
      hide DegradeParams, LocalQuota, Local.AllowQuota, Local.After, Local.Do;
      DegradeCalls(c, l, instances, items, meta, now, i + 1);
      DegradeCalls(c, l', instances, items, meta, now, i + 1);
    }
  }

  /** One request changes the local state and the breaker exactly by its logged calls and events. */
  lemma DecideLogs(c: Config, g: Gate, q: Request)
    requires AllLoaded(q.rules)
    ensures var r := Decide(c, g, q);
            && r.gate.local == Local.After(g.local, r.calls)
            && r.gate.instances == g.instances
            && (forall j :: 0 <= j < |r.calls| ==> r.calls[j].now == q.later)
            && (forall j :: 0 <= j < |r.events| ==> r.events[j].at == q.later)
            && r.gate.breaker == (if |r.events| == 0 then g.breaker
                                  else if |r.events| == 1 then Breaker.StepTo(g.breaker, r.events[0])
                                  else Breaker.StepTo(Breaker.StepTo(g.breaker, r.events[0]), r.events[1]))
            && |r.events| <= 2
  {
    var items := Items(c, q.rules, q.meta, q.now);
    assert Local.After(g.local, []) == g.local;
    DegradeCalls(c, g.local, g.instances, items, q.meta, q.later, 0);
    if items != [] && q.run(Payload(items)).Answer? {
      AnswerCalls(g.local, items, q, q.run(Payload(items)));
    }
    hide ToLua, FirstBlocked, DegradeFrom, OnAnswer, Local.After, Breaker.OnFailure, Breaker.OnSuccess, Breaker.Degraded;
  }

  lemma AnswerCalls(l: Local.Local, items: seq<Item>, q: Request, a: Outcome)
    requires a.Answer?
    ensures var r := OnAnswer(l, items, q, a);
            r.0 == Local.After(l, r.3) && forall j :: 0 <= j < |r.3| ==> r.3[j].now == q.later
  {
    if 1 <= a.index <= |items| {
      LocalOne(l, Local.AddBlock(items[a.index - 1].lua.key, q.now + a.retryMs * 1_000_000, q.later));
    }
  }

  lemma AfterTwo(start: int, es: seq<Breaker.Event>, more: seq<Breaker.Event>)
    requires |more| <= 2
    ensures var b := Breaker.After(start, es);
            Breaker.After(start, es + more)
            == (if |more| == 0 then b
                else if |more| == 1 then Breaker.StepTo(b, more[0])
                else Breaker.StepTo(Breaker.StepTo(b, more[0]), more[1]))
  {
    if |more| == 0 {
      assert es + more == es;
    } else {
      AfterSnoc(start, es, more[0]);
      if |more| == 1 {
        assert es + more == es + [more[0]];
      } else {
        AfterSnoc(start, es + [more[0]], more[1]);
        assert es + more == es + [more[0]] + [more[1]];
      }
    }
  }

  /** The same for any turn. */
  lemma TakeLogs(c: Config, g: Gate, t: Turn)
    requires Fit(t)
    ensures var r := Take(c, g, t);
            && r.gate.local == Local.After(g.local, r.calls)
            && r.gate.instances == (if t.Resize? && t.n > 0 then t.n else g.instances)
            && (forall j :: 0 <= j < |r.calls| ==> r.calls[j].now == When(t))
            && r.gate.breaker == (if |r.events| == 0 then g.breaker
                                  else if |r.events| == 1 then Breaker.StepTo(g.breaker, r.events[0])
                                  else Breaker.StepTo(Breaker.StepTo(g.breaker, r.events[0]), r.events[1]))
            && |r.events| <= 2
  {
    if t.Ask? { DecideLogs(c, g, t.q); }
    assert Local.After(g.local, []) == g.local;
    hide Decide, Local.After, AllLoaded, Breaker.StepTo;
  }

  /** Over a run, the breaker and the local state are those the logged events and calls lead to. */
  lemma {:induction false} RunLogs(c: Config, instances: int, start: int, turns: seq<Turn>)
    requires Serves(turns)
    ensures var g := GateAfter(c, instances, start, turns);
            && g.breaker == Breaker.After(start, Events(c, instances, start, turns))
            && g.local == Local.After(Local.Local(map[], map[], start), Calls(c, instances, start, turns))
            && g.instances == InstancesAfter(instances, turns)
  {
    if turns != [] {
      var n := |turns| - 1;
      RunLogs(c, instances, start, turns[..n]);
      TakeLogs(c, GateAfter(c, instances, start, turns[..n]), turns[n]);
      var r := At(c, instances, start, turns, n);
      assert r == Take(c, GateAfter(c, instances, start, turns[..n]), turns[n]);
      hide Take, Local.After, Breaker.After, Fit, At, Breaker.StepTo;
      AfterTwo(start, Events(c, instances, start, turns[..n]), r.events);
      LocalConcat(Local.Local(map[], map[], start), Calls(c, instances, start, turns[..n]), r.calls);
    }
  }

  lemma ErrorMarks(c: Config, g: Gate, q: Request)
    requires AllLoaded(q.rules)
    ensures var r := Decide(c, g, q);
            r.decision.allowed && r.decision.degraded ==>
              && r.events == [Breaker.Failed(q.later), Breaker.Asked(q.later)]
              && Breaker.Degraded(Breaker.OnFailure(g.breaker, q.later), q.later).1
  {
    hide ToLua, FirstBlocked, DegradeFrom, Local.Block, Breaker.OnFailure, Breaker.OnSuccess, Breaker.Degraded, Payload, ConcKeys;
  }

  /** In a run, a request let through although its script run failed proves an outage at that moment. */
  lemma AdmittedErrorsProveOutage(c: Config, instances: int, start: int, turns: seq<Turn>, i: nat)
    requires Serves(turns) && i < |turns|
    ensures var r := At(c, instances, start, turns, i);
            r.decision.allowed && r.decision.degraded ==>
              ProvenOutage(start, Events(c, instances, start, turns[..i]) + [Breaker.Failed(When(turns[i]))])
  {
    var es := Events(c, instances, start, turns[..i]);
    var failed := Breaker.Failed(When(turns[i]));
    RunLogs(c, instances, start, turns[..i]);
    if turns[i].Ask? { ErrorMarks(c, GateAfter(c, instances, start, turns[..i]), turns[i].q); }
    AfterSnoc(start, es, failed);
    Breaker.NotClosedIffTripped(start, es + [failed]);
    hide Decide, Breaker.After, Breaker.OnFailure;
  }

  // The script's replies, as Check sees them.

  /** A denial names the first rule whose trial fails; `d` is the store that trial read. */
  lemma {:induction false} DeniedRule(db: Db, now: int, rules: seq<LRule>, plans: seq<Plan>) returns (d: Db)
    requires |plans| <= |rules|
    ensures OnlyStaleRemoved(db, d, rules, now)
    ensures var t := TryFrom(db, now, rules, plans).1;
            t.Stopped? && t.reply.Denied? ==>
              && |plans| < t.reply.index <= |rules|
              && Try(Get(d, rules[t.reply.index - 1].key), rules[t.reply.index - 1], now) == Fail(t.reply.retry)
    decreases |rules| - |plans|
  {
    d := db;
    SelfStale(db, rules, now);
    hide Try, Clean, OnlyStaleRemoved;
    if |plans| < |rules| {
      var r := rules[|plans|];
      var v := Try(Get(db, r.key), r, now);
      if v.Pass? {
        d := DeniedRule(Clean(db, r, now), now, rules, plans + [v.plan]);
        CleanStale(db, rules, |plans|, now);
        StaleTrans(db, Clean(db, r, now), d, rules, now);
      }
    }
  }

  /** The decision refuses and names the rule. */
  predicate Names(d: Decision, r: Rule) {
    !d.allowed && d.name == r.def.name && d.id == r.id && d.dimension == Keys.Join('.', r.def.dims)
  }

  /** Against the script itself, a request that passes the negative cache is allowed undegraded exactly when the script says
      Ok, and a refusal names the rule whose trial failed, with the script's own waiting time; "unknown" never
      happens. `tried` is the store that trial read. */
  lemma DecisionIsScript(c: Config, g: Gate, q: Request, db: Db, at: int) returns (tried: Db)
    requires AllLoaded(q.rules)
    requires var items := Items(c, q.rules, q.meta, q.now);
             && items != [] && FirstBlocked(g.local.blocks, items, q.now, 0).None?
             && q.run(Payload(items)) == OutcomeOf(Batch(db, at, Payload(items), q.meta.id).1)
    ensures OnlyStaleRemoved(Live(db, at), tried, Payload(Items(c, q.rules, q.meta, q.now)), at)
    ensures var items := Items(c, q.rules, q.meta, q.now);
            var reply := Batch(db, at, Payload(items), q.meta.id).1;
            var d := Decide(c, g, q).decision;
            && (d == Allow(false) <==> reply == Ok)
            && (reply.ScriptError? <==> d.degraded)
            && (reply.Denied? ==>
                  && 1 <= reply.index <= |items|
                  && Names(d, items[reply.index - 1].rule) && d.retry == reply.retry * 1_000_000
                  && Try(Get(tried, items[reply.index - 1].lua.key), items[reply.index - 1].lua, at) == Fail(reply.retry))
  {
    hide *;
    var items := Items(c, q.rules, q.meta, q.now);
    var reply := Batch(db, at, Payload(items), q.meta.id).1;
    tried := DeniedRule(Live(db, at), at, Payload(items), []);
    BatchReply(db, at, Payload(items), q.meta.id);
    DecideIs(c, g, q);
    ItemsReply(c, g, q, items, reply);
    if reply.Denied? { PayloadAt(items, reply.index - 1); }
  }

  lemma BatchReply(db: Db, at: int, rules: seq<LRule>, id: string)
    ensures var t := TryFrom(Live(db, at), at, rules, []).1;
            var reply := Batch(db, at, rules, id).1;
            reply.Denied? ==> t == Stopped(reply)
  {
    hide TryFrom, CommitFrom;
  }

  lemma PayloadAt(items: seq<Item>, i: nat)
    requires i < |items|
    ensures Payload(items)[i] == items[i].lua
  {}

  lemma ItemsReply(c: Config, g: Gate, q: Request, items: seq<Item>, reply: Reply)
    requires items != [] && q.run(Payload(items)) == OutcomeOf(reply)
    ensures var d := CheckItems(c, g, q, items).decision;
            && (d == Allow(false) <==> reply == Ok)
            && (reply.ScriptError? <==> d.degraded)
            && (reply.Denied? && 1 <= reply.index <= |items| ==>
                  Names(d, items[reply.index - 1].rule) && d.retry == reply.retry * 1_000_000)
  {
    DegradeMarks(c, g.local, g.instances, items, q.meta, q.later, 0);
    hide DegradeFrom, Payload, Local.Block, Breaker.OnFailure, Breaker.OnSuccess, Breaker.Degraded, ConcKeys, Keys.Join;
  }

  /** A request that the negative cache turns away reaches neither Redis nor the breaker: the decision names the first rule whose key
      is blocked and waits until that block ends, and nothing changes. */
  lemma LocalRefusal(c: Config, g: Gate, q: Request)
    requires AllLoaded(q.rules)
    ensures var items := Items(c, q.rules, q.meta, q.now);
            var r := Decide(c, g, q);
            var n := FirstBlocked(g.local.blocks, items, q.now, 0);
            && (n.None? <==> forall j :: 0 <= j < |items| ==> Local.Blocked(g.local.blocks, items[j].lua.key, q.now).None?)
            && (n.Some? ==>
                  && n.value < |items|
                  && (forall j :: 0 <= j < n.value ==> Local.Blocked(g.local.blocks, items[j].lua.key, q.now).None?)
                  && Names(r.decision, items[n.value].rule) && !r.decision.degraded && r.decision.retry >= 0
                  && Local.Blocked(g.local.blocks, items[n.value].lua.key, q.now) == Some(q.now + r.decision.retry)
                  && r.gate == g && r.calls == [] && r.events == [])
  {
    hide *;
    var items := Items(c, q.rules, q.meta, q.now);
    DecideIs(c, g, q);
    BlockedFirst(g.local.blocks, items, q.now, 0);
    var n := FirstBlocked(g.local.blocks, items, q.now, 0);
    if n.Some? {
      BlockedIs(g.local.blocks, items[n.value].lua.key, q.now);
      DenyNames(items[n.value].rule, g.local.blocks[items[n.value].lua.key] - q.now, false);
    }
  }

  lemma BlockedIs(blocks: map<string, int>, key: string, now: int)
    ensures var b := Local.Blocked(blocks, key, now); b.Some? ==> key in blocks && b.value == blocks[key] >= now
  {}

  lemma DenyNames(r: Rule, retry: int, degraded: bool)
    ensures var d := Deny(r, retry, degraded); Names(d, r) && d.retry == retry && d.degraded == degraded
  {
    hide Keys.Join;
  }

  lemma {:induction false} BlockedFirst(blocks: map<string, int>, items: seq<Item>, now: int, i: nat)
    requires i <= |items|
    ensures var n := FirstBlocked(blocks, items, now, i);
            && (forall j :: i <= j < |items| && (n.None? || j < n.value) ==> Local.Blocked(blocks, items[j].lua.key, now).None?)
            && (n.Some? ==> i <= n.value < |items| && Local.Blocked(blocks, items[n.value].lua.key, now).Some?)
    decreases |items| - i
  {
    hide Local.Blocked;
    if i < |items| { BlockedFirst(blocks, items, now, i + 1); }
  }

  /** What a refusal leaves in the negative cache: the key of the rule whose trial failed, for the script's waiting time after the
      request started, if that is at most 10 s; every other key is blocked or free as before. */
  lemma RefusalBlocks(c: Config, g: Gate, q: Request, db: Db, at: int, x: string, t: int) returns (tried: Db)
    requires AllLoaded(q.rules) && q.later <= t
    requires var items := Items(c, q.rules, q.meta, q.now);
             && items != [] && FirstBlocked(g.local.blocks, items, q.now, 0).None?
             && q.run(Payload(items)) == OutcomeOf(Batch(db, at, Payload(items), q.meta.id).1)
    ensures OnlyStaleRemoved(Live(db, at), tried, Payload(Items(c, q.rules, q.meta, q.now)), at)
    ensures var items := Items(c, q.rules, q.meta, q.now);
            var reply := Batch(db, at, Payload(items), q.meta.id).1;
            var before, after := Local.Blocked(g.local.blocks, x, t), Local.Blocked(Decide(c, g, q).gate.local.blocks, x, t);
            if reply.Denied? then
              && 1 <= reply.index <= |items|
              && var lua := items[reply.index - 1].lua;
                 && Try(Get(tried, lua.key), lua, at) == Fail(reply.retry)
                 && after == (if x != lua.key || reply.retry <= 0 || reply.retry > 10_000 then before
                              else if t <= q.now + reply.retry * 1_000_000 then Some(q.now + reply.retry * 1_000_000)
                              else None)
            else if reply == Ok then after == before
            else forall k :: k in Decide(c, g, q).gate.local.blocks ==> k in g.local.blocks
  {
    hide *;
    var items := Items(c, q.rules, q.meta, q.now);
    var reply := Batch(db, at, Payload(items), q.meta.id).1;
    tried := DecisionIsScript(c, g, q, db, at);
    DecideIs(c, g, q);
    ReplyBlocks(c, g, q, items, reply, x, t);
    FailBlocks(c, g, q, items);
    ReplyIs(reply);
  }

  lemma ReplyIs(reply: Reply)
    ensures OutcomeOf(reply).Failed? <==> reply.ScriptError?
    ensures reply == Ok || reply.Denied? || reply.ScriptError?
  {}

  lemma ReplyBlocks(c: Config, g: Gate, q: Request, items: seq<Item>, reply: Reply, x: string, t: int)
    requires items != [] && q.run(Payload(items)) == OutcomeOf(reply) && q.later <= t
    ensures var before, after := Local.Blocked(g.local.blocks, x, t), Local.Blocked(CheckItems(c, g, q, items).gate.local.blocks, x, t);
            && (reply == Ok ==> after == before)
            && (reply.Denied? && 1 <= reply.index <= |items| ==>
                  after == if x != items[reply.index - 1].lua.key || reply.retry <= 0 || reply.retry > 10_000 then before
                           else if t <= q.now + reply.retry * 1_000_000 then Some(q.now + reply.retry * 1_000_000)
                           else None)
  {
    if reply.Denied? && 1 <= reply.index <= |items| {
      BlockView(g.local, items[reply.index - 1].lua.key, q.now + reply.retry * 1_000_000, q.later, x, t);
    }
    hide Local.Block, Local.Blocked, Payload, ConcKeys, Breaker.OnSuccess, Breaker.OnFailure, Breaker.Degraded, Keys.Join, OnError;
  }

  /** A new block, seen later; the cleanup that follows it is not. */
  lemma BlockView(l: Local.Local, key: string, until: int, now: int, x: string, t: int)
    requires now <= t
    ensures Local.Blocked(Local.Block(l, key, until, now).blocks, x, t)
            == if x != key then Local.Blocked(l.blocks, x, t) else if t <= until then Some(until) else None
  {}

  /** An error blocks nothing. */
  lemma FailBlocks(c: Config, g: Gate, q: Request, items: seq<Item>)
    requires items != []
    ensures q.run(Payload(items)).Failed? ==>
              forall k :: k in CheckItems(c, g, q, items).gate.local.blocks ==> k in g.local.blocks
  {
    hide DegradeFrom, Payload, ConcKeys, Breaker.OnSuccess, Breaker.OnFailure, Breaker.Degraded, Keys.Join, OnAnswer;
    DegradeBlocks(c, g.local, g.instances, items, q.meta, q.later, 0);
  }

  lemma {:induction false} DegradeBlocks(c: Config, l: Local.Local, instances: int, items: seq<Item>, meta: Meta, now: int, i: nat)
    requires i <= |items|
    ensures forall k :: k in DegradeFrom(c, l, instances, items, meta, now, i).0.blocks ==> k in l.blocks
    decreases |items| - i
  {
    if i < |items| {
      var p := DegradeParams(c, items[i].rule.def, meta, now);
      hide DegradeParams, LocalQuota;
      var l' := Local.AllowQuota(l, p.key, LocalQuota(p.limit, instances), p.window, now).0;
      assert forall k :: k in l'.blocks ==> k in l.blocks;
      hide Local.AllowQuota;
      DegradeBlocks(c, l, instances, items, meta, now, i + 1);
      DegradeBlocks(c, l', instances, items, meta, now, i + 1);
    }
  }

  // A configuration error that looks like an outage.

  /** A fixed and a sliding rule on one key answer with an error until the key expires: the first batch tears, leaving a
      counter of one, and the others find the wrong type. */
  lemma ClashErrors(db: Db, now: int, id: string, k: string, limit: int, expire: int, cap: int, window: int)
    requires limit >= 1 && expire > 0 && cap >= 1
    requires var e := LiveEntry(Get(db, k), now); e.Some? && e.value.val.Str? ==> e.value.val.n + 1 <= limit
    ensures var (d, reply) := Batch(db, now, [Fixed(k, limit, expire), Sliding(k, cap, window)], id);
            && reply == ScriptError
            && forall j :: j in d ==> (j in db && d[j] == db[j]) || (j == k && d[j].val == Str(1))
  {
    var f, s := Fixed(k, limit, expire), Sliding(k, cap, window);
    var rules := [f, s];
    var live := Live(db, now);
    LiveGet(db, now, k);
    var e := Get(live, k);
    if e.Some? && e.value.val.Str? {
      ClashTrial(live, now, rules, e);
    } else if e.None? {
      ClashTear(live, now, id, k, limit, expire, cap, window);
    }
  }

  lemma ClashTrial(live: Db, now: int, rules: seq<LRule>, e: Option<Entry>)
    requires |rules| == 2 && rules[0].Fixed? && rules[1].Sliding? && rules[1].key == rules[0].key
    requires e == Get(live, rules[0].key) && e.Some? && e.value.val.Str? && e.value.val.n + 1 <= rules[0].limit
    ensures TryFrom(live, now, rules, []) == (live, Stopped(ScriptError))
  {
    var p := Try(e, rules[0], now).plan;
    assert Clean(live, rules[0], now) == live by { KeepClean(live, rules[0], now); }
    assert TryFrom(live, now, rules, [p]) == (live, Stopped(ScriptError));
    assert [] + [p] == [p];
  }

  lemma ClashTear(live: Db, now: int, id: string, k: string, limit: int, expire: int, cap: int, window: int)
    requires limit >= 1 && expire > 0 && cap >= 1 && Get(live, k).None?
    ensures var rules := [Fixed(k, limit, expire), Sliding(k, cap, window)];
            var (d, t) := TryFrom(live, now, rules, []);
            && d == live && t.AllPass?
            && CommitFrom(live, now, id, t.plans, 0) == (live[k := Entry(Str(1), Some(now + expire * 1000))], false)
  {
    var rules := [Fixed(k, limit, expire), Sliding(k, cap, window)];
    var p, q := PFixed(k, expire, true), PSliding(k, window);
    KeepClean(live, rules[0], now);
    assert Clean(live, rules[1], now) == live;
    assert Try(None, rules[0], now) == Pass(p) && Try(None, rules[1], now) == Pass(q);
    assert [] + [p] == [p] && [p] + [q] == [p, q];
    assert TryFrom(live, now, rules, [p, q]) == (live, AllPass([p, q]));
    assert TryFrom(live, now, rules, [p]) == (live, AllPass([p, q]));
    assert TryFrom(live, now, rules, []) == (live, AllPass([p, q]));
    var d := Put(live, k, Commit(None, p, now, id).value);
    assert CommitFrom(d, now, id, [p, q], 1) == (d, false);
  }

  /** A request whose own script run is answered is decided by that answer whatever the breaker says, and closes it. */
  lemma AnswerCloses(c: Config, g: Gate, q: Request, b: Breaker.B)
    requires AllLoaded(q.rules)
    requires var items := Items(c, q.rules, q.meta, q.now);
             items != [] && FirstBlocked(g.local.blocks, items, q.now, 0).None? && q.run(Payload(items)).Answer?
    ensures Decide(c, g.(breaker := b), q).decision == Decide(c, g, q).decision
    ensures Decide(c, g, q).gate.breaker.status == Breaker.Closed
    ensures !Decide(c, g, q).decision.degraded
  {
    hide ToLua, FirstBlocked, Local.Block, Payload, ConcKeys, Keys.Join;
  }
}
