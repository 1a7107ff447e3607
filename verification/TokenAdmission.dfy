/** The token budget's own admission check (internal/limiter/ledger.go: TokenAdmit), and its agreement with the read-only
    trial that was merged into the batch script. */
module TokenAdmission {
  import opened Prelude
  import opened Redis
  import opened BatchCheck
  import opened TwoPhase
  import opened AtKey
  import opened Limiter
  import opened TokenCharges
  import Degraded
  import GateRuns
  import Keys
  import Runs
  import Local = LocalFallback
  import Breaker

  /** What the ledger script answers; None is an error, a key of the wrong type included. */
  function Answer(e: Option<Entry>, limit: int, now: int): Option<(bool, int)> {
    if Runs.Counter(e) then Some(LedgerAdmit(e, limit, now)) else None
  }

  function Ask(db: Db, key: string, limit: int, run: ScriptRun): Option<(bool, int)> {
    if run.up then Answer(LiveEntry(Get(db, key), run.at), limit, run.at) else None
  }

  /** One rule without Redis: a failure for the breaker and a unit of the local quota. */
  function AskLocally(g: Gate, key: string, d: Limiter.Rules.Rule, now: int): (Gate, bool) {
    var b := Breaker.OnFailure(g.breaker, now);
    var (l, ok) := Local.AllowQuota(g.local, key + "|admit", LocalQuota(d.limit, g.instances), d.winSec * 1_000_000_000, now);
    (g.(breaker := b, local := l), ok)
  }

  /** A budget that is used up for another `pttl` milliseconds; nothing left to wait for counts as a whole window. */
  function Refusal(r: Rule, pttl: int): Decision {
    Deny(r, if pttl * 1_000_000 <= 0 then r.def.winSec * 1_000_000_000 else pttl * 1_000_000, false)
  }

  /** TokenAdmit from rule `i` on. */
  function AdmitFrom(c: Config, g: Gate, db: Db, rules: seq<Rule>, meta: Meta, now: int, runs: seq<ScriptRun>, i: nat): (Gate, Decision)
    requires i <= |rules| == |runs|
    decreases |rules| - i
  {
    if i == |rules| then (g, Allow(false))
    else if !(rules[i].enabled && IsTokenRule(rules[i].def)) then AdmitFrom(c, g, db, rules, meta, now, runs, i + 1)
    else
      var d := rules[i].def;
      var key := LedgerKey(c, d, meta, now);
      match Ask(db, key, d.limit, runs[i])
      case None =>
        var (g', ok) := AskLocally(g, key, d, now);
        if ok then AdmitFrom(c, g', db, rules, meta, now, runs, i + 1) else (g', Deny(rules[i], 1_000_000_000, true))
      case Some((ok, pttl)) =>
        if ok then AdmitFrom(c, g, db, rules, meta, now, runs, i + 1)
        else (g, Refusal(rules[i], pttl))
  }

  method TokenAdmit(gw: Gateway, s: Server, rules: seq<Rule>, meta: Meta, now: int, runs: seq<ScriptRun>) returns (d: Decision)
    requires |runs| == |rules|
    modifies gw.local, gw.breaker
    ensures (gw.State(), d) == AdmitFrom(gw.c, old(gw.State()), s.db, rules, meta, now, runs, 0)
  {
    var i := 0;
    while i < |rules|
      invariant 0 <= i <= |rules|
      invariant AdmitFrom(gw.c, old(gw.State()), s.db, rules, meta, now, runs, 0)
                == AdmitFrom(gw.c, gw.State(), s.db, rules, meta, now, runs, i)
    {
      hide LedgerKey, Local.AllowQuota, Breaker.OnFailure, LocalQuota, Deny, Ask, AdmitFrom;
      var r := rules[i];
      AdmitUnfold(gw.c, gw.State(), s.db, rules, meta, now, runs, i);
      if r.enabled && r.def.kind == "rate" && r.def.metric == "token" {
        var key := LedgerKey(gw.c, r.def, meta, now);
        var a := Ask(s.db, key, r.def.limit, runs[i]);
        if a.None? {
          gw.breaker.Failure(now);
          var quota := gw.QuotaPerInstance(r.def.limit);
          var ok := gw.local.TakeQuota(key + "|admit", quota, r.def.winSec * 1_000_000_000, now);
          if !ok { return Deny(r, 1_000_000_000, true); }
        } else if !a.value.0 {
          var retry := a.value.1 * 1_000_000;
          if retry <= 0 { retry := r.def.winSec * 1_000_000_000; }
          return Deny(r, retry, false);
        }
      }
      i := i + 1;
    }
    AdmitEnd(gw.c, gw.State(), s.db, rules, meta, now, runs);
    d := Allow(false);
  }

  // What admission asks of Redis and of the instance.

  /** The ledger script answers for the rule: it runs, and the key holds a counter. */
  predicate Answered(c: Config, db: Db, r: Rule, meta: Meta, now: int, run: ScriptRun) {
    run.up && Runs.Counter(LiveEntry(Get(db, LedgerKey(c, r.def, meta, now)), run.at))
  }

  /** The local quota calls of the token rules from `i` on that get no answer. */
  function LocalCalls(c: Config, db: Db, rules: seq<Rule>, meta: Meta, instances: int, now: int, runs: seq<ScriptRun>, i: nat): seq<Local.Call>
    requires i <= |rules| == |runs|
    decreases |rules| - i
  {
    if i == |rules| then []
    else
      var r := rules[i];
      (if Charged(r) && !Answered(c, db, r, meta, now, runs[i])
       then [Local.TakeQuota(LedgerKey(c, r.def, meta, now) + "|admit", LocalQuota(r.def.limit, instances), r.def.winSec * 1_000_000_000, now)]
       else [])
      + LocalCalls(c, db, rules, meta, instances, now, runs, i + 1)
  }

  function Failures(b: Breaker.B, now: int, n: nat): Breaker.B
    decreases n
  {
    if n == 0 then b else Failures(Breaker.OnFailure(b, now), now, n - 1)
  }

  /** Every token rule from `i` on that is answered has budget left. */
  predicate BudgetLeft(c: Config, db: Db, rules: seq<Rule>, meta: Meta, now: int, runs: seq<ScriptRun>, i: nat)
    requires |runs| == |rules|
  {
    forall j | i <= j < |rules| && Charged(rules[j]) && Answered(c, db, rules[j], meta, now, runs[j]) ::
      Runs.Used(LiveEntry(Get(db, LedgerKey(c, rules[j].def, meta, now)), runs[j].at)) < rules[j].def.limit
  }

  predicate AllGranted(l: Local.Local, calls: seq<Local.Call>) { forall j :: 0 <= j < |calls| ==> Degraded.Grants(l, calls, j) }

  lemma GrantedMore(l: Local.Local, call: Local.Call, rest: seq<Local.Call>)
    ensures var (l', answer) := Local.Do(l, call);
            && (AllGranted(l, [call] + rest) <==> answer == Local.Allowed(true) && AllGranted(l', rest))
            && Local.After(l, [call] + rest) == Local.After(l', rest)
  {
    hide Local.Do, Degraded.Grants;
    Degraded.GrantsFirst(l, call, rest);
    GateRuns.LocalConcat(l, [call], rest);
    GateRuns.LocalOne(l, call);
    var calls := [call] + rest;
    forall j | 0 <= j < |rest| ensures Degraded.Grants(l, calls, j + 1) <==> Degraded.Grants(Local.Do(l, call).0, rest, j) {
      assert 0 < j + 1 < |rest| + 1;
    }
  }

  lemma AskedByFields(c: Config, db: Db, r: Rule, meta: Meta, now: int, run: ScriptRun)
    ensures var k := LedgerKey(c, r.def, meta, now);
            var a := Ask(db, k, r.def.limit, run);
            && (a.Some? <==> Answered(c, db, r, meta, now, run))
            && (a.Some? ==> (a.value.0 <==> Runs.Used(LiveEntry(Get(db, k), run.at)) < r.def.limit))
  {
    hide LedgerKey;
  }

  lemma AskedLocally(g: Gate, key: string, d: Limiter.Rules.Rule, now: int)
    ensures var call := Local.TakeQuota(key + "|admit", LocalQuota(d.limit, g.instances), d.winSec * 1_000_000_000, now);
            var (g', ok) := AskLocally(g, key, d, now);
            && g' == g.(local := Local.Do(g.local, call).0, breaker := Breaker.OnFailure(g.breaker, now))
            && (ok <==> Local.Do(g.local, call).1 == Local.Allowed(true))
  {
    hide LocalQuota, Local.AllowQuota, Breaker.OnFailure;
  }

  lemma BudgetStep(c: Config, db: Db, rules: seq<Rule>, meta: Meta, now: int, runs: seq<ScriptRun>, i: nat)
    requires i < |rules| == |runs|
    ensures BudgetLeft(c, db, rules, meta, now, runs, i)
            <==> BudgetLeft(c, db, rules, meta, now, runs, i + 1)
                 && (Charged(rules[i]) && Answered(c, db, rules[i], meta, now, runs[i]) ==>
                       Runs.Used(LiveEntry(Get(db, LedgerKey(c, rules[i].def, meta, now)), runs[i].at)) < rules[i].def.limit)
  {
    hide LedgerKey, Charged, LiveEntry;
  }

  lemma CallsStep(c: Config, db: Db, rules: seq<Rule>, meta: Meta, instances: int, now: int, runs: seq<ScriptRun>, i: nat)
    requires i < |rules| == |runs|
    ensures var r := rules[i];
            var rest := LocalCalls(c, db, rules, meta, instances, now, runs, i + 1);
            LocalCalls(c, db, rules, meta, instances, now, runs, i)
            == if Charged(r) && !Answered(c, db, r, meta, now, runs[i]) then
                 [Local.TakeQuota(LedgerKey(c, r.def, meta, now) + "|admit", LocalQuota(r.def.limit, instances), r.def.winSec * 1_000_000_000, now)]
                 + rest
               else rest
  {
    hide LedgerKey, Charged, Answered, LocalQuota;
  }

  /** Token rule `j` is why the request is refused: its budget is used up, or without an answer its local quota is. */
  predicate RefusedBy(c: Config, db: Db, rules: seq<Rule>, meta: Meta, now: int, runs: seq<ScriptRun>, j: nat, d: Decision)
    requires j < |rules| == |runs|
  {
    && Charged(rules[j]) && GateRuns.Names(d, rules[j])
    && if Answered(c, db, rules[j], meta, now, runs[j]) then
         !d.degraded && Runs.Used(LiveEntry(Get(db, LedgerKey(c, rules[j].def, meta, now)), runs[j].at)) >= rules[j].def.limit
       else d.degraded && d.retry == 1_000_000_000
  }

  lemma RefusesHere(c: Config, g: Gate, db: Db, rules: seq<Rule>, meta: Meta, now: int, runs: seq<ScriptRun>, j: nat)
    requires j < |rules| == |runs| && Charged(rules[j])
    ensures !Answered(c, db, rules[j], meta, now, runs[j]) ==>
              RefusedBy(c, db, rules, meta, now, runs, j, Deny(rules[j], 1_000_000_000, true))
    ensures var a := Ask(db, LedgerKey(c, rules[j].def, meta, now), rules[j].def.limit, runs[j]);
            a.Some? && !a.value.0 ==> RefusedBy(c, db, rules, meta, now, runs, j, Refusal(rules[j], a.value.1))
  {
    var a := Ask(db, LedgerKey(c, rules[j].def, meta, now), rules[j].def.limit, runs[j]);
    AskedByFields(c, db, rules[j], meta, now, runs[j]);
    if a.Some? { RefusalIs(rules[j], a.value.1); }
    GateRuns.DenyNames(rules[j], 1_000_000_000, true);
    hide Ask, LedgerKey, Answered, Refusal, Deny, GateRuns.Names, LiveEntry, Charged;
  }

  /** Whatever the scripts do: a request is let in exactly if every token rule that is answered has budget left and every other one
      is granted a unit of its local quota, each of those counting as a failure for the breaker; a refusal names one that is not. */
  lemma {:induction false} AdmitExact(c: Config, g: Gate, db: Db, rules: seq<Rule>, meta: Meta, now: int, runs: seq<ScriptRun>, i: nat)
    requires i <= |rules| == |runs|
    ensures var (g', d) := AdmitFrom(c, g, db, rules, meta, now, runs, i);
            var calls := LocalCalls(c, db, rules, meta, g.instances, now, runs, i);
            && (d.allowed <==> BudgetLeft(c, db, rules, meta, now, runs, i) && AllGranted(g.local, calls))
            && (d.allowed ==> d == Allow(false) && g'.local == Local.After(g.local, calls) && g'.breaker == Failures(g.breaker, now, |calls|))
            && (!d.allowed ==> exists j :: i <= j < |rules| && RefusedBy(c, db, rules, meta, now, runs, j, d))
    decreases |rules| - i
  {
    hide *;
    if i == |rules| {
      NothingAsked(c, g, db, rules, meta, now, runs);
    } else {
      var r := rules[i];
      var k := LedgerKey(c, r.def, meta, now);
      var g' := AskLocally(g, k, r.def, now).0;
      AdmitUnfold(c, g, db, rules, meta, now, runs, i);
      AskedByFields(c, db, r, meta, now, runs[i]);
      BudgetStep(c, db, rules, meta, now, runs, i);
      CallsStep(c, db, rules, meta, g.instances, now, runs, i);
      AdmitExact(c, g, db, rules, meta, now, runs, i + 1);
      RefusalDenies();
      if Charged(r) { RefusesHere(c, g, db, rules, meta, now, runs, i); }
      if Charged(r) && !Answered(c, db, r, meta, now, runs[i]) {
        var call := Local.TakeQuota(k + "|admit", LocalQuota(r.def.limit, g.instances), r.def.winSec * 1_000_000_000, now);
        var rest := LocalCalls(c, db, rules, meta, g.instances, now, runs, i + 1);
        AskedLocally(g, k, r.def, now);
        AdmitExact(c, g', db, rules, meta, now, runs, i + 1);
        GrantedMore(g.local, call, rest);
        FailuresMore(g.breaker, now, |rest|);
      }
    }
  }

  lemma FailuresMore(b: Breaker.B, now: int, n: nat)
    ensures Failures(b, now, n + 1) == Failures(Breaker.OnFailure(b, now), now, n)
  {}

  lemma NothingAsked(c: Config, g: Gate, db: Db, rules: seq<Rule>, meta: Meta, now: int, runs: seq<ScriptRun>)
    requires |runs| == |rules|
    ensures AdmitFrom(c, g, db, rules, meta, now, runs, |rules|) == (g, Allow(false)) && Allow(false).allowed
    ensures LocalCalls(c, db, rules, meta, g.instances, now, runs, |rules|) == [] && AllGranted(g.local, [])
    ensures BudgetLeft(c, db, rules, meta, now, runs, |rules|)
    ensures Local.After(g.local, []) == g.local && Failures(g.breaker, now, 0) == g.breaker
  {}

  // Agreement with the merged check.

  /** The elements of `xs` that do not stand at a token rule of `p`. */
  function Kept<T>(p: seq<LRule>, xs: seq<T>): seq<T>
    requires |xs| <= |p|
  {
    if xs == [] then []
    else
      var n := |xs| - 1;
      Kept(p, xs[..n]) + (if p[n].TkAdmit? then [] else [xs[n]])
  }

  /** Where what stands at `i` has gone. */
  lemma {:induction false} KeptAt<T>(p: seq<LRule>, xs: seq<T>, i: nat)
    requires i < |xs| <= |p|
    ensures var m := |Kept(p, xs[..i])|;
            && Kept(p, xs[..i + 1]) == Kept(p, xs[..i]) + (if p[i].TkAdmit? then [] else [xs[i]])
            && m <= |Kept(p, xs)| && (!p[i].TkAdmit? ==> m < |Kept(p, xs)| && Kept(p, xs)[m] == xs[i])
  {
    assert xs[..i + 1][..i] == xs[..i];
    var n := |xs| - 1;
    if i < n {
      assert xs[..n][..i] == xs[..i];
      KeptAt(p, xs[..n], i);
    } else {
      assert xs[..i + 1] == xs;
    }
  }

  lemma {:induction false} KeptLength<S, T>(p: seq<LRule>, xs: seq<S>, ys: seq<T>)
    requires |xs| == |ys| <= |p|
    ensures |Kept(p, xs)| == |Kept(p, ys)|
  {
    if xs != [] { KeptLength(p, xs[..|xs| - 1], ys[..|ys| - 1]); }
  }

  /** The ledger's answer for one rule of a batch. */
  function AnswerTo(db: Db, r: LRule, now: int): Option<(bool, int)>
    requires r.TkAdmit?
  {
    Answer(Get(db, r.key), r.limit, now)
  }

  /** The first token rule from `i` on that the ledger does not let in. */
  function TokenStop(db: Db, p: seq<LRule>, now: int, i: nat): (k: nat)
    requires i <= |p|
    ensures i <= k <= |p| && (k < |p| ==> p[k].TkAdmit?)
    decreases |p| - i
  {
    if i == |p| then i
    else if p[i].TkAdmit? && !(AnswerTo(db, p[i], now).Some? && AnswerTo(db, p[i], now).value.0) then i
    else TokenStop(db, p, now, i + 1)
  }

  /** The first other rule from `i` on whose trial does not pass, each tried on what the cleanup of those before it has left. */
  function OtherStop(db: Db, p: seq<LRule>, now: int, i: nat): (o: nat)
    requires i <= |p|
    ensures i <= o <= |p| && (o < |p| ==> !p[o].TkAdmit?)
    decreases |p| - i
  {
    if i == |p| then i
    else if p[i].TkAdmit? then OtherStop(db, p, now, i + 1)
    else if Try(Get(db, p[i].key), p[i], now).Pass? then OtherStop(Clean(db, p[i], now), p, now, i + 1)
    else i
  }

  /** The token rules' ledgers are counters, as they were in `live`. */
  predicate Ledgers(db: Db, live: Db, p: seq<LRule>, now: int) {
    forall i | 0 <= i < |p| && p[i].TkAdmit? :: Runs.Counter(Get(live, p[i].key)) && Get(db, p[i].key) == Get(live, p[i].key)
  }

  /** Cleanup removes members of sets only. */
  lemma CleanLedgers(db: Db, live: Db, p: seq<LRule>, now: int, r: LRule)
    requires Ledgers(db, live, p, now)
    ensures Ledgers(Clean(db, r, now), live, p, now)
  {
    forall i | 0 <= i < |p| && p[i].TkAdmit? ensures Get(Clean(db, r, now), p[i].key) == Get(live, p[i].key) {
      PutGet(db, r.key, PurgeTo(Get(db, r.key), PurgeBound(r, now)), p[i].key);
    }
  }

  lemma OneToken(db: Db, live: Db, p: seq<LRule>, now: int, i: nat)
    requires i < |p| && p[i].TkAdmit? && Ledgers(db, live, p, now)
    ensures AnswerTo(live, p[i], now).Some? && Clean(db, p[i], now) == db
    ensures var (ok, pttl) := AnswerTo(live, p[i], now).value;
            Try(Get(db, p[i].key), p[i], now) == if ok then Pass(Noop) else Fail(pttl)
  {
    KeepClean(db, p[i], now);
  }

  function ReplyOf(t: Trial): Reply { if t.Stopped? then t.reply else Ok }

  /** A refusal by the rule of that index, or an error. */
  function Moved(r: Reply, index: nat): Reply { if r.Denied? then Denied(index, r.retry) else ScriptError }

  lemma MovedIs(t: Trial, index: nat)
    ensures t.Stopped? ==> ReplyOf(t) == t.reply && Moved(ReplyOf(t), index) == if t.reply.Denied? then Denied(index, t.reply.retry) else ScriptError
  {}

  /** Both trials, from rule `i` on: that of all rules, and that of the others. */
  ghost predicate Agree(db: Db, live: Db, now: int, p: seq<LRule>, plans: seq<Plan>)
    requires |plans| <= |p| && |Kept(p, plans)| <= |Kept(p, p)|
  {
    var (d, t) := TryFrom(db, now, p, plans);
    var (d', t') := TryFrom(db, now, Kept(p, p), Kept(p, plans));
    var o, k := OtherStop(db, p, now, |plans|), TokenStop(live, p, now, |plans|);
    && (t'.AllPass? <==> o == |p|)
    && (o < |p| ==> ReplyOf(t') == Moved(ReplyOf(t'), |Kept(p, p[..o])| + 1))
    && (t.AllPass? <==> o == |p| && k == |p|)
    && (t.AllPass? ==> d == d' && |t.plans| == |p| && t'.plans == Kept(p, t.plans)
                       && forall i | 0 <= i < |p| && p[i].TkAdmit? && |plans| <= i :: t.plans[i] == Noop)
    && (k < o ==> AnswerTo(live, p[k], now).Some? && t == Stopped(Denied(k + 1, AnswerTo(live, p[k], now).value.1)))
    && (o < k ==> t == Stopped(Moved(ReplyOf(t'), o + 1)))
  }

  lemma KeptSnoc<T>(p: seq<LRule>, xs: seq<T>, x: T)
    requires |xs| < |p|
    ensures Kept(p, xs + [x]) == Kept(p, xs) + (if p[|xs|].TkAdmit? then [] else [x])
  {
    assert (xs + [x])[..|xs|] == xs;
  }

  lemma StopsUnfold(db: Db, live: Db, p: seq<LRule>, now: int, i: nat)
    requires i < |p|
    ensures TokenStop(live, p, now, i)
            == if p[i].TkAdmit? && !(AnswerTo(live, p[i], now).Some? && AnswerTo(live, p[i], now).value.0) then i
               else TokenStop(live, p, now, i + 1)
    ensures OtherStop(db, p, now, i)
            == if p[i].TkAdmit? then OtherStop(db, p, now, i + 1)
               else if Try(Get(db, p[i].key), p[i], now).Pass? then OtherStop(Clean(db, p[i], now), p, now, i + 1)
               else i
  {
    hide Try, Clean, AnswerTo;
  }

  lemma StopsEnd(db: Db, live: Db, p: seq<LRule>, now: int)
    ensures TokenStop(live, p, now, |p|) == |p| == OtherStop(db, p, now, |p|)
  {}

  lemma {:induction false} Agreement(db: Db, live: Db, now: int, p: seq<LRule>, plans: seq<Plan>)
    requires |plans| <= |p| && Ledgers(db, live, p, now)
    ensures |Kept(p, plans)| <= |Kept(p, p)| && Agree(db, live, now, p, plans)
    decreases |p| - |plans|
  {
    hide *;
    var i := |plans|;
    KeptLength(p, p[..i], plans);
    if i == |p| {
      assert p[..i] == p;
      StopsEnd(db, live, p, now);
      TryUnfold(db, now, p, plans);
      TryUnfold(db, now, Kept(p, p), Kept(p, plans));
      AgreeIs(db, live, now, p, plans);
    } else {
      KeptAt(p, p, i);
      if p[i].TkAdmit? {
        KeptSnoc(p, plans, Noop);
        Agreement(db, live, now, p, plans + [Noop]);
        TokenRound(db, live, now, p, plans);
      } else {
        var v := Try(Get(db, p[i].key), p[i], now);
        if v.Pass? {
          CleanLedgers(db, live, p, now, p[i]);
          KeptSnoc(p, plans, v.plan);
          Agreement(Clean(db, p[i], now), live, now, p, plans + [v.plan]);
        }
        OtherRound(db, live, now, p, plans);
      }
    }
  }

  lemma TokenRound(db: Db, live: Db, now: int, p: seq<LRule>, plans: seq<Plan>)
    requires |plans| < |p| && Ledgers(db, live, p, now) && p[|plans|].TkAdmit? && |Kept(p, plans + [Noop])| <= |Kept(p, p)|
    requires Agree(db, live, now, p, plans + [Noop]) && |Kept(p, plans)| <= |Kept(p, p)|
    ensures Agree(db, live, now, p, plans)
  {
    hide *;
    StopsUnfold(db, live, p, now, |plans|);
    TryUnfold(db, now, p, plans);
    OneToken(db, live, p, now, |plans|);
    KeptSnoc(p, plans, Noop);
    assert Kept(p, plans) + [] == Kept(p, plans);
    AgreeIs(db, live, now, p, plans);
    AgreeIs(db, live, now, p, plans + [Noop]);
    TokenPlan(db, now, p, plans);
  }

  lemma OtherRound(db: Db, live: Db, now: int, p: seq<LRule>, plans: seq<Plan>)
    requires |plans| < |p| && !p[|plans|].TkAdmit?
    requires var m := |Kept(p, plans)|; m == |Kept(p, p[..|plans|])| && m < |Kept(p, p)| && Kept(p, p)[m] == p[|plans|]
    requires var i := |plans|;
             var v := Try(Get(db, p[i].key), p[i], now);
             v.Pass? ==> |Kept(p, plans + [v.plan])| <= |Kept(p, p)| && Agree(Clean(db, p[i], now), live, now, p, plans + [v.plan])
    ensures Agree(db, live, now, p, plans)
  {
    hide *;
    var i, q, own := |plans|, Kept(p, p), Kept(p, plans);
    StopsUnfold(db, live, p, now, i);
    TryUnfold(db, now, p, plans);
    TryUnfold(db, now, q, own);
    AgreeIs(db, live, now, p, plans);
    MovedIs(TryFrom(db, now, q, own).1, i + 1);
    MovedIs(TryFrom(db, now, q, own).1, |own| + 1);
    var v := Try(Get(db, p[i].key), p[i], now);
    if v.Pass? {
      KeptSnoc(p, plans, v.plan);
      AgreeIs(Clean(db, p[i], now), live, now, p, plans + [v.plan]);
    }
  }

  lemma AgreeIs(db: Db, live: Db, now: int, p: seq<LRule>, plans: seq<Plan>)
    requires |plans| <= |p| && |Kept(p, plans)| <= |Kept(p, p)|
    ensures var (d, t) := TryFrom(db, now, p, plans);
            var (d', t') := TryFrom(db, now, Kept(p, p), Kept(p, plans));
            var o, k := OtherStop(db, p, now, |plans|), TokenStop(live, p, now, |plans|);
            Agree(db, live, now, p, plans) <==>
            && (t'.AllPass? <==> o == |p|)
            && (o < |p| ==> ReplyOf(t') == Moved(ReplyOf(t'), |Kept(p, p[..o])| + 1))
            && (t.AllPass? <==> o == |p| && k == |p|)
            && (t.AllPass? ==> d == d' && |t.plans| == |p| && t'.plans == Kept(p, t.plans)
                               && forall i | 0 <= i < |p| && p[i].TkAdmit? && |plans| <= i :: t.plans[i] == Noop)
            && (k < o ==> AnswerTo(live, p[k], now).Some? && t == Stopped(Denied(k + 1, AnswerTo(live, p[k], now).value.1)))
            && (o < k ==> t == Stopped(Moved(ReplyOf(t'), o + 1)))
  {
    hide TryFrom, OtherStop, TokenStop, AnswerTo;
  }

  /** The plans of a passing trial begin with those it was given. */
  lemma {:induction false} TokenPlan(db: Db, now: int, p: seq<LRule>, plans: seq<Plan>)
    requires |plans| < |p| && p[|plans|].TkAdmit?
    ensures var t := TryFrom(db, now, p, plans + [Noop]).1; t.AllPass? ==> |plans| < |t.plans| && t.plans[|plans|] == Noop
  {
    PlansGrow(db, now, p, plans + [Noop]);
    hide TryFrom;
  }

  lemma {:induction false} PlansGrow(db: Db, now: int, p: seq<LRule>, plans: seq<Plan>)
    requires |plans| <= |p|
    ensures var t := TryFrom(db, now, p, plans).1; t.AllPass? ==> plans <= t.plans
    decreases |p| - |plans|
  {
    hide Try, Clean, TryFrom;
    TryUnfold(db, now, p, plans);
    if |plans| < |p| {
      var r := p[|plans|];
      var v := Try(Get(db, r.key), r, now);
      if v.Pass? { PlansGrow(Clean(db, r, now), now, p, plans + [v.plan]); }
    }
  }

  /** Placeholders commit nothing. */
  lemma {:induction false} CommitKept(db: Db, now: int, id: string, p: seq<LRule>, plans: seq<Plan>, i: nat)
    requires i <= |plans| == |p| && forall j | 0 <= j < |p| && p[j].TkAdmit? :: plans[j] == Noop
    ensures |Kept(p, plans[..i])| <= |Kept(p, plans)|
    ensures CommitFrom(db, now, id, plans, i) == CommitFrom(db, now, id, Kept(p, plans), |Kept(p, plans[..i])|)
    decreases |plans| - i
  {
    hide Commit, CommitFrom, Kept;
    if i == |plans| {
      assert plans[..i] == plans;
      CommitUnfold(db, now, id, plans, i);
      CommitUnfold(db, now, id, Kept(p, plans), |Kept(p, plans)|);
    } else {
      var m := |Kept(p, plans[..i])|;
      KeptAt(p, plans, i);
      CommitUnfold(db, now, id, plans, i);
      if p[i].TkAdmit? {
        CommitKept(db, now, id, p, plans, i + 1);
      } else {
        CommitUnfold(db, now, id, Kept(p, plans), m);
        if plans[i].Noop? {
          CommitKept(db, now, id, p, plans, i + 1);
        } else {
          var c := Commit(Get(db, plans[i].key), plans[i], now, id);
          if c.Some? { CommitKept(Put(db, plans[i].key, c.value), now, id, p, plans, i + 1); }
        }
      }
    }
  }

  // The same for the payload of a request.

  /** The rules of a request that are no token rules. */
  function WithoutTokens(rules: seq<Rule>): (r: seq<Rule>)
    ensures AllLoaded(rules) ==> AllLoaded(r)
  {
    if rules == [] then []
    else
      var n := |rules| - 1;
      WithoutTokens(rules[..n]) + (if IsTokenRule(rules[n].def) then [] else [rules[n]])
  }

  lemma {:induction false} KeptPrefix<T>(p: seq<LRule>, p': seq<LRule>, xs: seq<T>)
    requires |xs| <= |p| && p <= p'
    ensures Kept(p, xs) == Kept(p', xs)
  {
    if xs != [] { KeptPrefix(p, p', xs[..|xs| - 1]); }
  }

  lemma TokenEntry(c: Config, d: Limiter.Rules.Rule, meta: Meta, now: int)
    requires Loaded(d)
    ensures ToLua(c, d, meta, now).TkAdmit? <==> IsTokenRule(d)
    ensures IsTokenRule(d) ==> ToLua(c, d, meta, now) == TkAdmit(LedgerKey(c, d, meta, now), d.limit)
  {
    hide Keys.Build, KeySpecOf, Keys.ValidDims, RateOf;
    TokenKey(c, d, meta, now);
  }

  lemma TokenKey(c: Config, d: Limiter.Rules.Rule, meta: Meta, now: int)
    ensures IsTokenRule(d) ==> Keys.Build(c.sha, KeySpecOf(c, d, meta, now)) == LedgerKey(c, d, meta, now)
  {}

  /** A payload without the token rules is that of the other rules. */
  lemma {:induction false} OtherItems(c: Config, rules: seq<Rule>, meta: Meta, now: int)
    requires AllLoaded(rules)
    ensures var items := Items(c, rules, meta, now);
            Items(c, WithoutTokens(rules), meta, now) == Kept(Payload(items), items)
  {
    hide ToLua, Loaded, IsTokenRule;
    if rules != [] {
      var n := |rules| - 1;
      var a, b := Items(c, rules[..n], meta, now), Items(c, rules, meta, now);
      OtherItems(c, rules[..n], meta, now);
      TokenEntry(c, rules[n].def, meta, now);
      KeptPrefix(Payload(a), Payload(b), a);
      if !IsTokenRule(rules[n].def) {
        var w := WithoutTokens(rules);
        assert w[..|w| - 1] == WithoutTokens(rules[..n]) && w[|w| - 1] == rules[n];
      } else {
        assert WithoutTokens(rules) == WithoutTokens(rules[..n]);
      }
      if rules[n].enabled {
        assert b[..|b| - 1] == a;
      } else {
        assert b == a;
      }
    }
  }

  lemma {:induction false} KeptPayload(p: seq<LRule>, items: seq<Item>)
    requires |items| <= |p|
    ensures Payload(Kept(p, items)) == Kept(p, Payload(items))
  {
    if items != [] {
      var n := |items| - 1;
      KeptPayload(p, items[..n]);
      assert Payload(items)[..n] == Payload(items[..n]);
    }
  }

  predicate AllUp(runs: seq<ScriptRun>, at: int) { forall i :: 0 <= i < |runs| ==> runs[i] == ScriptRun(at, true) }

  /** The keys of the request's ledgers hold nothing but counters. */
  predicate AllLedgers(c: Config, db: Db, rules: seq<Rule>, meta: Meta, now: int, at: int) {
    forall i | 0 <= i < |rules| && Charged(rules[i]) :: Runs.Counter(LiveEntry(Get(db, LedgerKey(c, rules[i].def, meta, now)), at))
  }

  lemma LedgersHold(c: Config, db: Db, rules: seq<Rule>, meta: Meta, now: int, at: int)
    requires AllLoaded(rules) && AllLedgers(c, db, rules, meta, now, at)
    ensures Ledgers(Live(db, at), Live(db, at), Payload(Items(c, rules, meta, now)), at)
  {
    var items := Items(c, rules, meta, now);
    var p := Payload(items);
    hide ToLua, LedgerKey, Items, Live, LiveEntry, Runs.Counter, Loaded, IsTokenRule;
    GateRuns.ItemRules(c, rules, meta, now);
    forall i | 0 <= i < |p| && p[i].TkAdmit? ensures Runs.Counter(Get(Live(db, at), p[i].key)) {
      var j :| 0 <= j < |rules| && rules[j] == items[i].rule;
      TokenEntry(c, rules[j].def, meta, now);
      LiveGet(db, at, p[i].key);
      assert Charged(rules[j]);
    }
  }

  lemma SameQuestion(db: Db, r: LRule, at: int)
    requires r.TkAdmit?
    ensures AnswerTo(Live(db, at), r, at) == Ask(db, r.key, r.limit, ScriptRun(at, true))
  {
    LiveGet(db, at, r.key);
    hide Answer;
  }

  /** The separate check's result, once its questions have come to item `i`. */
  predicate Finds(g: Gate, live: Db, items: seq<Item>, at: int, i: nat, result: (Gate, Decision)) {
    i <= |items| &&
    var k := TokenStop(live, Payload(items), at, i);
    if k == |items| then result == (g, Allow(false))
    else AnswerTo(live, items[k].lua, at).Some? && result == (g, Refusal(items[k].rule, AnswerTo(live, items[k].lua, at).value.1))
  }

  lemma FindsStep(g: Gate, live: Db, items: seq<Item>, at: int, i: nat, result: (Gate, Decision))
    requires i < |items| && Ledgers(live, live, Payload(items), at)
    requires if items[i].lua.TkAdmit? && !AskedOk(live, items[i].lua, at)
             then AnswerTo(live, items[i].lua, at).Some? && result == (g, Refusal(items[i].rule, AnswerTo(live, items[i].lua, at).value.1))
             else Finds(g, live, items, at, i + 1, result)
    ensures Finds(g, live, items, at, i, result)
  {
    PayloadIs(items, i);
    StopsUnfold(live, live, Payload(items), at, i);
    hide AnswerTo, TokenStop, Refusal, Allow, OtherStop, Try;
  }

  predicate AskedOk(live: Db, r: LRule, at: int)
    requires r.TkAdmit?
  {
    AnswerTo(live, r, at).Some? && AnswerTo(live, r, at).value.0
  }

  lemma FindsEnd(g: Gate, live: Db, items: seq<Item>, at: int)
    ensures Finds(g, live, items, at, |items|, (g, Allow(false)))
  {}

  lemma UpAt(runs: seq<ScriptRun>, at: int, i: nat)
    requires AllUp(runs, at) && i < |runs|
    ensures runs[i] == ScriptRun(at, true)
  {}

  /** What a token rule's item asks. */
  lemma AskedIs(db: Db, items: seq<Item>, at: int, i: nat)
    requires i < |items| && items[i].lua.TkAdmit? && Ledgers(Live(db, at), Live(db, at), Payload(items), at)
    ensures var r := items[i].lua;
            var a := Ask(db, r.key, r.limit, ScriptRun(at, true));
            a.Some? && AnswerTo(Live(db, at), r, at) == a && (AskedOk(Live(db, at), r, at) <==> a.value.0)
  {
    PayloadIs(items, i);
    OneToken(Live(db, at), Live(db, at), Payload(items), at, i);
    SameQuestion(db, items[i].lua, at);
    hide AnswerTo, Ask;
  }

  /** The separate check stops at the same rule. */
  lemma {:induction false} AdmitFinds(c: Config, g: Gate, db: Db, rules: seq<Rule>, meta: Meta, now: int, runs: seq<ScriptRun>, at: int, i: nat)
    requires i <= |rules| == |runs| && AllLoaded(rules) && AllUp(runs, at)
    requires Ledgers(Live(db, at), Live(db, at), Payload(Items(c, rules, meta, now)), at)
    ensures AllLoaded(rules[..i])
    ensures Finds(g, Live(db, at), Items(c, rules, meta, now), at, |Items(c, rules[..i], meta, now)|,
                  AdmitFrom(c, g, db, rules, meta, now, runs, i))
    decreases |rules| - i
  {
    hide *;
    var live, items := Live(db, at), Items(c, rules, meta, now);
    if i == |rules| {
      assert rules[..i] == rules;
      FindsEnd(g, live, items, at);
      AdmitEnd(c, g, db, rules, meta, now, runs);
    } else {
      ItemsPrefix(c, rules, meta, now, i);
      var k := |Items(c, rules[..i], meta, now)|;
      UpAt(runs, at, i);
      AdmitFinds(c, g, db, rules, meta, now, runs, at, i + 1);
      AdmitUnfold(c, g, db, rules, meta, now, runs, i);
      ChargedIs(rules[i]);
      TokenEntry(c, rules[i].def, meta, now);
      if rules[i].enabled {
        assert items[k] == Item(rules[i], ToLua(c, rules[i].def, meta, now));
        if IsTokenRule(rules[i].def) { AskedIs(db, items, at, k); }
        FindsStep(g, live, items, at, k, AdmitFrom(c, g, db, rules, meta, now, runs, i));
      }
    }
  }

  lemma AdmitEnd(c: Config, g: Gate, db: Db, rules: seq<Rule>, meta: Meta, now: int, runs: seq<ScriptRun>)
    requires |runs| == |rules|
    ensures AdmitFrom(c, g, db, rules, meta, now, runs, |rules|) == (g, Allow(false))
  {}

  lemma FindsIs(g: Gate, live: Db, items: seq<Item>, at: int, result: (Gate, Decision))
    requires Finds(g, live, items, at, 0, result)
    ensures var p := Payload(items);
            var k := TokenStop(live, p, at, 0);
            (k < |p| ==> AnswerTo(live, p[k], at).Some?)
            && result == (g, if k == |p| then Allow(false) else Refusal(items[k].rule, AnswerTo(live, p[k], at).value.1))
  {
    hide AnswerTo, TokenStop, Refusal, Allow;
  }

  lemma ChargedIs(r: Rule)
    ensures Charged(r) <==> r.enabled && IsTokenRule(r.def)
  {}

  lemma PayloadIs(items: seq<Item>, k: nat)
    requires k < |items|
    ensures Payload(items)[k] == items[k].lua
  {}

  lemma AdmitUnfold(c: Config, g: Gate, db: Db, rules: seq<Rule>, meta: Meta, now: int, runs: seq<ScriptRun>, i: nat)
    requires i < |rules| == |runs|
    ensures var d := rules[i].def;
            var a := Ask(db, LedgerKey(c, d, meta, now), d.limit, runs[i]);
            AdmitFrom(c, g, db, rules, meta, now, runs, i)
            == if !Charged(rules[i]) then AdmitFrom(c, g, db, rules, meta, now, runs, i + 1)
               else if a.None? then
                 var (g', ok) := AskLocally(g, LedgerKey(c, d, meta, now), d, now);
                 if ok then AdmitFrom(c, g', db, rules, meta, now, runs, i + 1) else (g', Deny(rules[i], 1_000_000_000, true))
               else if a.value.0 then AdmitFrom(c, g, db, rules, meta, now, runs, i + 1)
               else (g, Refusal(rules[i], a.value.1))
  {
    hide Ask, LedgerKey, AskLocally, Deny, Refusal;
  }

  /** While Redis answers, merging the token rules of any request into its batch decides as the separate check followed by a batch
      of the other rules: it lets the request in exactly if both do, and then leaves the same store. A refusal names the first
      rule in the order of the request at which either of them stops, with that one's waiting time, except that the
      separate check turns a wait of nothing into a whole window. */
  lemma AdmitIsMerged(c: Config, g: Gate, db: Db, rules: seq<Rule>, meta: Meta, now: int, runs: seq<ScriptRun>, at: int)
    requires AllLoaded(rules) && |runs| == |rules| && AllUp(runs, at) && AllLedgers(c, db, rules, meta, now, at)
    ensures var items, others := Items(c, rules, meta, now), Items(c, WithoutTokens(rules), meta, now);
            var p, live := Payload(items), Live(db, at);
            var (g', d) := AdmitFrom(c, g, db, rules, meta, now, runs, 0);
            var (merged, both) := Batch(db, at, p, meta.id);
            var (separate, rest) := Batch(db, at, Payload(others), meta.id);
            var k, o := TokenStop(live, p, at, 0), OtherStop(live, p, at, 0);
            && g' == g
            && (both == Ok <==> d == Allow(false) && rest == Ok)
            && (both == Ok ==> merged == separate)
            && (both == ScriptError ==> rest == ScriptError)
            && (d == Allow(false) <==> k == |p|)
            && (rest.Denied? ==> o < |p| && 1 <= rest.index <= |others| && others[rest.index - 1] == items[o])
            && (both.Denied? ==>
                  && both.index == Min(k, o) + 1 <= |items|
                  && (k < o ==> GateRuns.Names(d, items[k].rule) && !d.degraded
                                && d.retry == if both.retry > 0 then both.retry * 1_000_000 else items[k].rule.def.winSec * 1_000_000_000)
                  && (o < k ==> rest.Denied? && rest.retry == both.retry))
  {
    hide *;
    var items := Items(c, rules, meta, now);
    var p, live := Payload(items), Live(db, at);
    OtherItems(c, rules, meta, now);
    KeptPayload(p, items);
    LedgersHold(c, db, rules, meta, now, at);
    NoRules(c, rules, meta, now);
    AdmitFinds(c, g, db, rules, meta, now, runs, at, 0);
    FindsIs(g, live, items, at, AdmitFrom(c, g, db, rules, meta, now, runs, 0));
    MergedBatch(db, at, p, meta.id);
    KeptLength(p, items, p);
    var o := OtherStop(live, p, at, 0);
    if o < |p| {
      KeptAt(p, items, o);
      KeptLength(p, items[..o], p[..o]);
    }
    RefusalDenies();
    var k := TokenStop(live, p, at, 0);
    if k < |p| { RefusalIs(items[k].rule, AnswerTo(live, p[k], at).value.1); }
  }

  lemma NoRules(c: Config, rules: seq<Rule>, meta: Meta, now: int)
    ensures rules[..0] == [] && AllLoaded([]) && |Items(c, [], meta, now)| == 0
  {}

  /** A batch and the same batch without its token rules. */
  lemma MergedBatch(db: Db, now: int, p: seq<LRule>, id: string)
    requires Ledgers(Live(db, now), Live(db, now), p, now)
    ensures var live := Live(db, now);
            var (merged, both) := Batch(db, now, p, id);
            var (separate, rest) := Batch(db, now, Kept(p, p), id);
            var k, o := TokenStop(live, p, now, 0), OtherStop(live, p, now, 0);
            && (both == Ok <==> k == |p| && rest == Ok)
            && (both == Ok ==> merged == separate)
            && (both == ScriptError ==> rest == ScriptError)
            && (rest.Denied? ==> o < |p| && rest.index == |Kept(p, p[..o])| + 1)
            && (both.Denied? ==>
                  && both.index == Min(k, o) + 1 <= |p|
                  && (k < o ==> AnswerTo(live, p[k], now).Some? && both.retry == AnswerTo(live, p[k], now).value.1)
                  && (o < k ==> rest.Denied? && rest.retry == both.retry))
  {
    hide *;
    var live := Live(db, now);
    NothingKept(p);
    Agreement(live, live, now, p, []);
    AgreeIs(live, live, now, p, []);
    BatchIs(db, now, p, id);
    BatchIs(db, now, Kept(p, p), id);
    var (d, t) := TryFrom(live, now, p, []);
    var t' := TryFrom(live, now, Kept(p, p), []).1;
    var k, o := TokenStop(live, p, now, 0), OtherStop(live, p, now, 0);
    if t.AllPass? {
      CommitKept(d, now, id, p, t.plans, 0);
      assert t.plans[..0] == [];
      NothingKept(p);
    }
    MovedIs(t', |Kept(p, p[..o])| + 1);
    MovedIs(t', o + 1);
    StoppedIs(live, now, p);
    StoppedIs(live, now, Kept(p, p));
    MinIs(k, o);
  }

  lemma MinIs(a: int, b: int)
    ensures Min(a, b) == if a < b then a else b
  {}

  lemma NothingKept(p: seq<LRule>)
    ensures Kept<Plan>(p, []) == []
  {}

  /** A trial that stops does not stop with success. */
  lemma StoppedIs(db: Db, now: int, rules: seq<LRule>)
    ensures var t := TryFrom(db, now, rules, []).1; t.Stopped? ==> t.reply != Ok
  {
    hide TryFrom;
    TryFromReadOnly(db, now, rules, []);
  }

  lemma RefusalDenies()
    ensures forall r, pttl :: Refusal(r, pttl) != Allow(false) && !Refusal(r, pttl).allowed
    ensures forall r, retry, degraded :: !Deny(r, retry, degraded).allowed
  {}

  lemma RefusalIs(r: Rule, pttl: int)
    ensures var d := Refusal(r, pttl);
            && GateRuns.Names(d, r) && !d.degraded
            && d.retry == if pttl > 0 then pttl * 1_000_000 else r.def.winSec * 1_000_000_000
  {
    hide Keys.Join;
  }
}
