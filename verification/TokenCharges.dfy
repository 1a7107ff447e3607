/** Charging tokens to the ledgers of a request's token rules (internal/limiter/ledger.go: TokenReserve, TokenSettle), and
    what the ledger holds once streams have ended. */
module TokenCharges {
  import opened Prelude
  import opened Redis
  import opened BatchCheck
  import opened Runs
  import opened Limiter
  import Keys
  import L = TokenLedger
  import M = Metering

  /** When the ledger script of rule `i` runs, and whether it runs at all; its errors are ignored. */
  datatype ScriptRun = ScriptRun(at: int, up: bool)

  predicate Charged(r: Rule) { r.enabled && r.def.kind == "rate" && r.def.metric == "token" }

  function LedgerKey(c: Config, d: Limiter.Rules.Rule, meta: Meta, now: int): string {
    Keys.TokenLedgerKey(c.sha, d.dims, DimValues(meta, d.dims), d.winSec, BoundaryOf(c, d, now))
  }

  function ChargeOp(key: string, at: int, ch: M.Charge, expire: int): Op {
    match ch
    case Reserve(delta) => Reserve(at, key, delta, expire)
    case Settle(reserved, actual) => Settle(at, key, reserved, actual, expire)
  }

  /** The store after the first `i` rules have been charged. */
  function ChargeRules(db: Db, c: Config, rules: seq<Rule>, meta: Meta, ch: M.Charge, now: int, runs: seq<ScriptRun>, i: nat): Db
    requires i <= |rules| == |runs|
  {
    if i == 0 then db
    else
      var d := ChargeRules(db, c, rules, meta, ch, now, runs, i - 1);
      var r, run := rules[i - 1], runs[i - 1];
      if !(r.enabled && IsTokenRule(r.def) && run.up) then d
      else LedgerStep(Live(d, run.at), ChargeOp(LedgerKey(c, r.def, meta, now), run.at, ch, r.def.winSec + 60))
  }

  method TokenReserve(s: Server, c: Config, rules: seq<Rule>, meta: Meta, delta: int, now: int, runs: seq<ScriptRun>)
    requires |runs| == |rules|
    modifies s
    ensures s.db == if delta <= 0 then old(s.db) else ChargeRules(old(s.db), c, rules, meta, M.Reserve(delta), now, runs, |rules|)
  {
    if delta <= 0 { return; }
    var i := 0;
    while i < |rules|
      invariant 0 <= i <= |rules|
      invariant s.db == ChargeRules(old(s.db), c, rules, meta, M.Reserve(delta), now, runs, i)
    {
      var r := rules[i];
      if r.enabled && r.def.kind == "rate" && r.def.metric == "token" && runs[i].up {
        var key := LedgerKey(c, r.def, meta, now);
        LiveGet(s.db, runs[i].at, key);
        hide LedgerKey, ReserveEntry;
        var ok := s.LedgerReserve(runs[i].at, key, delta, r.def.winSec + 60);
      }
      i := i + 1;
    }
  }

  method TokenSettle(s: Server, c: Config, rules: seq<Rule>, meta: Meta, reserved: int, actual: int, now: int, runs: seq<ScriptRun>)
    requires |runs| == |rules|
    modifies s
    ensures s.db == if reserved == actual then old(s.db)
                    else ChargeRules(old(s.db), c, rules, meta, M.Settle(reserved, actual), now, runs, |rules|)
  {
    if reserved == actual { return; }
    var i := 0;
    while i < |rules|
      invariant 0 <= i <= |rules|
      invariant s.db == ChargeRules(old(s.db), c, rules, meta, M.Settle(reserved, actual), now, runs, i)
    {
      var r := rules[i];
      if r.enabled && r.def.kind == "rate" && r.def.metric == "token" && runs[i].up {
        var key := LedgerKey(c, r.def, meta, now);
        LiveGet(s.db, runs[i].at, key);
        hide LedgerKey, SettleEntry;
        var ok := s.LedgerSettle(runs[i].at, key, reserved, actual, r.def.winSec + 60);
      }
      i := i + 1;
    }
  }

  // How often a ledger is charged.

  /** How many of the first `i` rules charge the ledger `k`. */
  function Charges(c: Config, rules: seq<Rule>, meta: Meta, now: int, k: string, i: nat): nat
    requires i <= |rules|
  {
    if i == 0 then 0
    else Charges(c, rules, meta, now, k, i - 1)
         + (if Charged(rules[i - 1]) && LedgerKey(c, rules[i - 1].def, meta, now) == k then 1 else 0)
  }

  function NetOf(ch: M.Charge): int {
    match ch case Reserve(delta) => delta case Settle(reserved, actual) => actual - reserved
  }

  /** A ledger entry that no call up to `hi` finds expired. */
  predicate Lasts(e: Option<Entry>, hi: int) {
    Counter(e) && Used(e) >= 0 && (e.Some? && e.value.exp.Some? ==> hi <= e.value.exp.value)
  }

  lemma OneCharge(e: Option<Entry>, at: int, ch: M.Charge, key: string, expire: int, hi: int)
    requires Lasts(e, hi) && at <= hi <= at + expire * 1000 && expire > 0 && (ch.Reserve? ==> ch.delta > 0)
    ensures var e' := if ch.Reserve? then ReserveEntry(e, at, ch.delta, expire) else SettleEntry(e, at, ch.reserved, ch.actual, expire);
            Lasts(e', hi) && Used(e') == Max(0, Used(e) + NetOf(ch)) && LiveEntry(e, at) == e
  {}

  /** The sum of `n` equal charges. */
  function Times(n: nat, delta: int): int { n * delta }

  lemma MaxStep(u: int, n: nat, delta: int)
    requires u >= 0
    ensures Max(0, Max(0, u + Times(n, delta)) + delta) == Max(0, u + Times(n + 1, delta))
  {
    assert (n + 1) * delta == n * delta + delta;
    if delta <= 0 { assert n * delta <= 0; } else { assert n * delta >= 0; }
  }

  lemma ChargeAt(d: Db, k: string, key: string, at: int, ch: M.Charge, expire: int, hi: int)
    requires Lasts(Get(d, k), hi) && at <= hi <= at + expire * 1000 && expire > 0 && (ch.Reserve? ==> ch.delta > 0)
    ensures var e := Get(LedgerStep(Live(d, at), ChargeOp(key, at, ch, expire)), k);
            && Lasts(e, hi)
            && Used(e) == if key == k then Max(0, Used(Get(d, k)) + NetOf(ch)) else Used(Get(d, k))
  {
    LiveGet(d, at, k);
    OneCharge(Get(d, k), at, ch, key, expire, hi);
    hide ReserveEntry, SettleEntry;
  }

  /** Every script call runs, no later than `hi` and within the ledger's lifetime before it. */
  predicate AllRun(rules: seq<Rule>, runs: seq<ScriptRun>, hi: int) {
    && |runs| == |rules|
    && forall j :: 0 <= j < |rules| ==> runs[j].up && rules[j].def.winSec + 60 > 0
                                        && runs[j].at <= hi <= runs[j].at + (rules[j].def.winSec + 60) * 1000
  }

  /** Charging a request adds its delta to a ledger once for every enabled token rule that lives there, and stops at zero. */
  lemma {:induction false} ChargedPerRule(db: Db, c: Config, rules: seq<Rule>, meta: Meta, ch: M.Charge, now: int,
                                          runs: seq<ScriptRun>, i: nat, k: string, hi: int)
    requires i <= |rules| && (ch.Reserve? ==> ch.delta > 0) && Lasts(Get(db, k), hi) && AllRun(rules, runs, hi)
    ensures var e := Get(ChargeRules(db, c, rules, meta, ch, now, runs, i), k);
            Lasts(e, hi) && Used(e) == Max(0, Used(Get(db, k)) + Times(Charges(c, rules, meta, now, k, i), NetOf(ch)))
  {
    hide *;
    Given(rules, runs, Get(db, k), hi);
    if i == 0 {
      NothingCharged(db, c, rules, meta, ch, now, runs, k, Used(Get(db, k)));
    } else {
      ChargedPerRule(db, c, rules, meta, ch, now, runs, i - 1, k, hi);
      var d := ChargeRules(db, c, rules, meta, ch, now, runs, i - 1);
      var r, run := rules[i - 1], runs[i - 1];
      ChargesStep(c, rules, meta, now, k, i);
      ChargeRulesStep(db, c, rules, meta, ch, now, runs, i, k, hi);
      ChargesAtIs(c, rules, meta, now, k, i - 1);
      if Charged(r) {
        ChargeAt(d, k, LedgerKey(c, r.def, meta, now), run.at, ch, r.def.winSec + 60, hi);
        MaxStep(Used(Get(db, k)), Charges(c, rules, meta, now, k, i - 1), NetOf(ch));
      }
    }
  }

  lemma Given(rules: seq<Rule>, runs: seq<ScriptRun>, e: Option<Entry>, hi: int)
    requires Lasts(e, hi) && AllRun(rules, runs, hi)
    ensures |runs| == |rules| && Counter(e) && Used(e) >= 0
  {}

  lemma ChargesAtIs(c: Config, rules: seq<Rule>, meta: Meta, now: int, k: string, j: nat)
    requires j < |rules|
    ensures ChargesAt(c, rules, meta, now, k, j) <==> Charged(rules[j]) && LedgerKey(c, rules[j].def, meta, now) == k
  {}

  lemma NothingCharged(db: Db, c: Config, rules: seq<Rule>, meta: Meta, ch: M.Charge, now: int, runs: seq<ScriptRun>, k: string,
                       u: nat)
    requires |runs| == |rules|
    ensures ChargeRules(db, c, rules, meta, ch, now, runs, 0) == db && Charges(c, rules, meta, now, k, 0) == 0
    ensures Max(0, u + Times(Charges(c, rules, meta, now, k, 0), NetOf(ch))) == u
  {}

  lemma ChargeRulesStep(db: Db, c: Config, rules: seq<Rule>, meta: Meta, ch: M.Charge, now: int, runs: seq<ScriptRun>,
                        i: nat, k: string, hi: int)
    requires 0 < i <= |rules| && AllRun(rules, runs, hi)
    ensures var d := ChargeRules(db, c, rules, meta, ch, now, runs, i - 1);
            var r, run := rules[i - 1], runs[i - 1];
            && r.def.winSec + 60 > 0 && run.at <= hi <= run.at + (r.def.winSec + 60) * 1000
            && ChargeRules(db, c, rules, meta, ch, now, runs, i)
               == if !Charged(r) then d
                  else LedgerStep(Live(d, run.at), ChargeOp(LedgerKey(c, r.def, meta, now), run.at, ch, r.def.winSec + 60))
  {
    hide LedgerKey, LedgerStep;
  }

  /** Two enabled token rules over the same dimensions, window and boundary. */
  predicate Twins(c: Config, rules: seq<Rule>, now: int, i: nat, j: nat)
    requires i < |rules| && j < |rules|
  {
    && i != j && Charged(rules[i]) && Charged(rules[j])
    && rules[i].def.dims == rules[j].def.dims && rules[i].def.winSec == rules[j].def.winSec
    && BoundaryOf(c, rules[i].def, now) == BoundaryOf(c, rules[j].def, now)
  }

  lemma SameLedger(c: Config, d: Limiter.Rules.Rule, e: Limiter.Rules.Rule, meta: Meta, now: int)
    requires Keys.IsDigest(c.sha) && Keys.ValidDims(d.dims) && Keys.ValidDims(e.dims)
    ensures LedgerKey(c, d, meta, now) == LedgerKey(c, e, meta, now)
            <==> d.dims == e.dims && d.winSec == e.winSec && BoundaryOf(c, d, now) == BoundaryOf(c, e, now)
  {
    Keys.KeysCoincideIff(c.sha, Keys.LedgerSpec(d.dims, DimValues(meta, d.dims), d.winSec, BoundaryOf(c, d, now)),
                         Keys.LedgerSpec(e.dims, DimValues(meta, e.dims), e.winSec, BoundaryOf(c, e, now)));
  }

  predicate ChargesAt(c: Config, rules: seq<Rule>, meta: Meta, now: int, k: string, j: nat)
    requires j < |rules|
  {
    Charged(rules[j]) && LedgerKey(c, rules[j].def, meta, now) == k
  }

  lemma {:induction false} ChargesNone(c: Config, rules: seq<Rule>, meta: Meta, now: int, k: string, i: nat)
    requires i <= |rules|
    ensures Charges(c, rules, meta, now, k, i) == 0 <==> forall j :: 0 <= j < i ==> !ChargesAt(c, rules, meta, now, k, j)
  {
    if i > 0 {
      ChargesStep(c, rules, meta, now, k, i);
      ChargesNone(c, rules, meta, now, k, i - 1);
      hide ChargesAt, Charges;
    }
  }

  lemma ChargesStep(c: Config, rules: seq<Rule>, meta: Meta, now: int, k: string, i: nat)
    requires 0 < i <= |rules|
    ensures Charges(c, rules, meta, now, k, i)
            == Charges(c, rules, meta, now, k, i - 1) + (if ChargesAt(c, rules, meta, now, k, i - 1) then 1 else 0)
  {
    hide LedgerKey, Charged;
  }

  lemma {:induction false} ChargesSole(c: Config, rules: seq<Rule>, meta: Meta, now: int, k: string, i: nat, l: nat)
    requires l < i <= |rules| && ChargesAt(c, rules, meta, now, k, l)
    ensures Charges(c, rules, meta, now, k, i) >= 1
    ensures Charges(c, rules, meta, now, k, i) == 1 <==> forall j :: 0 <= j < i && j != l ==> !ChargesAt(c, rules, meta, now, k, j)
  {
    ChargesStep(c, rules, meta, now, k, i);
    if l == i - 1 { ChargesNone(c, rules, meta, now, k, i - 1); } else { ChargesSole(c, rules, meta, now, k, i - 1, l); }
    hide ChargesAt, Charges;
  }

  /** Every token rule's ledger is charged exactly once per call if and only if no two token rules of the request share
      dimensions and window: twins share one ledger, whatever their limits, and pay each call twice. */
  lemma ChargedOnceIff(c: Config, rules: seq<Rule>, meta: Meta, now: int)
    requires Keys.IsDigest(c.sha) && AllLoaded(rules)
    ensures (forall i :: 0 <= i < |rules| && Charged(rules[i]) ==>
               Charges(c, rules, meta, now, LedgerKey(c, rules[i].def, meta, now), |rules|) == 1)
            <==> (forall i, j :: 0 <= i < |rules| && 0 <= j < |rules| ==> !Twins(c, rules, now, i, j))
  {
    forall i, j | 0 <= i < |rules| && 0 <= j < |rules|
      ensures Twins(c, rules, now, i, j) <==> i != j && Charged(rules[i]) && ChargesAt(c, rules, meta, now, LedgerKey(c, rules[i].def, meta, now), j)
    {
      assert Loaded(rules[i].def) && Loaded(rules[j].def);
      SameLedger(c, rules[i].def, rules[j].def, meta, now);
    }
    forall i | 0 <= i < |rules| && Charged(rules[i])
      ensures var k := LedgerKey(c, rules[i].def, meta, now);
              && ChargesAt(c, rules, meta, now, k, i)
              && Charges(c, rules, meta, now, k, |rules|) >= 1
              && (Charges(c, rules, meta, now, k, |rules|) == 1 <==> forall j :: 0 <= j < |rules| && j != i ==> !ChargesAt(c, rules, meta, now, k, j))
    {
      ChargesSole(c, rules, meta, now, LedgerKey(c, rules[i].def, meta, now), |rules|, i);
    }
    hide LedgerKey, Twins, Charged, ChargesAt, Charges, Loaded;
  }

  // The ledger of one rule after any number of streams.

  /** A ledger call of stream `r`. */
  datatype Tagged = Tagged(r: nat, at: int, charge: M.Charge)

  /** The calls of stream `r` among all of them. */
  function Own(ops: seq<Tagged>, r: nat): seq<M.Charge> {
    if ops == [] then []
    else
      var n := |ops| - 1;
      Own(ops[..n], r) + (if ops[n].r == r then [ops[n].charge] else [])
  }

  /** The ledger entry the calls leave. */
  function Replay(ops: seq<Tagged>, expire: int): (e: Option<Entry>)
    ensures Counter(e)
  {
    if ops == [] then None
    else
      var n := |ops| - 1;
      var e := LiveEntry(Replay(ops[..n], expire), ops[n].at);
      match ops[n].charge
      case Reserve(delta) => ReserveEntry(e, ops[n].at, delta, expire)
      case Settle(reserved, actual) => SettleEntry(e, ops[n].at, reserved, actual, expire)
  }

  /** A stream's calls so far: reserves, then at the end perhaps one settle of exactly what they add up to. */
  predicate Orderly(cs: seq<M.Charge>) {
    || M.OnlyReserves(cs)
    || (cs != [] && M.OnlyReserves(cs[..|cs| - 1]) && cs[|cs| - 1].Settle?
        && cs[|cs| - 1].reserved == M.Net(cs[..|cs| - 1]) && cs[|cs| - 1].actual >= 0)
  }

  lemma OrderlyPrefix(cs: seq<M.Charge>, c: M.Charge)
    requires Orderly(cs + [c])
    ensures Orderly(cs) && M.OnlyReserves(cs)
    ensures c.Reserve? ==> c.delta > 0
    ensures c.Settle? ==> c.reserved == M.Net(cs) && c.actual >= 0
  {
    assert (cs + [c])[..|cs|] == cs && (cs + [c])[|cs|] == c;
    assert M.OnlyReserves(cs + [c]) ==> M.OnlyReserves((cs + [c])[..|cs|]);
  }

  predicate AllOrderly(n: nat, ops: seq<Tagged>) {
    && (forall i :: 0 <= i < |ops| ==> ops[i].r < n)
    && (forall r :: 0 <= r < n ==> Orderly(Own(ops, r)))
  }

  function ToCalls(ops: seq<Tagged>): (r: seq<L.LedgerCall>)
    requires forall i :: 0 <= i < |ops| ==> ops[i].charge.Reserve? ==> ops[i].charge.delta >= 0
    requires forall i :: 0 <= i < |ops| ==> ops[i].charge.Settle? ==> ops[i].charge.actual >= 0
    ensures |r| == |ops|
  {
    seq(|ops|, i requires 0 <= i < |ops| => ToCall(ops[i]))
  }

  function ToCall(o: Tagged): L.LedgerCall
    requires (o.charge.Reserve? ==> o.charge.delta >= 0) && (o.charge.Settle? ==> o.charge.actual >= 0)
  {
    match o.charge
    case Reserve(delta) => L.Add(o.at, o.r, delta)
    case Settle(_, actual) => L.Final(o.at, o.r, actual)
  }

  lemma OwnStep(ops: seq<Tagged>, r: nat)
    requires ops != []
    ensures var m := |ops| - 1;
            Own(ops, r) == if ops[m].r == r then Own(ops[..m], r) + [ops[m].charge] else Own(ops[..m], r)
  {}

  lemma AllOrderlyPrefix(n: nat, ops: seq<Tagged>)
    requires ops != [] && AllOrderly(n, ops)
    ensures var m := |ops| - 1;
            var o := ops[m];
            && AllOrderly(n, ops[..m])
            && (o.charge.Reserve? ==> o.charge.delta > 0)
            && (o.charge.Settle? ==> o.charge.reserved == M.Net(Own(ops[..m], o.r)) && o.charge.actual >= 0)
  {
    var m := |ops| - 1;
    hide Orderly, Own;
    OwnStep(ops, ops[m].r);
    OrderlyPrefix(Own(ops[..m], ops[m].r), ops[m].charge);
    forall r | 0 <= r < n ensures Orderly(Own(ops[..m], r)) {
      OwnStep(ops, r);
      assert Orderly(Own(ops, r));
    }
  }

  lemma {:induction false} Signs(n: nat, ops: seq<Tagged>)
    requires AllOrderly(n, ops)
    ensures forall i :: 0 <= i < |ops| ==> ops[i].charge.Reserve? ==> ops[i].charge.delta >= 0
    ensures forall i :: 0 <= i < |ops| ==> ops[i].charge.Settle? ==> ops[i].charge.actual >= 0
  {
    if ops != [] {
      AllOrderlyPrefix(n, ops);
      hide AllOrderly;
      Signs(n, ops[..|ops| - 1]);
    }
  }

  /** The interleaved calls are ledger calls in which every settle passes what its own stream has reserved. */
  lemma {:induction false} ReplayIsLedger(n: nat, ops: seq<Tagged>, expire: int)
    requires AllOrderly(n, ops)
    requires forall i :: 0 <= i < |ops| ==> ops[i].charge.Reserve? ==> ops[i].charge.delta >= 0
    requires forall i :: 0 <= i < |ops| ==> ops[i].charge.Settle? ==> ops[i].charge.actual >= 0
    ensures Replay(ops, expire) == L.Ledger(n, ToCalls(ops), expire)
    ensures forall r :: 0 <= r < n ==> L.Nets(n, ToCalls(ops))[r] == M.Net(Own(ops, r))
  {
    if ops != [] {
      var m := |ops| - 1;
      AllOrderlyPrefix(n, ops);
      ReplayIsLedger(n, ops[..m], expire);
      assert ToCalls(ops)[..m] == ToCalls(ops[..m]);
      assert ToCalls(ops)[m] == ToCall(ops[m]);
      M.NetSnoc(Own(ops[..m], ops[m].r), ops[m].charge);
      hide AllOrderly, ReserveEntry, SettleEntry, M.Net, ToCalls, LiveEntry;
      forall r | 0 <= r < n ensures L.Nets(n, ToCalls(ops))[r] == M.Net(Own(ops, r)) {
        OwnStep(ops, r);
        hide Own;
      }
    }
  }

  /** What all streams should cost, each metered as its own business domain is. */
  function Costs(streams: seq<seq<M.Input>>, ms: seq<M.Meter>): (r: seq<int>)
    requires |ms| == |streams|
    ensures |r| == |streams|
  {
    seq(|streams|, i requires 0 <= i < |streams| => M.Cost(streams[i], ms[i]))
  }

  lemma StreamOrderly(ins: seq<M.Input>, m: M.Meter)
    requires M.Running(ins)
    ensures Orderly(M.After(ins + [M.End], m).charges) && M.Cost(ins, m) >= 0
  {
    M.StreamConserves(ins, m);
    M.BufferedGrows(0, M.Estimate(ins, m), m.buffer);
    hide M.Buffered, M.After;
  }

  /** Any number of metered streams share a rule's ledger, each with its own safety buffer and parser, their calls interleaved in any
      way inside one lifetime of its key: once they have all ended, the ledger holds exactly the sum of what they should
      cost, nothing lost to a refund. */
  lemma SettledLedgerIsCost(streams: seq<seq<M.Input>>, ms: seq<M.Meter>, ops: seq<Tagged>, expire: int, lo: int)
    requires expire > 0 && |ms| == |streams|
    requires forall r :: 0 <= r < |streams| ==> M.Running(streams[r]) && Own(ops, r) == M.After(streams[r] + [M.End], ms[r]).charges
    requires forall i :: 0 <= i < |ops| ==> ops[i].r < |streams| && lo <= ops[i].at <= lo + expire * 1000
    ensures forall r :: 0 <= r < |streams| ==> Costs(streams, ms)[r] >= 0
    ensures Used(Replay(ops, expire)) == L.Sum(Costs(streams, ms))
  {
    var n := |streams|;
    forall r | 0 <= r < n ensures Orderly(Own(ops, r)) && M.Cost(streams[r], ms[r]) >= 0 && M.Net(Own(ops, r)) == M.Cost(streams[r], ms[r]) {
      StreamOrderly(streams[r], ms[r]);
      M.StreamConserves(streams[r], ms[r]);
    }
    hide M.Cost, M.After, Orderly, M.Net;
    Signs(n, ops);
    ReplayIsLedger(n, ops, expire);
    L.LedgerConserves(n, ToCalls(ops), expire, lo);
    assert L.Nets(n, ToCalls(ops)) == Costs(streams, ms);
  }
}
