/** The bucket rules a Check sends for one set of dimensions, whatever their windows: one list on one key. */
module BucketChecks {
  import opened Prelude
  import opened BatchCheck
  import opened Limiter
  import opened BucketRules
  import opened BucketFamilies
  import TwoPhase
  import Runs
  import GateRuns
  import Keys
  import Rules

  predicate IsBucketRule(d: Rules.Rule) { d.kind == "rate" && d.metric != "token" && d.algorithm == "token_bucket" }

  /** A validated rule whose window did not wrap around. */
  predicate Validated(d: Rules.Rule) { Loaded(d) && (IsBucketRule(d) ==> d.winSec > 0 && d.burst >= d.limit / d.winSec) }

  predicate AllValidated(rules: seq<Rule>) { forall i :: 0 <= i < |rules| ==> Validated(rules[i].def) }

  /** The key of every bucket rule over these dimensions. */
  function BucketKey(c: Config, dims: seq<string>, meta: Meta): string { Keys.TokenBucketKey(c.sha, dims, DimValues(meta, dims)) }

  /** The entry of a bucket rule, under the key it has. */
  function EntryOf(k: string, d: Rules.Rule): LRule
    requires d.limit > 0
  {
    Bucket(k, RateOf(d), d.burst)
  }

  /** The entries of the enabled bucket rules over these dimensions, in the order of the rules. */
  function BucketsOf(k: string, rules: seq<Rule>, dims: seq<string>): seq<LRule>
    requires AllLoaded(rules)
  {
    if rules == [] then []
    else
      var n := |rules| - 1;
      BucketsOf(k, rules[..n], dims)
      + (if rules[n].enabled && IsBucketRule(rules[n].def) && rules[n].def.dims == dims then [EntryOf(k, rules[n].def)] else [])
  }

  /** Validation gives what the list needs. */
  lemma ValidatedBucket(d: Rules.Rule)
    requires Rules.Verdict(d).0.None? && Rules.Verdict(d).1 == d && (d.kind == "rate" ==> d.winSec > 0)
    ensures Validated(d)
  {
    VerdictParts(d);
    Rules.DimsSettled(d.dims);
    KindSettled(d);
    BurstSettled(d);
    hide Rules.DimsFault, Rules.NormalDims, Rules.KindVerdict, Rules.ParseWindow, Rules.Verdict, Keys.ValidDims;
  }

  lemma BurstSettled(d: Rules.Rule)
    ensures Rules.KindVerdict(d).0.None? && Rules.KindVerdict(d).1 == d && IsBucketRule(d) && d.winSec > 0 ==>
              d.burst >= d.limit / d.winSec
  {
    hide Rules.ParseWindow;
  }

  lemma RateFloor(d: Rules.Rule)
    requires d.limit > 0 && d.winSec > 0
    ensures RateOf(d).Floor == d.limit / d.winSec
  {
    var q := d.limit / d.winSec;
    assert d.limit == q * d.winSec + d.limit % d.winSec;
    assert q >= 0 by { Grows(d.winSec, q); }
    QuotientFloor(d.limit, d.winSec, q);
  }

  lemma QuotientFloor(a: nat, b: nat, q: nat)
    requires b > 0 && q * b <= a < q * b + b
    ensures (a as real / b as real).Floor == q
  {
    var x := a as real / b as real;
    var y, z := q as real, (q + 1) as real;
    assert x * b as real == a as real;
    RealProduct(q, b);
    RealProduct(q + 1, b);
    assert (q + 1) * b == q * b + b;
    Scale(y, x, b as real);
    Scale(z, x, b as real);
    FloorIs(x, q);
  }

  lemma FloorIs(x: real, q: int)
    requires q as real <= x < (q + 1) as real
    ensures x.Floor == q
  {}

  /** An entry of any request lives at the key exactly if it is that of a bucket rule over these dimensions and the request shares
      the key. */
  lemma ItemAtBucket(c: Config, d: Rules.Rule, meta': Meta, now: int, dims: seq<string>, meta: Meta)
    requires Keys.IsDigest(c.sha) && Validated(d) && Keys.ValidDims(dims)
    ensures var l, k := ToLua(c, d, meta', now), BucketKey(c, dims, meta);
            && (l.key == k <==> IsBucketRule(d) && d.dims == dims && BucketKey(c, dims, meta') == k)
            && (l.key == k ==> l.Bucket? && l == EntryOf(k, d) && l.burst >= 1 && l.burst >= l.rate.Floor)
  {
    hide ToLua, KeySpecOf, Keys.Build, Keys.ValidDims, Keys.IsDigest, DimValues, BoundaryOf, Keys.SafeVals, Keys.SafeVal, Keys.Join,
         IsFixedRule, IsSlidingRule, IsTokenRule, RateOf;
    GateRuns.LuaShape(c, d, meta', now);
    BucketEntry(c, d, meta', now);
    BucketIsBuild(c, dims, meta);
    BucketIsBuild(c, dims, meta');
    Keys.KeysCoincideIff(c.sha, KeySpecOf(c, d, meta', now), Keys.BucketSpec(dims, DimValues(meta, dims)));
    Keys.KeysCoincideIff(c.sha, Keys.BucketSpec(dims, DimValues(meta', dims)), Keys.BucketSpec(dims, DimValues(meta, dims)));
    if IsBucketRule(d) { RateFloor(d); }
  }

  lemma BucketIsBuild(c: Config, dims: seq<string>, meta: Meta)
    ensures BucketKey(c, dims, meta) == Keys.Build(c.sha, Keys.BucketSpec(dims, DimValues(meta, dims)))
  {}

  lemma BucketEntry(c: Config, d: Rules.Rule, meta: Meta, now: int)
    requires Loaded(d)
    ensures var l := ToLua(c, d, meta, now);
            && (l.Bucket? <==> IsBucketRule(d)) && (l.Bucket? ==> l.rate == RateOf(d) && l.burst == d.burst && d.limit > 0 && d.burst > 0)
  {
    hide Keys.Build, KeySpecOf, Keys.ValidDims, RateOf;
  }

  /** On that key the payload of a Check, whoever asks, carries exactly those entries, or nothing. */
  lemma {:induction false} PayloadList(c: Config, rules: seq<Rule>, meta': Meta, now: int, dims: seq<string>, meta: Meta)
    requires Keys.IsDigest(c.sha) && AllLoaded(rules) && AllValidated(rules) && Keys.ValidDims(dims)
    ensures var k := BucketKey(c, dims, meta);
            && RulesAt(Payload(Items(c, rules, meta', now)), k) == (if BucketKey(c, dims, meta') == k then BucketsOf(k, rules, dims) else [])
            && (BucketsOf(k, rules, dims) != [] ==> ValidList(k, BucketsOf(k, rules, dims)))
  {
    hide *;
    var k := BucketKey(c, dims, meta);
    ListsEmpty(c, meta', now, dims, k);
    if rules != [] {
      var n := |rules| - 1;
      SplitRules(rules);
      PayloadList(c, rules[..n], meta', now, dims, meta);
      ItemAtBucket(c, rules[n].def, meta', now, dims, meta);
      ItemAtBucket(c, rules[n].def, meta, now, dims, meta);
      PayloadSnoc(c, rules, meta', now, k);
      ListSnoc(k, rules, dims);
      ValidSnoc(k, BucketsOf(k, rules[..n], dims), ToLua(c, rules[n].def, meta, now));
    }
  }

  lemma ListsEmpty(c: Config, meta: Meta, now: int, dims: seq<string>, k: string)
    ensures AllLoaded([]) && Payload(Items(c, [], meta, now)) == [] && RulesAt([], k) == [] && BucketsOf(k, [], dims) == []
  {}

  lemma SplitRules(rules: seq<Rule>)
    requires rules != [] && AllLoaded(rules) && AllValidated(rules)
    ensures var n := |rules| - 1;
            AllLoaded(rules[..n]) && AllValidated(rules[..n]) && Loaded(rules[n].def) && Validated(rules[n].def)
  {
    hide Loaded, Validated;
  }

  lemma PayloadSnoc(c: Config, rules: seq<Rule>, meta: Meta, now: int, k: string)
    requires rules != [] && AllLoaded(rules)
    ensures var n := |rules| - 1;
            var l := ToLua(c, rules[n].def, meta, now);
            RulesAt(Payload(Items(c, rules, meta, now)), k)
            == RulesAt(Payload(Items(c, rules[..n], meta, now)), k) + (if rules[n].enabled && l.key == k then [l] else [])
  {
    hide ToLua, Loaded;
    var n := |rules| - 1;
    var a, b := Items(c, rules[..n], meta, now), Items(c, rules, meta, now);
    if rules[n].enabled {
      assert Payload(b)[..|b| - 1] == Payload(a);
    } else {
      assert b == a;
    }
  }

  lemma ListSnoc(k: string, rules: seq<Rule>, dims: seq<string>)
    requires rules != [] && AllLoaded(rules)
    ensures var n := |rules| - 1;
            var d := rules[n].def;
            && (IsBucketRule(d) ==> d.limit > 0)
            && BucketsOf(k, rules, dims)
               == BucketsOf(k, rules[..n], dims) + (if rules[n].enabled && IsBucketRule(d) && d.dims == dims then [EntryOf(k, d)] else [])
  {
    hide EntryOf;
  }

  lemma ValidSnoc(k: string, list: seq<LRule>, l: LRule)
    requires list != [] ==> ValidList(k, list)
    ensures l.Bucket? && l.key == k && l.burst >= 1 && l.burst >= l.rate.Floor ==> ValidList(k, list + [l])
    ensures list + [] == list
  {}

  /** For the bucket rules of one request over the same dimensions: each keeps its own bound in every run if and only if the last is
      the strictest in burst and rate, or has a burst of 1 and no rule needs longer for a token than the key lives. */
  lemma CheckBucketsIff(c: Config, rules: seq<Rule>, meta: Meta, now: int, dims: seq<string>)
    requires Keys.IsDigest(c.sha) && AllLoaded(rules) && AllValidated(rules) && Keys.ValidDims(dims)
    requires BucketsOf(BucketKey(c, dims, meta), rules, dims) != []
    ensures var k := BucketKey(c, dims, meta);
            var list := BucketsOf(k, rules, dims);
            && RulesAt(Payload(Items(c, rules, meta, now)), k) == list && ValidList(k, list)
            && (forall i :: 0 <= i < |list| ==> list[i].Bucket?)
            && (EachOwnBound(k, list) <==> LastStrictest(list) || SingleToken(list))
  {
    PayloadList(c, rules, meta, now, dims, meta);
    EachOwnBoundIff(BucketKey(c, dims, meta), BucketsOf(BucketKey(c, dims, meta), rules, dims));
  }

  // Every domain brings its own rules to the key.

  ghost predicate AllLists(lists: set<seq<Rule>>) { forall rules | rules in lists :: AllLoaded(rules) && AllValidated(rules) }

  /** The lists that requests bring to the key: one per domain, and those before and after a reload. */
  ghost function FamilyOf(k: string, lists: set<seq<Rule>>, dims: seq<string>): Family
    requires AllLists(lists)
  {
    set rules | rules in lists && BucketsOf(k, rules, dims) != [] :: BucketsOf(k, rules, dims)
  }

  /** Whatever rules its domain has, a Check carries one of these lists on the key or does not use it; and over all runs of such
      batches the bucket is kept for every rule of every domain if and only if the lists agree. */
  lemma StoreBucketsIff(c: Config, lists: set<seq<Rule>>, dims: seq<string>, meta: Meta)
    requires Keys.IsDigest(c.sha) && AllLists(lists) && Keys.ValidDims(dims)
    ensures var k := BucketKey(c, dims, meta);
            var fam := FamilyOf(k, lists, dims);
            && ValidFamily(k, fam)
            && (forall rules, meta', now, at, id | rules in lists ::
                  Checked(c, rules, meta', now, at, id, k, fam))
            && (EachKept(k, fam) <==> Agrees(k, fam))
  {
    var k := BucketKey(c, dims, meta);
    var fam := FamilyOf(k, lists, dims);
    hide BucketKey, BucketsOf, ValidList, EachKept, Agrees, Checked, Keys.IsDigest, Keys.ValidDims, AllLoaded, AllValidated;
    forall rules | rules in lists && BucketsOf(k, rules, dims) != [] ensures ValidList(k, BucketsOf(k, rules, dims)) {
      PayloadList(c, rules, meta, 0, dims, meta);
    }
    assert ValidFamily(k, fam);
    forall rules, meta', now, at, id | rules in lists ensures Checked(c, rules, meta', now, at, id, k, fam) {
      PayloadList(c, rules, meta', now, dims, meta);
      CheckedIs(c, rules, meta', now, at, id, k, fam);
    }
    EachKeptIff(k, fam);
  }

  /** A Check of a compatible payload, as a call of a run. */
  ghost predicate Checked(c: Config, rules: seq<Rule>, meta: Meta, now: int, at: int, id: string, k: string, fam: Family) {
    AllLoaded(rules) &&
    (TwoPhase.Compatible(Payload(Items(c, rules, meta, now))) ==> FamilyUse(Runs.Admit(at, Payload(Items(c, rules, meta, now)), id), k, fam))
  }

  lemma CheckedIs(c: Config, rules: seq<Rule>, meta: Meta, now: int, at: int, id: string, k: string, fam: Family)
    requires AllLoaded(rules)
    requires var list := RulesAt(Payload(Items(c, rules, meta, now)), k); list == [] || list in fam
    ensures Checked(c, rules, meta, now, at, id, k, fam)
  {
    hide TwoPhase.Compatible, RulesAt, Items;
    RulesAtLast(Payload(Items(c, rules, meta, now)), k);
  }

  // Two rules that cannot live together.

  function BucketRule(name: string, window: string, sec: int, n: int): Rules.Rule {
    Rules.Rule(name, "rate", "request", ["ip"], window, n, "token_bucket", n, 80, 0, 0, sec, false)
  }

  lemma OneNormal()
    ensures Rules.Normal("ip") == "ip" && "ip" in Keys.DIMS
  {
    assert Keys.DIMS[4] == "ip";
    Rules.KnownNormal("ip");
  }

  lemma IpDims()
    ensures Rules.DimsFault(["ip"]).None? && Rules.NormalDims(["ip"]) == ["ip"] && Keys.ValidDims(["ip"])
  {
    hide Rules.Normal;
    OneNormal();
    assert Rules.DimFault(["ip"], 0).None?;
    assert Rules.FirstDimFault(["ip"], 1).None?;
    assert Rules.NormalDims(["ip"]) == ["ip"];
  }

  lemma Windows()
    ensures Rules.ParseWindow("1s") == Rules.Window(1, false) && Rules.ParseWindow("100s") == Rules.Window(100, false)
  {
    hide DecVal;
    EmptyWindows();
    assert "1s"[..1] == "1" && "100s"[..3] == "100";
  }

  lemma EmptyWindows()
    ensures AllDigits("1") && DecVal("1") == 1 && AllDigits("100") && DecVal("100") == 100
  {
    hide DecVal;
    Rules.EmptyDigits();
    Rules.Digits1("", '1');
    assert "" + ['1'] == "1";
    Rules.Digits3("", '1', '0', '0');
    assert "" + ['1', '0', '0'] == "100";
  }

  lemma Settled(name: string, window: string, sec: int, n: int)
    requires name != "" && n >= 1 && sec >= 1 && Rules.ParseWindow(window) == Rules.Window(sec, false)
    ensures var d := BucketRule(name, window, sec, n);
            Rules.Verdict(d) == (None, d) && Validated(d) && IsBucketRule(d)
  {
    IpDims();
    SettledRate(name, window, sec, n);
    SettledKind(name, window, sec, n);
    hide Rules.ParseWindow, Rules.DimsFault, Rules.NormalDims, Keys.ValidDims, Rules.RateVerdict, Rules.KindVerdict, Validated;
    ValidatedBucket(BucketRule(name, window, sec, n));
  }

  lemma SettledRate(name: string, window: string, sec: int, n: int)
    requires n >= 1 && sec >= 1
    ensures n / sec <= n && Rules.RateVerdict(BucketRule(name, window, sec, n)) == (None, BucketRule(name, window, sec, n))
  {
    Grows(sec, n / sec);
    assert n == sec * (n / sec) + n % sec;
  }

  lemma SettledKind(name: string, window: string, sec: int, n: int)
    requires n >= 1 && Rules.ParseWindow(window) == Rules.Window(sec, false)
    requires Rules.RateVerdict(BucketRule(name, window, sec, n)) == (None, BucketRule(name, window, sec, n))
    ensures Rules.KindVerdict(BucketRule(name, window, sec, n)) == (None, BucketRule(name, window, sec, n))
  {
    hide Rules.ParseWindow, Rules.RateVerdict;
  }

  lemma BucketPayload(c: Config, meta: Meta, now: int, name: string, window: string, n: int)
    requires n >= 1 && Validated(BucketRule(name, window, n, n))
    ensures ToLua(c, BucketRule(name, window, n, n), meta, now) == Bucket(BucketKey(c, ["ip"], meta), 1.0, n)
  {
    hide Keys.ValidDims, DimValues, Keys.TokenBucketKey;
    assert n as real / n as real == 1.0;
  }

  lemma TwoItems(c: Config, meta: Meta, now: int, a: Rule, b: Rule)
    requires a.enabled && b.enabled && Loaded(a.def) && Loaded(b.def)
    ensures AllLoaded([a, b]) && Payload(Items(c, [a, b], meta, now)) == [ToLua(c, a.def, meta, now), ToLua(c, b.def, meta, now)]
  {
    hide ToLua, Loaded;
    assert [a, b][..1] == [a] && [a][..0] == [];
    assert Items(c, [a], meta, now) == [Item(a, ToLua(c, a.def, meta, now))];
  }

  /** One request a second, and a hundred in a hundred seconds, over the same dimension: both validate, both live on one key,
      and the first is no limit at all to a burst of a hundred. */
  lemma TwoBucketsClash(c: Config, meta: Meta, now: int)
    requires Keys.IsDigest(c.sha)
    ensures var a, b := BucketRule("a", "1s", 1, 1), BucketRule("b", "100s", 100, 100);
            var k := BucketKey(c, ["ip"], meta);
            var rules := [Rule(1, true, a), Rule(2, true, b)];
            && Rules.Verdict(a) == (None, a) && Rules.Verdict(b) == (None, b) && AllLoaded(rules) && AllValidated(rules)
            && Payload(Items(c, rules, meta, now)) == [Bucket(k, 1.0, 1), Bucket(k, 1.0, 100)]
            && ValidList(k, [Bucket(k, 1.0, 1), Bucket(k, 1.0, 100)]) && !EachOwnBound(k, [Bucket(k, 1.0, 1), Bucket(k, 1.0, 100)])
  {
    hide *;
    var a, b := BucketRule("a", "1s", 1, 1), BucketRule("b", "100s", 100, 100);
    var k := BucketKey(c, ["ip"], meta);
    var list := [Bucket(k, 1.0, 1), Bucket(k, 1.0, 100)];
    Windows();
    Settled("a", "1s", 1, 1);
    Settled("b", "100s", 100, 100);
    ValidatedLoaded(a, b);
    TwoItems(c, meta, now, Rule(1, true, a), Rule(2, true, b));
    BucketPayload(c, meta, now, "a", "1s", 1);
    BucketPayload(c, meta, now, "b", "100s", 100);
    TwoValid(k);
    AtOnce(k, list, 0);
  }

  lemma ValidatedLoaded(a: Rules.Rule, b: Rules.Rule)
    requires Validated(a) && Validated(b)
    ensures Loaded(a) && Loaded(b) && AllValidated([Rule(1, true, a), Rule(2, true, b)])
  {
    hide Loaded;
  }

  lemma TwoValid(k: string)
    ensures var list := [Bucket(k, 1.0, 1), Bucket(k, 1.0, 100)];
            ValidList(k, list) && Last(list) == Bucket(k, 1.0, 100)
  {}

  lemma OneItem(c: Config, meta: Meta, now: int, a: Rule)
    requires a.enabled && Loaded(a.def)
    ensures AllLoaded([a]) && Payload(Items(c, [a], meta, now)) == [ToLua(c, a.def, meta, now)]
  {
    hide ToLua, Loaded;
    assert [a][..0] == [];
  }

  /** The same two rules in two domains never meet in one batch. The first domain's list keeps its bound by itself; with a request of
      the second domain before them, ninety-nine of its requests pass in one millisecond. */
  lemma TwoDomainsClash(c: Config, meta: Meta, now: int) returns (ops: seq<Runs.Op>)
    requires Keys.IsDigest(c.sha)
    ensures var a, b := Rule(1, true, BucketRule("a", "1s", 1, 1)), Rule(2, true, BucketRule("b", "100s", 100, 100));
            var k := BucketKey(c, ["ip"], meta);
            var slow, fast := Bucket(k, 1.0, 1), Bucket(k, 1.0, 100);
            var fam := {[slow], [fast]};
            && Rules.Verdict(a.def) == (None, a.def) && Rules.Verdict(b.def) == (None, b.def) && AllLoaded([a]) && AllLoaded([b])
            && Payload(Items(c, [a], meta, now)) == [slow] && Payload(Items(c, [b], meta, now)) == [fast]
            && ValidFamily(k, fam) && ValidList(k, [slow]) && EachOwnBound(k, [slow]) && !EachKept(k, fam)
            && FamilyRun(ops, k, fam) && ops != [] && ops[0].now == Time(ops) == 0 && Granted(ops, k, slow) == 99
  {
    hide *;
    var a, b := Rule(1, true, BucketRule("a", "1s", 1, 1)), Rule(2, true, BucketRule("b", "100s", 100, 100));
    var k := BucketKey(c, ["ip"], meta);
    var slow, fast := Bucket(k, 1.0, 1), Bucket(k, 1.0, 100);
    var fam: Family := {[slow], [fast]};
    Windows();
    Settled("a", "1s", 1, 1);
    Settled("b", "100s", 100, 100);
    ValidatedLoaded(a.def, b.def);
    OneItem(c, meta, now, a);
    OneItem(c, meta, now, b);
    BucketPayload(c, meta, now, "a", "1s", 1);
    BucketPayload(c, meta, now, "b", "100s", 100);
    TwoLists(k);
    EachOwnBoundIff(k, [slow]);
    ops := LeaveAndTake(k, fam, [fast], [slow], 1);
    EachKeptIff(k, fam);
    NotAgreeing(k);
  }

  lemma TwoLists(k: string)
    ensures var slow, fast := Bucket(k, 1.0, 1), Bucket(k, 1.0, 100);
            && ValidFamily(k, {[slow], [fast]}) && ValidList(k, [slow]) && ValidList(k, [fast])
            && Last([slow]) == slow && Last([fast]) == fast && slow !in [fast] && LastStrictest([slow])
  {}

  lemma NotAgreeing(k: string)
    requires var slow, fast := Bucket(k, 1.0, 1), Bucket(k, 1.0, 100); ValidFamily(k, {[slow], [fast]})
    ensures var slow, fast := Bucket(k, 1.0, 1), Bucket(k, 1.0, 100); !Agrees(k, {[slow], [fast]})
  {
    var slow, fast := Bucket(k, 1.0, 1), Bucket(k, 1.0, 100);
    var fam: Family := {[slow], [fast]};
    TwoLists(k);
    hide Slower, Rested, ValidList;
    if Agrees(k, fam) {
      AgreedOn(k, fam, [fast], [slow], slow, [fast]);
    }
  }
}
