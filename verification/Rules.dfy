/** Rule validation at load time (internal/limiter/rule.go). Strings are ASCII. */
module Rules {
  import opened Prelude
  import Keys

  function LowerChar(c: char): char {
    if 'A' <= c <= 'Z' then (c as int + 32) as char else c
  }

  function Lower(s: string): (r: string)
    ensures |r| == |s|
  {
    seq(|s|, i requires 0 <= i < |s| => LowerChar(s[i]))
  }

  function Normal(d: string): string { Lower(TrimSpace(d)) }

  predicate Letters(d: string) { d != "" && forall i :: 0 <= i < |d| ==> 'a' <= d[i] <= 'z' }

  lemma LettersNormal(d: string)
    requires Letters(d)
    ensures Normal(d) == d
  {
    assert 'a' <= d[0] <= 'z' && 'a' <= d[|d| - 1] <= 'z';
    assert !IsSpace(d[0]) && !IsSpace(d[|d| - 1]);
    assert TrimSpace(d) == d;
    assert Lower(d) == d;
  }

  /** `s` is the word `d` in letters of either case, with white space around it that starts and ends it at `i`. */
  predicate Spells(s: string, d: string, i: nat) {
    && i + |d| <= |s| && AllSpace(s[..i]) && AllSpace(s[i + |d|..])
    && forall k :: 0 <= k < |d| ==> s[i + k] == d[k] || s[i + k] as int + 32 == d[k] as int
  }

  /** Exactly such spellings are normalized to a dimension name. */
  lemma NormalIff(s: string, d: string)
    requires d in Keys.DIMS
    ensures Normal(s) == d <==> exists i: nat :: Spells(s, d, i)
  {
    KnownLetters(d);
    if Normal(s) == d {
      TrimIs(s);
      LowerLetters(TrimSpace(s), d);
      assert Spells(s, d, |s| - |TrimLeft(s)|);
    }
    if i: nat :| Spells(s, d, i) {
      SpelledTrims(s, d, i);
      LowerLetters(s[i..i + |d|], d);
    }
  }

  lemma LowerLetters(t: string, d: string)
    requires Letters(d)
    ensures Lower(t) == d <==> |t| == |d| && forall k :: 0 <= k < |d| ==> t[k] == d[k] || t[k] as int + 32 == d[k] as int
  {
    if |t| == |d| && forall k :: 0 <= k < |d| ==> t[k] == d[k] || t[k] as int + 32 == d[k] as int {
      forall k | 0 <= k < |d| ensures Lower(t)[k] == d[k] { LowerOne(t[k], d[k]); }
      assert Lower(t) == d;
    }
    if Lower(t) == d {
      forall k | 0 <= k < |d| ensures t[k] == d[k] || t[k] as int + 32 == d[k] as int { assert Lower(t)[k] == d[k]; }
    }
  }

  lemma LowerOne(c: char, d: char)
    requires 'a' <= d <= 'z' && (c == d || c as int + 32 == d as int)
    ensures LowerChar(c) == d && !IsSpace(c)
  {}

  lemma SpelledTrims(s: string, d: string, i: nat)
    requires Letters(d) && Spells(s, d, i)
    ensures TrimSpace(s) == s[i..i + |d|]
  {
    var core, rest, post := s[i..i + |d|], s[i..], s[i + |d|..];
    LowerOne(s[i], d[0]);
    LowerOne(s[i + |d| - 1], d[|d| - 1]);
    assert s == s[..i] + rest && rest == core + post;
    LeftJoin(s[..i], rest);
    assert TrimLeft(rest) == rest;
    RightJoin(core, post);
    assert TrimRight(core) == core;
  }

  /** Known dimension names are fixed by normalization. */
  lemma KnownNormal(d: string)
    requires d in Keys.DIMS
    ensures Normal(d) == d
  {
    hide Normal;
    KnownLetters(d);
    LettersNormal(d);
  }

  lemma KnownLetters(d: string)
    requires d in Keys.DIMS
    ensures Letters(d)
  {
    assert d in ["global", "biz", "path", "token", "ip", "method"];
  }

  // Windows.

  /** strconv.ParseInt(s, 10, 64); None is its error. */
  function ParseInt64(s: string): Option<int> {
    var neg := s != "" && s[0] == '-';
    var body := if s != "" && (s[0] == '-' || s[0] == '+') then s[1..] else s;
    if body == "" || !AllDigits(body) then None
    else
      var v: int := DecVal(body);
      if neg then (if v > INT64_MAX + 1 then None else Some(-v))
      else (if v > INT64_MAX then None else Some(v))
  }

  datatype Window = Window(sec: int, natural: bool) | BadFormat | BadUnit

  predicate KnownUnit(c: char) { c in "smhdw" }

  function UnitSeconds(c: char): int
    requires KnownUnit(c)
  {
    match c
    case 's' => 1
    case 'm' => 60
    case 'h' => 3600
    case 'd' => 86400
    case _ => 604800
  }

  /** ParseWindow; the product is an int64 and wraps. */
  function ParseWindow(w: string): Window {
    if |w| < 2 then BadFormat
    else
      var n := ParseInt64(w[..|w| - 1]);
      var unit := w[|w| - 1];
      if n.None? || n.value <= 0 then BadFormat
      else if !KnownUnit(unit) then BadUnit
      else Window(Wrap64(n.value * UnitSeconds(unit)), unit == 'd' || unit == 'w')
  }

  /** What the window expression means: the exact number of seconds. */
  function Meaning(w: string): int
    requires ParseWindow(w).Window?
  {
    ParseInt64(w[..|w| - 1]).value * UnitSeconds(w[|w| - 1])
  }

  /** The parsed seconds are the meant ones exactly when they fit an int64. */
  lemma SecondsExactIff(w: string)
    requires ParseWindow(w).Window?
    ensures ParseWindow(w).sec == Meaning(w) <==> Meaning(w) <= INT64_MAX
    ensures Meaning(w) > 0
  {
    var m := Meaning(w);
    if m <= INT64_MAX { assert m % TWO_64 == m; }
  }

  /** What the units mean: seconds, sixty of them, sixty of those, twenty-four of those, seven of those; days and weeks are natural. */
  lemma UnitsMean(n: string)
    requires ParseInt64(n).Some? && ParseInt64(n).value > 0
    ensures forall u | u in "smhdw" :: ParseWindow(n + [u]).Window? && (ParseWindow(n + [u]).natural <==> u in "dw")
    ensures Meaning(n + "s") == ParseInt64(n).value
    ensures Meaning(n + "m") == 60 * Meaning(n + "s")
    ensures Meaning(n + "h") == 60 * Meaning(n + "m")
    ensures Meaning(n + "d") == 24 * Meaning(n + "h")
    ensures Meaning(n + "w") == 7 * Meaning(n + "d")
  {
    hide ParseInt64, Wrap64;
    assert n != "" by { NotEmpty(); }
    forall u | u in "smhdw" ensures ParseWindow(n + [u]).Window? && (ParseWindow(n + [u]).natural <==> u in "dw") {
      assert (n + [u])[..|n|] == n && (n + [u])[|n|] == u;
    }
    assert forall u: char :: (n + [u])[..|n|] == n && (n + [u])[|n|] == u;
    assert Meaning(n + "s") == ParseInt64(n).value * 1 && (n + "s")[..|n|] == n;
    assert (n + "m")[..|n|] == n && (n + "h")[..|n|] == n && (n + "d")[..|n|] == n && (n + "w")[..|n|] == n;
  }

  lemma NotEmpty()
    ensures ParseInt64("").None?
  {}

  /** The other units are none, and nothing shorter than a digit and a unit is a window. */
  lemma UnitsKnown(w: string)
    ensures ParseWindow(w).Window? <==> |w| >= 2 && ParseInt64(w[..|w| - 1]).Some? && ParseInt64(w[..|w| - 1]).value > 0 && w[|w| - 1] in "smhdw"
  {
    hide ParseInt64, Wrap64;
  }

  // Rules.

  datatype Rule = Rule(name: string, kind: string, metric: string, dims: seq<string>, window: string, limit: int,
                       algorithm: string, burst: int, watermark: int, maxConc: int, timeout: int,
                       winSec: int, natural: bool)

  datatype Fault =
    | NameRequired | DimsRequired | DimUnknown | DimDuplicated | GlobalCombined
    | ConcRequired | LimitRequired | WindowFormat | WindowUnit | MetricUnknown
    | BucketForTokens | BurstTooSmall | SlidingTooLarge | TypeUnknown
    | DivideByZero   // not an error return: the Go program panics

  const SLIDING_MAX := 100000

  /** What is wrong with dimension `i`, if anything, in the order both validators look. */
  function DimFault(dims: seq<string>, i: nat): Option<Fault>
    requires i < |dims|
  {
    var d := Normal(dims[i]);
    if d !in Keys.DIMS then Some(DimUnknown)
    else if exists j :: 0 <= j < i && Normal(dims[j]) == d then Some(DimDuplicated)
    else if d == "global" && |dims| > 1 then Some(GlobalCombined)
    else None
  }

  /** The first fault from index `i` on. */
  function FirstDimFault(dims: seq<string>, i: nat): Option<Fault>
    requires i <= |dims|
    decreases |dims| - i
  {
    if i == |dims| then None
    else if DimFault(dims, i).Some? then DimFault(dims, i)
    else FirstDimFault(dims, i + 1)
  }

  function DimsFault(dims: seq<string>): Option<Fault> {
    if dims == [] then Some(DimsRequired) else FirstDimFault(dims, 0)
  }

  function NormalDims(dims: seq<string>): (r: seq<string>)
    ensures |r| == |dims|
  {
    seq(|dims|, i requires 0 <= i < |dims| => Normal(dims[i]))
  }

  /** The rate branch after the window has been parsed. */
  function RateVerdict(r: Rule): (Option<Fault>, Rule) {
    var metric := if r.metric == "" then "request" else r.metric;
    var r1 := r.(metric := metric);
    if metric != "request" && metric != "token" then (Some(MetricUnknown), r1)
    else
      var algo := if r.algorithm == "" then "fixed_window" else r.algorithm;
      var r2 := r1.(algorithm := algo);
      if algo == "token_bucket" && metric == "token" then (Some(BucketForTokens), r2)
      else
        var r3 := if algo == "token_bucket" && r.burst <= 0 then r2.(burst := r.limit) else r2;
        if algo == "token_bucket" && r.winSec == 0 then (Some(DivideByZero), r3)
        else if algo == "token_bucket" && r3.burst < GoDiv(r.limit, r.winSec) then (Some(BurstTooSmall), r3)
        else if algo == "sliding_window" && r.limit > SLIDING_MAX then (Some(SlidingTooLarge), r3)
        else (None, if r.watermark <= 0 || r.watermark > 100 then r3.(watermark := 80) else r3)
  }

  /** Everything after the name and dimension checks. */
  function KindVerdict(r: Rule): (Option<Fault>, Rule) {
    if r.kind == "concurrency" then
      if r.maxConc <= 0 then (Some(ConcRequired), r)
      else (None, if r.timeout <= 0 then r.(timeout := 120) else r)
    else if r.kind == "rate" then
      if r.limit <= 0 then (Some(LimitRequired), r)
      else
        match ParseWindow(r.window)
        case BadFormat => (Some(WindowFormat), r)
        case BadUnit => (Some(WindowUnit), r)
        case Window(sec, natural) => RateVerdict(r.(winSec := sec, natural := natural))
    else (Some(TypeUnknown), r)
  }

  /** Validate: the first fault, and the rule as rewritten up to that point when there is none. */
  function Verdict(r: Rule): (Option<Fault>, Rule) {
    if r.name == "" then (Some(NameRequired), r)
    else if DimsFault(r.dims).Some? then (DimsFault(r.dims), r)
    else KindVerdict(r.(dims := NormalDims(r.dims)))
  }

  class MutableRule {
    var name: string
    var kind: string
    var metric: string
    var dims: seq<string>
    var window: string
    var limit: int
    var algorithm: string
    var burst: int
    var watermark: int
    var maxConc: int
    var timeout: int
    var winSec: int
    var natural: bool

    function Data(): Rule
      reads this
    {
      Rule(name, kind, metric, dims, window, limit, algorithm, burst, watermark, maxConc, timeout, winSec, natural)
    }

    /** The dimension loop: names are normalized in place until the first fault. */
    method CheckDims() returns (fault: Option<Fault>)
      modifies this`dims
      ensures fault == DimsFault(old(dims))
      ensures fault.None? ==> dims == NormalDims(old(dims))
    {
      hide Normal;
      if |dims| == 0 { return Some(DimsRequired); }
      var given := dims;
      var seen: set<string> := {};
      var i := 0;
      while i < |given|
        invariant 0 <= i <= |given| == |dims|
        invariant FirstDimFault(given, 0) == FirstDimFault(given, i)
        invariant forall d :: d in seen <==> exists j :: 0 <= j < i && Normal(given[j]) == d
        invariant forall j :: 0 <= j < i ==> dims[j] == Normal(given[j])
        invariant forall j :: i <= j < |given| ==> dims[j] == given[j]
      {
        var d := Normal(dims[i]);
        if d !in Keys.DIMS { return Some(DimUnknown); }
        if d in seen { return Some(DimDuplicated); }
        if d == "global" && |dims| > 1 { return Some(GlobalCombined); }
        seen := seen + {d};
        dims := dims[i := d];
        i := i + 1;
      }
      assert dims == NormalDims(given);
      fault := None;
    }

    method Validate() returns (fault: Option<Fault>)
      modifies this
      ensures fault == Verdict(old(Data())).0
      ensures fault.None? ==> Data() == Verdict(old(Data())).1
    {
      if name == "" { return Some(NameRequired); }
      fault := CheckDims();
      if fault.Some? { return; }
      if kind == "concurrency" {
        if maxConc <= 0 { return Some(ConcRequired); }
        if timeout <= 0 { timeout := 120; }
        return None;
      } else if kind == "rate" {
        fault := CheckRate();
      } else {
        return Some(TypeUnknown);
      }
    }

    method CheckRate() returns (fault: Option<Fault>)
      requires kind == "rate"
      modifies this
      ensures fault == KindVerdict(old(Data())).0
      ensures fault.None? ==> Data() == KindVerdict(old(Data())).1
    {
      hide ParseWindow, RateVerdict;
      if limit <= 0 { return Some(LimitRequired); }
      var w := ParseWindow(window);
      if w.BadFormat? { return Some(WindowFormat); }
      if w.BadUnit? { return Some(WindowUnit); }
      winSec, natural := w.sec, w.natural;
      fault := CheckAlgorithm();
    }

    method CheckAlgorithm() returns (fault: Option<Fault>)
      modifies this`metric, this`algorithm, this`burst, this`watermark
      ensures fault == RateVerdict(old(Data())).0
      ensures fault.None? ==> Data() == RateVerdict(old(Data())).1
    {
      if metric == "" { metric := "request"; }
      if metric != "request" && metric != "token" { return Some(MetricUnknown); }
      if algorithm == "" { algorithm := "fixed_window"; }
      if algorithm == "token_bucket" {
        if metric == "token" { return Some(BucketForTokens); }
        if burst <= 0 { burst := limit; }
        if winSec == 0 { return Some(DivideByZero); }
        if burst < GoDiv(limit, winSec) { return Some(BurstTooSmall); }
      }
      if algorithm == "sliding_window" && limit > SLIDING_MAX { return Some(SlidingTooLarge); }
      if watermark <= 0 || watermark > 100 { watermark := 80; }
      fault := None;
    }
  }

  lemma DimsSettled(dims: seq<string>)
    requires DimsFault(dims).None?
    ensures Keys.ValidDims(NormalDims(dims))
    ensures DimsFault(NormalDims(dims)).None? && NormalDims(NormalDims(dims)) == NormalDims(dims)
  {
    var n := NormalDims(dims);
    forall i | 0 <= i < |dims| ensures DimFault(dims, i).None? && n[i] in Keys.DIMS && Normal(n[i]) == n[i] {
      NoFaultFrom(dims, 0, i);
      KnownNormal(n[i]);
    }
    assert NormalDims(n) == n;
    forall i | 0 <= i < |n| ensures DimFault(n, i).None? {
      assert DimFault(dims, i).None?;
    }
    AllClear(n, 0);
  }

  lemma {:induction false} NoFaultFrom(dims: seq<string>, from: nat, i: nat)
    requires from <= i < |dims| && FirstDimFault(dims, from).None?
    ensures DimFault(dims, i).None?
    decreases i - from
  {
    if from < i { NoFaultFrom(dims, from + 1, i); }
  }

  lemma {:induction false} AllClear(dims: seq<string>, from: nat)
    requires from <= |dims| && forall i :: from <= i < |dims| ==> DimFault(dims, i).None?
    ensures FirstDimFault(dims, from).None?
    decreases |dims| - from
  {
    if from < |dims| { AllClear(dims, from + 1); }
  }

  lemma KindIdempotent(r: Rule)
    requires KindVerdict(r).0.None?
    ensures KindVerdict(KindVerdict(r).1) == (None, KindVerdict(r).1)
    ensures KindVerdict(r).1.dims == r.dims && KindVerdict(r).1.name == r.name
  {
    hide ParseWindow;
  }

  /** Validation settles a rule: what one instance validated and published, every other instance validates to the same rule. */
  lemma ValidateIdempotent(r: Rule)
    requires Verdict(r).0.None?
    ensures Verdict(Verdict(r).1) == (None, Verdict(r).1)
  {
    var d := NormalDims(r.dims);
    DimsSettled(r.dims);
    KindIdempotent(r.(dims := d));
    hide KindVerdict, NormalDims, DimsFault;
    assert Verdict(r).1.(dims := d) == Verdict(r).1;
  }

  lemma WrapZero(n: int)
    ensures Wrap64(n) == 0 <==> n % TWO_64 == 0
  {}

  lemma KindPanics(r: Rule)
    ensures KindVerdict(r).0 == Some(DivideByZero) <==>
            && r.kind == "rate" && r.limit > 0
            && r.algorithm == "token_bucket" && r.metric in ["", "request"]
            && ParseWindow(r.window).Window? && ParseWindow(r.window).sec == 0
  {
    hide ParseWindow;
  }

  lemma {:induction false} NoDivideFault(dims: seq<string>, i: nat)
    requires i <= |dims|
    ensures FirstDimFault(dims, i) != Some(DivideByZero)
    decreases |dims| - i
  {
    hide Normal;
    if i < |dims| { NoDivideFault(dims, i + 1); }
  }

  /** The panic, exactly: a token bucket over requests that passes every earlier check and whose window is a
      multiple of 2^64 seconds. */
  lemma PanicsIff(r: Rule)
    ensures Verdict(r).0 == Some(DivideByZero) <==>
            && r.name != "" && DimsFault(r.dims).None? && r.kind == "rate" && r.limit > 0
            && r.algorithm == "token_bucket" && r.metric in ["", "request"]
            && ParseWindow(r.window).Window? && Meaning(r.window) % TWO_64 == 0
  {
    NoDivideFault(r.dims, 0);
    KindPanics(r.(dims := NormalDims(r.dims)));
    if ParseWindow(r.window).Window? {
      WrapZero(Meaning(r.window));
    }
    hide KindVerdict, NormalDims, FirstDimFault;
  }

  /** A window expression that is accepted and means a positive time, but is loaded as zero seconds. */
  lemma ZeroSecondWindow()
    ensures ParseWindow("144115188075855872d") == Window(0, true)
  {
    var w := "144115188075855872d";
    var s := "144115188075855872";
    assert w[..18] == s && w[|w| - 1] == 'd';
    BigDecimal();
    assert 144115188075855872 * 86400 == 675 * TWO_64;
  }

  lemma Digits1(s: string, a: char)
    requires AllDigits(s) && IsDigit(a)
    ensures AllDigits(s + [a]) && DecVal(s + [a]) == 10 * DecVal(s) + Digit(a)
  {
    assert (s + [a])[..|s|] == s;
  }

  lemma Digits3(s: string, a: char, b: char, c: char)
    requires AllDigits(s) && IsDigit(a) && IsDigit(b) && IsDigit(c)
    ensures AllDigits(s + [a, b, c])
    ensures DecVal(s + [a, b, c]) == 1000 * DecVal(s) + 100 * Digit(a) + 10 * Digit(b) + Digit(c)
  {
    hide DecVal;
    Digits1(s, a);
    Digits1(s + [a], b);
    Digits1(s + [a] + [b], c);
    assert s + [a, b, c] == s + [a] + [b] + [c];
  }

  lemma BigDecimal()
    ensures AllDigits("144115188075855872") && DecVal("144115188075855872") == 144115188075855872
  {
    hide DecVal;
    EmptyDigits();
    Digits3("", '1', '4', '4');
    Digits3("" + "144", '1', '1', '5');
    Digits3("" + "144" + "115", '1', '8', '8');
    Digits3("" + "144" + "115" + "188", '0', '7', '5');
    Digits3("" + "144" + "115" + "188" + "075", '8', '5', '5');
    Digits3("" + "144" + "115" + "188" + "075" + "855", '8', '7', '2');
    assert "144115188075855872" == "" + "144" + "115" + "188" + "075" + "855" + "872";
  }

  lemma EmptyDigits()
    ensures AllDigits("") && DecVal("") == 0
  {}
}
