/** The browser's mirror of rule validation (internal/adminui/assets/rule-validate.js), against the Go one. */
module RuleValidateJs {
  import opened Prelude
  import opened Rules
  import Keys

  // The constants of rule-spec.js.

  const UNIT: map<char, nat> := map['s' := 1, 'm' := 60, 'h' := 3600, 'd' := 86400, 'w' := 604800]
  const NATURAL_UNITS := "dw"
  const SPEC_DIMS: seq<string> := ["global", "biz", "ip", "token", "path", "method"]
  const SLIDING_LIMIT_MAX := 100000

  /** They are Go's. */
  lemma SameConstants()
    ensures forall d :: d in SPEC_DIMS <==> d in Keys.DIMS
    ensures forall c :: c in UNIT <==> KnownUnit(c)
    ensures forall c | KnownUnit(c) :: UNIT[c] == UnitSeconds(c)
  {
    assert forall d :: d in SPEC_DIMS <==> d in {"global", "biz", "ip", "token", "path", "method"};
    assert forall d :: d in Keys.DIMS <==> d in {"global", "biz", "ip", "token", "path", "method"};
  }

  // The int64 overflow check on text.

  function StripZeros(s: string): string {
    if |s| >= 2 && s[0] == '0' && IsDigit(s[1]) then StripZeros(s[1..]) else s
  }

  /** The JavaScript operator `>` on strings. */
  predicate TextGreater(a: string, b: string) {
    if a == "" || b == "" then a != ""
    else a[0] > b[0] || (a[0] == b[0] && TextGreater(a[1..], b[1..]))
  }

  const MAX_TEXT := "9223372036854775807"

  predicate TooLong(trimmed: string) {
    |trimmed| > |MAX_TEXT| || (|trimmed| == |MAX_TEXT| && TextGreater(trimmed, MAX_TEXT))
  }

  function Pow10(n: nat): nat { if n == 0 then 1 else 10 * Pow10(n - 1) }

  lemma {:induction false} HeadVal(s: string)
    requires s != "" && AllDigits(s)
    ensures DecVal(s) == Digit(s[0]) * Pow10(|s| - 1) + DecVal(s[1..])
  {
    var n := |s| - 1;
    if n > 0 {
      var t := s[1..];
      HeadVal(s[..n]);
      assert s[..n][1..] == t[..n - 1] && t[n - 1] == s[n];
      assert DecVal(s) == 10 * DecVal(s[..n]) + Digit(s[n]);
      assert DecVal(t) == 10 * DecVal(t[..n - 1]) + Digit(t[n - 1]);
      assert Pow10(n) == 10 * Pow10(n - 1);
      hide DecVal, Pow10, Digit, AllDigits;
      TenTimes(Digit(s[0]), Pow10(n - 1));
    }
  }

  lemma TenTimes(d: nat, p: nat)
    ensures 10 * (d * p) == d * (10 * p)
  {}

  lemma {:induction false} ValBelow(s: string)
    requires AllDigits(s)
    ensures DecVal(s) < Pow10(|s|)
  {
    if s != "" { ValBelow(s[..|s| - 1]); }
  }

  lemma {:induction false} SameLengthOrder(a: string, b: string)
    requires |a| == |b| && AllDigits(a) && AllDigits(b)
    ensures TextGreater(a, b) <==> DecVal(a) > DecVal(b)
  {
    if a != "" {
      HeadVal(a);
      HeadVal(b);
      ValBelow(a[1..]);
      ValBelow(b[1..]);
      SameLengthOrder(a[1..], b[1..]);
      LeadingDigit(Digit(a[0]), Digit(b[0]), Pow10(|a| - 1), DecVal(a[1..]), DecVal(b[1..]));
      LeadingDigit(Digit(b[0]), Digit(a[0]), Pow10(|a| - 1), DecVal(b[1..]), DecVal(a[1..]));
    }
  }

  lemma LeadingDigit(x: nat, y: nat, p: nat, u: nat, v: nat)
    requires u < p && v < p
    ensures x > y ==> x * p + u > y * p + v
  {
    if x > y { assert (x - y - 1) * p >= 0; }
  }

  lemma {:induction false} StripKeepsValue(s: string)
    requires s != "" && AllDigits(s)
    ensures var t := StripZeros(s);
            t != "" && AllDigits(t) && DecVal(t) == DecVal(s) && (|t| >= 2 ==> t[0] != '0')
  {
    if |s| >= 2 && s[0] == '0' {
      HeadVal(s);
      StripKeepsValue(s[1..]);
    }
  }

  lemma MaxText()
    ensures |MAX_TEXT| == 19 && AllDigits(MAX_TEXT) && DecVal(MAX_TEXT) == INT64_MAX
  {
    hide DecVal;
    EmptyDigits();
    Digits1("", '9');
    Digits3("" + "9", '2', '2', '3');
    Digits3("" + "9" + "223", '3', '7', '2');
    Digits3("" + "9" + "223" + "372", '0', '3', '6');
    Digits3("" + "9" + "223" + "372" + "036", '8', '5', '4');
    Digits3("" + "9" + "223" + "372" + "036" + "854", '7', '7', '5');
    Digits3("" + "9" + "223" + "372" + "036" + "854" + "775", '8', '0', '7');
    assert MAX_TEXT == "" + "9" + "223" + "372" + "036" + "854" + "775" + "807";
  }

  lemma {:induction false} Pow10Monotone(m: nat, n: nat)
    requires m <= n
    ensures Pow10(m) <= Pow10(n)
  {
    if m < n { Pow10Monotone(m, n - 1); }
  }

  lemma Pow10Marks()
    ensures Pow10(18) == 1_000_000_000_000_000_000 && Pow10(19) == 10_000_000_000_000_000_000
  {
    assert Pow10(6) == 1_000_000;
    assert Pow10(12) == 1_000_000_000_000;
  }

  /** A number without leading zeros is placed by its length. */
  lemma LengthPlaces(t: string)
    requires t != "" && AllDigits(t) && (|t| >= 2 ==> t[0] != '0')
    ensures |t| <= 18 ==> DecVal(t) < 1_000_000_000_000_000_000
    ensures |t| >= 20 ==> DecVal(t) >= 10_000_000_000_000_000_000
  {
    Pow10Marks();
    ValBelow(t);
    hide DecVal, Pow10;
    if |t| <= 18 {
      Pow10Monotone(|t|, 18);
    } else if |t| >= 20 {
      HeadVal(t);
      Pow10Monotone(19, |t| - 1);
      LeadingDigit(Digit(t[0]), 1, Pow10(|t| - 1), 0, 0);
      assert Digit(t[0]) >= 1;
    }
  }

  /** A digit string is rejected by length and text exactly when its value overflows an int64. */
  lemma OverflowCheckExact(s: string)
    requires s != "" && AllDigits(s)
    ensures TooLong(StripZeros(s)) <==> DecVal(s) > INT64_MAX
  {
    var t := StripZeros(s);
    hide DecVal, StripZeros, TextGreater;
    StripKeepsValue(s);
    MaxText();
    LengthPlaces(t);
    if |t| == 19 {
      SameLengthOrder(t, MAX_TEXT);
    }
  }

  // Windows.

  const TWO_53 := 0x20_0000_0000_0000

  /** What is used of IEEE doubles: integers up to 2^53 are exact, and rounding keeps order. */
  ghost predicate RoundsAsDouble(num: nat -> nat) {
    && (forall n: nat :: n <= TWO_53 ==> num(n) == n)
    && (forall m: nat, n: nat :: m <= n ==> num(m) <= num(n))
  }

  /** parseWindow; `num` is the rounding of an exact integer to a double. */
  function JsParseWindow(w: string, num: nat -> nat): Window {
    if |w| < 2 then BadFormat
    else
      var unit := w[|w| - 1];
      var digits := w[..|w| - 1];
      var signed := digits[0] == '-' || digits[0] == '+';
      var body := if signed then digits[1..] else digits;
      if body == "" || !AllDigits(body) then BadFormat
      else if digits[0] == '-' then BadFormat
      else if TooLong(StripZeros(body)) then BadFormat
      else
        var n := num(DecVal(body));
        if n <= 0 then BadFormat
        else if unit !in UNIT then BadUnit
        else Window(num(n * UNIT[unit]), unit in NATURAL_UNITS)
  }

  /** Below 2^53 seconds the window expression means the same in both languages. */
  predicate Fits(w: string) { ParseWindow(w).Window? ==> Meaning(w) < TWO_53 }

  /** The two parsers accept the same strings, reject the others for the same reason and agree on `natural`; while the
      product stays below 2^53 they agree on the seconds. */
  lemma WindowsAgree(w: string, num: nat -> nat)
    requires RoundsAsDouble(num)
    ensures var js, go := JsParseWindow(w, num), ParseWindow(w);
            && (js.BadFormat? <==> go.BadFormat?)
            && (js.BadUnit? <==> go.BadUnit?)
            && (js.Window? ==> js.natural == go.natural)
            && (js.Window? && Meaning(w) < TWO_53 ==> js.sec == go.sec == Meaning(w) && js.sec > 0)
  {
    SameConstants();
    if |w| >= 2 {
      var digits := w[..|w| - 1];
      var body := if digits[0] == '-' || digits[0] == '+' then digits[1..] else digits;
      if body != "" && AllDigits(body) {
        OverflowCheckExact(body);
        var v := DecVal(body);
        assert v >= 1 ==> num(v) >= num(1) == 1;
        hide DecVal, TooLong, StripZeros;
        if v >= 1 && KnownUnit(w[|w| - 1]) {
          UnitGrows(v, w[|w| - 1]);
        }
      }
    }
  }

  lemma UnitGrows(v: nat, unit: char)
    requires KnownUnit(unit)
    ensures v <= v * UnitSeconds(unit)
    ensures 0 <= v * UnitSeconds(unit) <= INT64_MAX ==> Wrap64(v * UnitSeconds(unit)) == v * UnitSeconds(unit)
  {}

  // The whole draft.

  datatype Rewrite = Timeout(to: int) | Burst(to: int) | Watermark(to: int)

  /** What Go changed in the fields the browser announces. */
  function Rewrites(before: Rule, after: Rule): seq<Rewrite> {
    (if after.timeout != before.timeout then [Timeout(after.timeout)] else [])
    + (if after.burst != before.burst then [Burst(after.burst)] else [])
    + (if after.watermark != before.watermark then [Watermark(after.watermark)] else [])
  }

  function Metric(r: Rule): string { if r.metric == "" then "request" else r.metric }

  function Algorithm(r: Rule): string { if r.algorithm == "" then "fixed_window" else r.algorithm }

  /** What can be wrong with a draft, each fault by itself. */
  predicate Wrong(r: Rule, f: Fault) {
    var rate := r.kind == "rate";
    var bucket := rate && Algorithm(r) == "token_bucket";
    match f
    case NameRequired => r.name == ""
    case DimsRequired | DimUnknown | DimDuplicated | GlobalCombined => DimsFault(r.dims) == Some(f)
    case ConcRequired => r.kind == "concurrency" && r.maxConc <= 0
    case LimitRequired => rate && r.limit <= 0
    case WindowFormat => rate && ParseWindow(r.window).BadFormat?
    case WindowUnit => rate && ParseWindow(r.window).BadUnit?
    case MetricUnknown => rate && Metric(r) !in ["request", "token"]
    case BucketForTokens => bucket && Metric(r) == "token"
    case BurstTooSmall => bucket && r.burst > 0 && ParseWindow(r.window).Window? && r.burst < r.limit / Meaning(r.window)
    case SlidingTooLarge => rate && Algorithm(r) == "sliding_window" && r.limit > 100_000
    case TypeUnknown => r.kind != "rate" && r.kind != "concurrency"
    case DivideByZero => false
  }

  function BurstFloor(limit: int, winSec: int): Option<int> {
    if winSec <= 0 then None else Some(limit / winSec)
  }

  method CheckDimensions(dims: seq<string>) returns (faults: seq<Fault>)
    ensures faults == if DimsFault(dims).Some? then [DimsFault(dims).value] else []
  {
    hide Normal;
    if |dims| == 0 { return [DimsRequired]; }
    var seen: map<string, bool> := map[];
    var i := 0;
    while i < |dims|
      invariant 0 <= i <= |dims|
      invariant FirstDimFault(dims, 0) == FirstDimFault(dims, i)
      invariant forall d :: d in seen <==> exists j :: 0 <= j < i && Normal(dims[j]) == d
    {
      var d := Normal(dims[i]);
      if d !in SPEC_DIMS { return [DimUnknown]; }
      if d in seen { return [DimDuplicated]; }
      if d == "global" && |dims| > 1 { return [GlobalCombined]; }
      seen := seen[d := true];
      i := i + 1;
    }
    faults := [];
  }

  /** `Wrong` spelled out for a rate rule. */
  lemma RateWrongs(r: Rule)
    requires r.kind == "rate"
    ensures !Wrong(r, ConcRequired) && !Wrong(r, TypeUnknown) && !Wrong(r, DivideByZero)
    ensures Wrong(r, LimitRequired) <==> r.limit <= 0
    ensures Wrong(r, WindowFormat) <==> ParseWindow(r.window).BadFormat?
    ensures Wrong(r, WindowUnit) <==> ParseWindow(r.window).BadUnit?
    ensures Wrong(r, MetricUnknown) <==> Metric(r) !in ["request", "token"]
    ensures Wrong(r, BucketForTokens) <==> Algorithm(r) == "token_bucket" && Metric(r) == "token"
    ensures Wrong(r, BurstTooSmall) <==> Algorithm(r) == "token_bucket" && SmallBurst(r)
    ensures Wrong(r, SlidingTooLarge) <==> Algorithm(r) == "sliding_window" && r.limit > 100_000
  {
    hide ParseWindow, DimsFault, Meaning;
  }

  predicate SmallBurst(r: Rule) {
    r.burst > 0 && ParseWindow(r.window).Window? && r.burst < r.limit / Meaning(r.window)
  }

  /** The rate branch behind the window, with the seconds `sec` the window means. */
  lemma RateReports(r: Rule, small: bool)
    requires r.limit > 0 && r.winSec > 0
    requires small == (r.burst > 0 && r.burst < r.limit / r.winSec)
    ensures match RateVerdict(r).0
            case None =>
              && Metric(r) in ["request", "token"]
              && !(Algorithm(r) == "token_bucket" && (Metric(r) == "token" || small))
              && !(Algorithm(r) == "sliding_window" && r.limit > 100_000)
            case Some(f) =>
              || (f == MetricUnknown && Metric(r) !in ["request", "token"])
              || (f == BucketForTokens && Algorithm(r) == "token_bucket" && Metric(r) == "token")
              || (f == BurstTooSmall && Algorithm(r) == "token_bucket" && small)
              || (f == SlidingTooLarge && Algorithm(r) == "sliding_window" && r.limit > 100_000)
  {
    DivBelow(r.limit, r.winSec);
  }

  lemma DivBelow(a: int, b: int)
    requires a > 0 && b > 0
    ensures GoDiv(a, b) == a / b <= a
  {
    assert a == b * (a / b) + a % b;
    Grows(b, a / b);
  }

  lemma KindVerdictIs(r: Rule)
    ensures KindVerdict(r).0
            == if r.kind == "concurrency" then (if r.maxConc <= 0 then Some(ConcRequired) else None)
               else if r.kind != "rate" then Some(TypeUnknown)
               else if r.limit <= 0 then Some(LimitRequired)
               else
                 match ParseWindow(r.window)
                 case BadFormat => Some(WindowFormat)
                 case BadUnit => Some(WindowUnit)
                 case Window(sec, natural) => RateVerdict(r.(winSec := sec, natural := natural)).0
  {
    hide ParseWindow, RateVerdict;
  }

  lemma SmallBurstIs(r: Rule)
    requires Fits(r.window) && ParseWindow(r.window).Window?
    ensures ParseWindow(r.window).sec == Meaning(r.window) > 0
    ensures SmallBurst(r) == (r.burst > 0 && r.burst < r.limit / ParseWindow(r.window).sec)
  {
    SecondsExactIff(r.window);
    hide ParseWindow, Meaning;
  }

  /** The part of `Wrong` that depends on the type of rule. */
  lemma KindReportsWrong(r: Rule)
    requires Fits(r.window)
    ensures KindVerdict(r).0.Some? ==> Wrong(r, KindVerdict(r).0.value)
    ensures KindVerdict(r).0.None? ==> forall f | !OfHeading(f) :: !Wrong(r, f)
    ensures KindVerdict(r).0.Some? ==> !OfHeading(KindVerdict(r).0.value)
  {
    hide ParseWindow, Meaning, DimsFault, RateVerdict, KindVerdict, SmallBurst, Metric, Algorithm, Fits;
    KindVerdictIs(r);
    if r.kind == "rate" {
      RateWrongs(r);
      if ParseWindow(r.window).Window? && r.limit > 0 {
        var w := ParseWindow(r.window);
        SmallBurstIs(r);
        var r' := r.(winSec := w.sec, natural := w.natural);
        RateReports(r', SmallBurst(r));
        SameAlgorithm(r, r');
      }
      hide Wrong;
    }
  }

  lemma SameAlgorithm(r: Rule, s: Rule)
    requires r.algorithm == s.algorithm && r.metric == s.metric
    ensures Algorithm(r) == Algorithm(s) && Metric(r) == Metric(s)
  {}

  predicate OfHeading(f: Fault) { f in {NameRequired, DimsRequired, DimUnknown, DimDuplicated, GlobalCombined} }

  /** The first fault Go reports is wrong by itself, and Go accepts when nothing is. */
  lemma GoReportsWrong(r: Rule)
    requires Fits(r.window)
    ensures Verdict(r).0.Some? ==> Wrong(r, Verdict(r).0.value)
    ensures Verdict(r).0.None? ==> forall f :: !Wrong(r, f)
  {
    hide *;
    var r' := r.(dims := NormalDims(r.dims));
    VerdictIs(r);
    KindReportsWrong(r');
    forall f ensures OfHeading(f) || Wrong(r', f) == Wrong(r, f) { SameKindWrong(r, r', f); }
    HeadingClean(r);
  }

  lemma VerdictIs(r: Rule)
    ensures Verdict(r).0
            == if r.name == "" then Some(NameRequired)
               else if DimsFault(r.dims).Some? then DimsFault(r.dims)
               else KindVerdict(r.(dims := NormalDims(r.dims))).0
  {
    hide DimsFault, KindVerdict, NormalDims;
  }

  lemma SameKindWrong(r: Rule, s: Rule, f: Fault)
    requires s == r.(dims := s.dims)
    ensures OfHeading(f) || Wrong(s, f) == Wrong(r, f)
  {
    hide ParseWindow, Meaning, DimsFault;
  }

  lemma HeadingClean(r: Rule)
    ensures r.name == "" ==> Wrong(r, NameRequired)
    ensures DimsFault(r.dims).Some? ==> Wrong(r, DimsFault(r.dims).value)
    ensures r.name != "" && DimsFault(r.dims).None? ==> forall f | OfHeading(f) :: !Wrong(r, f)
  {
    DimsFaults(r.dims);
    hide ParseWindow, DimsFault, Meaning;
  }

  lemma DimsFaults(dims: seq<string>)
    ensures DimsFault(dims) in {None, Some(DimsRequired), Some(DimUnknown), Some(DimDuplicated), Some(GlobalCombined)}
  {
    DimsOnly(dims, 0);
    hide FirstDimFault;
  }

  lemma {:induction false} DimsOnly(dims: seq<string>, i: nat)
    requires i <= |dims|
    ensures FirstDimFault(dims, i) in {None, Some(DimUnknown), Some(DimDuplicated), Some(GlobalCombined)}
    decreases |dims| - i
  {
    hide Normal;
    if i < |dims| { DimsOnly(dims, i + 1); }
  }

  /** validate: it lists everything that is wrong, and announces exactly what Go would rewrite. */
  method Validate(draft: Rule, num: nat -> nat) returns (blocking: seq<Fault>, normalized: seq<Rewrite>)
    requires RoundsAsDouble(num) && Fits(draft.window)
    ensures forall f :: f in blocking <==> Wrong(draft, f)
    ensures Verdict(draft).0.None? <==> blocking == []
    ensures Verdict(draft).0.Some? ==> Verdict(draft).0.value in blocking
    ensures normalized == if Verdict(draft).0.None? then Rewrites(draft, Verdict(draft).1) else []
  {
    GoReportsWrong(draft);
    Announcements(draft);
    hide Verdict, Rewrites;
    var heading := CheckHeading(draft);
    hide DimsFault;
    var faults;
    if draft.kind == "concurrency" {
      faults, normalized := CheckConcurrency(draft);
    } else if draft.kind != "rate" {
      faults, normalized := [TypeUnknown], [];
    } else {
      faults, normalized := CheckRate(draft, num);
    }
    hide Wrong;
    blocking := heading + faults;
    assert Verdict(draft).0.Some? ==> Verdict(draft).0.value in blocking;
    assert blocking != [] ==> blocking[0] in blocking;
    if blocking != [] { normalized := []; }
  }

  method CheckHeading(draft: Rule) returns (faults: seq<Fault>)
    ensures forall f :: f in faults <==> OfHeading(f) && Wrong(draft, f)
  {
    faults := if draft.name == "" then [NameRequired] else [];
    DimsFaults(draft.dims);
    hide DimsFault, ParseWindow, Meaning;
    var more := CheckDimensions(draft.dims);
    faults := faults + more;
  }

  method CheckConcurrency(draft: Rule) returns (faults: seq<Fault>, normalized: seq<Rewrite>)
    requires draft.kind == "concurrency"
    ensures forall f :: f in faults <==> !OfHeading(f) && Wrong(draft, f)
    ensures normalized == Announced(draft)
  {
    hide ParseWindow, Meaning, DimsFault;
    faults := if !(draft.maxConc > 0) then [ConcRequired] else [];
    normalized := if draft.timeout <= 0 then [Timeout(120)] else [];
  }

  method CheckRate(draft: Rule, num: nat -> nat) returns (faults: seq<Fault>, normalized: seq<Rewrite>)
    requires RoundsAsDouble(num) && Fits(draft.window) && draft.kind == "rate"
    ensures forall f :: f in faults <==> !OfHeading(f) && Wrong(draft, f)
    ensures normalized == Announced(draft)
  {
    WindowsAgree(draft.window, num);
    RateWrongs(draft);
    hide *;
    var win := JsParseWindow(draft.window, num);
    faults := CheckBasics(draft, win);
    var more: seq<Fault>;
    more, normalized := [], [];
    var metric, algo := Metric(draft), Algorithm(draft);
    if algo == "token_bucket" { more, normalized := CheckBucket(draft, metric, win); }
    faults := faults + more;
    if algo == "sliding_window" && draft.limit > SLIDING_LIMIT_MAX { faults := faults + [SlidingTooLarge]; }
    if draft.watermark <= 0 || draft.watermark > 100 { normalized := normalized + [Watermark(80)]; }
    RateFaults(draft);
    AnnouncedRate(draft);
  }

  lemma RateFaults(r: Rule)
    requires r.kind == "rate"
    ensures forall f | Wrong(r, f) && !OfHeading(f) ::
              f in {LimitRequired, WindowFormat, WindowUnit, MetricUnknown, BucketForTokens, BurstTooSmall, SlidingTooLarge}
    ensures forall f | f in {LimitRequired, WindowFormat, WindowUnit, MetricUnknown, BucketForTokens, BurstTooSmall, SlidingTooLarge} ::
              !OfHeading(f)
  {
    RateWrongs(r);
    hide Wrong;
  }

  lemma AnnouncedRate(r: Rule)
    requires r.kind == "rate"
    ensures Announced(r) == (if Algorithm(r) == "token_bucket" && r.burst <= 0 < r.limit then [Burst(r.limit)] else [])
                            + (if r.watermark <= 0 || r.watermark > 100 then [Watermark(80)] else [])
  {}

  method CheckBasics(draft: Rule, win: Window) returns (faults: seq<Fault>)
    requires draft.kind == "rate"
    requires (win.BadFormat? <==> ParseWindow(draft.window).BadFormat?) && (win.BadUnit? <==> ParseWindow(draft.window).BadUnit?)
    ensures forall f :: f in faults <==> f in {LimitRequired, WindowFormat, WindowUnit, MetricUnknown} && Wrong(draft, f)
  {
    RateWrongs(draft);
    hide Wrong, ParseWindow, Meaning;
    faults := [];
    if !(draft.limit > 0) { faults := faults + [LimitRequired]; }
    if win.BadFormat? { faults := faults + [WindowFormat]; }
    if win.BadUnit? { faults := faults + [WindowUnit]; }
    var metric := Metric(draft);
    if metric != "request" && metric != "token" { faults := faults + [MetricUnknown]; }
  }

  method CheckBucket(draft: Rule, metric: string, win: Window) returns (faults: seq<Fault>, normalized: seq<Rewrite>)
    requires draft.kind == "rate" && Algorithm(draft) == "token_bucket" && metric == Metric(draft)
    requires win.Window? <==> ParseWindow(draft.window).Window?
    requires win.Window? ==> win.sec == Meaning(draft.window) > 0
    ensures forall f :: f in faults <==> f in {BucketForTokens, BurstTooSmall} && Wrong(draft, f)
    ensures normalized == if draft.burst <= 0 < draft.limit then [Burst(draft.limit)] else []
  {
    RateWrongs(draft);
    hide Wrong, ParseWindow, Meaning;
    faults, normalized := [], [];
    if metric == "token" { faults := faults + [BucketForTokens]; }
    if draft.burst <= 0 {
      if draft.limit > 0 { normalized := normalized + [Burst(draft.limit)]; }
    } else {
      var floor := BurstFloor(draft.limit, if win.Window? then win.sec else 0);
      if floor.Some? && draft.burst < floor.value { faults := faults + [BurstTooSmall]; }
    }
  }

  function Announced(r: Rule): seq<Rewrite> {
    if r.kind == "concurrency" then
      if r.timeout <= 0 then [Timeout(120)] else []
    else if r.kind == "rate" then
      (if Algorithm(r) == "token_bucket" && r.burst <= 0 < r.limit then [Burst(r.limit)] else [])
      + (if r.watermark <= 0 || r.watermark > 100 then [Watermark(80)] else [])
    else []
  }

  /** What is announced is what Go changed. */
  lemma Announcements(r: Rule)
    ensures Verdict(r).0.None? ==> Announced(r) == Rewrites(r, Verdict(r).1)
  {
    hide KindVerdict, NormalDims, DimsFault;
    KindRewrites(r.(dims := NormalDims(r.dims)));
  }

  lemma KindRewrites(r: Rule)
    ensures KindVerdict(r).0.None? ==> Announced(r) == Rewrites(r, KindVerdict(r).1)
  {
    hide ParseWindow;
  }
}
