/** The browser's preview of the key a rule counts under (internal/adminui/assets/rule-preview.js), with the constants of
    rule-spec.js, against the key Check builds. */
module KeyPreview {
  import opened Prelude
  import opened Limiter
  import opened RuleValidateJs
  import Keys
  import Rules

  const SEP := '|'
  const DIM_JOIN := '.'
  const VAL_JOIN := '.'
  const PREFIX_RATE := "rl"
  const PREFIX_BUCKET := "tb"
  const PREFIX_CONC := "cc"
  const PREFIX_LEDGER := "tk"
  const MAX_RAW := 48
  const HASH_PREFIX := "h"
  const EMPTY_VAL := "_"
  const UNSAFE := "|/ \t\r\n"
  const SAMPLE_HEX := "2bb80d537b1da3e38bd30361"

  /** The browser does not hash; any digest is shown as the sample. */
  function SampleSha(): string -> string { (v: string) => SAMPLE_HEX }

  function BizOr(biz: string): string { if biz == "" then "order" else biz }

  /** The sample request. */
  function SampleMeta(biz: string, id: string): Meta {
    Meta(BizOr(biz), "/v1/chat/completions", SAMPLE_HEX, "10.1.2.3", "POST", id)
  }

  function SampleVal(d: string, biz: string): string {
    match d
    case "global" => EMPTY_VAL
    case "biz" => BizOr(biz)
    case "path" => "/v1/chat/completions"
    case "ip" => "10.1.2.3"
    case "method" => "POST"
    case _ => d
  }

  method SafeValShape(v: string) returns (r: string)
    ensures r == Keys.SafeVal(SampleSha(), v)
  {
    if v == "" { return EMPTY_VAL; }
    var unsafe := false;
    var i := 0;
    while i < |UNSAFE| && !unsafe
      invariant 0 <= i <= |UNSAFE|
      invariant unsafe ==> exists k :: 0 <= k < |v| && Keys.Unsafe(v[k])
      invariant !unsafe ==> forall j, k :: 0 <= j < i && 0 <= k < |v| ==> v[k] != UNSAFE[j]
    {
      if UNSAFE[i] in v {
        unsafe := true;
        var k :| 0 <= k < |v| && v[k] == UNSAFE[i];
      }
      i := i + 1;
    }
    if !unsafe { AllSafe(v); }
    if |v| <= MAX_RAW && !unsafe { return v; }
    r := HASH_PREFIX + SAMPLE_HEX;
  }

  lemma AllSafe(v: string)
    requires forall j, k :: 0 <= j < |UNSAFE| && 0 <= k < |v| ==> v[k] != UNSAFE[j]
    ensures forall k :: 0 <= k < |v| ==> !Keys.Unsafe(v[k])
  {
    forall k | 0 <= k < |v| ensures !Keys.Unsafe(v[k]) {
      assert v[k] != UNSAFE[0] && v[k] != UNSAFE[1] && v[k] != UNSAFE[2] && v[k] != UNSAFE[3] && v[k] != UNSAFE[4] && v[k] != UNSAFE[5];
    }
  }

  /** The token is shown as its bare digest. */
  method ValsOf(dims: seq<string>, biz: string, id: string) returns (vals: seq<string>)
    ensures Keys.ValidDims(dims) ==> vals == Keys.SafeVals(SampleSha(), DimValues(SampleMeta(biz, id), dims))
  {
    var meta := SampleMeta(biz, id);
    if Keys.ValidDims(dims) { DimValuesAligned(meta, dims); }
    vals := [];
    for i := 0 to |dims|
      invariant |vals| == i
      invariant Keys.ValidDims(dims) ==> forall j :: 0 <= j < i ==> vals[j] == Keys.SafeVal(SampleSha(), DimValues(meta, dims)[j])
    {
      var v;
      if dims[i] == "token" { v := SAMPLE_HEX; } else { v := SafeValShape(SampleVal(dims[i], biz)); }
      if Keys.ValidDims(dims) {
        assert IsField(meta, dims[i], DimValues(meta, dims)[i]);
        OneVal(biz, id, dims[i], DimValues(meta, dims)[i]);
      }
      vals := vals + [v];
    }
  }

  lemma OneVal(biz: string, id: string, d: string, v: string)
    requires IsField(SampleMeta(biz, id), d, v)
    ensures if d == "token" then v == SAMPLE_HEX == Keys.SafeVal(SampleSha(), v) else v == SampleVal(d, biz)
  {
    SampleIsSafe();
    hide Keys.SafeVal;
  }

  lemma SampleIsSafe()
    ensures Keys.SafeVal(SampleSha(), SAMPLE_HEX) == SAMPLE_HEX
  {
    var v := SAMPLE_HEX;
    assert |v| == 24;
    forall i | 0 <= i < |v| ensures !Keys.Unsafe(v[i]) {
      assert '0' <= v[i] <= '9' || 'a' <= v[i] <= 'f';
      NoHexUnsafe(v[i]);
    }
    hide Keys.Unsafe;
  }

  lemma NoHexUnsafe(c: char)
    requires '0' <= c <= '9' || 'a' <= c <= 'f'
    ensures !Keys.Unsafe(c)
  {}

  datatype Branch = Ledger | Conc | Bucket | SlidingRate | FixedRate

  function BranchOf(draft: Rules.Rule): Branch {
    var algo := if draft.algorithm == "" then "fixed_window" else draft.algorithm;
    if draft.kind == "rate" && draft.metric == "token" then Ledger
    else if draft.kind == "concurrency" then Conc
    else if algo == "token_bucket" then Bucket
    else if algo == "sliding_window" then SlidingRate
    else FixedRate
  }

  function PrefixOf(b: Branch): string {
    match b
    case Ledger => PREFIX_LEDGER
    case Conc => PREFIX_CONC
    case Bucket => PREFIX_BUCKET
    case _ => PREFIX_RATE
  }

  predicate HasBoundary(b: Branch) { b.Ledger? || b.SlidingRate? || b.FixedRate? }

  /** The end of a rolling window's key; a natural one depends on a time zone the browser does not know. */
  function BoundarySeg(win: Rules.Window, nowMs: nat): string
    requires win.Window?
  {
    if win.natural || win.sec == 0 then "<start>" else FormatInt(nowMs / 1000 / win.sec * win.sec)
  }

  /** `scan` is a pattern for SCAN that ends in a star; it is shown for natural windows. */
  datatype Preview = Preview(key: Option<string>, natural: bool, scan: string)

  /** What is shown is right: the key itself, or a pattern that it matches. */
  predicate Shows(p: Preview, key: string) {
    && p.key.Some? && (!p.natural ==> p.key.value == key)
    && (p.natural ==> |p.scan| > 0 && p.scan[|p.scan| - 1] == '*' && p.scan[..|p.scan| - 1] <= key)
  }

  /** Validation accepts the draft as it is, and a double holds its window. */
  predicate Accepted(draft: Rules.Rule) { Rules.Verdict(draft) == (None, draft) && (draft.kind == "rate" ==> Fits(draft.window)) }

  lemma AcceptedIs(draft: Rules.Rule, num: nat -> nat)
    requires Accepted(draft) && RoundsAsDouble(num)
    ensures Loaded(draft) && Keys.ValidDims(draft.dims) && draft.dims != []
    ensures draft.kind == "rate" ==> JsParseWindow(draft.window, num) == Rules.Window(draft.winSec, draft.natural) && draft.winSec > 0
  {
    ValidatedIsLoaded(draft);
    VerdictParts(draft);
    KindSettled(draft);
    WindowsAgree(draft.window, num);
    hide Rules.Verdict, Rules.ParseWindow, JsParseWindow, Rules.KindVerdict, Rules.DimsFault, Rules.NormalDims, Rules.Meaning;
  }

  /** The fields of a key, in its branch. */
  function Fields(b: Branch, biz: string, dims: string, vals: string, winSec: int, boundary: int): seq<string> {
    match b
    case Ledger => ["tk", dims, vals, FormatInt(winSec), FormatInt(boundary)]
    case Conc => ["cc", biz, dims, vals]
    case Bucket => ["tb", dims, vals]
    case _ => ["rl", dims, vals, FormatInt(winSec), FormatInt(boundary)]
  }

  lemma RealKey(draft: Rules.Rule, meta: Meta, now: int, c: Config)
    requires Loaded(draft)
    ensures var dims, vals := Keys.Join('.', draft.dims), Keys.Join('.', Keys.SafeVals(c.sha, DimValues(meta, draft.dims)));
            ToLua(c, draft, meta, now).key
            == Keys.Join('|', Fields(BranchOf(draft), Keys.SafeVal(c.sha, meta.biz), dims, vals, draft.winSec, BoundaryOf(c, draft, now)))
    ensures HasBoundary(BranchOf(draft)) ==> draft.kind == "rate"
  {
    var k := KeySpecOf(c, draft, meta, now);
    Keys.BuildIsJoin(c.sha, k);
    Keys.PartsShape(c.sha, k);
    hide Keys.Build, Keys.Join, Keys.SafeVals, Keys.SafeVal, FormatInt, BoundaryOf, DimValues, Keys.ValidDims, RateOf, Keys.Parts;
  }

  /** A rolling window's boundary, as the browser computes it. */
  lemma RollingBoundary(draft: Rules.Rule, nowMs: nat, c: Config)
    requires draft.winSec > 0 && !draft.natural
    ensures BoundaryOf(c, draft, nowMs * 1_000_000) == nowMs / 1000 / draft.winSec * draft.winSec
  {
    assert UnixSec(nowMs * 1_000_000) == nowMs / 1000;
  }

  lemma Patterns(parts: seq<string>, last: string)
    requires parts != []
    ensures var scan := Keys.Join('|', parts) + ['|'] + "*";
            |scan| > 0 && scan[|scan| - 1] == '*' && scan[..|scan| - 1] <= Keys.Join('|', parts + [last])
  {
    Keys.JoinSnoc('|', parts, last);
    hide Keys.Join;
    var scan := Keys.Join('|', parts) + ['|'] + "*";
    assert scan[..|scan| - 1] == Keys.Join('|', parts) + ['|'];
  }

  /** The preview's own fields are the real ones. */
  lemma IsShown(draft: Rules.Rule, biz: string, nowMs: nat, c: Config, id: string, win: Rules.Window, vals: seq<string>, p: Preview)
    requires Loaded(draft) && c.sha == SampleSha() && vals == Keys.SafeVals(SampleSha(), DimValues(SampleMeta(biz, id), draft.dims))
    requires draft.kind == "rate" ==> win == Rules.Window(draft.winSec, draft.natural) && draft.winSec > 0
    requires var b, dims, vs := BranchOf(draft), Keys.Join(DIM_JOIN, draft.dims), Keys.Join(VAL_JOIN, vals);
             var start := [PrefixOf(b)] + (if b.Conc? then [Keys.SafeVal(SampleSha(), BizOr(biz))] else []) + [dims, vs];
             if HasBoundary(b) then
               win.Window? && p == Preview(Some(Keys.Join(SEP, start + [FormatInt(win.sec)] + [BoundarySeg(win, nowMs)])), win.natural,
                                           Keys.Join(SEP, start + [FormatInt(win.sec)]) + [SEP] + "*")
             else p.key == Some(Keys.Join(SEP, start)) && !p.natural
    ensures Shows(p, ToLua(c, draft, SampleMeta(biz, id), nowMs * 1_000_000).key)
  {
    hide Keys.Join, Keys.SafeVals, Keys.SafeVal, FormatInt, BoundaryOf, DimValues, ToLua, Loaded;
    var meta, now := SampleMeta(biz, id), nowMs * 1_000_000;
    var b, dims, vs := BranchOf(draft), Keys.Join('.', draft.dims), Keys.Join('.', vals);
    var start := [PrefixOf(b)] + (if b.Conc? then [Keys.SafeVal(SampleSha(), BizOr(biz))] else []) + [dims, vs];
    RealKey(draft, meta, now, c);
    Patterns(start + [FormatInt(draft.winSec)], FormatInt(BoundaryOf(c, draft, now)));
    if HasBoundary(b) && !draft.natural { RollingBoundary(draft, nowMs, c); }
    assert Fields(b, Keys.SafeVal(c.sha, meta.biz), dims, vs, draft.winSec, BoundaryOf(c, draft, now))
        == if HasBoundary(b) then start + [FormatInt(draft.winSec)] + [FormatInt(BoundaryOf(c, draft, now))] else start;
  }

  /** For a draft that validation accepts the preview is right about the key Check builds for the sample request, whatever the time
      zone; without dimensions or, where the key has a window, without a window that parses, no key is shown. */
  method SampleKey(draft: Rules.Rule, biz: string, nowMs: nat, num: nat -> nat, c: Config, id: string) returns (r: Option<Preview>)
    requires RoundsAsDouble(num) && c.sha == SampleSha()
    ensures r.None? <==> draft.dims == []
    ensures r.Some? ==> (r.value.key.None? <==> HasBoundary(BranchOf(draft)) && !Rules.ParseWindow(draft.window).Window?)
    ensures Accepted(draft) ==>
              r.Some? && Loaded(draft) && Shows(r.value, ToLua(c, draft, SampleMeta(biz, id), nowMs * 1_000_000).key)
  {
    var dims := draft.dims;
    if Accepted(draft) { AcceptedIs(draft, num); }
    if |dims| == 0 { return None; }
    WindowsAgree(draft.window, num);
    hide *;
    var br := BranchOf(draft);
    var win := JsParseWindow(draft.window, num);
    var vals := ValsOf(dims, biz, id);
    var segs := [PrefixOf(br)];
    if br.Conc? {
      var first := SafeValShape(BizOr(biz));
      segs := segs + [first];
    }
    segs := segs + [Keys.Join(DIM_JOIN, dims), Keys.Join(VAL_JOIN, vals)];
    ghost var start := [PrefixOf(br)] + (if br.Conc? then [Keys.SafeVal(SampleSha(), BizOr(biz))] else [])
                       + [Keys.Join(DIM_JOIN, dims), Keys.Join(VAL_JOIN, vals)];
    assert segs == start;
    var scan := segs;
    if HasBoundary(br) {
      if !win.Window? { return Some(Preview(None, false, "")); }
      scan := segs + [FormatInt(win.sec)];
      segs := scan + [BoundarySeg(win, nowMs)];
    }
    r := Some(Preview(Some(Keys.Join(SEP, segs)), HasBoundary(br) && win.natural, Keys.Join(SEP, scan) + [SEP] + "*"));
    if Accepted(draft) { IsShown(draft, biz, nowMs, c, id, win, vals, r.value); }
  }
}
