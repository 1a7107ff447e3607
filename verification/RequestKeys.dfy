/** The keys Check builds, for the requests it can receive (internal/meta/extract.go, internal/limiter/limiter.go). */
module RequestKeys {
  import opened Prelude
  import opened KeyValues
  import opened Limiter
  import Keys
  import Rules

  /** What Extract and HashToken make of a request. */
  ghost predicate ReceivedMeta(meta: Meta, names: set<string>) {
    IsBiz(meta.biz) && IsPath(meta.path) && IsToken(meta.token) && IsIp(meta.ip, names) && IsMethod(meta.verb)
  }

  /** The values of a rule's dimensions are values such a request can bring. */
  lemma DimensionsReceived(meta: Meta, dims: seq<string>, names: set<string>)
    requires ReceivedMeta(meta, names) && Keys.ValidDims(dims)
    ensures Received(dims, DimValues(meta, dims), names)
  {
    DimValuesAligned(meta, dims);
    var vals := DimValues(meta, dims);
    hide DimValues, IsBiz, IsPath, IsToken, IsIp, IsMethod;
    forall i | 0 <= i < |dims| ensures IsValueOf(dims[i], vals[i], names) {
      assert IsField(meta, dims[i], vals[i]);
      FieldReceived(meta, dims[i], vals[i], names);
    }
  }

  lemma FieldReceived(meta: Meta, d: string, v: string, names: set<string>)
    requires ReceivedMeta(meta, names) && IsField(meta, d, v)
    ensures IsValueOf(d, v, names)
  {
    hide IsBiz, IsPath, IsToken, IsIp, IsMethod;
  }

  /** Two requests agree in the field that dimension `d` names, up to what the encoding of values merges. */
  predicate SameField(sha: string -> string, m: Meta, n: Meta, d: string) {
    && (d == "biz" ==> SameCode(sha, m.biz, n.biz))
    && (d == "path" ==> SameCode(sha, m.path, n.path))
    && (d == "token" ==> SameCode(sha, m.token, n.token))
    && (d == "ip" ==> SameCode(sha, m.ip, n.ip))
    && (d == "method" ==> SameCode(sha, m.verb, n.verb))
  }

  lemma SameFieldIs(sha: string -> string, m: Meta, n: Meta, d: string, v: string, w: string)
    requires IsField(m, d, v) && IsField(n, d, w)
    ensures SameField(sha, m, n, d) <==> SameCode(sha, v, w)
  {
    hide SameCode;
    assert SameCode(sha, v, v) by { SelfCode(sha, v); }
  }

  lemma SelfCode(sha: string -> string, v: string)
    ensures SameCode(sha, v, v)
  {}

  /** Which rules count together: token budgets, concurrency, buckets, and the two windowed algorithms, by the rule's own fields. */
  datatype Family = Budget | Slots | Buckets | Windowed

  function FamilyOf(d: Rules.Rule): Family {
    if d.kind == "rate" && d.metric == "token" then Budget
    else if d.kind == "concurrency" then Slots
    else if d.algorithm == "token_bucket" then Buckets
    else Windowed
  }

  /** Two checks of validated rules share a counter. */
  ghost predicate Together(c: Config, d: Rules.Rule, m: Meta, now: int, e: Rules.Rule, n: Meta, later: int) {
    && FamilyOf(d) == FamilyOf(e) && d.dims == e.dims
    && (FamilyOf(d) in {Budget, Windowed} ==> d.winSec == e.winSec && BoundaryOf(c, d, now) == BoundaryOf(c, e, later))
    && (FamilyOf(d) == Slots ==> SameCode(c.sha, m.biz, n.biz))
    && forall x | x in d.dims :: SameField(c.sha, m, n, x)
  }

  /** Two entries of Check, for any rules and requests, have one key exactly when they count the same thing: rules of one family over
      the same dimensions, window and boundary, and requests that agree in every field those dimensions name; concurrency also
      in the business domain. */
  lemma CheckKeysIff(c: Config, names: set<string>, d: Rules.Rule, m: Meta, now: int, e: Rules.Rule, n: Meta, later: int)
    requires Keys.IsDigest(c.sha) && (forall x :: x in names ==> IsName(x)) && !Extends(names)
    requires Loaded(d) && Loaded(e) && NoDuplicates(d.dims) && NoDuplicates(e.dims) && ReceivedMeta(m, names) && ReceivedMeta(n, names)
    ensures ToLua(c, d, m, now).key == ToLua(c, e, n, later).key <==> Together(c, d, m, now, e, n, later)
  {
    var k, l := KeySpecOf(c, d, m, now), KeySpecOf(c, e, n, later);
    SpecIs(c, d, m, now);
    SpecIs(c, e, n, later);
    DimensionsReceived(m, d.dims, names);
    DimensionsReceived(n, e.dims, names);
    SameFieldsIs(c, d, m, n);
    hide ToLua, KeySpecOf, Keys.Build, Keys.ValidDims, DimValues, BoundaryOf, SameCode, SameField, Extends, IsBiz, IsPath, IsToken, IsIp, IsMethod,
         Loaded, Received, Keys.IsDigest, FamilyOf;
    assert Possible(k, names) && Possible(l, names);
    SameKeyIff(c.sha, names, k, l);
  }

  /** The key's fields, by the rule's. */
  lemma SpecIs(c: Config, d: Rules.Rule, meta: Meta, now: int)
    requires Loaded(d)
    ensures var k, l := KeySpecOf(c, d, meta, now), ToLua(c, d, meta, now);
            && l.key == Keys.Build(c.sha, k) && k.dims == d.dims && k.vals == DimValues(meta, d.dims) && Keys.ValidDims(d.dims)
            && (FamilyOf(d) == Budget <==> k.LedgerSpec?) && (FamilyOf(d) == Slots <==> k.ConcSpec?)
            && (FamilyOf(d) == Buckets <==> k.BucketSpec?) && (FamilyOf(d) == Windowed <==> k.RateSpec?)
            && (k.LedgerSpec? || k.RateSpec? ==> k.winSec == d.winSec && k.b == BoundaryOf(c, d, now))
            && (k.ConcSpec? ==> k.biz == meta.biz)
  {
    hide Keys.Build, DimValues, BoundaryOf, Keys.ValidDims, RateOf;
  }

  lemma SameFieldsIs(c: Config, d: Rules.Rule, m: Meta, n: Meta)
    requires Keys.ValidDims(d.dims)
    ensures |DimValues(m, d.dims)| == |DimValues(n, d.dims)| == |d.dims|
    ensures (forall x | x in d.dims :: SameField(c.sha, m, n, x))
            <==> forall i | 0 <= i < |d.dims| :: SameCode(c.sha, DimValues(m, d.dims)[i], DimValues(n, d.dims)[i])
  {
    DimValuesAligned(m, d.dims);
    DimValuesAligned(n, d.dims);
    hide DimValues, SameCode, SameField, IsField;
    forall i | 0 <= i < |d.dims|
      ensures SameField(c.sha, m, n, d.dims[i]) <==> SameCode(c.sha, DimValues(m, d.dims)[i], DimValues(n, d.dims)[i])
    {
      SameFieldIs(c.sha, m, n, d.dims[i], DimValues(m, d.dims)[i], DimValues(n, d.dims)[i]);
    }
  }
}
