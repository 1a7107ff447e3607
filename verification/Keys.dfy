/** Redis key construction and its decoder (internal/limiter/key.go). Characters stand for bytes. */
module Keys {
  import opened Prelude

  const MAX_RAW_LEN := 48
  const DIMS: seq<string> := ["global", "biz", "path", "token", "ip", "method"]

  /** A digest to 24 hex characters; which one is never used. */
  ghost predicate IsDigest(sha: string -> string) {
    forall v :: |sha(v)| == 24 && (forall i :: 0 <= i < 24 ==> IsHex(sha(v)[i]))
  }

  predicate IsHex(c: char) { '0' <= c <= '9' || 'a' <= c <= 'f' }

  predicate Unsafe(c: char) { c in "|/ \t\r\n" }

  function SafeVal(sha: string -> string, v: string): string {
    if v == "" then "_"
    else if |v| <= MAX_RAW_LEN && (forall i :: 0 <= i < |v| ==> !Unsafe(v[i])) then v
    else "h" + sha(v)
  }

  predicate Free(c: char, s: string) { forall i :: 0 <= i < |s| ==> s[i] != c }

  function SafeVals(sha: string -> string, vals: seq<string>): (r: seq<string>)
    ensures |r| == |vals|
  {
    seq(|vals|, i requires 0 <= i < |vals| => SafeVal(sha, vals[i]))
  }

  lemma SafeValsFree(sha: string -> string, vals: seq<string>)
    requires IsDigest(sha)
    ensures forall i :: 0 <= i < |vals| ==> Free('|', SafeVals(sha, vals)[i])
  {}

  /** strings.Join with a one-character separator. */
  function Join(sep: char, parts: seq<string>): string {
    if parts == [] then ""
    else if |parts| == 1 then parts[0]
    else parts[0] + [sep] + Join(sep, parts[1..])
  }

  /** The decoder: cut at every separator. */
  function Split(sep: char, s: string): (parts: seq<string>)
    ensures parts != []
  {
    if s == "" then [""]
    else if s[0] == sep then [""] + Split(sep, s[1..])
    else
      var rest := Split(sep, s[1..]);
      [[s[0]] + rest[0]] + rest[1..]
  }

  lemma {:induction false} SplitFree(sep: char, p: string)
    requires Free(sep, p)
    ensures Split(sep, p) == [p]
  {
    if p != "" {
      SplitFree(sep, p[1..]);
      assert [p[0]] + p[1..] == p;
    }
  }

  lemma {:induction false} SplitHead(sep: char, p: string, rest: string)
    requires Free(sep, p)
    ensures Split(sep, p + [sep] + rest) == [p] + Split(sep, rest)
  {
    var s := p + [sep] + rest;
    if p == "" {
      assert s[1..] == rest;
    } else {
      SplitHead(sep, p[1..], rest);
      assert s[1..] == p[1..] + [sep] + rest;
      assert [p[0]] + p[1..] == p;
    }
  }

  lemma {:induction false} SplitJoin(sep: char, parts: seq<string>)
    requires parts != [] && forall i :: 0 <= i < |parts| ==> Free(sep, parts[i])
    ensures Split(sep, Join(sep, parts)) == parts
  {
    if |parts| == 1 {
      SplitFree(sep, parts[0]);
    } else {
      SplitHead(sep, parts[0], Join(sep, parts[1..]));
      SplitJoin(sep, parts[1..]);
    }
  }

  lemma {:induction false} JoinFree(sep: char, c: char, parts: seq<string>)
    requires c != sep && forall i :: 0 <= i < |parts| ==> Free(c, parts[i])
    ensures Free(c, Join(sep, parts))
  {
    if |parts| > 1 {
      JoinFree(sep, c, parts[1..]);
    }
  }

  // The four kinds of key, by their fields.

  function RateParts(sha: string -> string, dims: seq<string>, vals: seq<string>, winSec: int, b: int): seq<string> {
    ["rl", Join('.', dims), Join('.', SafeVals(sha, vals)), FormatInt(winSec), FormatInt(b)]
  }

  function LedgerParts(sha: string -> string, dims: seq<string>, vals: seq<string>, winSec: int, b: int): seq<string> {
    ["tk", Join('.', dims), Join('.', SafeVals(sha, vals)), FormatInt(winSec), FormatInt(b)]
  }

  function BucketParts(sha: string -> string, dims: seq<string>, vals: seq<string>): seq<string> {
    ["tb", Join('.', dims), Join('.', SafeVals(sha, vals))]
  }

  function ConcParts(sha: string -> string, biz: string, dims: seq<string>, vals: seq<string>): seq<string> {
    ["cc", SafeVal(sha, biz), Join('.', dims), Join('.', SafeVals(sha, vals))]
  }

  function RateKey(sha: string -> string, dims: seq<string>, vals: seq<string>, winSec: int, b: int): string {
    Join('|', RateParts(sha, dims, vals, winSec, b))
  }

  function TokenLedgerKey(sha: string -> string, dims: seq<string>, vals: seq<string>, winSec: int, b: int): string {
    Join('|', LedgerParts(sha, dims, vals, winSec, b))
  }

  function TokenBucketKey(sha: string -> string, dims: seq<string>, vals: seq<string>): string {
    Join('|', BucketParts(sha, dims, vals))
  }

  function ConcurrencyKey(sha: string -> string, biz: string, dims: seq<string>, vals: seq<string>): string {
    Join('|', ConcParts(sha, biz, dims, vals))
  }

  // The builders, as the source writes them: one buffer, appended to field by field.

  lemma {:induction false} JoinSnoc(sep: char, parts: seq<string>, p: string)
    requires parts != []
    ensures Join(sep, parts + [p]) == Join(sep, parts) + [sep] + p
  {
    if |parts| > 1 {
      JoinSnoc(sep, parts[1..], p);
      assert (parts + [p])[1..] == parts[1..] + [p];
    } else {
      assert (parts + [p])[1..] == [p];
    }
  }

  lemma JoinGrows(sep: char, done: seq<string>, v: string)
    ensures Join(sep, []) == ""
    ensures Join(sep, done + [v]) == if done == [] then v else Join(sep, done) + [sep] + v
  {
    if done != [] { JoinSnoc(sep, done, v); }
  }

  method WriteVals(buf: string, sha: string -> string, vals: seq<string>) returns (out: string)
    ensures out == buf + Join('.', SafeVals(sha, vals))
  {
    hide Join, SafeVal;
    out := buf;
    JoinGrows('.', [], "");
    for i := 0 to |vals|
      invariant out == buf + Join('.', SafeVals(sha, vals)[..i])
    {
      var v := SafeVal(sha, vals[i]);
      assert SafeVals(sha, vals)[..i + 1] == SafeVals(sha, vals)[..i] + [v];
      JoinGrows('.', SafeVals(sha, vals)[..i], v);
      if i > 0 { out := out + "."; }
      out := out + v;
    }
    assert SafeVals(sha, vals)[..|vals|] == SafeVals(sha, vals);
  }

  method BuildRateKey(sha: string -> string, dims: seq<string>, vals: seq<string>, winSec: int, b: int)
    returns (key: string)
    ensures key == RateKey(sha, dims, vals, winSec, b)
  {
    key := "rl" + "|" + Join('.', dims) + "|";
    key := WriteVals(key, sha, vals);
    key := key + "|" + FormatInt(winSec) + "|" + FormatInt(b);
    JoinFields(RateParts(sha, dims, vals, winSec, b));
  }

  method BuildTokenLedgerKey(sha: string -> string, dims: seq<string>, vals: seq<string>, winSec: int, b: int)
    returns (key: string)
    ensures key == TokenLedgerKey(sha, dims, vals, winSec, b)
  {
    key := "tk" + "|" + Join('.', dims) + "|";
    key := WriteVals(key, sha, vals);
    key := key + "|" + FormatInt(winSec) + "|" + FormatInt(b);
    JoinFields(LedgerParts(sha, dims, vals, winSec, b));
  }

  method BuildTokenBucketKey(sha: string -> string, dims: seq<string>, vals: seq<string>) returns (key: string)
    ensures key == TokenBucketKey(sha, dims, vals)
  {
    key := "tb" + "|" + Join('.', dims) + "|";
    key := WriteVals(key, sha, vals);
    JoinFields(BucketParts(sha, dims, vals));
  }

  method BuildConcurrencyKey(sha: string -> string, biz: string, dims: seq<string>, vals: seq<string>)
    returns (key: string)
    ensures key == ConcurrencyKey(sha, biz, dims, vals)
  {
    key := "cc" + "|" + SafeVal(sha, biz) + "|" + Join('.', dims) + "|";
    key := WriteVals(key, sha, vals);
    JoinFields(ConcParts(sha, biz, dims, vals));
  }

  lemma Join3(p: seq<string>)
    requires |p| == 3
    ensures Join('|', p) == p[0] + "|" + p[1] + "|" + p[2]
  {
    var t := p[1..];
    assert t[1..] == [p[2]] && t[0] == p[1];
    assert Join('|', t) == p[1] + ['|'] + p[2];
  }

  lemma JoinFields(p: seq<string>)
    requires 3 <= |p| <= 5
    ensures |p| == 3 ==> Join('|', p) == p[0] + "|" + p[1] + "|" + p[2]
    ensures |p| == 4 ==> Join('|', p) == p[0] + "|" + p[1] + "|" + p[2] + "|" + p[3]
    ensures |p| == 5 ==> Join('|', p) == p[0] + "|" + p[1] + "|" + p[2] + "|" + p[3] + "|" + p[4]
  {
    hide *;
    Join3(p[..3]);
    assert |p| == 3 ==> p[..3] == p;
    if |p| >= 4 {
      JoinSnoc('|', p[..3], p[3]);
      assert p[..3] + [p[3]] == p[..4] && (|p| == 4 ==> p[..4] == p);
    }
    if |p| == 5 {
      JoinSnoc('|', p[..4], p[4]);
      assert p[..4] + [p[4]] == p;
    }
  }

  // Decoding.

  predicate ValidDims(dims: seq<string>) {
    dims != [] && forall d :: d in dims ==> d in DIMS
  }

  lemma DimsFree(dims: seq<string>)
    requires ValidDims(dims)
    ensures dims != [] && forall i :: 0 <= i < |dims| ==> Free('|', dims[i]) && Free('.', dims[i])
  {
    forall i | 0 <= i < |dims| ensures Free('|', dims[i]) && Free('.', dims[i]) {
      assert dims[i] in DIMS;
    }
  }

  datatype KeySpec =
    | RateSpec(dims: seq<string>, vals: seq<string>, winSec: int, b: int)
    | LedgerSpec(dims: seq<string>, vals: seq<string>, winSec: int, b: int)
    | AdmitSpec(dims: seq<string>, vals: seq<string>, winSec: int, b: int)
    | BucketSpec(dims: seq<string>, vals: seq<string>)
    | ConcSpec(biz: string, dims: seq<string>, vals: seq<string>)
    | DegradedSpec(biz: string, dims: seq<string>, vals: seq<string>)

  /** Every key the limiter builds, including the two it derives with a suffix. */
  function Build(sha: string -> string, k: KeySpec): string {
    match k
    case RateSpec(dims, vals, winSec, b) => RateKey(sha, dims, vals, winSec, b)
    case LedgerSpec(dims, vals, winSec, b) => TokenLedgerKey(sha, dims, vals, winSec, b)
    case AdmitSpec(dims, vals, winSec, b) => TokenLedgerKey(sha, dims, vals, winSec, b) + "|admit"
    case BucketSpec(dims, vals) => TokenBucketKey(sha, dims, vals)
    case ConcSpec(biz, dims, vals) => ConcurrencyKey(sha, biz, dims, vals)
    case DegradedSpec(biz, dims, vals) => ConcurrencyKey(sha, biz, dims, vals) + "|deg"
  }

  predicate SameKind(k: KeySpec, l: KeySpec) {
    || (k.RateSpec? && l.RateSpec?) || (k.LedgerSpec? && l.LedgerSpec?) || (k.AdmitSpec? && l.AdmitSpec?)
    || (k.BucketSpec? && l.BucketSpec?) || (k.ConcSpec? && l.ConcSpec?) || (k.DegradedSpec? && l.DegradedSpec?)
  }

  /** Two keys coincide exactly when they are of one kind and agree in dimensions, window,
      boundary, encoded business domain and the dot-joined encoded values. */
  lemma KeysCoincideIff(sha: string -> string, k: KeySpec, l: KeySpec)
    requires IsDigest(sha) && ValidDims(k.dims) && ValidDims(l.dims)
    ensures Build(sha, k) == Build(sha, l) <==>
            && SameKind(k, l)
            && k.dims == l.dims
            && Join('.', SafeVals(sha, k.vals)) == Join('.', SafeVals(sha, l.vals))
            && (k.RateSpec? || k.LedgerSpec? || k.AdmitSpec? ==> k.winSec == l.winSec && k.b == l.b)
            && (k.ConcSpec? || k.DegradedSpec? ==> SafeVal(sha, k.biz) == SafeVal(sha, l.biz))
  {
    hide *;
    KeysDecode(sha, k);
    KeysDecode(sha, l);
    PartsCoincideIff(sha, k, l);
    BuildIsJoin(sha, k);
    BuildIsJoin(sha, l);
  }

  /** Two lists of fields coincide exactly when kind and every field do; dimensions are told apart by their own text. */
  lemma PartsCoincideIff(sha: string -> string, k: KeySpec, l: KeySpec)
    requires Split('.', Join('.', k.dims)) == k.dims && Split('.', Join('.', l.dims)) == l.dims
    ensures Parts(sha, k) == Parts(sha, l) <==>
            && SameKind(k, l)
            && k.dims == l.dims
            && Join('.', SafeVals(sha, k.vals)) == Join('.', SafeVals(sha, l.vals))
            && (k.RateSpec? || k.LedgerSpec? || k.AdmitSpec? ==> k.winSec == l.winSec && k.b == l.b)
            && (k.ConcSpec? || k.DegradedSpec? ==> SafeVal(sha, k.biz) == SafeVal(sha, l.biz))
  {
    var p, q := Parts(sha, k), Parts(sha, l);
    PartsShape(sha, k);
    PartsShape(sha, l);
    hide Join, SafeVal, SafeVals, FormatInt, Split, Parts;
    if p == q {
      assert |p| == |q| && p[0] == q[0] && p[1] == q[1] && p[2] == q[2];
      assert |p| > 3 ==> p[3] == q[3];
      assert |p| > 4 ==> p[4] == q[4];
      assert SameKind(k, l);
      if k.RateSpec? || k.LedgerSpec? || k.AdmitSpec? {
        FormatIntInjective(k.winSec, l.winSec);
        FormatIntInjective(k.b, l.b);
      }
    }
  }

  lemma PartsShape(sha: string -> string, k: KeySpec)
    ensures var d, v := Join('.', k.dims), Join('.', SafeVals(sha, k.vals));
            Parts(sha, k)
            == match k
               case RateSpec(_, _, winSec, b) => ["rl", d, v, FormatInt(winSec), FormatInt(b)]
               case LedgerSpec(_, _, winSec, b) => ["tk", d, v, FormatInt(winSec), FormatInt(b)]
               case AdmitSpec(_, _, winSec, b) => ["tk", d, v, FormatInt(winSec), FormatInt(b), "admit"]
               case BucketSpec(_, _) => ["tb", d, v]
               case ConcSpec(biz, _, _) => ["cc", SafeVal(sha, biz), d, v]
               case DegradedSpec(biz, _, _) => ["cc", SafeVal(sha, biz), d, v, "deg"]
  {
    hide Join, SafeVal, SafeVals, FormatInt;
  }

  function Parts(sha: string -> string, k: KeySpec): seq<string> {
    match k
    case RateSpec(dims, vals, winSec, b) => RateParts(sha, dims, vals, winSec, b)
    case LedgerSpec(dims, vals, winSec, b) => LedgerParts(sha, dims, vals, winSec, b)
    case AdmitSpec(dims, vals, winSec, b) => LedgerParts(sha, dims, vals, winSec, b) + ["admit"]
    case BucketSpec(dims, vals) => BucketParts(sha, dims, vals)
    case ConcSpec(biz, dims, vals) => ConcParts(sha, biz, dims, vals)
    case DegradedSpec(biz, dims, vals) => ConcParts(sha, biz, dims, vals) + ["deg"]
  }

  /** Cutting any built key at '|' gives back its fields, and the dimension field cut at '.' its dimensions. */
  lemma KeysDecode(sha: string -> string, k: KeySpec)
    requires IsDigest(sha) && ValidDims(k.dims)
    ensures Split('|', Build(sha, k)) == Parts(sha, k)
    ensures Split('.', Join('.', k.dims)) == k.dims
  {
    hide *;
    DimsFree(k.dims);
    SplitJoin('.', k.dims);
    PartsFree(sha, k);
    BuildIsJoin(sha, k);
    SplitJoin('|', Parts(sha, k));
  }

  lemma PartsFree(sha: string -> string, k: KeySpec)
    requires IsDigest(sha) && ValidDims(k.dims)
    ensures k.dims != [] && Parts(sha, k) != [] && forall i :: 0 <= i < |Parts(sha, k)| ==> Free('|', Parts(sha, k)[i])
  {
    DimsFree(k.dims);
    JoinFree('.', '|', k.dims);
    SafeValsFree(sha, k.vals);
    JoinFree('.', '|', SafeVals(sha, k.vals));
    PartsShape(sha, k);
    if k.ConcSpec? || k.DegradedSpec? { SafeValFree(sha, k.biz); }
    hide Join, SafeVal, SafeVals, Parts, ValidDims, IsDigest;
  }

  lemma SafeValFree(sha: string -> string, v: string)
    requires IsDigest(sha)
    ensures Free('|', SafeVal(sha, v))
  {}

  lemma BuildIsJoin(sha: string -> string, k: KeySpec)
    ensures Build(sha, k) == Join('|', Parts(sha, k))
  {
    var p := Parts(sha, k);
    hide Join, SafeVal, SafeVals, FormatInt;
    if k.AdmitSpec? || k.DegradedSpec? {
      var fields := p[..|p| - 1];
      assert p == fields + [p[|p| - 1]];
      assert k.AdmitSpec? ==> fields == LedgerParts(sha, k.dims, k.vals, k.winSec, k.b);
      assert k.DegradedSpec? ==> fields == ConcParts(sha, k.biz, k.dims, k.vals);
      JoinSnoc('|', fields, p[|p| - 1]);
      SuffixSplits(Join('|', fields));
    }
  }

  lemma SuffixSplits(base: string)
    ensures base + "|admit" == base + ['|'] + "admit"
    ensures base + "|deg" == base + ['|'] + "deg"
  {
    assert "|admit" == ['|'] + "admit" && "|deg" == ['|'] + "deg";
  }

  /** Rate keys of one rule tell window boundaries apart. */
  lemma BoundariesDiffer(sha: string -> string, dims: seq<string>, vals: seq<string>, winSec: int, b: int, b': int)
    requires IsDigest(sha) && ValidDims(dims) && b != b'
    ensures RateKey(sha, dims, vals, winSec, b) != RateKey(sha, dims, vals, winSec, b')
  {
    KeysCoincideIff(sha, RateSpec(dims, vals, winSec, b), RateSpec(dims, vals, winSec, b'));
  }
}
