/** Which dimension values a request can bring (internal/meta/extract.go), and when keys tell them apart. */
module KeyValues {
  import opened Prelude
  import opened Keys

  predicate LowerOrDigit(c: char) { 'a' <= c <= 'z' || IsDigit(c) }

  /** A character of an HTTP method: a token character of section 5.6.2 of RFC 9110. */
  predicate TokenChar(c: char) { LowerOrDigit(c) || 'A' <= c <= 'Z' || c in "!#$%&'*+-.^_`|~" }

  predicate Has(c: char, s: string) { exists i :: 0 <= i < |s| && s[i] == c }

  /** ExtractBiz: lower-case letters, digits and dashes, at most 64. */
  predicate IsBiz(v: string) { 0 < |v| <= 64 && forall i :: 0 <= i < |v| ==> LowerOrDigit(v[i]) || v[i] == '-' }

  predicate IsPath(v: string) { Has('/', v) }

  /** HashToken. */
  predicate IsToken(v: string) { v == "_" || (|v| == 24 && forall i :: 0 <= i < 24 ==> IsHex(v[i])) }

  predicate IsMethod(v: string) { v != "" && forall i :: 0 <= i < |v| ==> TokenChar(v[i]) }

  predicate IsV4(v: string) {
    |Split('.', v)| == 4 && |v| <= 15
    && forall i :: 0 <= i < 4 ==> 1 <= |Split('.', v)[i]| <= 3 && AllDigits(Split('.', v)[i])
  }

  predicate IsV6(v: string) { |v| <= 39 && Has(':', v) && forall i :: 0 <= i < |v| ==> IsHex(v[i]) || v[i] == ':' }

  /** The name of a network interface of the gateway's host. */
  predicate IsName(n: string) { 1 <= |n| <= 15 && forall i :: 0 <= i < |n| ==> LowerOrDigit(n[i]) || 'A' <= n[i] <= 'Z' || n[i] in ".-_" }

  /** The peer address of a link-local client names the interface it came in on. */
  ghost predicate IsZoned(v: string, names: set<string>) { exists b, n :: IsV6(b) && n in names && v == b + "%" + n }

  /** ExtractIP: a parsed address, or the host part of the peer address. */
  ghost predicate IsIp(v: string, names: set<string>) { IsV4(v) || IsV6(v) || IsZoned(v, names) }

  ghost predicate IsValueOf(d: string, v: string, names: set<string>) {
    match d
    case "global" => v == "_"
    case "biz" => IsBiz(v)
    case "path" => IsPath(v)
    case "token" => IsToken(v)
    case "ip" => IsIp(v, names)
    case "method" => IsMethod(v)
    case _ => false
  }

  ghost predicate Received(dims: seq<string>, vals: seq<string>, names: set<string>) {
    |vals| == |dims| && forall i :: 0 <= i < |dims| ==> IsValueOf(dims[i], vals[i], names)
  }

  predicate NoDuplicates(dims: seq<string>) { forall i, j :: 0 <= i < j < |dims| ==> dims[i] != dims[j] }

  // Cutting a joined field into components.

  lemma {:induction false} SplitJoined(a: string, b: string)
    ensures Split('.', a + "." + b) == Split('.', a) + Split('.', b)
  {
    var s := a + "." + b;
    if a == "" {
      assert s == "." + b && s[1..] == b;
    } else {
      assert s[1..] == a[1..] + "." + b;
      SplitJoined(a[1..], b);
    }
  }

  lemma {:induction false} JoinSplit(s: string)
    ensures Join('.', Split('.', s)) == s
  {
    if s != "" {
      var rest := Split('.', s[1..]);
      JoinSplit(s[1..]);
      if s[0] == '.' {
        assert ([""] + rest)[1..] == rest;
        assert Join('.', [""] + rest) == "" + "." + s[1..];
      } else {
        assert ([[s[0]] + rest[0]] + rest[1..])[1..] == rest[1..];
        if |rest| > 1 {
          assert Join('.', rest) == rest[0] + "." + Join('.', rest[1..]);
        }
      }
    }
  }

  /** The components of all values in a row. */
  function Flat(es: seq<string>): seq<string> {
    if es == [] then [] else Flat(es[..|es| - 1]) + Split('.', es[|es| - 1])
  }

  lemma {:induction false} SplitFlat(es: seq<string>)
    requires es != []
    ensures Split('.', Join('.', es)) == Flat(es)
  {
    var n := |es| - 1;
    if n == 0 {
      assert es[..0] == [];
    } else {
      SplitFlat(es[..n]);
      assert es == es[..n] + [es[n]];
      JoinSnoc('.', es[..n], es[n]);
      SplitJoined(Join('.', es[..n]), es[n]);
    }
  }

  /** Where the components of value `i` are. */
  lemma {:induction false} FlatAt(es: seq<string>, i: nat)
    requires i < |es|
    ensures var k := |Flat(es[..i])|;
            && k + |Split('.', es[i])| == |Flat(es[..i + 1])| <= |Flat(es)|
            && Flat(es)[k..k + |Split('.', es[i])|] == Split('.', es[i])
            && Flat(es)[..k] == Flat(es[..i])
  {
    assert es[..i + 1][..i] == es[..i];
    if i + 1 == |es| {
      assert es[..i + 1] == es;
    } else {
      var n := |es| - 1;
      assert es[..n][..i + 1] == es[..i + 1] && es[..n][..i] == es[..i];
      FlatAt(es[..n], i);
    }
  }

  lemma FlatLast(es: seq<string>)
    requires es != []
    ensures Flat(es) == Flat(es[..|es| - 1]) + Split('.', es[|es| - 1])
  {
    hide Split;
  }

  lemma SameTails(a: seq<string>, b: seq<string>, c: seq<string>, d: seq<string>)
    requires a + b == c + d && |b| == |d|
    ensures a == c && b == d
  {
    assert a == (a + b)[..|a|] && c == (c + d)[..|c|] && b == (a + b)[|a|..] && d == (c + d)[|c|..];
  }

  /** The same components, the same number of them for each value: the same values. */
  lemma {:induction false} SameCounts(us: seq<string>, vs: seq<string>)
    requires |us| == |vs| && Flat(us) == Flat(vs)
    requires forall i :: 0 <= i < |us| ==> |Split('.', us[i])| == |Split('.', vs[i])|
    ensures us == vs
  {
    hide *;
    if us != [] {
      var n := |us| - 1;
      FlatLast(us);
      FlatLast(vs);
      SameTails(Flat(us[..n]), Split('.', us[n]), Flat(vs[..n]), Split('.', vs[n]));
      SameCounts(us[..n], vs[..n]);
      JoinSplit(us[n]);
      JoinSplit(vs[n]);
      assert us == us[..n] + [us[n]] && vs == vs[..n] + [vs[n]];
    }
  }

  /** How many more components the first `i` values of `us` have than those of `vs`. */
  function Ahead(us: seq<string>, vs: seq<string>, i: nat): int
    requires i <= |us| && i <= |vs|
  {
    |Flat(us[..i])| - |Flat(vs[..i])|
  }

  lemma {:induction false} AheadOf(us: seq<string>, vs: seq<string>, i: nat, j: nat)
    requires i <= j <= |us| == |vs|
    requires forall k :: i <= k < j ==> |Split('.', us[k])| == |Split('.', vs[k])|
    ensures Ahead(us, vs, j) == Ahead(us, vs, i)
    decreases j - i
  {
    if i < j {
      FlatAt(us, i);
      FlatAt(vs, i);
      hide Split, Flat;
      AheadOf(us, vs, i + 1, j);
    }
  }

  lemma AheadStep(us: seq<string>, vs: seq<string>, i: nat)
    requires i < |us| == |vs|
    ensures Ahead(us, vs, i + 1) == Ahead(us, vs, i) + |Split('.', us[i])| - |Split('.', vs[i])|
  {
    FlatAt(us, i);
    FlatAt(vs, i);
    hide Split;
  }

  /** Where all values but one have as many components, so has that one. */
  lemma OneUnknown(us: seq<string>, vs: seq<string>, x: nat)
    requires |us| == |vs| && Flat(us) == Flat(vs)
    requires forall i :: 0 <= i < |us| && i != x ==> |Split('.', us[i])| == |Split('.', vs[i])|
    ensures us == vs
  {
    if x < |us| {
      AheadOf(us, vs, 0, x);
      AheadStep(us, vs, x);
      AheadOf(us, vs, x + 1, |us|);
      assert us[..0] == vs[..0] && us[..|us|] == us && vs[..|vs|] == vs;
    }
    SameCounts(us, vs);
  }

  // The shape of an encoded value.

  lemma HashShape(sha: string -> string, v: string)
    requires IsDigest(sha)
    ensures var e := SafeVal(sha, v);
            e == v || (v == "" && e == "_") || (|e| == 25 && Free('.', e) && Free(':', e))
  {
    assert forall i :: 0 <= i < 24 ==> IsHex(sha(v)[i]);
    assert forall i :: 0 <= i < |"h" + sha(v)| ==> ("h" + sha(v))[i] == 'h' || IsHex(("h" + sha(v))[i]);
  }

  /** Domains, paths and tokens are one component, and only addresses hold a colon. */
  lemma PlainShape(sha: string -> string, d: string, v: string, names: set<string>)
    requires IsDigest(sha) && IsValueOf(d, v, names) && d != "ip"
    ensures Free(':', SafeVal(sha, v))
    ensures d != "method" ==> |Split('.', SafeVal(sha, v))| == 1
  {
    var e := SafeVal(sha, v);
    HashShape(sha, v);
    if d != "method" {
      assert Free('.', e);
      SplitFree('.', e);
    }
  }

  lemma {:induction false} SplitFrom(p: string, s: string)
    requires Free('.', p)
    ensures Split('.', p + s) == [p + Split('.', s)[0]] + Split('.', s)[1..]
  {
    if p == "" {
      assert p + s == s && p + Split('.', s)[0] == Split('.', s)[0];
    } else {
      assert (p + s)[1..] == p[1..] + s;
      SplitFrom(p[1..], s);
      assert [p[0]] + (p[1..] + Split('.', s)[0]) == p + Split('.', s)[0];
    }
  }

  /** An encoded address: four short components, one long one, or one that starts with an unhashed IPv6 address. */
  lemma IpShape(sha: string -> string, v: string, names: set<string>)
    requires IsDigest(sha) && IsIp(v, names) && forall n :: n in names ==> IsName(n)
    ensures var e := SafeVal(sha, v);
            var c := Split('.', e);
            if Free(':', e) then FourOrOne(c)
            else e == v && (IsV6(v) || IsZoned(v, names)) && !Free(':', c[0])
  {
    var e := SafeVal(sha, v);
    if IsV4(v) {
      V4Shape(sha, v);
    } else if IsV6(v) {
      V6Shape(v);
      HashShape(sha, v);
      SplitFree('.', e);
    } else {
      var b, n :| IsV6(b) && n in names && v == b + "%" + n;
      V6Shape(b);
      HashShape(sha, v);
      if e == v {
        assert v == (b + "%") + n;
        SplitFrom(b + "%", n);
        var i :| 0 <= i < |b| && b[i] == ':';
        var x := (b + "%") + Split('.', n)[0];
        assert x[i] == ':';
        assert Split('.', e)[0] == x && v[i] == ':';
      } else {
        SplitFree('.', e);
      }
    }
  }

  lemma V4Shape(sha: string -> string, v: string)
    requires IsV4(v)
    ensures SafeVal(sha, v) == v && Free(':', v)
  {
    DigitsAndDots(v);
    assert v != "" by { assert Split('.', "") == [""]; }
  }

  lemma {:induction false} DigitsAndDots(v: string)
    requires forall i :: 0 <= i < |Split('.', v)| ==> AllDigits(Split('.', v)[i])
    ensures forall i :: 0 <= i < |v| ==> IsDigit(v[i]) || v[i] == '.'
  {
    if v != "" {
      var rest := Split('.', v[1..]);
      var c := Split('.', v);
      if v[0] == '.' {
        assert forall i :: 0 <= i < |rest| ==> rest[i] == c[i + 1];
      } else {
        assert c[0] == [v[0]] + rest[0];
        assert forall i :: 0 <= i < |rest[0]| ==> rest[0][i] == c[0][i + 1];
        assert forall i :: 1 <= i < |rest| ==> rest[i] == c[i];
        assert IsDigit(c[0][0]);
        assert AllDigits(rest[0]);
      }
      DigitsAndDots(v[1..]);
    }
  }

  lemma V6Shape(v: string)
    requires IsV6(v)
    ensures Free('.', v) && Free('%', v) && !Free(':', v) && v != ""
  {}

  // Decoding.

  /** Some name continues another after a dot, as a VLAN interface's does its parent's. */
  predicate Extends(names: set<string>) { exists m, n | m in names && n in names :: m + "." <= n }

  lemma {:induction false} FlatFree(es: seq<string>)
    requires forall i :: 0 <= i < |es| ==> Free(':', es[i])
    ensures forall j :: 0 <= j < |Flat(es)| ==> Free(':', Flat(es)[j])
  {
    if es != [] {
      var n := |es| - 1;
      FlatFree(es[..n]);
      SplitKeepsFree(es[n]);
    }
  }

  lemma {:induction false} SplitKeepsFree(s: string)
    requires Free(':', s)
    ensures forall j :: 0 <= j < |Split('.', s)| ==> Free(':', Split('.', s)[j])
  {
    if s != "" { SplitKeepsFree(s[1..]); }
  }

  /** A value whose components begin with all of another's, and more, continues it after a dot. */
  lemma {:induction false} LongerContinues(u: string, v: string)
    requires |Split('.', v)| < |Split('.', u)| && Split('.', u)[..|Split('.', v)|] == Split('.', v)
    ensures v + "." <= u
  {
    var c, n := Split('.', u), |Split('.', v)|;
    JoinSplit(u);
    JoinSplit(v);
    JoinParts(c, n);
  }

  lemma {:induction false} JoinParts(c: seq<string>, n: nat)
    requires 0 < n < |c|
    ensures Join('.', c) == Join('.', c[..n]) + "." + Join('.', c[n..])
  {
    if n == 1 {
      assert c[..1] == [c[0]];
    } else {
      JoinParts(c[1..], n - 1);
      assert c[1..][..n - 1] == c[..n][1..] && c[1..][n - 1..] == c[n..];
    }
  }

  /** Among received addresses only a name that continues another makes one continue another. */
  lemma AddressContinues(u: string, v: string, names: set<string>)
    requires (IsV6(u) || IsZoned(u, names)) && (IsV6(v) || IsZoned(v, names)) && v + "." <= u
    ensures Extends(names)
  {
    assert u[|v|] == '.';
    if IsV6(u) {
      V6Shape(u);
    } else {
      var b, n :| IsV6(b) && n in names && u == b + "%" + n;
      V6Shape(b);
      if IsV6(v) {
        V6Shape(v);
        NoDotBefore(b, n, v);
      } else {
        var b', m :| IsV6(b') && m in names && v == b' + "%" + m;
        V6Shape(b');
        SamePercent(b, n, b', m + ".", u);
        assert m + "." <= n;
      }
    }
  }

  lemma NoDotBefore(b: string, n: string, v: string)
    requires Free('.', b) && Free('%', b) && Free('%', v)
    ensures !(v + "." <= b + "%" + n)
  {
    var u, w := b + "%" + n, v + ".";
    assert w[|v|] == '.' && u[|b|] == '%';
    assert |v| < |b| ==> u[|v|] == b[|v|];
    assert |v| > |b| ==> w[|b|] == v[|b|];
  }

  lemma SamePercent(b: string, n: string, b': string, m: string, u: string)
    requires Free('%', b) && Free('%', b') && u == b + "%" + n && b' + "%" + m <= u
    ensures b == b' && m <= n
  {
    assert u[|b|] == '%' && u[|b'|] == (b' + "%" + m)[|b'|] == '%';
    assert forall i :: 0 <= i < |b| ==> u[i] == b[i];
    assert forall i :: 0 <= i < |b'| ==> u[i] == (b' + "%" + m)[i] == b'[i];
    assert |b| == |b'|;
    assert b == u[..|b|] && b' == u[..|b|];
    assert n == u[|b| + 1..] && m == (b' + "%" + m)[|b| + 1..];
  }

  /** Two requests' encoded values in the same dimensions, joined alike. */
  ghost predicate Alike(sha: string -> string, dims: seq<string>, u: seq<string>, v: seq<string>, names: set<string>) {
    && IsDigest(sha) && dims != [] && NoDuplicates(dims) && (forall n :: n in names ==> IsName(n))
    && Received(dims, u, names) && Received(dims, v, names)
    && Flat(SafeVals(sha, u)) == Flat(SafeVals(sha, v))
  }

  lemma PlainAt(sha: string -> string, dims: seq<string>, u: seq<string>, v: seq<string>, names: set<string>, i: nat)
    requires Alike(sha, dims, u, v, names) && i < |dims|
    ensures |u| == |v| == |dims|
    ensures dims[i] != "ip" ==> Free(':', SafeVals(sha, u)[i]) && Free(':', SafeVals(sha, v)[i])
    ensures dims[i] !in ["ip", "method"] ==> |Split('.', SafeVals(sha, u)[i])| == 1 == |Split('.', SafeVals(sha, v)[i])|
  {
    if dims[i] != "ip" {
      PlainShape(sha, dims[i], u[i], names);
      PlainShape(sha, dims[i], v[i], names);
    }
    hide Split, SafeVal, Free, IsValueOf;
  }

  lemma IpAt(sha: string -> string, dims: seq<string>, u: seq<string>, names: set<string>, p: nat)
    requires IsDigest(sha) && (forall n :: n in names ==> IsName(n)) && Received(dims, u, names) && p < |dims| && dims[p] == "ip"
    ensures |u| == |dims|
    ensures var e := SafeVals(sha, u)[p];
            var c := Split('.', e);
            if Free(':', e) then FourOrOne(c)
            else e == u[p] && (IsV6(e) || IsZoned(e, names)) && !Free(':', c[0])
  {
    IpShape(sha, u[p], names);
    hide Split, SafeVal, Free, IsV6, IsZoned;
  }

  /** The values up to `i` have as many components in both. */
  lemma SameBefore(sha: string -> string, dims: seq<string>, u: seq<string>, v: seq<string>, names: set<string>, i: nat)
    requires Alike(sha, dims, u, v, names) && i <= |dims| && forall k :: 0 <= k < i ==> dims[k] !in ["ip", "method"]
    ensures |u| == |v| == |dims| && Ahead(SafeVals(sha, u), SafeVals(sha, v), i) == 0
  {
    var us, vs := SafeVals(sha, u), SafeVals(sha, v);
    forall k | 0 <= k < i ensures |Split('.', us[k])| == |Split('.', vs[k])| { PlainAt(sha, dims, u, v, names, k); }
    hide Split, Flat, SafeVal;
    AheadOf(us, vs, 0, i);
    assert us[..0] == vs[..0];
  }

  /** And so have the values from `i` on. */
  lemma SameAfter(sha: string -> string, dims: seq<string>, u: seq<string>, v: seq<string>, names: set<string>, i: nat)
    requires Alike(sha, dims, u, v, names) && i <= |dims| && forall k :: i <= k < |dims| ==> dims[k] !in ["ip", "method"]
    ensures |u| == |v| == |dims| && Ahead(SafeVals(sha, u), SafeVals(sha, v), i) == 0
  {
    var us, vs := SafeVals(sha, u), SafeVals(sha, v);
    forall k | i <= k < |dims| ensures |Split('.', us[k])| == |Split('.', vs[k])| { PlainAt(sha, dims, u, v, names, k); }
    hide Split, Flat, SafeVal;
    AheadOf(us, vs, i, |dims|);
    assert us[..|us|] == us && vs[..|vs|] == vs;
  }

  /** It is enough to know that address or method have as many components in both. */
  lemma KnownOne(sha: string -> string, dims: seq<string>, u: seq<string>, v: seq<string>, names: set<string>, p: nat, m: nat)
    requires Alike(sha, dims, u, v, names)
    requires p < |dims| ==> |u| == |v| == |dims| && |Split('.', SafeVals(sha, u)[p])| == |Split('.', SafeVals(sha, v)[p])|
    requires forall i :: 0 <= i < |dims| && i != p && i != m ==> dims[i] !in ["ip", "method"]
    ensures SafeVals(sha, u) == SafeVals(sha, v)
  {
    var us, vs := SafeVals(sha, u), SafeVals(sha, v);
    forall i | 0 <= i < |us| && i != m ensures |Split('.', us[i])| == |Split('.', vs[i])| {
      if i != p { PlainAt(sha, dims, u, v, names, i); }
    }
    hide Split, Flat, SafeVal;
    OneUnknown(us, vs, m);
  }

  /** A colon anywhere means the address is an unhashed IPv6 one, in both or in neither. */
  lemma ColonInBoth(sha: string -> string, dims: seq<string>, u: seq<string>, v: seq<string>, names: set<string>, p: nat)
    requires Alike(sha, dims, u, v, names) && p < |dims| && dims[p] == "ip" && |u| == |v| == |dims|
    requires !Free(':', SafeVals(sha, u)[p])
    ensures !Free(':', SafeVals(sha, v)[p])
  {
    var us, vs := SafeVals(sha, u), SafeVals(sha, v);
    IpAt(sha, dims, u, names, p);
    FlatAt(us, p);
    var k := |Flat(us[..p])|;
    assert Flat(us)[k] == Split('.', us[p])[0] by { assert Flat(us)[k..k + |Split('.', us[p])|][0] == Flat(us)[k]; }
    forall i | 0 <= i < |vs| && i != p ensures Free(':', vs[i]) { OtherPlain(sha, dims, u, v, names, p, i); }
    hide Split, Flat, SafeVal, Free;
    if Free(':', vs[p]) {
      FlatFree(vs);
      assert false;
    }
  }

  lemma OtherPlain(sha: string -> string, dims: seq<string>, u: seq<string>, v: seq<string>, names: set<string>, p: nat, i: nat)
    requires Alike(sha, dims, u, v, names) && p < |dims| && dims[p] == "ip" && i < |dims| && i != p
    ensures |u| == |v| == |dims| && dims[i] != "ip" && Free(':', SafeVals(sha, u)[i]) && Free(':', SafeVals(sha, v)[i])
  {
    PlainAt(sha, dims, u, v, names, i);
  }

  /** Where the first colon is. */
  lemma ColonPlace(sha: string -> string, dims: seq<string>, u: seq<string>, v: seq<string>, names: set<string>, p: nat)
    requires Alike(sha, dims, u, v, names) && p < |dims| && dims[p] == "ip" && |u| == |v| == |dims|
    requires !Free(':', SafeVals(sha, u)[p])
    ensures var us := SafeVals(sha, u);
            var k := |Flat(us[..p])|;
            && k < |Flat(us)| && !Free(':', Flat(us)[k]) && forall j :: 0 <= j < k ==> Free(':', Flat(us)[j])
  {
    var us := SafeVals(sha, u);
    var k := |Flat(us[..p])|;
    IpAt(sha, dims, u, names, p);
    FlatAt(us, p);
    assert Flat(us)[k] == Split('.', us[p])[0] by { assert Flat(us)[k..k + |Split('.', us[p])|][0] == Flat(us)[k]; }
    forall i | 0 <= i < p ensures Free(':', us[..p][i]) { OtherPlain(sha, dims, u, v, names, p, i); }
    hide Split, Flat, SafeVal, Free;
    FlatFree(us[..p]);
    forall j | 0 <= j < k ensures Free(':', Flat(us)[j]) { assert Flat(us)[j] == Flat(us)[..k][j]; }
  }

  /** Where the components of the addresses start or end at one place, the addresses have as many of them. */
  lemma SameAddressCount(sha: string -> string, dims: seq<string>, u: seq<string>, v: seq<string>, names: set<string>, p: nat)
    requires Alike(sha, dims, u, v, names) && p < |dims| && dims[p] == "ip" && |u| == |v| == |dims|
    requires Free(':', SafeVals(sha, u)[p]) && Free(':', SafeVals(sha, v)[p])
    requires Ahead(SafeVals(sha, u), SafeVals(sha, v), p) == 0 || Ahead(SafeVals(sha, u), SafeVals(sha, v), p + 1) == 0
    ensures |Split('.', SafeVals(sha, u)[p])| == |Split('.', SafeVals(sha, v)[p])|
  {
    AlikeLengths(sha, dims, u, v, names);
    var us, vs := SafeVals(sha, u), SafeVals(sha, v);
    AheadAt(us, vs, p);
    assert Flat(us) == Flat(vs) && forall n :: n in names ==> IsName(n);
    assert Received(dims, u, names) && Received(dims, v, names);
    hide *;
    IpAt(sha, dims, u, names, p);
    IpAt(sha, dims, v, names, p);
    Ends(us, p);
    Ends(vs, p);
    var c, d := Split('.', us[p]), Split('.', vs[p]);
    CountByEnds(c, d);
  }

  lemma AheadAt(us: seq<string>, vs: seq<string>, p: nat)
    requires p < |us| == |vs|
    ensures Ahead(us, vs, p) == |Flat(us[..p])| - |Flat(vs[..p])|
    ensures Ahead(us, vs, p + 1) == |Flat(us[..p + 1])| - |Flat(vs[..p + 1])|
  {}

  predicate FourOrOne(c: seq<string>) { (|c| == 4 && |c[0]| <= 3 && |c[3]| <= 3) || (|c| == 1 && |c[0]| == 25) }

  lemma CountByEnds(c: seq<string>, d: seq<string>)
    requires FourOrOne(c) && FourOrOne(d) && (c[0] == d[0] || c[|c| - 1] == d[|d| - 1])
    ensures |c| == |d|
  {}

  lemma Ends(es: seq<string>, p: nat)
    requires p < |es|
    ensures var k, n := |Flat(es[..p])|, |Flat(es[..p + 1])|;
            && k < n <= |Flat(es)| && n == k + |Split('.', es[p])|
            && Flat(es)[k] == Split('.', es[p])[0] && Flat(es)[n - 1] == Split('.', es[p])[|Split('.', es[p])| - 1]
  {
    FlatAt(es, p);
    var k, c := |Flat(es[..p])|, Split('.', es[p]);
    hide Split, Flat;
    assert Flat(es)[k..k + |c|][0] == Flat(es)[k] && Flat(es)[k..k + |c|][|c| - 1] == Flat(es)[k + |c| - 1];
  }

  /** Addresses that start at one place and hold colons: if one has more components, it continues the other. */
  lemma Continues(sha: string -> string, dims: seq<string>, u: seq<string>, v: seq<string>, names: set<string>, p: nat)
    requires Alike(sha, dims, u, v, names) && p < |dims| && dims[p] == "ip" && |u| == |v| == |dims|
    requires !Free(':', SafeVals(sha, u)[p]) && !Free(':', SafeVals(sha, v)[p])
    requires Ahead(SafeVals(sha, u), SafeVals(sha, v), p) == 0 && |Split('.', SafeVals(sha, v)[p])| < |Split('.', SafeVals(sha, u)[p])|
    ensures Extends(names)
  {
    hide *;
    var us, vs := SafeVals(sha, u), SafeVals(sha, v);
    AlikeParts(sha, dims, u, v, names);
    IpAt(sha, dims, u, names, p);
    IpAt(sha, dims, v, names, p);
    FlatAt(us, p);
    FlatAt(vs, p);
    AheadIs(us, vs, p);
    var k, a, b := |Flat(us[..p])|, Split('.', us[p]), Split('.', vs[p]);
    SliceFront(Flat(us), k, |a|, |b|);
    assert a[..|b|] == b;
    LongerContinues(us[p], vs[p]);
    AddressContinues(us[p], vs[p], names);
  }

  lemma SliceFront(es: seq<string>, k: nat, n: nat, m: nat)
    requires m <= n && k + n <= |es|
    ensures es[k..k + n][..m] == es[k..k + m]
  {}

  lemma AlikeParts(sha: string -> string, dims: seq<string>, u: seq<string>, v: seq<string>, names: set<string>)
    requires Alike(sha, dims, u, v, names)
    ensures IsDigest(sha) && (forall n :: n in names ==> IsName(n)) && Received(dims, u, names) && Received(dims, v, names)
    ensures NoDuplicates(dims) && Flat(SafeVals(sha, u)) == Flat(SafeVals(sha, v))
  {
    hide Flat, SafeVals, Received, IsName, IsDigest, NoDuplicates;
  }

  lemma AheadIs(us: seq<string>, vs: seq<string>, p: nat)
    requires p <= |us| && p <= |vs| && Ahead(us, vs, p) == 0
    ensures |Flat(us[..p])| == |Flat(vs[..p])|
  {}

  lemma AlikeSwap(sha: string -> string, dims: seq<string>, u: seq<string>, v: seq<string>, names: set<string>)
    requires Alike(sha, dims, u, v, names)
    ensures Alike(sha, dims, v, u, names)
  {}

  lemma Others(dims: seq<string>, p: nat, m: nat)
    requires NoDuplicates(dims) && p < |dims| && m < |dims| && dims[p] == "ip" && dims[m] == "method"
    ensures forall i :: 0 <= i < |dims| && i != p && i != m ==> dims[i] !in ["ip", "method"]
  {}

  /** Outside address and method, a stretch has as many components in both. */
  lemma SameStretch(sha: string -> string, dims: seq<string>, u: seq<string>, v: seq<string>, names: set<string>, i: nat, j: nat)
    requires Alike(sha, dims, u, v, names) && i <= j <= |dims| == |u| == |v|
    requires forall k :: i <= k < j ==> dims[k] !in ["ip", "method"]
    ensures Ahead(SafeVals(sha, u), SafeVals(sha, v), j) == Ahead(SafeVals(sha, u), SafeVals(sha, v), i)
  {
    var us, vs := SafeVals(sha, u), SafeVals(sha, v);
    forall k | i <= k < j ensures |Split('.', us[k])| == |Split('.', vs[k])| { PlainAt(sha, dims, u, v, names, k); }
    hide Split, Flat, SafeVal;
    AheadOf(us, vs, i, j);
  }

  /** Addresses with a colon start at one place. */
  lemma ColonAligned(sha: string -> string, dims: seq<string>, u: seq<string>, v: seq<string>, names: set<string>, p: nat)
    requires Alike(sha, dims, u, v, names) && p < |dims| && dims[p] == "ip" && |u| == |v| == |dims|
    requires !Free(':', SafeVals(sha, u)[p]) && !Free(':', SafeVals(sha, v)[p])
    ensures Ahead(SafeVals(sha, u), SafeVals(sha, v), p) == 0
  {
    ColonPlace(sha, dims, u, v, names, p);
    AlikeSwap(sha, dims, u, v, names);
    ColonPlace(sha, dims, v, u, names, p);
    assert Flat(SafeVals(sha, u)) == Flat(SafeVals(sha, v));
    hide Split, Flat, SafeVal, Free;
  }

  /** The first of address and method has as many components in both. */
  lemma FirstCount(sha: string -> string, dims: seq<string>, u: seq<string>, v: seq<string>, names: set<string>, p: nat, m: nat)
    requires Alike(sha, dims, u, v, names) && !Extends(names) && |u| == |v| == |dims|
    requires p < |dims| && m < |dims| && dims[p] == "ip" && dims[m] == "method"
    requires Free(':', SafeVals(sha, u)[p]) <==> Free(':', SafeVals(sha, v)[p])
    ensures |Split('.', SafeVals(sha, u)[p])| == |Split('.', SafeVals(sha, v)[p])|
         || |Split('.', SafeVals(sha, u)[m])| == |Split('.', SafeVals(sha, v)[m])|
  {
    hide *;
    var us, vs := SafeVals(sha, u), SafeVals(sha, v);
    AlikeParts(sha, dims, u, v, names);
    Others(dims, p, m);
    var plain := Free(':', us[p]);
    if p < m {
      SameBefore(sha, dims, u, v, names, p);
      if plain {
        SameAddressCount(sha, dims, u, v, names, p);
      } else {
        SameColonCount(sha, dims, u, v, names, p);
      }
    } else if plain {
      SameAfter(sha, dims, u, v, names, p + 1);
      SameAddressCount(sha, dims, u, v, names, p);
    } else {
      ColonAligned(sha, dims, u, v, names, p);
      SameBefore(sha, dims, u, v, names, m);
      AheadStep(us, vs, m);
      SameStretch(sha, dims, u, v, names, m + 1, p);
    }
  }

  lemma SameColonCount(sha: string -> string, dims: seq<string>, u: seq<string>, v: seq<string>, names: set<string>, p: nat)
    requires Alike(sha, dims, u, v, names) && !Extends(names) && p < |dims| && dims[p] == "ip" && |u| == |v| == |dims|
    requires !Free(':', SafeVals(sha, u)[p]) && !Free(':', SafeVals(sha, v)[p])
    requires Ahead(SafeVals(sha, u), SafeVals(sha, v), p) == 0
    ensures |Split('.', SafeVals(sha, u)[p])| == |Split('.', SafeVals(sha, v)[p])|
  {
    AlikeSwap(sha, dims, u, v, names);
    AheadSwap(SafeVals(sha, u), SafeVals(sha, v), p);
    hide *;
    if |Split('.', SafeVals(sha, v)[p])| < |Split('.', SafeVals(sha, u)[p])| {
      Continues(sha, dims, u, v, names, p);
    }
    if |Split('.', SafeVals(sha, u)[p])| < |Split('.', SafeVals(sha, v)[p])| {
      Continues(sha, dims, v, u, names, p);
    }
  }

  lemma AheadSwap(us: seq<string>, vs: seq<string>, i: nat)
    requires i <= |us| && i <= |vs|
    ensures Ahead(vs, us, i) == -Ahead(us, vs, i)
  {}

  /** With address and method among the dimensions. */
  lemma AddressDecides(sha: string -> string, dims: seq<string>, u: seq<string>, v: seq<string>, names: set<string>, p: nat, m: nat)
    requires Alike(sha, dims, u, v, names) && !Extends(names) && |u| == |v| == |dims|
    requires p < |dims| && m < |dims| && dims[p] == "ip" && dims[m] == "method"
    ensures SafeVals(sha, u) == SafeVals(sha, v)
  {
    AlikeSwap(sha, dims, u, v, names);
    AlikeLengths(sha, dims, u, v, names);
    Others(dims, p, m);
    hide *;
    if !Free(':', SafeVals(sha, u)[p]) { ColonInBoth(sha, dims, u, v, names, p); }
    if !Free(':', SafeVals(sha, v)[p]) { ColonInBoth(sha, dims, v, u, names, p); }
    FirstCount(sha, dims, u, v, names, p, m);
    if |Split('.', SafeVals(sha, u)[p])| == |Split('.', SafeVals(sha, v)[p])| {
      KnownOne(sha, dims, u, v, names, p, m);
    } else {
      KnownOne(sha, dims, u, v, names, m, p);
    }
  }

  /** Without a name that continues another, equal joined values force equal encoded values. */
  lemma AlikeSame(sha: string -> string, dims: seq<string>, u: seq<string>, v: seq<string>, names: set<string>)
    requires Alike(sha, dims, u, v, names) && !Extends(names)
    ensures SafeVals(sha, u) == SafeVals(sha, v)
  {
    hide *;
    AlikeLengths(sha, dims, u, v, names);
    if "ip" !in dims || "method" !in dims {
      var m := Index(dims, if "ip" in dims then "ip" else "method");
      KnownOne(sha, dims, u, v, names, |dims|, m);
    } else {
      var p, m := Index(dims, "ip"), Index(dims, "method");
      AddressDecides(sha, dims, u, v, names, p, m);
    }
  }

  lemma AlikeLengths(sha: string -> string, dims: seq<string>, u: seq<string>, v: seq<string>, names: set<string>)
    requires Alike(sha, dims, u, v, names)
    ensures |u| == |v| == |dims| && NoDuplicates(dims) && IsDigest(sha)
  {}

  /** A key of a validated rule and a received request. */
  ghost predicate Possible(k: KeySpec, names: set<string>) {
    ValidDims(k.dims) && NoDuplicates(k.dims) && Received(k.dims, k.vals, names)
  }

  /** No two requests share a key without sharing every encoded value. */
  ghost predicate Injective(sha: string -> string, names: set<string>) {
    forall k, l :: Possible(k, names) && Possible(l, names) && Build(sha, k) == Build(sha, l)
                   ==> SafeVals(sha, k.vals) == SafeVals(sha, l.vals)
  }

  /**
   * Every encoded value decodes from the key, for every validated rule and every two requests that can be
   * received, exactly when no interface name continues another after a dot.
   */
  lemma InjectiveIff(sha: string -> string, names: set<string>)
    requires IsDigest(sha) && forall n :: n in names ==> IsName(n)
    ensures Injective(sha, names) <==> !Extends(names)
  {
    if Extends(names) {
      var m, n :| m in names && n in names && m + "." <= n;
      NamesCollide(sha, names, m, n);
      var k, l := NameClash(m, n).0, NameClash(m, n).1;
      assert Possible(k, names) && Possible(l, names);
    } else {
      forall k, l | Possible(k, names) && Possible(l, names) && Build(sha, k) == Build(sha, l)
        ensures SafeVals(sha, k.vals) == SafeVals(sha, l.vals)
      {
        SameKeySameValues(sha, names, k, l);
      }
    }
  }

  lemma SameKeySameValues(sha: string -> string, names: set<string>, k: KeySpec, l: KeySpec)
    requires IsDigest(sha) && (forall n :: n in names ==> IsName(n)) && !Extends(names)
    requires Possible(k, names) && Possible(l, names) && Build(sha, k) == Build(sha, l)
    ensures SafeVals(sha, k.vals) == SafeVals(sha, l.vals)
  {
    KeysCoincideIff(sha, k, l);
    assert |k.vals| == |k.dims| > 0 && |l.vals| == |l.dims| > 0;
    SplitFlat(SafeVals(sha, k.vals));
    SplitFlat(SafeVals(sha, l.vals));
    hide Build, Split, Flat, SafeVals, Join, Extends;
    assert Alike(sha, k.dims, k.vals, l.vals, names);
    AlikeSame(sha, k.dims, k.vals, l.vals, names);
  }

  function NameClash(m: string, n: string): (KeySpec, KeySpec)
    requires m + "." <= n
  {
    (RateSpec(["ip", "method"], ["fe80::1%" + n, "GET"], 60, 0),
     RateSpec(["ip", "method"], ["fe80::1%" + m, n[|m| + 1..] + ".GET"], 60, 0))
  }

  /** A link-local client on a VLAN interface, and one on its parent that sends a method with a dot in it. */
  lemma NamesCollide(sha: string -> string, names: set<string>, m: string, n: string)
    requires IsDigest(sha) && m in names && n in names && IsName(m) && IsName(n) && m + "." <= n
    ensures var (k, l) := NameClash(m, n);
            Possible(k, names) && Possible(l, names) && Build(sha, k) == Build(sha, l)
            && SafeVals(sha, k.vals) != SafeVals(sha, l.vals)
  {
    var r := n[|m| + 1..];
    assert n == m + "." + r;
    NamedValues(names, m, n, r);
    NamesPossible(names, "fe80::1%" + n, "GET");
    NamesPossible(names, "fe80::1%" + m, r + ".GET");
    EncodedNames(sha, m, n, r);
    var k, l := NameClash(m, n).0, NameClash(m, n).1;
    KeysCoincideIff(sha, k, l);
    hide SafeVals, SafeVal, Join, IsValueOf, Build, IsMethod, IsZoned, NoDuplicates, Received;
  }

  lemma NamesPossible(names: set<string>, a: string, meth: string)
    requires IsZoned(a, names) && IsMethod(meth)
    ensures Possible(RateSpec(["ip", "method"], [a, meth], 60, 0), names)
  {
    hide IsZoned, IsMethod;
  }

  lemma EncodedNames(sha: string -> string, m: string, n: string, r: string)
    requires IsName(m) && IsName(n) && n == m + "." + r
    ensures var u, v := ["fe80::1%" + n, "GET"], ["fe80::1%" + m, r + ".GET"];
            Join('.', SafeVals(sha, u)) == Join('.', SafeVals(sha, v)) && SafeVals(sha, u) != SafeVals(sha, v)
  {
    var u, v := ["fe80::1%" + n, "GET"], ["fe80::1%" + m, r + ".GET"];
    SafeName(sha, n);
    SafeName(sha, m);
    SafeMethod(sha, m, n, r);
    assert SafeVals(sha, u) == u && SafeVals(sha, v) == v;
    hide SafeVals, SafeVal, Join, IsName;
    JoinTwo(u[0], u[1]);
    JoinTwo(v[0], v[1]);
    assert u[0] + "." + u[1] == v[0] + "." + v[1];
    assert |u[0]| != |v[0]|;
  }

  lemma SafeMethod(sha: string -> string, m: string, n: string, r: string)
    requires IsName(n) && n == m + "." + r
    ensures SafeVal(sha, r + ".GET") == r + ".GET" && SafeVal(sha, "GET") == "GET"
  {
    forall i | 0 <= i < |r| ensures !Unsafe(r[i]) { assert r[i] == n[|m| + 1 + i]; }
  }

  lemma NamedValues(names: set<string>, m: string, n: string, r: string)
    requires m in names && n in names && IsName(m) && IsName(n) && n == m + "." + r
    ensures IsZoned("fe80::1%" + n, names) && IsZoned("fe80::1%" + m, names) && IsMethod(r + ".GET") && IsMethod("GET")
  {
    var b := "fe80::1";
    assert IsV6(b) by { assert b[4] == ':'; }
    assert b + "%" + n == "fe80::1%" + n && b + "%" + m == "fe80::1%" + m;
    forall i | 0 <= i < |r| ensures TokenChar(r[i]) { assert r[i] == n[|m| + 1 + i]; }
  }

  lemma SafeName(sha: string -> string, n: string)
    requires IsName(n)
    ensures SafeVal(sha, "fe80::1%" + n) == "fe80::1%" + n
  {}

  lemma JoinTwo(a: string, b: string)
    ensures Join('.', [a, b]) == a + "." + b
  {
    assert [a, b][1..] == [b];
  }

  /** The place of a dimension, or past the end. */
  function Index(dims: seq<string>, d: string): (i: nat)
    ensures i <= |dims| && (i < |dims| <==> d in dims) && (i < |dims| ==> dims[i] == d) && forall j :: 0 <= j < i ==> dims[j] != d
  {
    if dims == [] then 0 else if dims[0] == d then 0
    else
      var i := Index(dims[1..], d);
      assert forall j :: 0 < j < i + 1 ==> dims[j] == dims[1..][j - 1];
      i + 1
  }

  // Values, as distinct from what they are encoded as.

  /** The value is replaced by its digest. */
  predicate Hashed(v: string) { v != "" && !(|v| <= MAX_RAW_LEN && forall i :: 0 <= i < |v| ==> !Unsafe(v[i])) }

  /** The two values are one to the encoding: equal, both replaced by one digest, one the spelled-out digest of the other, or the
      empty value and its stand-in. */
  predicate SameCode(sha: string -> string, v: string, w: string) {
    || v == w
    || (Hashed(v) && Hashed(w) && sha(v) == sha(w))
    || (Hashed(v) && w == "h" + sha(v)) || (Hashed(w) && v == "h" + sha(w))
    || (v == "" && w == "_") || (v == "_" && w == "")
  }

  lemma SafeValIs(sha: string -> string, v: string)
    requires IsDigest(sha)
    ensures SafeVal(sha, v) == if v == "" then "_" else if Hashed(v) then "h" + sha(v) else v
    ensures var c := "h" + sha(v); !Hashed(c) && |c| == 25
  {
    var c := "h" + sha(v);
    forall i | 0 <= i < |c| ensures !Unsafe(c[i]) {
      if i > 0 { assert IsHex(sha(v)[i - 1]); }
    }
  }

  /** What the encoding merges, exactly. */
  lemma SafeValKernel(sha: string -> string, v: string, w: string)
    requires IsDigest(sha)
    ensures SafeVal(sha, v) == SafeVal(sha, w) <==> SameCode(sha, v, w)
  {
    SafeValIs(sha, v);
    SafeValIs(sha, w);
    var a, b := "h" + sha(v), "h" + sha(w);
    assert a[1..] == sha(v) && b[1..] == sha(w);
    assert !Hashed("_");
    hide SafeVal, Hashed;
  }

  /** Of two values one dimension can bring, one is the other's digest only for a business domain or a method. */
  lemma ReceivedKernel(sha: string -> string, names: set<string>, d: string, v: string, w: string)
    requires IsDigest(sha) && (forall n :: n in names ==> IsName(n)) && IsValueOf(d, v, names) && IsValueOf(d, w, names) && v != w
    requires SameCode(sha, v, w)
    ensures (Hashed(v) && Hashed(w) && sha(v) == sha(w)) || (d in ["biz", "method"] && (w == "h" + sha(v) || v == "h" + sha(w)))
  {
    if w == "h" + sha(v) { NotDigest(sha, names, d, v, w); }
    if v == "h" + sha(w) { NotDigest(sha, names, d, w, v); }
    hide Hashed, IsIp, IsMethod, IsBiz, IsPath, IsToken;
    ReceivedFull(d, v, names);
    ReceivedFull(d, w, names);
  }

  lemma ReceivedFull(d: string, v: string, names: set<string>)
    requires IsValueOf(d, v, names)
    ensures v != ""
  {
    if d == "ip" { IpFull(v, names); }
  }

  lemma IpFull(v: string, names: set<string>)
    requires IsIp(v, names)
    ensures v != ""
  {
    if IsV4(v) { assert v != "" by { assert Split('.', "") == [""]; } }
  }

  lemma NotDigest(sha: string -> string, names: set<string>, d: string, v: string, w: string)
    requires IsDigest(sha) && IsValueOf(d, w, names) && w == "h" + sha(v)
    ensures d in ["biz", "method"]
  {
    DigestChars(sha, v);
    DigestNoAddress(w, names);
  }

  lemma DigestChars(sha: string -> string, v: string)
    requires IsDigest(sha)
    ensures var w := "h" + sha(v); |w| == 25 && w[0] == 'h' && forall i :: 0 <= i < 25 ==> LowerOrDigit(w[i])
  {
    var w := "h" + sha(v);
    forall i | 0 <= i < 25 ensures LowerOrDigit(w[i]) { if i > 0 { assert IsHex(sha(v)[i - 1]); } }
  }

  lemma DigestNoAddress(w: string, names: set<string>)
    requires |w| == 25 && forall i :: 0 <= i < 25 ==> LowerOrDigit(w[i])
    ensures !IsIp(w, names)
  {
    ZonedHasPercent(w, names);
  }

  lemma ZonedHasPercent(w: string, names: set<string>)
    ensures IsZoned(w, names) ==> Has('%', w)
  {
    forall b, n | IsV6(b) && n in names && w == b + "%" + n ensures Has('%', w) { assert w[|b|] == '%'; }
  }

  /** Two keys of received values have one code in every field. */
  ghost predicate SameFields(sha: string -> string, k: KeySpec, l: KeySpec) {
    && SameKind(k, l) && k.dims == l.dims && |k.vals| == |l.vals|
    && (k.RateSpec? || k.LedgerSpec? || k.AdmitSpec? ==> k.winSec == l.winSec && k.b == l.b)
    && (k.ConcSpec? || k.DegradedSpec? ==> SameCode(sha, k.biz, l.biz))
    && forall i | 0 <= i < |k.vals| :: SameCode(sha, k.vals[i], l.vals[i])
  }

  lemma SameCodes(sha: string -> string, u: seq<string>, v: seq<string>)
    requires IsDigest(sha) && |u| == |v|
    ensures SafeVals(sha, u) == SafeVals(sha, v) <==> forall i | 0 <= i < |u| :: SameCode(sha, u[i], v[i])
  {
    forall i | 0 <= i < |u| ensures SafeVals(sha, u)[i] == SafeVals(sha, v)[i] <==> SameCode(sha, u[i], v[i]) {
      SafeValKernel(sha, u[i], v[i]);
    }
    hide SafeVal, SameCode;
  }

  /** Without names that continue one another, two requests share a key exactly when every field of theirs has one code. */
  lemma SameKeyIff(sha: string -> string, names: set<string>, k: KeySpec, l: KeySpec)
    requires IsDigest(sha) && (forall n :: n in names ==> IsName(n)) && !Extends(names) && Possible(k, names) && Possible(l, names)
    ensures Build(sha, k) == Build(sha, l) <==> SameFields(sha, k, l)
  {
    KeysCoincideIff(sha, k, l);
    if k.ConcSpec? || k.DegradedSpec? { if SameKind(k, l) { SafeValKernel(sha, k.biz, l.biz); } }
    hide Extends, SameCode, IsValueOf, Build, Join, SafeVal;
    if k.dims == l.dims { SameCodes(sha, k.vals, l.vals); }
    if Build(sha, k) == Build(sha, l) { SameKeySameValues(sha, names, k, l); }
    hide SafeVals;
  }

  /** The exact condition, over values: keys tell requests apart, up to what the encoding itself merges, if and only if no interface
      name continues another after a dot. */
  lemma ValuesIff(sha: string -> string, names: set<string>)
    requires IsDigest(sha) && forall n :: n in names ==> IsName(n)
    ensures (forall k, l | Possible(k, names) && Possible(l, names) :: Build(sha, k) == Build(sha, l) <==> SameFields(sha, k, l))
            <==> !Extends(names)
  {
    hide *;
    if !Extends(names) {
      forall k, l | Possible(k, names) && Possible(l, names) ensures Build(sha, k) == Build(sha, l) <==> SameFields(sha, k, l) {
        SameKeyIff(sha, names, k, l);
      }
    } else {
      var m, n := ExtendedNames(names);
      NamesCollide(sha, names, m, n);
      var k, l := NameClash(m, n).0, NameClash(m, n).1;
      if SameFields(sha, k, l) { SameFieldsCodes(sha, k, l); }
    }
  }

  lemma ExtendedNames(names: set<string>) returns (m: string, n: string)
    requires Extends(names)
    ensures m in names && n in names && m + "." <= n
  {
    m, n :| m in names && n in names && m + "." <= n;
  }

  lemma SameFieldsCodes(sha: string -> string, k: KeySpec, l: KeySpec)
    requires IsDigest(sha) && SameFields(sha, k, l)
    ensures SafeVals(sha, k.vals) == SafeVals(sha, l.vals)
  {
    SameCodes(sha, k.vals, l.vals);
    hide SameCode, SafeVals;
  }

  /** A method too long for a key, and one that spells out its digest, share a key whatever the digest and the names. */
  lemma LongMethodsCollide(sha: string -> string, names: set<string>) returns (w: string)
    requires IsDigest(sha)
    ensures var k, l := RateSpec(["method"], [w], 60, 0), RateSpec(["method"], ["h" + sha(w)], 60, 0);
            Possible(k, names) && Possible(l, names) && w != "h" + sha(w) && Build(sha, k) == Build(sha, l)
  {
    w := seq(49, i => 'A');
    var c := "h" + sha(w);
    DigestChars(sha, w);
    assert IsMethod(w) && Hashed(w);
    assert IsMethod(c) by { forall i | 0 <= i < |c| ensures TokenChar(c[i]) { assert LowerOrDigit(c[i]); } }
    MethodPossible(names, w);
    MethodPossible(names, c);
    SameCodes(sha, [w], [c]);
    hide SafeVals, SafeVal, Build, IsMethod, Join;
    KeysCoincideIff(sha, RateSpec(["method"], [w], 60, 0), RateSpec(["method"], [c], 60, 0));
  }

  lemma MethodPossible(names: set<string>, meth: string)
    requires IsMethod(meth)
    ensures Possible(RateSpec(["method"], [meth], 60, 0), names)
  {
    hide IsMethod;
  }
}
