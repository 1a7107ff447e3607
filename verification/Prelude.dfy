/** Small shared vocabulary: options, Go's integer arithmetic and decimal text. */
module Prelude {

  datatype Option<+T> = None | Some(value: T)

  /** Go's int64 division truncates toward zero; Dafny's rounds toward minus infinity. */
  function GoDiv(a: int, b: int): int
    requires b != 0
  {
    if a >= 0 then a / b else -((-a) / b)
  }

  const INT64_MAX: int := 0x7fff_ffff_ffff_ffff
  const TWO_64: int := 0x1_0000_0000_0000_0000

  /** The int64 a Go multiplication leaves behind when the exact product is `n`. */
  function Wrap64(n: int): int {
    var m := n % TWO_64;
    if m > INT64_MAX then m - TWO_64 else m
  }

  function Min(a: int, b: int): int { if a < b then a else b }

  function Max(a: int, b: int): int { if a < b then b else a }

  function MinReal(a: real, b: real): real { if a < b then a else b }

  function Ceil(x: real): (c: int)
    ensures c as real - 1.0 < x <= c as real
  {
    var f := x.Floor;
    if f as real == x then f else f + 1
  }

  lemma CeilUnique(x: real, c: int)
    requires c as real - 1.0 < x <= c as real
    ensures Ceil(x) == c
  {
    var d := Ceil(x);
    assert (d - c) as real < 1.0 && (c - d) as real < 1.0;
  }

  lemma CeilMonotone(x: real, y: real)
    requires x <= y
    ensures Ceil(x) <= Ceil(y)
  {
    assert (Ceil(x) - Ceil(y)) as real < 1.0;
  }

  lemma Grows(b: int, q: int)
    requires b > 0
    ensures q >= 0 ==> b * q >= q
    ensures q < 0 ==> b * q <= -b
    ensures q <= 0 ==> b * q <= 0
  {
    if q >= 0 { assert (b - 1) * q >= 0; } else { assert b * (-1 - q) >= 0; }
  }

  lemma Product(a: real, b: real)
    requires a >= 0.0 && b >= 0.0
    ensures a * b >= 0.0
    ensures a > 0.0 && b > 0.0 ==> a * b > 0.0
  {}

  /** Scaling keeps order. */
  lemma Scale(x: real, y: real, f: real)
    requires f > 0.0
    ensures x <= y <==> x * f <= y * f
  {
    if x <= y { Product(y - x, f); } else { Product(x - y, f); }
    assert (y - x) * f == y * f - x * f;
    assert (x - y) * f == x * f - y * f;
  }

  lemma Submap(a: map<string, int>, b: map<string, int>)
    requires a.Keys <= b.Keys
    ensures |a| <= |b|
  {
    assert a.Keys + (b.Keys - a.Keys) == b.Keys;
    assert |a| == |a.Keys| && |b| == |b.Keys|;
  }

  // Decimal text.

  predicate IsDigit(c: char) { '0' <= c <= '9' }

  predicate AllDigits(s: string) { forall i :: 0 <= i < |s| ==> IsDigit(s[i]) }

  function Digit(c: char): nat
    requires IsDigit(c)
  {
    c as int - '0' as int
  }

  /** The number a string of decimal digits denotes; the empty string denotes 0. */
  function DecVal(s: string): nat
    requires AllDigits(s)
  {
    if s == "" then 0 else 10 * DecVal(s[..|s| - 1]) + Digit(s[|s| - 1])
  }

  function Dec(n: nat): (s: string)
    ensures s != "" && AllDigits(s)
  {
    var c := ('0' as int + n % 10) as char;
    if n < 10 then [c] else Dec(n / 10) + [c]
  }

  /** strconv.FormatInt(n, 10). */
  function FormatInt(n: int): (s: string)
    ensures s != ""
    ensures forall i :: 0 <= i < |s| ==> IsDigit(s[i]) || s[i] == '-'
  {
    if n < 0 then "-" + Dec(-n) else Dec(n)
  }

  lemma {:induction false} DecRoundTrip(n: nat)
    ensures DecVal(Dec(n)) == n
  {
    var c := ('0' as int + n % 10) as char;
    if n >= 10 {
      DecRoundTrip(n / 10);
      var s := Dec(n / 10) + [c];
      assert s[..|s| - 1] == Dec(n / 10);
    } else {
      assert [c][..0] == "";
    }
  }

  lemma DecInjective(a: nat, b: nat)
    requires Dec(a) == Dec(b)
    ensures a == b
  {
    DecRoundTrip(a);
    DecRoundTrip(b);
  }

  lemma FormatIntInjective(a: int, b: int)
    requires FormatInt(a) == FormatInt(b)
    ensures a == b
  {
    assert a >= 0 ==> IsDigit(FormatInt(a)[0]);
    assert b >= 0 ==> IsDigit(FormatInt(b)[0]);
    if a < 0 && b < 0 {
      assert FormatInt(a)[1..] == Dec(-a) && FormatInt(b)[1..] == Dec(-b);
      DecRoundTrip(-a);
      DecRoundTrip(-b);
    } else if a >= 0 && b >= 0 {
      DecRoundTrip(a);
      DecRoundTrip(b);
    }
  }

  // Trimming, of ASCII text.

  predicate IsSpace(c: char) { c in "\t\n\r \U{000B}\U{000C}" }

  function TrimLeft(s: string): string {
    if s != "" && IsSpace(s[0]) then TrimLeft(s[1..]) else s
  }

  function TrimRight(s: string): string {
    if s != "" && IsSpace(s[|s| - 1]) then TrimRight(s[..|s| - 1]) else s
  }

  /** strings.TrimSpace. */
  function TrimSpace(s: string): string { TrimRight(TrimLeft(s)) }

  predicate AllSpace(s: string) { forall i :: 0 <= i < |s| ==> IsSpace(s[i]) }

  lemma {:induction false} LeftOf(s: string)
    ensures TrimLeft(s) == "" <==> AllSpace(s)
    ensures TrimLeft(s) != "" ==> !IsSpace(TrimLeft(s)[0])
  {
    if s != "" && IsSpace(s[0]) { LeftOf(s[1..]); assert forall i :: 1 <= i < |s| ==> s[i] == s[1..][i - 1]; }
  }

  lemma {:induction false} LeftJoin(a: string, r: string)
    ensures TrimLeft(a + r) == if AllSpace(a) then TrimLeft(r) else TrimLeft(a) + r
  {
    if a == "" {
      assert a + r == r;
    } else {
      assert (a + r)[1..] == a[1..] + r;
      if IsSpace(a[0]) {
        assert AllSpace(a) <==> AllSpace(a[1..]) by { assert forall i :: 1 <= i < |a| ==> a[i] == a[1..][i - 1]; }
        LeftJoin(a[1..], r);
      }
    }
  }

  /** Trimming the right end of a longer text leaves the same exactly when the addition is white space. */
  lemma {:induction false} RightJoin(a: string, r: string)
    ensures |TrimRight(a)| <= |a|
    ensures AllSpace(r) ==> TrimRight(a + r) == TrimRight(a)
    ensures !AllSpace(r) ==> |TrimRight(a + r)| > |a|
    decreases |a| + |r|
  {
    if r == "" {
      assert a + r == a;
      RightShorter(a);
    } else {
      var k := |r| - 1;
      assert (a + r)[..|a + r| - 1] == a + r[..k] && (a + r)[|a + r| - 1] == r[k];
      RightJoin(a, r[..k]);
      assert AllSpace(r) <==> AllSpace(r[..k]) && IsSpace(r[k]);
    }
  }

  lemma {:induction false} RightShorter(a: string)
    ensures |TrimRight(a)| <= |a|
  {
    if a != "" { RightShorter(a[..|a| - 1]); }
  }

  lemma TrimJoin(a: string, r: string)
    ensures TrimSpace(a + r) == TrimSpace(a) <==> AllSpace(r)
  {
    LeftJoin(a, r);
    LeftOf(a);
    LeftOf(r);
    if AllSpace(a) {
      RightOnly(TrimLeft(r));
    } else {
      RightJoin(TrimLeft(a), r);
    }
  }

  lemma RightOnly(s: string)
    requires s != "" ==> !IsSpace(s[0])
    ensures TrimRight("") == "" && (TrimRight(s) == "" <==> s == "")
  {
    if s != "" {
      RightJoin("", s);
      assert "" + s == s;
    }
  }

  /** Trimming takes white space off both ends, and all of it. */
  lemma TrimIs(s: string)
    ensures var t, i := TrimSpace(s), |s| - |TrimLeft(s)|;
            && 0 <= i <= i + |t| <= |s| && t == s[i..i + |t|]
            && AllSpace(s[..i]) && AllSpace(s[i + |t|..])
            && (t != "" ==> !IsSpace(t[0]) && !IsSpace(t[|t| - 1]))
  {
    LeftIs(s);
    var l := TrimLeft(s);
    RightIs(l);
    var t, i := TrimSpace(s), |s| - |l|;
    assert s[i + |t|..] == l[|t|..];
  }

  lemma {:induction false} LeftIs(s: string)
    ensures var l := TrimLeft(s);
            |l| <= |s| && l == s[|s| - |l|..] && AllSpace(s[..|s| - |l|]) && (l != "" ==> !IsSpace(l[0]))
  {
    if s != "" && IsSpace(s[0]) {
      LeftIs(s[1..]);
      var i := |s| - |TrimLeft(s)|;
      assert s[1..][..i - 1] == s[..i][1..];
      assert forall k :: 1 <= k < i ==> s[..i][k] == s[1..][..i - 1][k - 1];
    }
  }

  lemma {:induction false} RightIs(s: string)
    ensures var r := TrimRight(s); r <= s && AllSpace(s[|r|..]) && (r != "" ==> !IsSpace(r[|r| - 1]))
  {
    if s != "" && IsSpace(s[|s| - 1]) {
      var t := s[..|s| - 1];
      RightIs(t);
      var r := TrimRight(s);
      assert forall k :: |r| <= k < |t| ==> s[k] == t[|r|..][k - |r|];
    }
  }
}
