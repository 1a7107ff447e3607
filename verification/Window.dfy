/** Window boundaries (internal/limiter/key.go). */
module Window {
  import opened Prelude

  /** WindowBoundary over Unix seconds; int64 overflow of `ts + tz` is outside any real clock. */
  function WindowBoundary(ts: int, winSec: int, tz: int, natural: bool): int {
    if winSec <= 0 then 0
    else if natural && tz != 0 then GoDiv(ts + tz, winSec) * winSec - tz
    else GoDiv(ts, winSec) * winSec
  }

  /** The offset the alignment really uses: only natural (day and week) windows are shifted. */
  function Offset(tz: int, natural: bool): int { if natural then tz else 0 }

  lemma MulLe(a: int, b: int, w: int)
    requires w >= 0
    ensures a <= b ==> a * w <= b * w
  {
    if a <= b { assert (b - a) * w >= 0; }
  }

  /** `k * w` is the only multiple of `w` in the half-open interval of length `w` below `x`. */
  lemma MultipleUnique(k: int, m: int, x: int, w: int)
    requires w > 0 && k * w <= x < k * w + w && m * w <= x < m * w + w
    ensures k == m
  {
    MulLe(k + 1, m, w);
    MulLe(m + 1, k, w);
  }

  lemma DivMod(x: int, w: int)
    requires w > 0
    ensures x == (x / w) * w + x % w
  {}

  lemma DivUnique(x: int, w: int, k: int)
    requires w > 0 && k * w <= x < k * w + w
    ensures x / w == k && x % w == x - k * w
  {
    DivMod(x, w);
    MultipleUnique(k, x / w, x, w);
  }

  /** A boundary is always aligned; it starts the window holding `ts` exactly when the shifted
      time is not negative or already aligned. Go's truncating division rounds the rest up. */
  lemma BoundaryTiles(ts: int, winSec: int, tz: int, natural: bool)
    requires winSec > 0
    ensures var b := WindowBoundary(ts, winSec, tz, natural);
            var off := Offset(tz, natural);
            && (b + off) % winSec == 0
            && ((b <= ts < b + winSec) <==> (ts + off >= 0 || (ts + off) % winSec == 0))
  {
    var x := ts + Offset(tz, natural);
    if x >= 0 {
      DivMod(x, winSec);
      DivUnique((x / winSec) * winSec, winSec, x / winSec);
    } else {
      var k := (-x) / winSec;
      DivMod(-x, winSec);
      NegMul(k, winSec);
      DivUnique((-k) * winSec, winSec, -k);
      var r := (-x) % winSec;
      if r == 0 {
        DivUnique(x, winSec, -k);
      } else {
        NegMul(k + 1, winSec);
        DivUnique(x, winSec, -(k + 1));
      }
    }
  }

  lemma NegMul(k: int, w: int)
    ensures (-k) * w == -(k * w)
    ensures (k + 1) * w == k * w + w
  {}

  /** Two times share a boundary exactly when the second lies in the first one's window. */
  lemma SameBoundaryIffSameWindow(ts: int, us: int, winSec: int, tz: int, natural: bool)
    requires winSec > 0 && ts + Offset(tz, natural) >= 0 && us + Offset(tz, natural) >= 0
    ensures var b := WindowBoundary(ts, winSec, tz, natural);
            WindowBoundary(us, winSec, tz, natural) == b <==> b <= us < b + winSec
  {
    var off := Offset(tz, natural);
    var k := (ts + off) / winSec;
    BoundaryTiles(us, winSec, tz, natural);
    if k * winSec <= us + off < k * winSec + winSec {
      DivUnique(us + off, winSec, k);
    }
  }

  lemma BoundaryMonotone(ts: int, us: int, winSec: int, tz: int, natural: bool)
    requires ts <= us && winSec > 0 && ts + Offset(tz, natural) >= 0
    ensures WindowBoundary(ts, winSec, tz, natural) <= WindowBoundary(us, winSec, tz, natural)
  {
    var x, y := ts + Offset(tz, natural), us + Offset(tz, natural);
    DivMod(x, winSec);
    DivMod(y, winSec);
    MulLe(y / winSec + 1, x / winSec, winSec);
    NegMul(y / winSec, winSec);
    MulLe(x / winSec, y / winSec, winSec);
  }

  lemma BoundaryIdempotent(ts: int, winSec: int, tz: int, natural: bool)
    requires winSec > 0 && ts + Offset(tz, natural) >= 0
    ensures var b := WindowBoundary(ts, winSec, tz, natural);
            WindowBoundary(b, winSec, tz, natural) == b
  {
    var k := (ts + Offset(tz, natural)) / winSec;
    MulLe(0, k, winSec);
    DivUnique(k * winSec, winSec, k);
  }
}
