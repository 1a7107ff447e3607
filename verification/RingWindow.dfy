/** The rolling one-minute counter (internal/obs/window.go), for sequential callers. */
module RingWindow {
  const SLOTS := 60

  datatype Ring = Ring(counts: seq<int>, epochs: seq<int>)

  predicate Shaped(r: Ring) { |r.counts| == SLOTS == |r.epochs| }

  function Empty(): (r: Ring)
    ensures Shaped(r)
  {
    Ring(seq(SLOTS, i => 0), seq(SLOTS, i => 0))
  }

  function Add(r: Ring, now: nat, n: int): (s: Ring)
    requires Shaped(r)
    ensures Shaped(s)
  {
    var i := now % SLOTS;
    if r.epochs[i] != now then Ring(r.counts[i := n], r.epochs[i := now])
    else r.(counts := r.counts[i := r.counts[i] + n])
  }

  /** The slots below `i` that are not older than `cutoff`. */
  function SumBelow(r: Ring, cutoff: int, i: nat): int
    requires Shaped(r) && i <= SLOTS
  {
    if i == 0 then 0 else SumBelow(r, cutoff, i - 1) + (if r.epochs[i - 1] >= cutoff then r.counts[i - 1] else 0)
  }

  class Counter {
    const counts: array<int>
    const epochs: array<int>

    ghost predicate Valid()
      reads this
    {
      counts.Length == SLOTS == epochs.Length && counts != epochs
    }

    function State(): (r: Ring)
      requires Valid()
      reads this, counts, epochs
      ensures Shaped(r)
    {
      Ring(counts[..], epochs[..])
    }

    constructor ()
      ensures Valid() && fresh(counts) && fresh(epochs) && State() == Empty()
    {
      counts, epochs := new int[SLOTS](i => 0), new int[SLOTS](i => 0);
    }

    method Record(now: nat, n: int)
      requires Valid()
      modifies counts, epochs
      ensures State() == Add(old(State()), now, n)
    {
      var i := now % SLOTS;
      var old0 := epochs[i];
      if old0 != now {
        epochs[i] := now;
        counts[i] := 0;
      }
      counts[i] := counts[i] + n;
    }

    /** The total of the last minute; the log it is about is the one `State` came from. */
    method Total(now: nat) returns (total: int)
      requires Valid()
      ensures total == SumBelow(State(), now - SLOTS + 1, SLOTS)
    {
      var cutoff := now - SLOTS + 1;
      total := 0;
      for i := 0 to SLOTS
        invariant total == SumBelow(State(), cutoff, i)
      {
        if epochs[i] >= cutoff { total := total + counts[i]; }
      }
    }
  }

  // The event log.

  datatype Event = Event(at: nat, n: int)

  function After(log: seq<Event>): (r: Ring)
    ensures Shaped(r)
  {
    if log == [] then Empty()
    else
      var e := log[|log| - 1];
      Add(After(log[..|log| - 1]), e.at, e.n)
  }

  /** Everything logged in the seconds from `lo` to `hi`. */
  function Logged(log: seq<Event>, lo: int, hi: int): int {
    if log == [] then 0
    else
      var e := log[|log| - 1];
      Logged(log[..|log| - 1], lo, hi) + (if lo <= e.at <= hi then e.n else 0)
  }

  /** The part of it that falls on slot `i`. */
  function LoggedOn(log: seq<Event>, lo: int, hi: int, i: nat): int {
    if log == [] then 0
    else
      var e := log[|log| - 1];
      LoggedOn(log[..|log| - 1], lo, hi, i) + (if lo <= e.at <= hi && e.at % SLOTS == i then e.n else 0)
  }

  function LoggedBelow(log: seq<Event>, lo: int, hi: int, i: nat): int {
    if i == 0 then 0 else LoggedBelow(log, lo, hi, i - 1) + LoggedOn(log, lo, hi, i - 1)
  }

  ghost predicate InOrder(log: seq<Event>) { forall i, j :: 0 <= i < j < |log| ==> log[i].at <= log[j].at }

  lemma {:induction false} BelowStep(log: seq<Event>, lo: int, hi: int, i: nat)
    requires log != []
    ensures var e := log[|log| - 1];
            LoggedBelow(log, lo, hi, i)
            == LoggedBelow(log[..|log| - 1], lo, hi, i) + (if lo <= e.at <= hi && e.at % SLOTS < i then e.n else 0)
  {
    if i > 0 { BelowStep(log, lo, hi, i - 1); }
  }

  lemma {:induction false} BelowNone(lo: int, hi: int, i: nat)
    ensures LoggedBelow([], lo, hi, i) == 0
  {
    if i > 0 { BelowNone(lo, hi, i - 1); }
  }

  lemma {:induction false} SlotsCoverLog(log: seq<Event>, lo: int, hi: int)
    ensures LoggedBelow(log, lo, hi, SLOTS) == Logged(log, lo, hi)
  {
    if log == [] {
      BelowNone(lo, hi, SLOTS);
    } else {
      BelowStep(log, lo, hi, SLOTS);
      SlotsCoverLog(log[..|log| - 1], lo, hi);
    }
  }

  lemma SameSlot(a: nat, b: nat)
    requires a % SLOTS == b % SLOTS && a < b
    ensures a + SLOTS <= b
  {}

  /** Slot `i` holds exactly what a window of one minute ending now or later has logged on it. */
  lemma {:induction false} SlotExact(log: seq<Event>, hi: int, i: nat)
    requires InOrder(log) && i < SLOTS && (log != [] ==> log[|log| - 1].at <= hi)
    ensures var r := After(log);
            var lo := hi - SLOTS + 1;
            && LoggedOn(log, lo, hi, i) == (if r.epochs[i] >= lo then r.counts[i] else 0)
            && (r.counts[i] == 0 || r.epochs[i] % SLOTS == i)
            && 0 <= r.epochs[i] && (if log == [] then r.epochs[i] == 0 else r.epochs[i] <= log[|log| - 1].at)
  {
    if log != [] {
      var n := |log| - 1;
      var e := log[n];
      assert n > 0 ==> log[..n][n - 1].at <= e.at;
      SlotExact(log[..n], hi, i);
      var r := After(log[..n]);
      if e.at % SLOTS == i && r.epochs[i] < e.at && r.epochs[i] % SLOTS == i {
        SameSlot(r.epochs[i], e.at);
      }
    }
  }

  /** The rolling total is the total logged in the last 60 seconds, the current one included, over any gaps and reuse. */
  lemma RingIsLog(log: seq<Event>, now: nat)
    requires InOrder(log) && (log != [] ==> log[|log| - 1].at <= now)
    ensures SumBelow(After(log), now - SLOTS + 1, SLOTS) == Logged(log, now - 59, now)
  {
    SlotsCoverLog(log, now - 59, now);
    SumIsLogged(log, now, SLOTS);
  }

  lemma {:induction false} SumIsLogged(log: seq<Event>, now: nat, i: nat)
    requires InOrder(log) && (log != [] ==> log[|log| - 1].at <= now) && i <= SLOTS
    ensures SumBelow(After(log), now - SLOTS + 1, i) == LoggedBelow(log, now - 59, now, i)
  {
    if i > 0 {
      SumIsLogged(log, now, i - 1);
      SlotExact(log, now, i - 1);
    }
  }
}
