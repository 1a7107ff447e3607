/** The Redis circuit breaker (internal/limiter/breaker.go). Each call is one atomic step; times are nanoseconds. */
module Breaker {
  import opened Prelude

  datatype Status = Closed | Open | HalfOpen

  const THRESHOLD := 20
  const WINDOW := 5_000_000_000
  const COOLDOWN := 2_000_000_000

  datatype B = B(failures: nat, successes: nat, windowAt: int, openUntil: int, status: Status,
                 totalErrors: nat, totalTrips: nat)

  function Roll(b: B, now: int): B {
    if now - b.windowAt > WINDOW then b.(failures := 0, successes := 0, windowAt := now) else b
  }

  function Degraded(b: B, now: int): (B, bool) {
    match b.status
    case Closed => (b, false)
    case Open => (if now > b.openUntil then b.(status := HalfOpen) else b, true)
    case HalfOpen => (b, true)
  }

  function OnSuccess(b: B, now: int): B {
    if b.status == Closed then Roll(b.(successes := b.successes + 1), now)
    else b.(status := Closed, failures := 0, successes := 0, windowAt := now)
  }

  /** float64(failures)/float64(total) >= 0.5, which doubles decide exactly at these sizes. */
  predicate HalfFailed(failures: nat, successes: nat) { 2 * failures >= failures + successes }

  function OnFailure(b: B, now: int): B {
    var b := b.(totalErrors := b.totalErrors + 1);
    if b.status == HalfOpen then b.(status := Open, openUntil := now + COOLDOWN)
    else
      var b := Roll(b, now);
      var f := b.failures + 1;
      if f >= THRESHOLD && HalfFailed(f, b.successes) then
        b.(status := Open, openUntil := now + COOLDOWN, totalTrips := b.totalTrips + 1, failures := 0, successes := 0)
      else b.(failures := f)
  }

  class CircuitBreaker {
    var failures: nat
    var successes: nat
    var windowAt: int
    var openUntil: int
    var status: Status
    var totalErrors: nat
    var totalTrips: nat

    function State(): B
      reads this
    {
      B(failures, successes, windowAt, openUntil, status, totalErrors, totalTrips)
    }

    constructor (now: int)
      ensures State() == Init(now)
    {
      failures, successes, windowAt, openUntil, status, totalErrors, totalTrips := 0, 0, now, 0, Closed, 0, 0;
    }

    method IsDegraded(now: int) returns (r: bool)
      modifies this
      ensures (State(), r) == Degraded(old(State()), now)
    {
      match status {
        case Closed => r := false;
        case Open =>
          if now > openUntil { status := HalfOpen; }
          r := true;
        case HalfOpen => r := true;
      }
    }

    method Success(now: int)
      modifies this
      ensures State() == OnSuccess(old(State()), now)
    {
      if status == Closed {
        successes := successes + 1;
        RollWindow(now);
      } else {
        status := Closed;
        failures, successes, windowAt := 0, 0, now;
      }
    }

    method Failure(now: int)
      modifies this
      ensures State() == OnFailure(old(State()), now)
    {
      totalErrors := totalErrors + 1;
      if status == HalfOpen {
        status := Open;
        openUntil := now + COOLDOWN;
        return;
      }
      RollWindow(now);
      failures := failures + 1;
      var total := failures + successes;
      if failures >= THRESHOLD && total > 0 && failures as real / total as real >= 0.5 {
        RatioIsHalf(failures, successes);
        status := Open;
        openUntil := now + COOLDOWN;
        totalTrips := totalTrips + 1;
        failures, successes := 0, 0;
      } else {
        RatioIsHalf(failures, successes);
      }
    }

    method RollWindow(now: int)
      modifies this
      ensures State() == Roll(old(State()), now)
    {
      if now - windowAt > WINDOW {
        failures, successes, windowAt := 0, 0, now;
      }
    }
  }

  lemma RatioIsHalf(failures: nat, successes: nat)
    requires failures + successes > 0
    ensures failures as real / (failures + successes) as real >= 0.5 <==> HalfFailed(failures, successes)
  {
    QuotientIsHalf(failures as real, (failures + successes) as real);
    assert 2.0 * failures as real == (2 * failures) as real;
  }

  lemma QuotientIsHalf(f: real, t: real)
    requires t > 0.0
    ensures f / t >= 0.5 <==> 2.0 * f >= t
  {
    var q := f / t;
    assert q * t == f;
    Scale(0.5, q, t);
  }

  // Runs.

  datatype Event = Succeeded(at: int) | Failed(at: int) | Asked(at: int)

  function Init(now: int): B { B(0, 0, now, 0, Closed, 0, 0) }

  function StepTo(b: B, e: Event): B {
    match e
    case Succeeded(at) => OnSuccess(b, at)
    case Failed(at) => OnFailure(b, at)
    case Asked(at) => Degraded(b, at).0
  }

  function After(start: int, es: seq<Event>): B {
    if es == [] then Init(start) else StepTo(After(start, es[..|es| - 1]), es[|es| - 1])
  }

  ghost predicate InTime(start: int, es: seq<Event>) {
    && (forall i :: 0 <= i < |es| ==> start <= es[i].at)
    && (forall i, j :: 0 <= i < j < |es| ==> es[i].at <= es[j].at)
  }

  /** Event `i` makes the breaker leave Closed. */
  ghost predicate TripsAt(start: int, es: seq<Event>, i: nat)
    requires i < |es|
  {
    After(start, es[..i]).status == Closed && After(start, es[..i + 1]).status != Closed
  }

  ghost predicate NoSuccess(es: seq<Event>, from: nat) { forall j :: from <= j < |es| ==> !es[j].Succeeded? }

  lemma StatusStep(b: B, e: Event)
    ensures e.Succeeded? ==> StepTo(b, e).status == Closed
    ensures !e.Succeeded? && b.status != Closed ==> StepTo(b, e).status != Closed
  {}

  lemma {:induction false} FindTrip(start: int, es: seq<Event>) returns (i: nat)
    requires After(start, es).status != Closed
    ensures i < |es| && TripsAt(start, es, i) && NoSuccess(es, i)
  {
    hide StepTo;
    var n := |es| - 1;
    assert es[..n + 1] == es;
    StatusStep(After(start, es[..n]), es[n]);
    if After(start, es[..n]).status == Closed {
      i := n;
    } else {
      i := FindTrip(start, es[..n]);
      assert es[..n][..i] == es[..i] && es[..n][..i + 1] == es[..i + 1];
      assert forall j :: i <= j < n ==> es[j] == es[..n][j];
    }
  }

  lemma {:induction false} TripLasts(start: int, es: seq<Event>, i: nat)
    requires i < |es| && TripsAt(start, es, i) && NoSuccess(es, i)
    ensures After(start, es).status != Closed
  {
    hide StepTo;
    var n := |es| - 1;
    if i == n {
      assert es[..n + 1] == es;
    } else {
      assert es[..n][..i] == es[..i] && es[..n][..i + 1] == es[..i + 1];
      TripLasts(start, es[..n], i);
      StatusStep(After(start, es[..n]), es[n]);
    }
  }

  /** The breaker is not closed exactly when it has tripped and no call has succeeded since. */
  lemma NotClosedIffTripped(start: int, es: seq<Event>)
    ensures After(start, es).status != Closed
            <==> exists i :: 0 <= i < |es| && TripsAt(start, es, i) && NoSuccess(es, i)
  {
    if After(start, es).status != Closed {
      var i := FindTrip(start, es);
    }
    forall i | 0 <= i < |es| && TripsAt(start, es, i) && NoSuccess(es, i) ensures After(start, es).status != Closed {
      TripLasts(start, es, i);
    }
  }

  function Failures(es: seq<Event>): nat {
    if es == [] then 0 else Failures(es[..|es| - 1]) + (if es[|es| - 1].Failed? then 1 else 0)
  }

  function Successes(es: seq<Event>): nat {
    if es == [] then 0 else Successes(es[..|es| - 1]) + (if es[|es| - 1].Succeeded? then 1 else 0)
  }

  /** The events from `from` on, during all of which the breaker is closed and inside the statistics window `w`. */
  ghost predicate Stretch(start: int, es: seq<Event>, from: nat, w: int) {
    && from <= |es|
    && (forall j :: from <= j < |es| ==> After(start, es[..j]).status == Closed)
    && (forall j :: from <= j < |es| && !es[j].Asked? ==> w <= es[j].at <= w + 5_000_000_000)
  }

  lemma Snoc(start: int, es: seq<Event>, from: nat, w: int)
    requires es != [] && Stretch(start, es[..|es| - 1], from, w)
    ensures var n := |es| - 1;
            && (After(start, es[..n]).status == Closed && (!es[n].Asked? ==> w <= es[n].at <= w + 5_000_000_000) ==> Stretch(start, es, from, w))
            && Failures(es[from..]) == Failures(es[..n][from..]) + (if es[n].Failed? then 1 else 0)
            && Successes(es[from..]) == Successes(es[..n][from..]) + (if es[n].Succeeded? then 1 else 0)
  {
    var n := |es| - 1;
    assert es[from..][..n - from] == es[..n][from..];
    assert forall j: nat :: j < n ==> es[..n][..j] == es[..j] by {
      forall j: nat | j < n ensures es[..n][..j] == es[..j] {}
    }
  }

  lemma ClosedStep(b: B, e: Event)
    requires b.status == Closed && StepTo(b, e).status == Closed
    ensures var b' := StepTo(b, e);
            var rolls := e.at - b.windowAt > 5_000_000_000;
            match e
            case Asked(_) => b' == b
            case Succeeded(at) =>
              if rolls then b'.failures == 0 && b'.successes == 0 && b'.windowAt == at
              else b'.failures == b.failures && b'.successes == b.successes + 1 && b'.windowAt == b.windowAt
            case Failed(at) =>
              if rolls then b'.failures == 1 && b'.successes == 0 && b'.windowAt == at
              else b'.failures == b.failures + 1 && b'.successes == b.successes && b'.windowAt == b.windowAt
  {}

  lemma Healed(b: B, e: Event)
    requires b.status != Closed && StepTo(b, e).status == Closed
    ensures StepTo(b, e).failures == 0 && StepTo(b, e).successes == 0 && StepTo(b, e).windowAt == e.at
  {}

  /** While closed, the counters are the numbers of failures and successes of a closing stretch of the history: since the
      last recovery, inside one window. A success that rolls the window is not in it; a failure that does starts it. */
  lemma {:induction false} CountersAreHistory(start: int, es: seq<Event>) returns (from: nat)
    requires InTime(start, es) && After(start, es).status == Closed
    ensures var b := After(start, es);
            && Stretch(start, es, from, b.windowAt)
            && b.failures == Failures(es[from..])
            && b.successes == Successes(es[from..])
            && (es != [] ==> b.windowAt <= es[|es| - 1].at)
            && start <= b.windowAt
  {
    hide *;
    if es == [] {
      from := 0;
      NothingCounted(start);
      assert es[0..] == es;
    } else {
      var n := |es| - 1;
      var pre, e := es[..n], es[n];
      var b := After(start, pre);
      InTimeLast(start, es);
      AfterLast(start, es);
      if b.status != Closed {
        Healed(b, e);
        from := |es|;
        EmptyStretch(start, es, e.at);
      } else {
        ClosedStep(b, e);
        from := CountersAreHistory(start, pre);
        if n == 0 { NothingCounted(start); }
        assert b.windowAt <= e.at;
        if e.Asked? || e.at - b.windowAt <= 5_000_000_000 {
          Snoc(start, es, from, b.windowAt);
        } else {
          from := if e.Failed? then n else |es|;
          EmptyStretch(start, es, e.at);
          LastStretch(start, es);
        }
      }
    }
  }

  lemma NothingCounted(start: int)
    ensures Stretch(start, [], 0, start) && Failures([]) == 0 == Successes([]) && After(start, []) == Init(start)
    ensures var b := Init(start); b.windowAt == start && b.failures == 0 == b.successes
  {}

  lemma EmptyStretch(start: int, es: seq<Event>, w: int)
    ensures Stretch(start, es, |es|, w) && Failures(es[|es|..]) == 0 == Successes(es[|es|..])
  {
    assert es[|es|..] == [];
  }

  /** The last event on its own. */
  lemma LastStretch(start: int, es: seq<Event>)
    requires es != [] && After(start, es[..|es| - 1]).status == Closed
    ensures var n := |es| - 1;
            && Stretch(start, es, n, es[n].at)
            && Failures(es[n..]) == (if es[n].Failed? then 1 else 0) && Successes(es[n..]) == (if es[n].Succeeded? then 1 else 0)
  {
    hide StepTo, After;
    var n := |es| - 1;
    assert es[n..] == [es[n]] && [es[n]][..0] == [];
  }

  lemma InTimeLast(start: int, es: seq<Event>)
    requires es != [] && InTime(start, es)
    ensures var n := |es| - 1; InTime(start, es[..n]) && start <= es[n].at && (n > 0 ==> es[n - 1].at <= es[n].at)
  {}

  lemma AfterLast(start: int, es: seq<Event>)
    requires es != []
    ensures After(start, es) == StepTo(After(start, es[..|es| - 1]), es[|es| - 1])
  {
    hide StepTo;
  }

  /** Every trip is justified: the breaker leaves Closed only at a failure that, with the failures of one stretch of history
      since the last recovery and inside one 5 s window, makes at least 20 and at least half of the stretch. */
  lemma TripJustified(start: int, es: seq<Event>) returns (from: nat, w: int)
    requires es != [] && InTime(start, es) && TripsAt(start, es, |es| - 1)
    ensures es[|es| - 1].Failed? && from < |es| && start <= w
    ensures Stretch(start, es, from, w)
    ensures Failures(es[from..]) >= 20
    ensures 2 * Failures(es[from..]) >= Failures(es[from..]) + Successes(es[from..])
  {
    var n := |es| - 1;
    var pre, e := es[..n], es[n];
    assert es[..n + 1] == es;
    var b := After(start, pre);
    from := CountersAreHistory(start, pre);
    w := b.windowAt;
    assert n > 0 ==> pre[n - 1] == es[n - 1];
    Snoc(start, es, from, w);
    StatusStep(b, e);
  }

  /** So fewer than 20 failures never open the breaker. */
  lemma {:induction false} FewFailuresStayClosed(start: int, es: seq<Event>)
    requires InTime(start, es) && Failures(es) < 20
    ensures After(start, es).status == Closed
  {
    if After(start, es).status != Closed {
      var i := FindTrip(start, es);
      var pre := es[..i + 1];
      assert pre[..i] == es[..i] && pre[..i + 1] == pre;
      var from, w := TripJustified(start, pre);
      FailuresOfSlice(pre, from);
      FailuresOfPrefix(es, i + 1);
    }
  }

  lemma {:induction false} FailuresOfSlice(es: seq<Event>, from: nat)
    requires from <= |es|
    ensures Failures(es[from..]) <= Failures(es)
  {
    if from < |es| {
      var n := |es| - 1;
      assert es[from..][..n - from] == es[..n][from..];
      FailuresOfSlice(es[..n], from);
    }
  }

  lemma {:induction false} FailuresOfPrefix(es: seq<Event>, i: nat)
    requires i <= |es|
    ensures Failures(es[..i]) <= Failures(es)
  {
    if i < |es| {
      var n := |es| - 1;
      assert es[..n][..i] == es[..i];
      FailuresOfPrefix(es[..n], i);
    } else {
      assert es[..i] == es;
    }
  }

  // The counters in every status.

  /** The last event changes the counters: a success, or a failure that does not reopen a half-open breaker. */
  predicate Counts(start: int, es: seq<Event>)
    requires es != []
  {
    es[|es| - 1].Succeeded? || (es[|es| - 1].Failed? && After(start, es[..|es| - 1]).status != HalfOpen)
  }

  predicate Rolls(start: int, es: seq<Event>)
    requires es != []
  {
    es[|es| - 1].at - After(start, es[..|es| - 1]).windowAt > 5_000_000_000
  }

  /** Where counting starts for the decision on the last event: at a failure that opens a new window, itself. */
  function BaseNow(start: int, es: seq<Event>): nat
    requires es != []
    decreases |es|, 0
  {
    if Rolls(start, es) then |es| - 1 else Base(start, es[..|es| - 1])
  }

  /** How many failures count from `from` on. */
  function CountedFailures(start: int, es: seq<Event>, from: nat): nat {
    if |es| <= from then 0
    else CountedFailures(start, es[..|es| - 1], from) + (if es[|es| - 1].Failed? && Counts(start, es) then 1 else 0)
  }

  function SuccessesSince(es: seq<Event>, from: nat): nat {
    if |es| <= from then 0
    else SuccessesSince(es[..|es| - 1], from) + (if es[|es| - 1].Succeeded? then 1 else 0)
  }

  /** The failures that count make at least 20 and at least half of their window. */
  predicate Overwhelmed(start: int, es: seq<Event>, from: nat) {
    var f := CountedFailures(start, es, from);
    f >= 20 && 2 * f >= f + SuccessesSince(es, from)
  }

  /** Where counting started: after the last recovery, the last overwhelming failure, or a success that closed a window; at
      a failure that opened one. */
  function Base(start: int, es: seq<Event>): nat
    decreases |es|, 1
  {
    if es == [] then 0
    else if !Counts(start, es) then Base(start, es[..|es| - 1])
    else if es[|es| - 1].Succeeded? then
      if After(start, es[..|es| - 1]).status != Closed || Rolls(start, es) then |es| else Base(start, es[..|es| - 1])
    else if Overwhelmed(start, es, BaseNow(start, es)) then |es|
    else BaseNow(start, es)
  }

  /** Every event counted since `from` lies in the window that opened at `w`. */
  ghost predicate InWindow(start: int, es: seq<Event>, from: nat, w: int) {
    forall j :: from <= j < |es| && Counts(start, es[..j + 1]) ==> w <= es[j].at <= w + 5_000_000_000
  }

  ghost predicate Exact(start: int, es: seq<Event>, from: nat, b: B) {
    && from <= |es| && b.failures == CountedFailures(start, es, from) && b.successes == SuccessesSince(es, from)
    && start <= b.windowAt && (es != [] ==> b.windowAt <= es[|es| - 1].at) && InWindow(start, es, from, b.windowAt)
  }

  lemma Window(start: int, es: seq<Event>, from: nat, w: int)
    requires es != [] && InWindow(start, es[..|es| - 1], from, w)
    requires Counts(start, es) ==> w <= es[|es| - 1].at <= w + 5_000_000_000
    ensures InWindow(start, es, from, w)
  {
    hide Counts;
    var n := |es| - 1;
    forall j | from <= j < |es| && Counts(start, es[..j + 1]) ensures w <= es[j].at <= w + 5_000_000_000 {
      if j < n {
        assert es[..n][..j + 1] == es[..j + 1];
      } else {
        assert es[..n + 1] == es;
      }
    }
  }

  /** A failure that counts, on the counters. */
  lemma FailureStep(b: B, at: int)
    requires b.status != HalfOpen
    ensures var rolls := at - b.windowAt > 5_000_000_000;
            var f, s := if rolls then 1 else b.failures + 1, if rolls then 0 else b.successes;
            var r := OnFailure(b, at);
            && r.windowAt == (if rolls then at else b.windowAt)
            && if f >= 20 && 2 * f >= f + s
               then r.failures == 0 == r.successes && r.totalTrips == b.totalTrips + 1 && r.status == Open && r.openUntil == at + 2_000_000_000
               else r.failures == f && r.successes == s && r.totalTrips == b.totalTrips && r.status == b.status && r.openUntil == b.openUntil
    ensures at <= at + 5_000_000_000
  {}

  lemma OtherStep(b: B, e: Event)
    requires e.Failed? ==> b.status == HalfOpen
    ensures var rolls := e.at - b.windowAt > 5_000_000_000;
            var r := StepTo(b, e);
            && r.totalTrips == b.totalTrips
            && if !e.Succeeded? then r.failures == b.failures && r.successes == b.successes && r.windowAt == b.windowAt
               else if b.status != Closed || rolls then r.failures == 0 == r.successes && r.windowAt == e.at
               else r.failures == b.failures && r.successes == b.successes + 1 && r.windowAt == b.windowAt
  {}

  lemma CountedStep(start: int, es: seq<Event>, from: nat)
    requires es != [] && from <= |es|
    ensures CountedFailures(start, es, |es|) == 0 == SuccessesSince(es, |es|)
    ensures from < |es| ==>
              var n := |es| - 1;
              && CountedFailures(start, es, from)
                 == CountedFailures(start, es[..n], from) + (if es[n].Failed? && Counts(start, es) then 1 else 0)
              && SuccessesSince(es, from) == SuccessesSince(es[..n], from) + (if es[n].Succeeded? then 1 else 0)
    ensures CountedFailures(start, es[..|es| - 1], |es| - 1) == 0 == SuccessesSince(es[..|es| - 1], |es| - 1)
  {
    hide Counts;
  }

  lemma EmptyWindow(start: int, es: seq<Event>, w: int)
    ensures InWindow(start, es, |es|, w)
  {}

  lemma BaseStep(start: int, es: seq<Event>)
    requires es != []
    ensures var n := |es| - 1;
            var pre, e := es[..n], es[n];
            && (Counts(start, es) <==> e.Succeeded? || (e.Failed? && After(start, pre).status != HalfOpen))
            && (Rolls(start, es) <==> e.at - After(start, pre).windowAt > 5_000_000_000)
            && BaseNow(start, es) == (if Rolls(start, es) then n else Base(start, pre))
            && Base(start, es) == if !Counts(start, es) then Base(start, pre)
                                  else if e.Succeeded? then
                                    (if After(start, pre).status != Closed || Rolls(start, es) then |es| else Base(start, pre))
                                  else if Overwhelmed(start, es, BaseNow(start, es)) then |es|
                                  else BaseNow(start, es)
  {
    hide Overwhelmed, After;
  }

  lemma OverwhelmedIs(start: int, es: seq<Event>, from: nat)
    ensures var f := CountedFailures(start, es, from);
            Overwhelmed(start, es, from) <==> f >= 20 && 2 * f >= f + SuccessesSince(es, from)
  {
    hide CountedFailures, SuccessesSince;
  }

  lemma ExactIs(start: int, es: seq<Event>, from: nat, b: B)
    ensures Exact(start, es, from, b) <==>
            && from <= |es| && b.failures == CountedFailures(start, es, from) && b.successes == SuccessesSince(es, from)
            && start <= b.windowAt && (es != [] ==> b.windowAt <= es[|es| - 1].at) && InWindow(start, es, from, b.windowAt)
  {}

  lemma NothingYet(start: int)
    ensures Exact(start, [], Base(start, []), After(start, []))
  {}

  /** The statuses apart: while closed, open or half-open, the counters are exactly the failures and successes counted since
      the base, all of them inside the current window. */
  lemma {:induction false} CountersExact(start: int, es: seq<Event>)
    requires InTime(start, es)
    ensures Exact(start, es, Base(start, es), After(start, es))
  {
    hide *;
    if es == [] {
      NothingYet(start);
    } else {
      var n := |es| - 1;
      var pre, e := es[..n], es[n];
      var b := After(start, pre);
      InTimeLast(start, es);
      AfterLast(start, es);
      CountersExact(start, pre);
      BaseStep(start, es);
      ExactIs(start, pre, Base(start, pre), b);
      assert n > 0 ==> pre[n - 1] == es[n - 1];
      assert start <= b.windowAt;
      if n == 0 { NothingCounted(start); }
      assert b.windowAt <= e.at;
      ExactIs(start, es, Base(start, es), After(start, es));
      if e.Failed? && b.status != HalfOpen {
        CountFailure(start, es, b);
      } else {
        CountOther(start, es, b);
      }
    }
  }

  lemma CountOther(start: int, es: seq<Event>, b: B)
    requires es != [] && b == After(start, es[..|es| - 1]) && After(start, es) == StepTo(b, es[|es| - 1])
    requires Exact(start, es[..|es| - 1], Base(start, es[..|es| - 1]), b) && b.windowAt <= es[|es| - 1].at && start <= es[|es| - 1].at
    requires es[|es| - 1].Failed? ==> b.status == HalfOpen
    ensures Exact(start, es, Base(start, es), After(start, es))
  {
    hide *;
    var n := |es| - 1;
    var pre, e := es[..n], es[n];
    BaseStep(start, es);
    OtherStep(b, e);
    ExactIs(start, pre, Base(start, pre), b);
    ExactIs(start, es, Base(start, es), After(start, es));
    CountedStep(start, es, Base(start, pre));
    if Base(start, es) == |es| {
      EmptyWindow(start, es, After(start, es).windowAt);
    } else {
      Window(start, es, Base(start, pre), b.windowAt);
    }
  }

  lemma CountFailure(start: int, es: seq<Event>, b: B)
    requires es != [] && b == After(start, es[..|es| - 1]) && After(start, es) == StepTo(b, es[|es| - 1])
    requires Exact(start, es[..|es| - 1], Base(start, es[..|es| - 1]), b) && b.windowAt <= es[|es| - 1].at && start <= es[|es| - 1].at
    requires es[|es| - 1].Failed? && b.status != HalfOpen
    ensures Exact(start, es, Base(start, es), After(start, es))
    ensures var trips := Overwhelmed(start, es, BaseNow(start, es));
            && After(start, es).totalTrips == b.totalTrips + (if trips then 1 else 0)
            && After(start, es).status == (if trips then Open else b.status)
            && After(start, es).openUntil == (if trips then es[|es| - 1].at + 2_000_000_000 else b.openUntil)
  {
    hide *;
    var n := |es| - 1;
    var pre, e := es[..n], es[n];
    var from := BaseNow(start, es);
    BaseStep(start, es);
    FailureIs(b, e);
    FailureStep(b, e.at);
    ExactIs(start, pre, Base(start, pre), b);
    ExactIs(start, es, Base(start, es), After(start, es));
    CountedStep(start, es, from);
    OverwhelmedIs(start, es, from);
    if Base(start, es) == |es| {
      EmptyWindow(start, es, After(start, es).windowAt);
    } else if Rolls(start, es) {
      EmptyWindow(start, pre, e.at);
      Window(start, es, n, e.at);
    } else {
      Window(start, es, from, b.windowAt);
    }
  }

  lemma FailureIs(b: B, e: Event)
    requires e.Failed?
    ensures StepTo(b, e) == OnFailure(b, e.at)
  {}

  /** For every history: the trip counter rises at exactly the failures, of a breaker closed or already open, that make the
      counted failures of the window at least 20 and at least half; such a failure opens a closed breaker, and nothing
      else does. */
  lemma TripIff(start: int, es: seq<Event>)
    requires es != [] && InTime(start, es)
    ensures var n := |es| - 1;
            var b, b' := After(start, es[..n]), After(start, es);
            var trips := es[n].Failed? && b.status != HalfOpen && Overwhelmed(start, es, BaseNow(start, es));
            && b'.totalTrips == b.totalTrips + (if trips then 1 else 0)
            && (b.status == Closed ==> (b'.status != Closed <==> trips))
  {
    hide *;
    var n := |es| - 1;
    var b, e := After(start, es[..n]), es[n];
    InTimeLast(start, es);
    AfterLast(start, es);
    CountersExact(start, es[..n]);
    ExactIs(start, es[..n], Base(start, es[..n]), b);
    if n == 0 { NothingCounted(start); }
    assert n > 0 ==> es[..n][n - 1] == es[n - 1];
    if e.Failed? && b.status != HalfOpen {
      CountFailure(start, es, b);
    } else {
      OtherStep(b, e);
      OtherStatus(b, e);
    }
  }

  lemma OtherStatus(b: B, e: Event)
    ensures b.status == Closed && !e.Failed? ==> StepTo(b, e).status == Closed
  {}

  // The numbers.

  /** The failures between `x` and five seconds later. */
  function FailuresIn(es: seq<Event>, x: int): nat {
    if es == [] then 0
    else
      var n := |es| - 1;
      FailuresIn(es[..n], x) + (if es[n].Failed? && x <= es[n].at <= x + 5_000_000_000 then 1 else 0)
  }

  lemma {:induction false} StretchFailures(es: seq<Event>, from: nat, w: int)
    requires from <= |es| && forall j :: from <= j < |es| && es[j].Failed? ==> w <= es[j].at <= w + 5_000_000_000
    ensures Failures(es[from..]) <= FailuresIn(es, w)
  {
    if from < |es| {
      var n := |es| - 1;
      assert es[from..][..n - from] == es[..n][from..];
      StretchFailures(es[..n], from, w);
    }
  }

  lemma {:induction false} FailuresInPrefix(es: seq<Event>, i: nat, x: int)
    requires i <= |es|
    ensures FailuresIn(es[..i], x) <= FailuresIn(es, x)
  {
    if i < |es| {
      var n := |es| - 1;
      assert es[..n][..i] == es[..i];
      FailuresInPrefix(es[..n], i, x);
    } else {
      assert es[..i] == es;
    }
  }

  /** A history with fewer than twenty failures in every five seconds, wherever they lie, never opens the breaker. */
  lemma CalmStaysClosed(start: int, es: seq<Event>)
    requires InTime(start, es) && forall x :: FailuresIn(es, x) < 20
    ensures After(start, es).status == Closed
  {
    if After(start, es).status != Closed {
      var i := FindTrip(start, es);
      var pre := es[..i + 1];
      assert pre[..i] == es[..i] && pre[..i + 1] == pre;
      var from, w := TripJustified(start, pre);
      StretchFailures(pre, from, w);
      FailuresInPrefix(es, i + 1, w);
    }
  }

  lemma FirstWindowStep(b: B, e: Event, start: int)
    requires start <= e.at <= start + 5_000_000_000 && !e.Succeeded?
    ensures b.status != Closed ==> StepTo(b, e).status != Closed
    ensures b.status == Closed && b.failures < 20 && b.successes == 0 && b.windowAt == start ==>
              var b' := StepTo(b, e);
              if e.Failed? && b.failures == 19 then b'.status == Open
              else b'.status == Closed && b'.failures == b.failures + (if e.Failed? then 1 else 0) && b'.successes == 0 && b'.windowAt == start
  {}

  /** In the first five seconds of a new breaker, with no success, exactly the twentieth failure takes it off Closed. */
  lemma {:induction false} TwentyFailures(start: int, es: seq<Event>)
    requires InTime(start, es) && forall i :: 0 <= i < |es| ==> !es[i].Succeeded? && es[i].at <= start + 5_000_000_000
    ensures After(start, es).status != Closed <==> Failures(es) >= 20
    ensures var b := After(start, es);
            Failures(es) < 20 ==> b.failures == Failures(es) && b.successes == 0 && b.windowAt == start
  {
    hide StepTo;
    if es != [] {
      var n := |es| - 1;
      InTimeLast(start, es);
      AfterLast(start, es);
      TwentyFailures(start, es[..n]);
      FirstWindowStep(After(start, es[..n]), es[n], start);
    }
  }

  /** When the breaker last tripped or was reopened. */
  function LastOpened(start: int, es: seq<Event>): Option<int> {
    if es == [] then None
    else
      var n := |es| - 1;
      if es[n].Failed? && (After(start, es[..n]).status == HalfOpen || Overwhelmed(start, es, BaseNow(start, es))) then Some(es[n].at)
      else LastOpened(start, es[..n])
  }

  lemma LastOpenedStep(start: int, es: seq<Event>)
    requires es != []
    ensures var n := |es| - 1;
            LastOpened(start, es)
            == if es[n].Failed? && (After(start, es[..n]).status == HalfOpen || Overwhelmed(start, es, BaseNow(start, es))) then Some(es[n].at)
               else LastOpened(start, es[..n])
  {
    hide Overwhelmed, After, BaseNow;
  }

  lemma StatusSteps(b: B, e: Event)
    ensures var b' := StepTo(b, e);
            match e
            case Succeeded(_) => b'.status == Closed
            case Asked(at) => b'.openUntil == b.openUntil && b'.status == if b.status == Open && at > b.openUntil then HalfOpen else b.status
            case Failed(at) => b.status == HalfOpen ==> b'.status == Open && b'.openUntil == at + 2_000_000_000
  {}

  lemma {:induction false} OpenUntil(start: int, es: seq<Event>)
    requires InTime(start, es)
    ensures var b := After(start, es); b.status != Closed ==> LastOpened(start, es) == Some(b.openUntil - 2_000_000_000)
  {
    hide *;
    if es == [] {
      NothingCounted(start);
      NewClosed(start);
    } else {
      var n := |es| - 1;
      var pre, e, b := es[..n], es[n], After(start, es[..n]);
      InTimeLast(start, es);
      AfterLast(start, es);
      LastOpenedStep(start, es);
      OpenUntil(start, pre);
      StatusSteps(b, e);
      if e.Failed? && b.status != HalfOpen {
        CountersExact(start, pre);
        ExactIs(start, pre, Base(start, pre), b);
        if n == 0 { NothingCounted(start); }
        assert n > 0 ==> pre[n - 1] == es[n - 1];
        CountFailure(start, es, b);
      }
    }
  }

  lemma NewClosed(start: int)
    ensures Init(start).status == Closed
  {}

  /** An open breaker is half-opened by a question more than two seconds after it last tripped or was reopened, and by nothing
      else. */
  lemma HalfOpensIff(start: int, es: seq<Event>)
    requires es != [] && InTime(start, es) && After(start, es[..|es| - 1]).status != HalfOpen
    ensures var n := |es| - 1;
            var pre := es[..n];
            After(start, es).status == HalfOpen <==>
              es[n].Asked? && After(start, pre).status == Open && LastOpened(start, pre).Some?
              && es[n].at - LastOpened(start, pre).value > 2_000_000_000
  {
    var n := |es| - 1;
    InTimeLast(start, es);
    AfterLast(start, es);
    OpenUntil(start, es[..n]);
    StatusSteps(After(start, es[..n]), es[n]);
    FailureNoHalf(After(start, es[..n]), es[n]);
    hide StepTo, After, LastOpened;
  }

  lemma FailureNoHalf(b: B, e: Event)
    ensures e.Failed? && b.status != HalfOpen ==> StepTo(b, e).status != HalfOpen
  {}
}
