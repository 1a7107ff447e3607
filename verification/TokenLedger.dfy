/** The token ledger over whole runs (internal/limiter/ledger.go, scripts/token_ledger.lua). */
module TokenLedger {
  import opened Prelude
  import opened Redis
  import opened BatchCheck
  import opened Runs
  import opened Window
  import Keys

  /** The read-only trial merged into the admission script answers as the ledger's own admit does, hint included. */
  lemma AdmitsAgree(e: Option<Entry>, k: string, limit: int, now: int)
    requires Counter(e)
    ensures var (ok, pttl) := LedgerAdmit(e, limit, now);
            Try(e, TkAdmit(k, limit), now) == if ok then Pass(Noop) else Fail(pttl)
  {}

  /** The waiting time is exact: without further charges the rule passes once that many milliseconds are over, and not before. */
  lemma RetryExact(e: Option<Entry>, k: string, limit: int, now: int, later: int)
    requires Counter(e) && LiveEntry(e, now) == e && now <= later && limit >= 1
    ensures var v := Try(e, TkAdmit(k, limit), now);
            && (v.Fail? <==> e.Some? && Used(e) >= limit)
            && (v.Fail? && e.value.exp.Some? ==>
                  (Try(LiveEntry(e, later), TkAdmit(k, limit), later).Pass? <==> later > now + v.retry))
  {}

  // The overspend bound.

  /** The token rules that share a ledger, the largest of whose limits is `limit`. `slots` requests at most are in flight, each
      charging at most `most` in all. */
  datatype Budget = Budget(sha: string -> string, dims: seq<string>, vals: seq<string>, winSec: int, tz: int, natural: bool,
                           limit: int, slots: nat, most: nat)

  /** What one in-flight request may still charge; None is a free slot. */
  type Slot = Option<nat>

  datatype State = State(db: Db, slots: seq<Slot>)

  datatype Event =
    | Enter(slot: nat, own: int)                    // admitted by its own rule against the ledger of the current window
    | Charge(slot: nat, delta: nat)                 // TokenReserve
    | Correct(slot: nat, reserved: nat, actual: nat) // TokenSettle, up or down
    | Leave(slot: nat)
    | Other                                         // time passing, or traffic on other keys

  ghost predicate ValidBudget(b: Budget) {
    Keys.IsDigest(b.sha) && Keys.ValidDims(b.dims) && b.winSec > 0 && b.limit >= 1
  }

  function KeyAt(b: Budget, boundary: int): string { Keys.TokenLedgerKey(b.sha, b.dims, b.vals, b.winSec, boundary) }

  /** The ledger key of the window holding millisecond `now`. */
  function BoundaryAt(b: Budget, now: nat): int { WindowBoundary(now / 1000, b.winSec, b.tz, b.natural) }

  function KeyNow(b: Budget, now: nat): string { KeyAt(b, BoundaryAt(b, now)) }

  function UsedAt(s: State, b: Budget, now: nat): int
    requires Counter(Get(s.db, KeyNow(b, now)))
  {
    Used(LiveEntry(Get(s.db, KeyNow(b, now)), now))
  }

  /** A request enters a free slot only below its own rule's limit, and charges no more than it has left. */
  predicate Enabled(b: Budget, s: State, ev: Event, now: nat) {
    && |s.slots| == b.slots
    && (ev.Other? || ev.slot < b.slots)
    && match ev
       case Enter(i, own) =>
         && s.slots[i].None? && own <= b.limit
         && Try(LiveEntry(Get(s.db, KeyNow(b, now)), now), TkAdmit(KeyNow(b, now), own), now).Pass?
       case Charge(i, delta) => s.slots[i].Some? && delta <= s.slots[i].value
       case Correct(i, reserved, actual) => s.slots[i].Some? && actual - reserved <= s.slots[i].value
       case Leave(i) => s.slots[i].Some?
       case Other => true
  }

  function Next(b: Budget, s: State, ev: Event, now: nat): State
    requires Enabled(b, s, ev, now)
  {
    var k := KeyNow(b, now);
    match ev
    case Enter(i, _) => s.(slots := s.slots[i := Some(b.most)])
    case Charge(i, delta) =>
      State(LedgerStep(Live(s.db, now), Reserve(now, k, delta, b.winSec + 60)), s.slots[i := Some(s.slots[i].value - delta)])
    case Correct(i, reserved, actual) =>
      State(LedgerStep(Live(s.db, now), Settle(now, k, reserved, actual, b.winSec + 60)),
            s.slots[i := Some(s.slots[i].value - Max(0, actual - reserved))])
    case Leave(i) => s.(slots := s.slots[i := None])
    case Other => s
  }

  function Left(slots: seq<Slot>): nat {
    if slots == [] then 0 else (if slots[0].Some? then slots[0].value else 0) + Left(slots[1..])
  }

  lemma {:induction false} LeftUpdate(slots: seq<Slot>, i: nat, v: Slot)
    requires i < |slots|
    ensures Left(slots[i := v]) + (if slots[i].Some? then slots[i].value else 0)
            == Left(slots) + (if v.Some? then v.value else 0)
  {
    if i == 0 {
      assert slots[i := v][1..] == slots[1..];
    } else {
      LeftUpdate(slots[1..], i - 1, v);
      assert slots[i := v][1..] == slots[1..][i - 1 := v];
    }
  }

  lemma {:induction false} LeftAtMost(slots: seq<Slot>, most: nat)
    requires forall i :: 0 <= i < |slots| && slots[i].Some? ==> slots[i].value <= most
    ensures Left(slots) <= |slots| * most
  {
    if slots != [] { LeftAtMost(slots[1..], most); }
  }

  /** What every reachable state keeps at time `now`: later windows are untouched, and what is used plus what
      may still be charged is within the bound. */
  ghost predicate Bounded(b: Budget, s: State, now: nat) {
    && |s.slots| == b.slots
    && (forall i :: 0 <= i < |s.slots| && s.slots[i].Some? ==> s.slots[i].value <= b.most)
    && (forall w :: Counter(Get(s.db, KeyAt(b, w))))
    && (forall w :: w > BoundaryAt(b, now) ==> Get(s.db, KeyAt(b, w)).None?)
    && UsedAt(s, b, now) + Left(s.slots) <= b.limit - 1 + b.slots * b.most
  }

  lemma KeysDiffer(b: Budget, v: int, w: int)
    requires ValidBudget(b)
    ensures KeyAt(b, v) == KeyAt(b, w) <==> v == w
  {
    Keys.KeysCoincideIff(b.sha, Keys.LedgerSpec(b.dims, b.vals, b.winSec, v), Keys.LedgerSpec(b.dims, b.vals, b.winSec, w));
  }

  /** Time passing keeps the bound: the window's key may expire or a new window, with an empty ledger, may begin. */
  lemma TimeKeeps(b: Budget, s: State, now: nat, later: nat)
    requires ValidBudget(b) && Bounded(b, s, now) && now <= later && now / 1000 + Offset(b.tz, b.natural) >= 0
    ensures Bounded(b, s, later)
  {
    BoundaryMonotone(now / 1000, later / 1000, b.winSec, b.tz, b.natural);
    LeftAtMost(s.slots, b.most);
    assert Counter(Get(s.db, KeyAt(b, BoundaryAt(b, later))));
  }

  /** One event keeps the bound. */
  lemma EventKeeps(b: Budget, s: State, ev: Event, now: nat)
    requires ValidBudget(b) && Bounded(b, s, now) && Enabled(b, s, ev, now)
    ensures Bounded(b, Next(b, s, ev, now), now)
  {
    var s' := Next(b, s, ev, now);
    var k := KeyNow(b, now);
    assert Counter(Get(s.db, k));
    hide KeyAt, Next, LiveEntry, Left, Enabled, BoundaryAt;
    SlotsNext(b, s, ev, now);
    LeftAtMost(s'.slots, b.most);
    forall w ensures Counter(Get(s'.db, KeyAt(b, w))) && (w > BoundaryAt(b, now) ==> Get(s'.db, KeyAt(b, w)).None?) {
      assert Counter(Get(s.db, KeyAt(b, w)));
      KeysDiffer(b, w, BoundaryAt(b, now));
      if w == BoundaryAt(b, now) { OwnKey(b, s, ev, now); } else { OtherKey(b, s, ev, now, KeyAt(b, w)); }
    }
    OwnKey(b, s, ev, now);
  }

  /** What an event does to the slots. */
  lemma SlotsNext(b: Budget, s: State, ev: Event, now: nat)
    requires Enabled(b, s, ev, now) && forall i :: 0 <= i < |s.slots| && s.slots[i].Some? ==> s.slots[i].value <= b.most
    ensures var s' := Next(b, s, ev, now);
            && |s'.slots| == b.slots
            && (forall i :: 0 <= i < |s'.slots| && s'.slots[i].Some? ==> s'.slots[i].value <= b.most)
            && (!ev.Enter? ==> Left(s'.slots) <= Left(s.slots))
            && (ev.Charge? ==> Left(s'.slots) == Left(s.slots) - ev.delta)
            && (ev.Correct? ==> Left(s'.slots) == Left(s.slots) - Max(0, ev.actual - ev.reserved))
  {
    hide KeyNow, Try, LedgerStep, Left, LiveEntry, Get, Live;
    if !ev.Other? { LeftUpdate(s.slots, ev.slot, Next(b, s, ev, now).slots[ev.slot]); }
  }

  /** What it does to the current ledger. */
  lemma OwnKey(b: Budget, s: State, ev: Event, now: nat)
    requires ValidBudget(b) && Enabled(b, s, ev, now) && Counter(Get(s.db, KeyNow(b, now)))
    ensures var s' := Next(b, s, ev, now);
            && Counter(Get(s'.db, KeyNow(b, now)))
            && (ev.Enter? ==> UsedAt(s, b, now) <= b.limit - 1)
            && UsedAt(s', b, now) <= (if ev.Charge? then Max(0, UsedAt(s, b, now) + ev.delta)
                                      else if ev.Correct? then Max(0, UsedAt(s, b, now) + Max(0, ev.actual - ev.reserved))
                                      else UsedAt(s, b, now))
  {
    if ev.Charge? || ev.Correct? { ChargedValue(b, s, ev, now); }
    hide KeyNow, LedgerStep, Left;
  }

  lemma OtherKey(b: Budget, s: State, ev: Event, now: nat, j: string)
    requires Enabled(b, s, ev, now) && j != KeyNow(b, now)
    ensures var e := Get(Next(b, s, ev, now).db, j); e == Get(s.db, j) || e == LiveEntry(Get(s.db, j), now)
  {
    hide KeyNow, Try, ReserveEntry, SettleEntry;
    LiveGet(s.db, now, j);
  }

  lemma ChargedValue(b: Budget, s: State, ev: Event, now: nat)
    requires ValidBudget(b) && Enabled(b, s, ev, now) && (ev.Charge? || ev.Correct?) && Counter(Get(s.db, KeyNow(b, now)))
    ensures var e := LiveEntry(Get(s.db, KeyNow(b, now)), now);
            var e' := Get(Next(b, s, ev, now).db, KeyNow(b, now));
            var delta := if ev.Charge? then ev.delta else ev.actual - ev.reserved;
            && Counter(e')
            && Used(LiveEntry(e', now)) == Used(e') <= Max(0, Used(e) + Max(0, delta))
  {
    hide KeyNow;
    LiveGet(s.db, now, KeyNow(b, now));
  }

  /** The overspend bound: whatever the interleaving of reserves, settles, refunds, arrivals and window changes, the
      ledger of the current window never exceeds the largest limit - 1 + slots * most. */
  lemma {:induction false} NeverOverspent(b: Budget, states: seq<State>, evs: seq<Event>, times: seq<nat>)
    requires ValidBudget(b) && |states| == |evs| + 1 == |times| + 1
    requires states[0] == State(map[], seq(b.slots, i => None))
    requires forall i :: 0 <= i < |times| ==> times[i] / 1000 + Offset(b.tz, b.natural) >= 0
    requires forall i, j :: 0 <= i < j < |times| ==> times[i] <= times[j]
    requires forall i :: 0 <= i < |evs| ==> Enabled(b, states[i], evs[i], times[i]) && states[i + 1] == Next(b, states[i], evs[i], times[i])
    ensures |evs| > 0 ==> Bounded(b, states[|evs|], times[|evs| - 1])
    ensures |evs| > 0 ==> UsedAt(states[|evs|], b, times[|evs| - 1]) <= b.limit - 1 + b.slots * b.most
  {
    hide *;
    if |evs| > 0 {
      var n := |evs| - 1;
      NeverOverspent(b, states[..n + 1], evs[..n], times[..n]);
      if n == 0 {
        Fresh(b, times[0]);
      } else {
        TimeKeeps(b, states[n], times[n - 1], times[n]);
      }
      EventKeeps(b, states[n], evs[n], times[n]);
      BoundIs(b, states[n + 1], times[n]);
    }
  }

  lemma Fresh(b: Budget, now: nat)
    requires ValidBudget(b)
    ensures Bounded(b, State(map[], seq(b.slots, i => None)), now)
  {
    LeftAtMost(seq(b.slots, i => None), 0);
    assert 0 <= b.slots * b.most;
    hide KeyAt;
  }

  lemma BoundIs(b: Budget, s: State, now: nat)
    requires Bounded(b, s, now)
    ensures Counter(Get(s.db, KeyNow(b, now))) && UsedAt(s, b, now) <= b.limit - 1 + b.slots * b.most
  {
    hide KeyAt, LiveEntry;
  }

  // Conservation inside one window.

  /** Request number `r` reserves, or settles what it reserved to `actual`. */
  datatype LedgerCall = Add(now: int, r: nat, delta: nat) | Final(now: int, r: nat, actual: nat)

  function Sum(nets: seq<nat>): nat {
    if nets == [] then 0 else nets[0] + Sum(nets[1..])
  }

  lemma {:induction false} SumUpdate(nets: seq<nat>, i: nat, v: nat)
    requires i < |nets|
    ensures Sum(nets[i := v]) + nets[i] == Sum(nets) + v
  {
    if i == 0 {
      assert nets[i := v][1..] == nets[1..];
    } else {
      SumUpdate(nets[1..], i - 1, v);
      assert nets[i := v][1..] == nets[1..][i - 1 := v];
    }
  }

  /** The net charge of each request so far. */
  function Nets(n: nat, ops: seq<LedgerCall>): (nets: seq<nat>)
    requires forall i :: 0 <= i < |ops| ==> ops[i].r < n
    ensures |nets| == n
  {
    if ops == [] then seq(n, i => 0)
    else
      var m := |ops| - 1;
      var nets := Nets(n, ops[..m]);
      var op := ops[m];
      nets[op.r := if op.Add? then nets[op.r] + op.delta else op.actual]
  }

  /** The ledger entry after the calls, each settle passing what the request has reserved. */
  function Ledger(n: nat, ops: seq<LedgerCall>, expire: int): (e: Option<Entry>)
    requires forall i :: 0 <= i < |ops| ==> ops[i].r < n
    ensures Counter(e)
  {
    if ops == [] then None
    else
      var m := |ops| - 1;
      var e := LiveEntry(Ledger(n, ops[..m], expire), ops[m].now);
      var op := ops[m];
      if op.Add? then ReserveEntry(e, op.now, op.delta, expire)
      else SettleEntry(e, op.now, Nets(n, ops[..m])[op.r], op.actual, expire)
  }

  lemma {:induction false} SumZeros(n: nat)
    ensures Sum(seq(n, i => 0)) == 0
  {
    if n > 0 {
      SumZeros(n - 1);
      assert seq<nat>(n, i => 0)[1..] == seq<nat>(n - 1, i => 0);
    }
  }

  lemma {:induction false} SumCovers(nets: seq<nat>, i: nat)
    requires i < |nets|
    ensures nets[i] <= Sum(nets)
  {
    if i > 0 { SumCovers(nets[1..], i - 1); }
  }

  /** Inside one key lifetime the ledger is at all times the sum of the requests' net charges: every refund is paid back
      in full, the clamp at zero is never needed, and once all have settled the ledger is the exact usage. */
  lemma {:induction false} LedgerConserves(n: nat, ops: seq<LedgerCall>, expire: int, lo: int)
    requires expire > 0 && forall i :: 0 <= i < |ops| ==> ops[i].r < n && lo <= ops[i].now <= lo + expire * 1000
    ensures Used(Ledger(n, ops, expire)) == Sum(Nets(n, ops))
    ensures Ledger(n, ops, expire).Some? ==>
              Ledger(n, ops, expire).value.exp.Some? && Ledger(n, ops, expire).value.exp.value >= lo + expire * 1000
  {
    if ops == [] {
      SumZeros(n);
    } else {
      var m := |ops| - 1;
      var op := ops[m];
      LedgerConserves(n, ops[..m], expire, lo);
      var nets := Nets(n, ops[..m]);
      SumUpdate(nets, op.r, Nets(n, ops)[op.r]);
      SumCovers(nets, op.r);
    }
  }

  /** When the key's lifetime began: at the last reserve that found nothing used, or at a settle that found no key. */
  function Started(n: nat, ops: seq<LedgerCall>, expire: int): int
    requires forall i :: 0 <= i < |ops| ==> ops[i].r < n
  {
    if ops == [] then 0
    else
      var m := |ops| - 1;
      var op := ops[m];
      if if op.Add? then op.delta > 0 && Sum(Nets(n, ops[..m])) == 0 else Ledger(n, ops[..m], expire).None? then op.now
      else Started(n, ops[..m], expire)
  }

  /** No charge in between prolongs it; a reserve after everything has been refunded starts it anew. */
  lemma {:induction false} LifetimeStarts(n: nat, ops: seq<LedgerCall>, expire: int, lo: int)
    requires expire > 0 && forall i :: 0 <= i < |ops| ==> ops[i].r < n && lo <= ops[i].now <= lo + expire * 1000
    ensures var e := Ledger(n, ops, expire);
            e.Some? ==> e.value.exp == Some(Started(n, ops, expire) + expire * 1000)
  {
    if ops != [] {
      var m := |ops| - 1;
      LifetimeStarts(n, ops[..m], expire, lo);
      LedgerConserves(n, ops[..m], expire, lo);
      hide Nets, Sum;
    }
  }
}
