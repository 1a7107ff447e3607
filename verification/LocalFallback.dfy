/** Per-instance state (internal/limiter/local.go): the negative cache and the degraded quotas, with lazy cleanup.
    Times are nanoseconds. */
module LocalFallback {
  import opened Prelude

  datatype Quota = Quota(count: nat, resetAt: int)

  datatype Local = Local(blocks: map<string, int>, quotas: map<string, Quota>, lastGC: int)

  const GC_INTERVAL := 30_000_000_000

  function Blocked(blocks: map<string, int>, key: string, now: int): Option<int> {
    if key !in blocks || now > blocks[key] then None else Some(blocks[key])
  }

  function Gc(l: Local, now: int): Local {
    if now - l.lastGC < GC_INTERVAL then l
    else Local(map k | k in l.blocks && now <= l.blocks[k] :: l.blocks[k],
               map k | k in l.quotas && now <= l.quotas[k].resetAt :: l.quotas[k], now)
  }

  function Block(l: Local, key: string, until: int, now: int): Local {
    Gc(l.(blocks := l.blocks[key := until]), now)
  }

  /** The quota in force for `key`: a missing or expired one starts afresh. */
  function Current(quotas: map<string, Quota>, key: string, window: int, now: int): Quota {
    if key !in quotas || now > quotas[key].resetAt then Quota(0, now + window) else quotas[key]
  }

  function AllowQuota(l: Local, key: string, limit: int, window: int, now: int): (Local, bool) {
    var q := Current(l.quotas, key, window, now);
    if q.count >= limit then (l.(quotas := l.quotas[key := q]), false)
    else (Gc(l.(quotas := l.quotas[key := q.(count := q.count + 1)]), now), true)
  }

  class Fallback {
    var blocks: map<string, int>
    var quotas: map<string, Quota>
    var lastGC: int

    function State(): Local
      reads this
    {
      Local(blocks, quotas, lastGC)
    }

    constructor (now: int)
      ensures State() == Local(map[], map[], now)
    {
      blocks, quotas, lastGC := map[], map[], now;
    }

    method IsBlocked(key: string, now: int) returns (until: Option<int>)
      ensures until == Blocked(blocks, key, now)
    {
      if key !in blocks || now > blocks[key] { return None; }
      until := Some(blocks[key]);
    }

    method AddBlock(key: string, until: int, now: int)
      modifies this
      ensures State() == Block(old(State()), key, until, now)
    {
      blocks := blocks[key := until];
      Collect(now);
    }

    method TakeQuota(key: string, limit: int, window: int, now: int) returns (ok: bool)
      modifies this
      ensures (State(), ok) == AllowQuota(old(State()), key, limit, window, now)
    {
      var e := if key in quotas then quotas[key] else Quota(0, 0);
      if key !in quotas || now > e.resetAt {
        e := Quota(0, now + window);
        quotas := quotas[key := e];
      }
      KeepEntry(quotas, key);
      if e.count >= limit { return false; }
      assert quotas[key := e.(count := e.count + 1)] == old(quotas)[key := e.(count := e.count + 1)];
      quotas := quotas[key := e.(count := e.count + 1)];
      Collect(now);
      ok := true;
    }

    method Collect(now: int)
      modifies this
      ensures State() == Gc(old(State()), now)
    {
      if now - lastGC < GC_INTERVAL { return; }
      lastGC := now;
      ghost var blocks0, quotas0 := blocks, quotas;
      var todo := blocks.Keys;
      while todo != {}
        invariant todo <= blocks.Keys
        invariant quotas == quotas0 && lastGC == now
        invariant blocks == map k | k in blocks0 && (k in todo || now <= blocks0[k]) :: blocks0[k]
        decreases todo
      {
        var k :| k in todo;
        if now > blocks[k] { blocks := blocks - {k}; }
        todo := todo - {k};
      }
      assert blocks == map k | k in blocks0 && now <= blocks0[k] :: blocks0[k];
      todo := quotas.Keys;
      while todo != {}
        invariant todo <= quotas.Keys
        invariant lastGC == now && blocks == map k | k in blocks0 && now <= blocks0[k] :: blocks0[k]
        invariant quotas == map k | k in quotas0 && (k in todo || now <= quotas0[k].resetAt) :: quotas0[k]
        decreases todo
      {
        var k :| k in todo;
        if now > quotas[k].resetAt { quotas := quotas - {k}; }
        todo := todo - {k};
      }
    }
  }

  lemma KeepEntry(m: map<string, Quota>, key: string)
    ensures key in m ==> m[key := m[key]] == m
  {}

  // Lazy cleanup is invisible.

  datatype Call =
    | IsBlocked(key: string, now: int)
    | AddBlock(key: string, until: int, now: int)
    | TakeQuota(key: string, limit: int, window: int, now: int)

  datatype Answer = Until(u: Option<int>) | Done | Allowed(ok: bool)

  function Do(l: Local, c: Call): (Local, Answer) {
    match c
    case IsBlocked(key, now) => (l, Until(Blocked(l.blocks, key, now)))
    case AddBlock(key, until, now) => (Block(l, key, until, now), Done)
    case TakeQuota(key, limit, window, now) =>
      var (l', ok) := AllowQuota(l, key, limit, window, now);
      (l', Allowed(ok))
  }

  /** The same object without any cleanup. */
  function DoKeep(l: Local, c: Call): (Local, Answer) {
    match c
    case IsBlocked(key, now) => (l, Until(Blocked(l.blocks, key, now)))
    case AddBlock(key, until, now) => (l.(blocks := l.blocks[key := until]), Done)
    case TakeQuota(key, limit, window, now) =>
      var q := Current(l.quotas, key, window, now);
      if q.count >= limit then (l.(quotas := l.quotas[key := q]), Allowed(false))
      else (l.(quotas := l.quotas[key := q.(count := q.count + 1)]), Allowed(true))
  }

  function After(l: Local, calls: seq<Call>): Local {
    if calls == [] then l else Do(After(l, calls[..|calls| - 1]), calls[|calls| - 1]).0
  }

  function AfterKeep(l: Local, calls: seq<Call>): Local {
    if calls == [] then l else DoKeep(AfterKeep(l, calls[..|calls| - 1]), calls[|calls| - 1]).0
  }

  function AnswerAt(l: Local, calls: seq<Call>, i: nat): Answer
    requires i < |calls|
  {
    Do(After(l, calls[..i]), calls[i]).1
  }

  function AnswerAtKeep(l: Local, calls: seq<Call>, i: nat): Answer
    requires i < |calls|
  {
    DoKeep(AfterKeep(l, calls[..i]), calls[i]).1
  }

  ghost predicate InOrder(calls: seq<Call>, t: int) {
    && (forall i :: 0 <= i < |calls| ==> t <= calls[i].now)
    && (forall i, j :: 0 <= i < j < |calls| ==> calls[i].now <= calls[j].now)
  }

  /** `l` is `k` less some entries that have expired before `now`. */
  ghost predicate Trimmed(l: Local, k: Local, now: int) {
    && (forall x :: x in l.blocks ==> x in k.blocks && l.blocks[x] == k.blocks[x])
    && (forall x :: x in k.blocks && x !in l.blocks ==> k.blocks[x] < now)
    && (forall x :: x in l.quotas ==> x in k.quotas && l.quotas[x] == k.quotas[x])
    && (forall x :: x in k.quotas && x !in l.quotas ==> k.quotas[x].resetAt < now)
  }

  lemma GcTrims(l: Local, k: Local, now: int)
    requires Trimmed(l, k, now)
    ensures Trimmed(Gc(l, now), k, now)
  {}

  lemma PutTrims(l: Local, k: Local, key: string, until: int, q: Quota, now: int)
    requires Trimmed(l, k, now)
    ensures Trimmed(l.(blocks := l.blocks[key := until]), k.(blocks := k.blocks[key := until]), now)
    ensures Trimmed(l.(quotas := l.quotas[key := q]), k.(quotas := k.quotas[key := q]), now)
  {}

  /** What has been removed could no longer be told from what is absent. */
  lemma SameView(l: Local, k: Local, key: string, window: int, t: int, now: int)
    requires t <= now && Trimmed(l, k, t)
    ensures Trimmed(l, k, now)
    ensures Blocked(l.blocks, key, now) == Blocked(k.blocks, key, now)
    ensures Current(l.quotas, key, window, now) == Current(k.quotas, key, window, now)
  {}

  lemma StepAgrees(l: Local, k: Local, c: Call, t: int)
    requires t <= c.now && Trimmed(l, k, t)
    ensures Do(l, c).1 == DoKeep(k, c).1
    ensures Trimmed(Do(l, c).0, DoKeep(k, c).0, c.now)
  {
    hide Trimmed, Gc, Current, Blocked;
    match c {
      case IsBlocked(key, now) =>
        SameView(l, k, key, 0, t, now);
      case AddBlock(key, until, now) =>
        SameView(l, k, key, 0, t, now);
        PutTrims(l, k, key, until, Quota(0, 0), now);
        GcTrims(l.(blocks := l.blocks[key := until]), DoKeep(k, c).0, now);
      case TakeQuota(key, limit, window, now) =>
        var q := Current(l.quotas, key, window, now);
        SameView(l, k, key, window, t, now);
        if q.count >= limit {
          PutTrims(l, k, key, 0, q, now);
        } else {
          PutTrims(l, k, key, 0, q.(count := q.count + 1), now);
          GcTrims(l.(quotas := l.quotas[key := q.(count := q.count + 1)]), DoKeep(k, c).0, now);
        }
    }
  }

  lemma {:induction false} CleanupTrims(l: Local, calls: seq<Call>, t: int)
    requires InOrder(calls, t)
    ensures Trimmed(After(l, calls), AfterKeep(l, calls), if calls == [] then t else calls[|calls| - 1].now)
  {
    if calls != [] {
      var n := |calls| - 1;
      assert n > 0 ==> calls[..n][n - 1].now <= calls[n].now;
      CleanupTrims(l, calls[..n], t);
      hide Do, DoKeep, Trimmed;
      StepAgrees(After(l, calls[..n]), AfterKeep(l, calls[..n]), calls[n], if n == 0 then t else calls[n - 1].now);
    }
  }

  /** Over every sequence of calls in time order the cleanup changes no answer. */
  lemma CleanupInvisible(l: Local, calls: seq<Call>, t: int, i: nat)
    requires InOrder(calls, t) && i < |calls|
    ensures AnswerAt(l, calls, i) == AnswerAtKeep(l, calls, i)
  {
    CleanupTrims(l, calls[..i], t);
    hide Do, DoKeep, Trimmed;
    StepAgrees(After(l, calls[..i]), AfterKeep(l, calls[..i]), calls[i], if i == 0 then t else calls[i - 1].now);
  }

  /** Cleanup never removes the quota just charged, as long as its window is not negative. */
  lemma ChargedSurvives(l: Local, key: string, limit: int, window: int, now: int)
    requires window >= 0
    ensures var (l', ok) := AllowQuota(l, key, limit, window, now);
            key in l'.quotas && l'.quotas[key].count == Current(l.quotas, key, window, now).count + (if ok then 1 else 0)
  {}

  /** The cleanup comes with the first new block or granted unit 30 s after the last one: then nothing expired is left, and what has not
      expired stays; sooner nothing is removed. */
  lemma CleansUp(l: Local, c: Call)
    requires c.AddBlock? || (c.TakeQuota? && Do(l, c).1 == Allowed(true))
    ensures var m := Do(l, c).0;
            && (forall k :: k in l.blocks && k != c.key && c.now <= l.blocks[k] ==> k in m.blocks && m.blocks[k] == l.blocks[k])
            && (forall k :: k in l.quotas && k != c.key && c.now <= l.quotas[k].resetAt ==> k in m.quotas && m.quotas[k] == l.quotas[k])
            && if c.now - l.lastGC >= 30_000_000_000 then
                 && m.lastGC == c.now
                 && (forall k :: k in m.blocks ==> c.now <= m.blocks[k]) && (forall k :: k in m.quotas ==> c.now <= m.quotas[k].resetAt)
               else m.lastGC == l.lastGC && l.blocks.Keys <= m.blocks.Keys && l.quotas.Keys <= m.quotas.Keys
  {}

  // How many calls a quota lets through.

  /** One call on one key: its time and the quota it carries. */
  datatype Ask = Ask(at: int, limit: int)

  /** The answer to one call with a fixed window, from the quota `q` left by earlier calls. */
  function TakeOne(q: Option<Quota>, a: Ask, window: int): (Quota, bool) {
    var c := if q.None? || a.at > q.value.resetAt then Quota(0, a.at + window) else q.value;
    if c.count >= a.limit then (c, false) else (c.(count := c.count + 1), true)
  }

  function QuotaAfter(asks: seq<Ask>, window: int): Option<Quota> {
    if asks == [] then None
    else Some(TakeOne(QuotaAfter(asks[..|asks| - 1], window), asks[|asks| - 1], window).0)
  }

  /** Whether call `i` is let through. */
  predicate Passes(asks: seq<Ask>, window: int, i: nat)
    requires i < |asks|
  {
    TakeOne(QuotaAfter(asks[..i], window), asks[i], window).1
  }

  /** The calls let through between `x` and `x + window`, both included. */
  function Within(asks: seq<Ask>, window: int, x: int): nat {
    if asks == [] then 0
    else
      var n := |asks| - 1;
      Within(asks[..n], window, x) + (if Passes(asks, window, n) && x <= asks[n].at <= x + window then 1 else 0)
  }

  /** In every closed interval as long as the window, at most twice the largest quota gets through: at most two epochs meet
      it. */
  lemma {:induction false} TwiceTheQuota(asks: seq<Ask>, limit: nat, window: int, x: int)
    requires window > 0
    requires forall i, j :: 0 <= i < j < |asks| ==> asks[i].at <= asks[j].at
    requires forall i :: 0 <= i < |asks| ==> asks[i].limit <= limit
    ensures Within(asks, window, x) <= 2 * limit
    ensures var a := Within(asks, window, x);
            match QuotaAfter(asks, window)
            case None => asks == [] && a == 0
            case Some(q) =>
              var start := q.resetAt - window;
              && asks != [] && start <= asks[|asks| - 1].at && q.count <= limit
              && (q.resetAt < x ==> a == 0)
              && (start <= x ==> a <= q.count)
              && (start <= x + window ==> a <= limit + q.count)
  {
    if asks != [] {
      var n := |asks| - 1;
      assert n > 0 ==> asks[..n][n - 1].at <= asks[n].at;
      TwiceTheQuota(asks[..n], limit, window, x);
    }
  }

  /** A new epoch starts only after the previous one has run out, so starts lie more than a window apart. */
  lemma EpochsApart(asks: seq<Ask>, window: int)
    requires |asks| >= 2
    ensures var p := QuotaAfter(asks[..|asks| - 1], window).value.resetAt - window;
            var s := QuotaAfter(asks, window).value.resetAt - window;
            s == p || (s == asks[|asks| - 1].at && s > p + window)
  {}

  predicate Ended(q: Option<Quota>, now: int) { q.None? || q.value.resetAt < now }

  /** From the first call of an epoch until its window is over, exactly the first `limit` calls get through. */
  lemma {:induction false} EpochGrants(before: seq<Ask>, epoch: seq<Ask>, limit: nat, window: int)
    requires epoch != [] && window >= 0 && Ended(QuotaAfter(before, window), epoch[0].at)
    requires forall i :: 0 <= i < |epoch| ==> epoch[i].at <= epoch[0].at + window && epoch[i].limit == limit
    ensures QuotaAfter(before + epoch, window) == Some(Quota(Min(|epoch|, limit), epoch[0].at + window))
    ensures Passes(before + epoch, window, |before + epoch| - 1) <==> |epoch| <= limit
  {
    hide *;
    var n := |epoch| - 1;
    var asks := before + epoch;
    assert asks == (before + epoch[..n]) + [epoch[n]] && asks[..|asks| - 1] == before + epoch[..n];
    WithinSnoc(before + epoch[..n], epoch[n], window, 0);
    if n == 0 {
      assert before + epoch[..n] == before;
      FirstOfEpoch(QuotaAfter(before, window), epoch[0], window);
    } else {
      EpochGrants(before, epoch[..n], limit, window);
      NextOfEpoch(n, limit, epoch[n], epoch[0].at, window);
    }
  }

  lemma FirstOfEpoch(q: Option<Quota>, a: Ask, window: int)
    requires Ended(q, a.at) && a.limit >= 0
    ensures TakeOne(q, a, window) == (Quota(Min(1, a.limit), a.at + window), a.limit >= 1)
  {}

  lemma NextOfEpoch(n: nat, limit: nat, a: Ask, start: int, window: int)
    requires a.at <= start + window && a.limit == limit
    ensures TakeOne(Some(Quota(Min(n, limit), start + window)), a, window) == (Quota(Min(n + 1, limit), start + window), n < limit)
  {}

  lemma {:induction false} EpochWithin(before: seq<Ask>, epoch: seq<Ask>, limit: nat, window: int)
    requires epoch != [] && window >= 0 && Ended(QuotaAfter(before, window), epoch[0].at)
    requires forall i :: 0 <= i < |epoch| ==> epoch[0].at <= epoch[i].at <= epoch[0].at + window && epoch[i].limit == limit
    ensures Within(before + epoch, window, epoch[0].at) == Within(before, window, epoch[0].at) + Min(|epoch|, limit)
  {
    var n := |epoch| - 1;
    var asks := before + epoch;
    assert asks[..|asks| - 1] == before + epoch[..n] && asks[|asks| - 1] == epoch[n];
    EpochGrants(before, epoch, limit, window);
    hide QuotaAfter, Passes;
    if n == 0 {
      assert before + epoch[..n] == before;
    } else {
      EpochWithin(before, epoch[..n], limit, window);
    }
  }

  // The same bound for the object itself.

  /** The calls on `key` all carry the window `window` and quotas of at most `limit`. */
  predicate CappedQuota(calls: seq<Call>, key: string, limit: int, window: int) {
    forall i | 0 <= i < |calls| && calls[i].TakeQuota? && calls[i].key == key ::
      calls[i].limit <= limit && calls[i].window == window
  }

  function AsksOn(calls: seq<Call>, key: string): seq<Ask> {
    if calls == [] then []
    else
      var n := |calls| - 1;
      AsksOn(calls[..n], key) + (if calls[n].TakeQuota? && calls[n].key == key then [Ask(calls[n].now, calls[n].limit)] else [])
  }

  /** How many calls on `key` the object let through between `x` and `x + window`. */
  function Granted(l: Local, calls: seq<Call>, key: string, x: int, window: int): nat {
    if calls == [] then 0
    else
      var n := |calls| - 1;
      Granted(l, calls[..n], key, x, window)
      + (if calls[n].TakeQuota? && calls[n].key == key && AnswerAt(l, calls, n) == Allowed(true)
            && x <= calls[n].now <= x + window then 1 else 0)
  }

  function Entry(l: Local, key: string): Option<Quota> {
    if key in l.quotas then Some(l.quotas[key]) else None
  }

  lemma OneCall(k: Local, c: Call, key: string, window: int)
    requires c.TakeQuota? && c.key == key ==> c.window == window
    ensures if c.TakeQuota? && c.key == key then
              var t := TakeOne(Entry(k, key), Ask(c.now, c.limit), window);
              Entry(DoKeep(k, c).0, key) == Some(t.0) && DoKeep(k, c).1 == Allowed(t.1)
            else Entry(DoKeep(k, c).0, key) == Entry(k, key)
  {}

  lemma WithinSnoc(asks: seq<Ask>, a: Ask, window: int, x: int)
    ensures QuotaAfter(asks + [a], window) == Some(TakeOne(QuotaAfter(asks, window), a, window).0)
    ensures Within(asks + [a], window, x)
            == Within(asks, window, x) + (if TakeOne(QuotaAfter(asks, window), a, window).1 && x <= a.at <= x + window then 1 else 0)
    ensures Passes(asks + [a], window, |asks|) == TakeOne(QuotaAfter(asks, window), a, window).1
  {
    assert (asks + [a])[..|asks|] == asks;
  }

  ghost predicate Rising(asks: seq<Ask>, last: int, limit: int) {
    && (forall i, j :: 0 <= i < j < |asks| ==> asks[i].at <= asks[j].at)
    && (forall i :: 0 <= i < |asks| ==> asks[i].at <= last && asks[i].limit <= limit)
  }

  lemma RisingSnoc(asks: seq<Ask>, last: int, limit: int, a: Ask)
    requires Rising(asks, last, limit) && last <= a.at && a.limit <= limit
    ensures Rising(asks + [a], a.at, limit)
  {}

  lemma RisingLater(asks: seq<Ask>, last: int, limit: int, t: int)
    requires Rising(asks, last, limit) && last <= t
    ensures Rising(asks, t, limit)
  {}

  lemma {:induction false} AsksOrdered(start: int, calls: seq<Call>, key: string, limit: int, window: int)
    requires InOrder(calls, start) && CappedQuota(calls, key, limit, window)
    ensures Rising(AsksOn(calls, key), if calls == [] then start else calls[|calls| - 1].now, limit)
  {
    if calls != [] {
      var n := |calls| - 1;
      var last := if n == 0 then start else calls[n - 1].now;
      assert last <= calls[n].now;
      AsksOrdered(start, calls[..n], key, limit, window);
      assert calls[n].TakeQuota? && calls[n].key == key ==> calls[n].limit <= limit;
      hide Rising, InOrder, CappedQuota;
      if calls[n].TakeQuota? && calls[n].key == key {
        RisingSnoc(AsksOn(calls[..n], key), last, limit, Ask(calls[n].now, calls[n].limit));
      } else {
        RisingLater(AsksOn(calls[..n], key), last, limit, calls[n].now);
        assert AsksOn(calls, key) == AsksOn(calls[..n], key);
      }
    }
  }

  /** One more call, seen by the key's own times and by the object. */
  lemma ViewStep(l: Local, calls: seq<Call>, key: string, limit: nat, window: int, x: int)
    requires calls != [] && CappedQuota(calls, key, limit, window)
    requires var n := |calls| - 1;
             && Entry(AfterKeep(l, calls[..n]), key) == QuotaAfter(AsksOn(calls[..n], key), window)
             && AnswerAt(l, calls, n) == AnswerAtKeep(l, calls, n)
    ensures Entry(AfterKeep(l, calls), key) == QuotaAfter(AsksOn(calls, key), window)
    ensures var n := |calls| - 1;
            Granted(l, calls, key, x, window) - Granted(l, calls[..n], key, x, window)
            == Within(AsksOn(calls, key), window, x) - Within(AsksOn(calls[..n], key), window, x)
  {
    var n := |calls| - 1;
    OneCall(AfterKeep(l, calls[..n]), calls[n], key, window);
    if calls[n].TakeQuota? { WithinSnoc(AsksOn(calls[..n], key), Ask(calls[n].now, calls[n].limit), window, x); }
    assert AfterKeep(l, calls) == DoKeep(AfterKeep(l, calls[..n]), calls[n]).0;
    assert AnswerAt(l, calls, n) == DoKeep(AfterKeep(l, calls[..n]), calls[n]).1;
    hide AnswerAt, AnswerAtKeep, DoKeep, TakeOne, Within, QuotaAfter, Do, Entry, CappedQuota, AfterKeep, After;
    if calls[n].TakeQuota? && calls[n].key == key {
      assert AsksOn(calls, key) == AsksOn(calls[..n], key) + [Ask(calls[n].now, calls[n].limit)];
    } else {
      assert AsksOn(calls, key) == AsksOn(calls[..n], key);
    }
  }

  lemma {:induction false} KeyView(start: int, calls: seq<Call>, key: string, limit: nat, window: int, x: int)
    requires InOrder(calls, start) && CappedQuota(calls, key, limit, window)
    ensures var l := Local(map[], map[], start);
            var asks := AsksOn(calls, key);
            && Entry(AfterKeep(l, calls), key) == QuotaAfter(asks, window)
            && Granted(l, calls, key, x, window) == Within(asks, window, x)
  {
    hide AnswerAt, AnswerAtKeep, DoKeep, TakeOne, Do, After;
    if calls != [] {
      var l := Local(map[], map[], start);
      var n := |calls| - 1;
      KeyView(start, calls[..n], key, limit, window, x);
      CleanupInvisible(l, calls, start, n);
      hide Within, QuotaAfter, Entry, AfterKeep, InOrder, AsksOn, Granted;
      ViewStep(l, calls, key, limit, window, x);
    }
  }

  /** From a new instance, through cleanup and traffic on other keys: no closed interval as long as the window lets through
      more than twice the largest quota. */
  lemma GrantsBounded(start: int, calls: seq<Call>, key: string, limit: nat, window: int, x: int)
    requires window > 0 && InOrder(calls, start) && CappedQuota(calls, key, limit, window)
    ensures Granted(Local(map[], map[], start), calls, key, x, window) <= 2 * limit
  {
    KeyView(start, calls, key, limit, window, x);
    AsksOrdered(start, calls, key, limit, window);
    TwiceTheQuota(AsksOn(calls, key), limit, window, x);
  }

  /** And a key grants its whole quota: of the calls of one epoch, from the first call after the previous epoch ended until its own
      window is over, exactly as many get through as the quota has units, if there are that many. */
  lemma EpochFull(start: int, calls: seq<Call>, key: string, limit: nat, window: int, before: seq<Ask>, epoch: seq<Ask>)
    requires window >= 0 && InOrder(calls, start) && CappedQuota(calls, key, limit, window) && AsksOn(calls, key) == before + epoch
    requires epoch != [] && Ended(QuotaAfter(before, window), epoch[0].at)
    requires forall i :: 0 <= i < |epoch| ==> epoch[i].at <= epoch[0].at + window && epoch[i].limit == limit
    ensures Granted(Local(map[], map[], start), calls, key, epoch[0].at, window)
            == Within(before, window, epoch[0].at) + Min(|epoch|, limit)
    ensures before == [] ==> Granted(Local(map[], map[], start), calls, key, epoch[0].at, window) == Min(|epoch|, limit)
  {
    hide *;
    KeyView(start, calls, key, limit, window, epoch[0].at);
    AsksOrdered(start, calls, key, limit, window);
    LaterAsks(before, epoch, if calls == [] then start else calls[|calls| - 1].now, limit);
    EpochWithin(before, epoch, limit, window);
    NoneWithin(window, epoch[0].at);
  }

  lemma LaterAsks(before: seq<Ask>, epoch: seq<Ask>, last: int, limit: int)
    requires epoch != [] && Rising(before + epoch, last, limit)
    ensures forall i :: 0 <= i < |epoch| ==> epoch[0].at <= epoch[i].at
  {
    forall i | 0 <= i < |epoch| ensures epoch[0].at <= epoch[i].at {
      assert (before + epoch)[|before|] == epoch[0] && (before + epoch)[|before| + i] == epoch[i];
    }
  }

  lemma NoneWithin(window: int, x: int)
    ensures Within([], window, x) == 0
  {}
}
