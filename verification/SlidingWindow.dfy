/** Sliding windows over whole runs, on one key: the set there is exactly the ids admitted in the last window. A rule's key
    changes at every window boundary; what that means for the rule is in module SlidingRule. */
module SlidingWindow {
  import opened Prelude
  import opened Redis
  import opened BatchCheck
  import opened TwoPhase
  import opened AtKey
  import opened Runs

  predicate SlidingOnly(rules: seq<LRule>, k: string, window: int) {
    forall i | 0 <= i < |rules| && rules[i].key == k :: rules[i].Sliding? && rules[i].window == window
  }

  /** Only batches touch `k`, with sliding rules of one window length; limits may differ. */
  ghost predicate SlidingUse(op: Op, k: string, window: int) {
    && op.now >= 0
    && (Touches(op, k) ==> op.Admit? && Compatible(op.rules) && SlidingOnly(op.rules, k, window))
  }

  function LastTime(ops: seq<Op>): int { if ops == [] then 0 else ops[|ops| - 1].now }

  /** A run in time order. */
  ghost predicate SlidingRun(ops: seq<Op>, k: string, window: int) {
    ops == [] ||
    var n := |ops| - 1;
    && SlidingRun(ops[..n], k, window)
    && LastTime(ops[..n]) <= ops[n].now
    && SlidingUse(ops[n], k, window)
  }

  /** No batch on `k` carries the id of another one admitted there in the last window. Ids come from the client. */
  ghost predicate Distinct(db: Db, ops: seq<Op>, k: string, window: int) {
    ops == [] ||
    var n := |ops| - 1;
    && Distinct(db, ops[..n], k, window)
    && (Touches(ops[n], k) && ops[n].Admit? ==> Member(ops[n].id) !in Since(History(db, ops[..n], k), ops[n].now - window))
  }

  function Member(id: string): string { id + ":1" }

  lemma MembersDiffer(a: string, b: string)
    ensures Member(a) == Member(b) <==> a == b
  {
    assert Member(a)[..|Member(a)| - 2] == a && Member(b)[..|Member(b)| - 2] == b;
  }

  /** The members admitted by batches using `k`, each with its latest time. */
  function History(db: Db, ops: seq<Op>, k: string): map<string, int> {
    if ops == [] then map[]
    else
      var n := |ops| - 1;
      var h := History(db, ops[..n], k);
      if ops[n].Admit? && Touches(ops[n], k) && ReplyTo(db, ops, n) == Ok then h[Member(ops[n].id) := ops[n].now] else h
  }

  /** Those later than `after`. */
  function Since(h: map<string, int>, after: int): map<string, int> { map m | m in h && h[m] > after :: h[m] }

  /** What a run keeps: the set holds the recent admissions, with their times, and nothing but admissions. */
  ghost predicate Mirrors(e: Option<Entry>, h: map<string, int>, window: int, now: int) {
    && (e.Some? ==> e.value.val.ZSet? && e.value.exp.Some?)
    && (forall m :: m in h && h[m] > now - window ==> m in Scores(e))
    && (forall m :: m in Scores(e) ==> m in h && Scores(e)[m] == h[m] && h[m] + window + 1000 <= e.value.exp.value)
    && (forall m :: m in h ==> 0 <= h[m] <= now)
  }

  /** Cleaned at `now`, the set is exactly the admissions of the last window; expiry takes nothing recent away. */
  lemma CleanedExactly(e: Option<Entry>, h: map<string, int>, window: int, t: int, now: int)
    requires window > 0 && t <= now && Mirrors(e, h, window, t)
    ensures Scores(ZRemUpTo(LiveEntry(e, now), now - window)) == Since(h, now - window)
    ensures Mirrors(LiveEntry(e, now), h, window, now)
    ensures Mirrors(ZRemUpTo(LiveEntry(e, now), now - window), h, window, now)
  {
    assert Scores(ZRemUpTo(LiveEntry(e, now), now - window)).Keys == Since(h, now - window).Keys;
  }

  lemma Insert(c: Option<Entry>, h: map<string, int>, window: int, now: int, m: string)
    requires window > 0 && now >= 0 && Mirrors(c, h, window, now)
    ensures Mirrors(Some(Entry(ZSet(Scores(c)[m := now]), Some(now + window + 1000))), h[m := now], window, now)
  {}

  // One batch at `k`.

  predicate SlidingTrial(c: Option<Entry>, r: LRule, now: int)
    requires r.Sliding?
  {
    && (Try(c, r, now).Pass? ==> Try(c, r, now).plan == PSliding(r.key, r.window) && |Scores(c)| + 1 <= r.limit)
    && (Try(c, r, now).Fail? ==> |Scores(c)| + 1 > r.limit)
  }

  lemma SlidingTrials(c: Option<Entry>, r: LRule, now: int)
    requires r.Sliding? && ZRemUpTo(c, now - r.window) == c
    ensures SlidingTrial(c, r, now)
  {}

  lemma CommitSliding(c: Option<Entry>, k: string, window: int, now: int, id: string)
    requires window > 0 && (c.Some? ==> c.value.val.ZSet?)
    ensures Commit(c, PSliding(k, window), now, id)
            == Some(Some(Entry(ZSet(Scores(c)[Member(id) := now]), Some(now + window + 1000))))
  {}

  /** The decision `used` admissions call for: a pass leaves room under every limit on `k`, a refusal by a rule there has none. */
  predicate Decided(reply: Reply, rules: seq<LRule>, k: string, used: nat) {
    && (reply == Ok ==>
          forall i | 0 <= i < |rules| && rules[i].key == k :: rules[i].Sliding? && used + 1 <= rules[i].limit)
    && (reply.Denied? ==> 1 <= reply.index <= |rules|)
    && (reply.Denied? && rules[reply.index - 1].key == k ==>
          rules[reply.index - 1].Sliding? && used + 1 > rules[reply.index - 1].limit)
  }

  lemma SlidingBatchAt(db: Db, now: int, rules: seq<LRule>, id: string, k: string, window: int)
    requires Compatible(rules) && Reads(rules, |rules|, k) && SlidingOnly(rules, k, window) && window > 0
    requires var e := LiveEntry(Get(db, k), now); e.Some? ==> e.value.val.ZSet?
    ensures var (d, reply) := Batch(db, now, rules, id);
            var e := LiveEntry(Get(db, k), now);
            var c := ZRemUpTo(e, now - window);
            && Decided(reply, rules, k, |Scores(c)|)
            && (reply == Ok ==> Get(d, k) == Some(Entry(ZSet(Scores(c)[Member(id) := now]), Some(now + window + 1000))))
            && (reply != Ok ==> Get(d, k) == e || Get(d, k) == c)
  {
    hide Try, Commit, Batch, Compatible;
    var e := LiveEntry(Get(db, k), now);
    var c := ZRemUpTo(e, now - window);
    PurgeTwice(e, Some(now - window));
    assert ZRemUpTo(c, now - window) == c;
    forall i | 0 <= i < |rules| && rules[i].key == k
      ensures Writes(rules[i]) && PurgeBound(rules[i], now) == Some(now - window)
      ensures SlidingTrial(c, rules[i], now)
    {
      SlidingTrials(c, rules[i], now);
    }
    assert OneKind(rules, k);
    hide OneKind, LastOn;
    PlanBatchAt(db, now, rules, id, k, Some(now - window));
    assert SlidingTrial(c, rules[LastOn(rules, k)], now) && rules[LastOn(rules, k)].window == window;
    CommitSliding(c, k, window, now, id);
  }

  lemma BatchKeeps(d: Db, now: int, rules: seq<LRule>, id: string, k: string, window: int, h: map<string, int>, t: int)
    requires window > 0 && 0 <= now && t <= now && Compatible(rules) && SlidingOnly(rules, k, window)
    requires Reads(rules, |rules|, k) && Mirrors(Get(d, k), h, window, t)
    ensures var (d', reply) := Batch(d, now, rules, id);
            && Mirrors(Get(d', k), if reply == Ok then h[Member(id) := now] else h, window, now)
            && Decided(reply, rules, k, |Since(h, now - window)|)
  {
    var e := Get(d, k);
    CleanedExactly(e, h, window, t, now);
    assert LiveEntry(e, now).Some? ==> LiveEntry(e, now).value.val.ZSet?;
    Insert(ZRemUpTo(LiveEntry(e, now), now - window), h, window, now, Member(id));
    hide Batch, Mirrors, Compatible, ZRemUpTo, LiveEntry, Since, Decided, SlidingOnly, Reads;
    SlidingBatchAt(d, now, rules, id, k, window);
  }

  lemma SlidingUseIs(op: Op, k: string, window: int)
    requires SlidingUse(op, k, window)
    ensures op.now >= 0
    ensures Touches(op, k) ==> op.Admit? && Compatible(op.rules) && SlidingOnly(op.rules, k, window) && Reads(op.rules, |op.rules|, k)
  {
    hide SlidingOnly, Compatible;
  }

  /** One call keeps the mirror. */
  lemma StepKeeps(d: Db, op: Op, k: string, window: int, h: map<string, int>, t: int)
    requires window > 0 && t <= op.now && SlidingUse(op, k, window)
    requires Mirrors(Get(d, k), h, window, t)
    ensures var ok := op.Admit? && Touches(op, k) && Step(d, op).1 == Ok;
            Mirrors(Get(Step(d, op).0, k), if ok then h[Member(op.id) := op.now] else h, window, op.now)
    ensures Touches(op, k) ==> Decided(Step(d, op).1, op.rules, k, |Since(h, op.now - window)|)
  {
    hide *;
    SlidingUseIs(op, k, window);
    CleanedExactly(Get(d, k), h, window, t, op.now);
    if Touches(op, k) {
      StepIsBatch(d, op);
      BatchKeeps(d, op.now, op.rules, op.id, k, window, h, t);
    } else {
      Untouched(d, op, k);
    }
  }

  lemma {:induction false} SetIsHistory(db: Db, ops: seq<Op>, k: string, window: int)
    requires k !in db && window > 0 && SlidingRun(ops, k, window)
    ensures Mirrors(Get(Run(db, ops), k), History(db, ops, k), window, LastTime(ops))
  {
    hide *;
    if ops == [] {
      NoHistory(db, k, window);
    } else {
      var pre := ops[..|ops| - 1];
      SlidingLast(db, ops, k, window);
      LastStep(db, ops, k);
      SetIsHistory(db, pre, k, window);
      StepKeeps(Run(db, pre), ops[|ops| - 1], k, window, History(db, pre, k), LastTime(pre));
    }
  }

  lemma NoHistory(db: Db, k: string, window: int)
    requires k !in db
    ensures Mirrors(Get(Run(db, []), k), History(db, [], k), window, LastTime([]))
  {}

  /** The last call of a run and the history it makes. */
  lemma SlidingLast(db: Db, ops: seq<Op>, k: string, window: int)
    requires ops != [] && SlidingRun(ops, k, window)
    ensures var n := |ops| - 1;
            var op, h := ops[n], History(db, ops[..n], k);
            && SlidingRun(ops[..n], k, window) && LastTime(ops[..n]) <= op.now == LastTime(ops) && SlidingUse(op, k, window)
            && (Touches(op, k) ==> op.Admit?)
            && History(db, ops, k) == if op.Admit? && Touches(op, k) && ReplyTo(db, ops, n) == Ok then h[Member(op.id) := op.now] else h
  {
    hide Step, Touches, Compatible, SlidingOnly, ReplyTo, Member;
  }

  /** The decision is exact: with r admissions in the last `window` ms, an admitted batch had r + 1 within every limit on
      the key, and a refusal by one of its rules means r + 1 would have passed that rule's limit. */
  lemma DecisionExact(db: Db, ops: seq<Op>, k: string, window: int)
    requires k !in db && window > 0 && SlidingRun(ops, k, window)
    requires ops != [] && Touches(ops[|ops| - 1], k)
    ensures var n := |ops| - 1;
            Decided(ReplyTo(db, ops, n), ops[n].rules, k, |Since(History(db, ops[..n], k), ops[n].now - window)|)
  {
    hide *;
    var pre := ops[..|ops| - 1];
    SlidingLast(db, ops, k, window);
    LastStep(db, ops, k);
    SetIsHistory(db, pre, k, window);
    StepKeeps(Run(db, pre), ops[|ops| - 1], k, window, History(db, pre, k), LastTime(pre));
  }

  predicate HasLimit(op: Op, k: string, limit: nat) {
    op.Admit? && exists i :: 0 <= i < |op.rules| && op.rules[i].key == k && op.rules[i].Sliding? && op.rules[i].limit <= limit
  }

  /** Call `n` is admitted under a rule on `k` with limit `limit` or less, later than `lo` and not later than `hi`. */
  predicate CountsAt(db: Db, ops: seq<Op>, n: nat, k: string, limit: nat, lo: int, hi: int)
    requires n < |ops|
  {
    HasLimit(ops[n], k, limit) && ReplyTo(db, ops, n) == Ok && lo < ops[n].now <= hi
  }

  /** How many calls are. */
  function CountIn(db: Db, ops: seq<Op>, k: string, limit: nat, lo: int, hi: int): nat {
    if ops == [] then 0
    else CountIn(db, ops[..|ops| - 1], k, limit, lo, hi) + (if CountsAt(db, ops, |ops| - 1, k, limit, lo, hi) then 1 else 0)
  }

  lemma LimitTouches(op: Op, k: string, limit: nat)
    requires HasLimit(op, k, limit)
    ensures Touches(op, k) && op.Admit?
  {}

  lemma CountStep(db: Db, ops: seq<Op>, k: string, limit: nat, lo: int, hi: int)
    requires ops != []
    ensures var n := |ops| - 1;
            var inside := CountsAt(db, ops, n, k, limit, lo, hi);
            && CountIn(db, ops, k, limit, lo, hi) == CountIn(db, ops[..n], k, limit, lo, hi) + (if inside then 1 else 0)
            && (inside ==> HasLimit(ops[n], k, limit) && Touches(ops[n], k) && ops[n].Admit? && ReplyTo(db, ops, n) == Ok
                           && lo < ops[n].now <= hi)
  {
    hide ReplyTo, HasLimit, Touches;
    if HasLimit(ops[|ops| - 1], k, limit) { LimitTouches(ops[|ops| - 1], k, limit); }
  }

  lemma DistinctLast(db: Db, ops: seq<Op>, k: string, window: int)
    requires ops != [] && Distinct(db, ops, k, window)
    ensures var n := |ops| - 1;
            && Distinct(db, ops[..n], k, window)
            && (Touches(ops[n], k) && ops[n].Admit? ==> Member(ops[n].id) !in Since(History(db, ops[..n], k), ops[n].now - window))
  {
    hide Touches, Since, History, Member;
  }

  /** Call `n` counts, and its id was admitted within the window before it. */
  predicate RepeatsAt(db: Db, ops: seq<Op>, n: nat, k: string, limit: nat, window: int, lo: int, hi: int)
    requires n < |ops|
  {
    CountsAt(db, ops, n, k, limit, lo, hi) && Member(ops[n].id) in Since(History(db, ops[..n], k), ops[n].now - window)
  }

  /** How many of the calls that count repeat an id. */
  function RepeatsIn(db: Db, ops: seq<Op>, k: string, limit: nat, window: int, lo: int, hi: int): nat {
    if ops == [] then 0
    else
      RepeatsIn(db, ops[..|ops| - 1], k, limit, window, lo, hi)
      + (if RepeatsAt(db, ops, |ops| - 1, k, limit, window, lo, hi) then 1 else 0)
  }

  lemma RepeatStep(db: Db, ops: seq<Op>, k: string, limit: nat, window: int, lo: int, hi: int)
    requires ops != []
    ensures var n := |ops| - 1;
            var repeat := CountsAt(db, ops, n, k, limit, lo, hi)
                          && Member(ops[n].id) in Since(History(db, ops[..n], k), ops[n].now - window);
            RepeatsIn(db, ops, k, limit, window, lo, hi) == RepeatsIn(db, ops[..n], k, limit, window, lo, hi) + (if repeat then 1 else 0)
  {
    hide CountsAt, Member, Since, History;
  }

  /** No id was admitted later than the last call. */
  lemma {:induction false} HistoryTimes(db: Db, ops: seq<Op>, k: string, window: int)
    requires SlidingRun(ops, k, window)
    ensures forall m :: m in History(db, ops, k) ==> History(db, ops, k)[m] <= LastTime(ops)
  {
    hide *;
    if ops == [] {
      EmptyHistory(db, k);
    } else {
      SlidingLast(db, ops, k, window);
      HistoryTimes(db, ops[..|ops| - 1], k, window);
    }
  }

  lemma EmptyHistory(db: Db, k: string)
    ensures History(db, [], k) == map[]
  {}

  /** The admissions of the last window are at most the ids in it and the repeated ones. */
  lemma {:induction false} RecentAreIds(db: Db, ops: seq<Op>, k: string, window: int, limit: nat, now: int, lo: int, hi: int)
    requires window > 0 && SlidingRun(ops, k, window) && LastTime(ops) <= now && now - window <= lo
    ensures CountIn(db, ops, k, limit, lo, hi) <= |Since(History(db, ops, k), now - window)| + RepeatsIn(db, ops, k, limit, window, lo, hi)
  {
    hide *;
    if ops == [] {
      NoneCounted(db, k, limit, lo, hi);
    } else {
      var n := |ops| - 1;
      SlidingLast(db, ops, k, window);
      CountStep(db, ops, k, limit, lo, hi);
      RepeatStep(db, ops, k, limit, window, lo, hi);
      RecentAreIds(db, ops[..n], k, window, limit, now, lo, hi);
      HistoryTimes(db, ops[..n], k, window);
      if Touches(ops[n], k) && ops[n].Admit? && ReplyTo(db, ops, n) == Ok {
        SinceGrows(History(db, ops[..n], k), Member(ops[n].id), ops[n].now, window, now);
      }
    }
  }

  lemma NoneCounted(db: Db, k: string, limit: nat, lo: int, hi: int)
    ensures CountIn(db, [], k, limit, lo, hi) == 0 && LastTime([]) == 0
    ensures forall window :: RepeatsIn(db, [], k, limit, window, lo, hi) == 0
  {}

  lemma SinceGrows(h: map<string, int>, m: string, t: int, window: int, now: int)
    requires t <= now && forall x :: x in h ==> h[x] <= t
    ensures |Since(h[m := t], now - window)| >= |Since(h, now - window)|
    ensures m !in Since(h, t - window) && t > now - window ==>
              |Since(h[m := t], now - window)| == |Since(h, now - window)| + 1
  {
    var a, b := Since(h, now - window), Since(h[m := t], now - window);
    if t > now - window {
      assert b == a[m := t];
      if m !in Since(h, t - window) {
        assert m !in a;
        assert b.Keys == a.Keys + {m};
      } else {
        Submap(a, b);
      }
    } else {
      Submap(a, b);
    }
  }

  /** Whatever the ids: on one key, no interval of one window length, wherever it lies, holds more admissions under a rule with
      that limit than the limit and the repeated ids among them. */
  lemma {:induction false} LimitAndRepeats(db: Db, ops: seq<Op>, k: string, window: int, limit: nat, t: int)
    requires k !in db && window > 0 && SlidingRun(ops, k, window)
    ensures CountIn(db, ops, k, limit, t - window, t) <= limit + RepeatsIn(db, ops, k, limit, window, t - window, t)
  {
    hide *;
    if ops == [] {
      NoneCounted(db, k, limit, t - window, t);
    } else {
      var n := |ops| - 1;
      SlidingLast(db, ops, k, window);
      CountStep(db, ops, k, limit, t - window, t);
      RepeatStep(db, ops, k, limit, window, t - window, t);
      LimitAndRepeats(db, ops[..n], k, window, limit, t);
      if CountsAt(db, ops, n, k, limit, t - window, t) {
        DecisionExact(db, ops, k, window);
        RoomLeft(ops[n], k, limit, |Since(History(db, ops[..n], k), ops[n].now - window)|);
        RecentAreIds(db, ops[..n], k, window, limit, ops[n].now, t - window, t);
      }
    }
  }

  lemma {:induction false} DistinctNoRepeats(db: Db, ops: seq<Op>, k: string, window: int, limit: nat, lo: int, hi: int)
    requires Distinct(db, ops, k, window)
    ensures RepeatsIn(db, ops, k, limit, window, lo, hi) == 0
  {
    hide *;
    if ops == [] {
      NoneCounted(db, k, limit, lo, hi);
    } else {
      DistinctLast(db, ops, k, window);
      CountStep(db, ops, k, limit, lo, hi);
      RepeatStep(db, ops, k, limit, window, lo, hi);
      DistinctNoRepeats(db, ops[..|ops| - 1], k, window, limit, lo, hi);
    }
  }

  /** Under a limit of 1 nothing is admitted while an id is in the window, the same id included. */
  lemma {:induction false} OneNoRepeats(db: Db, ops: seq<Op>, k: string, window: int, limit: nat, lo: int, hi: int)
    requires k !in db && window > 0 && SlidingRun(ops, k, window) && limit <= 1
    ensures RepeatsIn(db, ops, k, limit, window, lo, hi) == 0
  {
    hide *;
    if ops == [] {
      NoneCounted(db, k, limit, lo, hi);
    } else {
      var n := |ops| - 1;
      SlidingLast(db, ops, k, window);
      CountStep(db, ops, k, limit, lo, hi);
      RepeatStep(db, ops, k, limit, window, lo, hi);
      OneNoRepeats(db, ops[..n], k, window, limit, lo, hi);
      if CountsAt(db, ops, n, k, limit, lo, hi) {
        DecisionExact(db, ops, k, window);
        RoomLeft(ops[n], k, limit, |Since(History(db, ops[..n], k), ops[n].now - window)|);
      }
    }
  }

  /** On one key, no interval of one window length, wherever it lies, holds more than `limit` admissions under a rule with that
      limit, as long as ids are distinct. */
  lemma NoWindowOversold(db: Db, ops: seq<Op>, k: string, window: int, limit: nat, t: int)
    requires k !in db && window > 0 && SlidingRun(ops, k, window) && Distinct(db, ops, k, window)
    ensures CountIn(db, ops, k, limit, t - window, t) <= limit
  {
    LimitAndRepeats(db, ops, k, window, limit, t);
    DistinctNoRepeats(db, ops, k, window, limit, t - window, t);
  }

  lemma RoomLeft(op: Op, k: string, limit: nat, used: nat)
    requires HasLimit(op, k, limit) && Decided(Ok, op.rules, k, used)
    ensures used + 1 <= limit
  {}

  /** On one key the waiting time is exact: with the window full and no further admission, room appears at that millisecond
      and not one earlier. */
  lemma RetryExact(m: map<string, int>, window: int, limit: nat, now: int, later: int)
    requires m != map[] && |m| == limit && now <= later
    requires forall k :: k in m ==> 0 <= m[k] && now - window < m[k]
    ensures |DropUpTo(m, later - window)| + 1 <= limit <==> later - now >= SlidingWait(m, window, now)
  {
    MinScoreLeast(m);
    var rest := DropUpTo(m, later - window);
    Submap(rest, m);
    if MinScore(m) <= later - window {
      var k :| k in m && m[k] == MinScore(m);
      Submap(rest, m - {k});
    } else {
      assert rest == m;
    }
  }

  // One more batch, and what repeated ids do.

  function One(now: int, k: string, limit: int, window: int, id: string): Op { Admit(now, [Sliding(k, limit, window)], id) }

  lemma OneTouches(now: int, k: string, limit: nat, window: int, id: string, j: string)
    requires now >= 0
    ensures var op := One(now, k, limit, window, id);
            && (Touches(op, j) <==> j == k) && HasLimit(op, k, limit) && SlidingUse(op, j, window)
  {
    var op := One(now, k, limit, window, id);
    assert op.rules[0].key == k;
  }

  /** A batch of one sliding rule is never a script error on a set. */
  lemma OneSlidingBatch(db: Db, now: int, k: string, limit: int, window: int, id: string)
    requires var e := LiveEntry(Get(db, k), now); e.Some? ==> e.value.val.ZSet?
    requires |Scores(ZRemUpTo(LiveEntry(Get(db, k), now), now - window))| + 1 <= limit
    ensures Batch(db, now, [Sliding(k, limit, window)], id).1 == Ok
  {
    hide *;
    var r := Sliding(k, limit, window);
    var live := Live(db, now);
    LiveGet(db, now, k);
    SlidingTryIs(Get(live, k), k, limit, window, now);
    TryUnfold(live, now, [r], []);
    assert [] + [PSliding(k, window)] == [PSliding(k, window)];
    TryUnfold(Clean(live, r, now), now, [r], [PSliding(k, window)]);
    OneCompatible(r);
    AllOrNothing(db, now, [r], id);
  }

  lemma OneCompatible(r: LRule)
    ensures Compatible([r])
  {}

  /** Extending a run by one batch on `k` that finds room. */
  lemma Extend(ops: seq<Op>, k: string, window: int, limit: nat, now: int, id: string)
    requires window > 0 && SlidingRun(ops, k, window) && 0 <= now && LastTime(ops) <= now
    requires |Since(History(map[], ops, k), now - window)| + 1 <= limit
    ensures var ops' := ops + [One(now, k, limit, window, id)];
            && ReplyTo(map[], ops', |ops|) == Ok && SlidingRun(ops', k, window) && LastTime(ops') == now
            && History(map[], ops', k) == History(map[], ops, k)[Member(id) := now]
            && (forall lo, hi :: CountIn(map[], ops', k, limit, lo, hi) == CountIn(map[], ops, k, limit, lo, hi) + (if lo < now <= hi then 1 else 0))
  {
    var op := One(now, k, limit, window, id);
    var ops' := ops + [op];
    assert ops'[..|ops|] == ops;
    hide *;
    SetIsHistory(map[], ops, k, window);
    CleanedExactly(Get(Run(map[], ops), k), History(map[], ops, k), window, LastTime(ops), now);
    MirrorSet(LiveEntry(Get(Run(map[], ops), k), now), History(map[], ops, k), window, now);
    OneSlidingBatch(Run(map[], ops), now, k, limit, window, id);
    OneTouches(now, k, limit, window, id, k);
    OneIs(now, k, limit, window, id, Run(map[], ops));
    LastStep(map[], ops', k);
    SlidingAppend(ops, op, k, window);
    SlidingLast(map[], ops', k, window);
    forall lo, hi ensures CountIn(map[], ops', k, limit, lo, hi) == CountIn(map[], ops, k, limit, lo, hi) + (if lo < now <= hi then 1 else 0) {
      CountStep(map[], ops', k, limit, lo, hi);
      CountsIs(map[], ops', k, limit, lo, hi);
    }
  }

  lemma CountsIs(db: Db, ops: seq<Op>, k: string, limit: nat, lo: int, hi: int)
    requires ops != []
    ensures var n := |ops| - 1;
            CountsAt(db, ops, n, k, limit, lo, hi) <==> HasLimit(ops[n], k, limit) && ReplyTo(db, ops, n) == Ok && lo < ops[n].now <= hi
  {
    hide HasLimit, ReplyTo;
  }

  lemma MirrorSet(e: Option<Entry>, h: map<string, int>, window: int, now: int)
    requires Mirrors(e, h, window, now)
    ensures e.Some? ==> e.value.val.ZSet?
  {}

  lemma OneIs(now: int, k: string, limit: int, window: int, id: string, db: Db)
    ensures var op := One(now, k, limit, window, id);
            op.Admit? && op.now == now && op.id == id && Step(db, op) == Batch(db, now, [Sliding(k, limit, window)], id)
  {
    hide Batch;
  }

  lemma SlidingAppend(ops: seq<Op>, op: Op, k: string, window: int)
    requires SlidingRun(ops, k, window) && LastTime(ops) <= op.now && SlidingUse(op, k, window)
    ensures SlidingRun(ops + [op], k, window) && LastTime(ops + [op]) == op.now
  {
    hide SlidingUse;
    assert (ops + [op])[..|ops|] == ops;
  }

  /** The admissions of the window that ends at `t`. */
  function Inside(ops: seq<Op>, k: string, limit: nat, window: int, t: int): nat {
    CountIn(map[], ops, k, limit, t - window, t)
  }

  /** A limit holds on every key, in every run in which ids are distinct, or in every run whatever the ids. */
  ghost predicate Capped(window: int, limit: nat, distinct: bool) {
    forall ops, k, t | SlidingRun(ops, k, window) && (distinct ==> Distinct(map[], ops, k, window)) ::
      Inside(ops, k, limit, window, t) <= limit
  }

  /** A client that repeats its id is counted once: under any limit above 1, any number of admissions at one moment. */
  lemma {:induction false} RepeatedIdOversells(k: string, window: int, limit: nat, n: nat) returns (ops: seq<Op>)
    requires window > 0 && limit >= 2
    ensures SlidingRun(ops, k, window) && Inside(ops, k, limit, window, 0) == n && LastTime(ops) == 0
    ensures History(map[], ops, k).Keys <= {Member("x")}
  {
    hide *;
    if n == 0 {
      ops := [];
      NoOps(k, window, limit);
    } else {
      var pre := RepeatedIdOversells(k, window, limit, n - 1);
      OneIdRecent(History(map[], pre, k), "x", 0, window);
      Extend(pre, k, window, limit, 0, "x");
      ops := pre + [One(0, k, limit, window, "x")];
      InsideIs(pre, k, limit, window, 0);
      InsideIs(ops, k, limit, window, 0);
    }
  }

  lemma NoOps(k: string, window: int, limit: nat)
    ensures SlidingRun([], k, window) && History(map[], [], k) == map[] && LastTime([]) == 0 && Inside([], k, limit, window, 0) == 0
  {}

  lemma InsideIs(ops: seq<Op>, k: string, limit: nat, window: int, t: int)
    ensures Inside(ops, k, limit, window, t) == CountIn(map[], ops, k, limit, t - window, t)
  {
    hide CountIn;
  }

  lemma OneIdRecent(h: map<string, int>, id: string, now: int, window: int)
    requires h.Keys <= {Member(id)}
    ensures h[Member(id) := now].Keys == {Member(id)} && |Since(h, now - window)| <= 1
  {
    hide Member;
    Submap(Since(h, now - window), map[Member(id) := 0]);
  }

  /** The exact condition, limit by limit: it holds in every run precisely when clients do not repeat ids within a window, or when
      the limit is at most 1. */
  lemma CappedIff(window: int, limit: nat, distinct: bool)
    requires window > 0
    ensures Capped(window, limit, distinct) <==> distinct || limit <= 1
  {
    hide SlidingRun, Distinct, CountIn, History;
    if distinct || limit <= 1 {
      forall ops, k, t | SlidingRun(ops, k, window) && (distinct ==> Distinct(map[], ops, k, window))
        ensures Inside(ops, k, limit, window, t) <= limit
      {
        LimitAndRepeats(map[], ops, k, window, limit, t);
        if distinct {
          DistinctNoRepeats(map[], ops, k, window, limit, t - window, t);
        } else {
          OneNoRepeats(map[], ops, k, window, limit, t - window, t);
        }
      }
    } else {
      var ops := RepeatedIdOversells("k", window, limit, limit + 1);
      assert Inside(ops, "k", limit, window, 0) == limit + 1;
    }
  }
}
