/** Concurrency slots over whole runs: acquire, release, timeout, crash. */
module Concurrency {
  import opened Prelude
  import opened Redis
  import opened BatchCheck
  import opened TwoPhase
  import opened AtKey
  import opened Runs

  /** All rules on `k` are concurrency rules with timeouts between `lo` and `hi`. A global rule and a domain's own rule over the
      same dimensions may differ. */
  predicate ConcOnly(rules: seq<LRule>, k: string, lo: int, hi: int) {
    forall i | 0 <= i < |rules| && rules[i].key == k :: rules[i].Conc? && lo <= rules[i].ttl <= hi
  }

  predicate HasLimit(rules: seq<LRule>, k: string, limit: nat) {
    exists i :: 0 <= i < |rules| && rules[i].key == k && rules[i].Conc? && rules[i].limit <= limit
  }

  /** Batches use `k` with timeouts between `lo` and `hi` and a limit of at most `limit`. */
  ghost predicate ConcUse(op: Op, k: string, lo: int, hi: int, limit: nat) {
    && 0 <= op.now
    && (Touches(op, k) ==> op.Admit? || op.Release?)
    && (Touches(op, k) && op.Admit? ==> Compatible(op.rules) && HasLimit(op.rules, k, limit) && ConcOnly(op.rules, k, lo, hi))
  }

  function LastTime(ops: seq<Op>): int { if ops == [] then 0 else ops[|ops| - 1].now }

  /** A run in time order. Ids come from the client and may repeat. */
  ghost predicate ConcRun(ops: seq<Op>, k: string, lo: int, hi: int, limit: nat) {
    ops == [] ||
    var n := |ops| - 1;
    && ConcRun(ops[..n], k, lo, hi, limit)
    && LastTime(ops[..n]) <= ops[n].now
    && ConcUse(ops[n], k, lo, hi, limit)
  }

  /** The timeout of the batch's last rule on `k`, whose write remains. */
  function TtlOn(rules: seq<LRule>, k: string): int {
    if Reads(rules, |rules|, k) && rules[LastOn(rules, k)].Conc? then rules[LastOn(rules, k)].ttl else 0
  }

  /** Ghost bookkeeping: the ids that were admitted on `k` and have not been released, each with its latest deadline. */
  function Held(ops: seq<Op>, k: string): map<string, int> {
    if ops == [] then map[]
    else
      var n := |ops| - 1;
      var h := Held(ops[..n], k);
      if !Touches(ops[n], k) then h
      else if ops[n].Release? then h - {ops[n].id}
      else if ops[n].Admit? && ReplyTo(map[], ops, n) == Ok then h[ops[n].id := ops[n].now + TtlOn(ops[n].rules, k)]
      else h
  }

  function Unexpired(h: map<string, int>, now: int): map<string, int> { map m | m in h && h[m] > now :: h[m] }

  ghost predicate Mirrors(e: Option<Entry>, h: map<string, int>, lo: int, now: int) {
    && (e.Some? ==> e.value.val.ZSet? && e.value.exp.Some?)
    && (forall m :: m in h && h[m] > now ==> m in Scores(e))
    && (forall m :: m in Scores(e) ==> m in h && Scores(e)[m] == h[m] && h[m] <= e.value.exp.value + 1)
    && (forall m :: m in h ==> 0 <= h[m] <= now + lo + 60001)
  }

  /** Cleaned at `now`, the set is exactly the unreleased, unexpired holders. */
  lemma CleanedExactly(e: Option<Entry>, h: map<string, int>, lo: int, t: int, now: int)
    requires t <= now && Mirrors(e, h, lo, t)
    ensures Scores(ZRemUpTo(LiveEntry(e, now), now)) == Unexpired(h, now)
    ensures Mirrors(LiveEntry(e, now), h, lo, now)
    ensures Mirrors(ZRemUpTo(LiveEntry(e, now), now), h, lo, now)
  {
    assert Scores(ZRemUpTo(LiveEntry(e, now), now)).Keys == Unexpired(h, now).Keys;
  }

  lemma Insert(c: Option<Entry>, h: map<string, int>, lo: int, ttl: int, now: int, m: string)
    requires 0 <= now && 0 < lo <= ttl <= lo + 60001 && Mirrors(c, h, lo, now)
    ensures Mirrors(Some(Entry(ZSet(Scores(c)[m := now + ttl]), Some(now + ttl + 60000))), h[m := now + ttl], lo, now)
  {}

  lemma Remove(e: Option<Entry>, h: map<string, int>, lo: int, now: int, m: string)
    requires Mirrors(e, h, lo, now)
    ensures Mirrors(ZRem(e, m), h - {m}, lo, now)
  {}

  // One batch at `k`.

  predicate ConcTrial(c: Option<Entry>, r: LRule, now: int)
    requires r.Conc?
  {
    && (Try(c, r, now).Pass? ==> Try(c, r, now).plan == PConc(r.key, now + r.ttl, r.ttl) && |Scores(c)| + 1 <= r.limit)
    && (Try(c, r, now).Fail? ==> |Scores(c)| + 1 > r.limit && Try(c, r, now).retry == r.ttl)
  }

  lemma ConcTrials(c: Option<Entry>, r: LRule, now: int)
    requires r.Conc? && ZRemUpTo(c, now) == c
    ensures ConcTrial(c, r, now)
  {}

  lemma CommitConc(c: Option<Entry>, k: string, ttl: int, now: int, id: string)
    requires ttl > 0 && (c.Some? ==> c.value.val.ZSet?)
    ensures Commit(c, PConc(k, now + ttl, ttl), now, id)
            == Some(Some(Entry(ZSet(Scores(c)[id := now + ttl]), Some(now + ttl + 60000))))
  {}

  /** The decision `used` slots call for. */
  predicate Decided(reply: Reply, rules: seq<LRule>, k: string, used: nat) {
    && (reply == Ok ==>
          forall i | 0 <= i < |rules| && rules[i].key == k :: rules[i].Conc? && used + 1 <= rules[i].limit)
    && (reply.Denied? ==> 1 <= reply.index <= |rules|)
    && (reply.Denied? && rules[reply.index - 1].key == k ==>
          rules[reply.index - 1].Conc? && used + 1 > rules[reply.index - 1].limit && reply.retry == rules[reply.index - 1].ttl)
  }

  lemma ConcBatchAt(db: Db, now: int, rules: seq<LRule>, id: string, k: string, lo: int, hi: int)
    requires Compatible(rules) && Reads(rules, |rules|, k) && ConcOnly(rules, k, lo, hi) && lo > 0
    requires var e := LiveEntry(Get(db, k), now); e.Some? ==> e.value.val.ZSet?
    ensures var (d, reply) := Batch(db, now, rules, id);
            var e := LiveEntry(Get(db, k), now);
            var c := ZRemUpTo(e, now);
            var ttl := TtlOn(rules, k);
            && lo <= ttl <= hi
            && Decided(reply, rules, k, |Scores(c)|)
            && (reply == Ok ==> Get(d, k) == Some(Entry(ZSet(Scores(c)[id := now + ttl]), Some(now + ttl + 60000))))
            && (reply != Ok ==> Get(d, k) == e || Get(d, k) == c)
  {
    hide Try, Commit, Batch, Compatible, LastOn;
    var e := LiveEntry(Get(db, k), now);
    var c := ZRemUpTo(e, now);
    var ttl := TtlOn(rules, k);
    PurgeTwice(e, Some(now));
    assert ZRemUpTo(c, now) == c;
    forall i | 0 <= i < |rules| && rules[i].key == k
      ensures Writes(rules[i]) && PurgeBound(rules[i], now) == Some(now)
      ensures ConcTrial(c, rules[i], now)
    {
      ConcTrials(c, rules[i], now);
    }
    assert OneKind(rules, k) && rules[LastOn(rules, k)].ttl == ttl;
    hide OneKind, ZRemUpTo;
    PlanBatchAt(db, now, rules, id, k, Some(now));
    CommitConc(c, k, ttl, now, id);
  }

  lemma BatchKeeps(d: Db, now: int, rules: seq<LRule>, id: string, k: string, lo: int, hi: int, h: map<string, int>, t: int)
    requires 0 <= now && t <= now && 0 < lo <= hi <= lo + 60001 && Compatible(rules) && ConcOnly(rules, k, lo, hi)
    requires Reads(rules, |rules|, k) && Mirrors(Get(d, k), h, lo, t)
    ensures var (d', reply) := Batch(d, now, rules, id);
            && Mirrors(Get(d', k), if reply == Ok then h[id := now + TtlOn(rules, k)] else h, lo, now)
            && Decided(reply, rules, k, |Unexpired(h, now)|)
  {
    hide *;
    CleanedExactly(Get(d, k), h, lo, t, now);
    MirrorSet(LiveEntry(Get(d, k), now), h, lo, now);
    ConcBatchAt(d, now, rules, id, k, lo, hi);
    Insert(ZRemUpTo(LiveEntry(Get(d, k), now), now), h, lo, TtlOn(rules, k), now, id);
  }

  lemma MirrorSet(e: Option<Entry>, h: map<string, int>, lo: int, now: int)
    requires Mirrors(e, h, lo, now)
    ensures e.Some? ==> e.value.val.ZSet?
  {}

  lemma OtherKeeps(d: Db, op: Op, k: string, lo: int, h: map<string, int>, t: int)
    requires t <= op.now && Mirrors(Get(d, k), h, lo, t) && (Touches(op, k) ==> op.Release?)
    ensures Mirrors(Get(Step(d, op).0, k), if Touches(op, k) then h - {op.id} else h, lo, op.now)
  {
    CleanedExactly(Get(d, k), h, lo, t, op.now);
    if Touches(op, k) {
      Remove(LiveEntry(Get(d, k), op.now), h, lo, op.now, op.id);
      LiveGet(d, op.now, k);
      ReleaseFrame(Live(d, op.now), op.keys, op.id, k);
    } else {
      hide Step, Mirrors, Touches, LiveEntry;
      Untouched(d, op, k);
    }
  }

  /** In every run the set at `k` is the bookkeeping, and every decision on `k` is the one the unexpired holders call for. */
  lemma {:induction false} SlotsAreHolders(ops: seq<Op>, k: string, lo: int, hi: int, limit: nat)
    requires 0 < lo <= hi <= lo + 60001 && ConcRun(ops, k, lo, hi, limit)
    ensures Mirrors(Get(Run(map[], ops), k), Held(ops, k), lo, LastTime(ops))
    ensures var n := |ops| - 1;
            ops != [] && ops[n].Admit? && Touches(ops[n], k) ==>
              Decided(ReplyTo(map[], ops, n), ops[n].rules, k, |Unexpired(Held(ops[..n], k), ops[n].now)|)
  {
    hide *;
    if ops == [] {
      NothingHeld(k, lo);
    } else {
      var n := |ops| - 1;
      var op, pre := ops[n], ops[..n];
      ConcLast(ops, k, lo, hi, limit);
      LastStep(map[], ops, k);
      SlotsAreHolders(pre, k, lo, hi, limit);
      if Touches(op, k) && op.Admit? {
        AdmitKeeps(Run(map[], pre), op, k, lo, hi, limit, Held(pre, k), LastTime(pre));
      } else {
        OtherKeeps(Run(map[], pre), op, k, lo, Held(pre, k), LastTime(pre));
      }
    }
  }

  lemma NothingHeld(k: string, lo: int)
    ensures Mirrors(Get(Run(map[], []), k), Held([], k), lo, LastTime([]))
  {}

  /** The last call of a run, and the bookkeeping for it. */
  lemma ConcLast(ops: seq<Op>, k: string, lo: int, hi: int, limit: nat)
    requires ops != [] && ConcRun(ops, k, lo, hi, limit)
    ensures var n := |ops| - 1;
            var op, h := ops[n], Held(ops[..n], k);
            && ConcRun(ops[..n], k, lo, hi, limit) && LastTime(ops[..n]) <= op.now == LastTime(ops) && ConcUse(op, k, lo, hi, limit)
            && (Touches(op, k) ==> op.Admit? || op.Release?)
            && Held(ops, k) == if !Touches(op, k) then h
                               else if op.Release? then h - {op.id}
                               else if ReplyTo(map[], ops, n) == Ok then h[op.id := op.now + TtlOn(op.rules, k)]
                               else h
  {
    hide Step, Touches, Compatible, HasLimit, ConcOnly, ReplyTo, TtlOn;
  }

  lemma AdmitKeeps(d: Db, op: Op, k: string, lo: int, hi: int, limit: nat, h: map<string, int>, t: int)
    requires 0 < lo <= hi <= lo + 60001 && ConcUse(op, k, lo, hi, limit) && op.Admit? && Touches(op, k)
    requires t <= op.now && Mirrors(Get(d, k), h, lo, t)
    ensures var (d', reply) := Step(d, op);
            && Mirrors(Get(d', k), if reply == Ok then h[op.id := op.now + TtlOn(op.rules, k)] else h, lo, op.now)
            && Decided(reply, op.rules, k, |Unexpired(h, op.now)|)
  {
    hide *;
    UseIs(op, k, lo, hi, limit);
    BatchKeeps(d, op.now, op.rules, op.id, k, lo, hi, h, t);
    StepIsBatch(d, op);
  }

  lemma UseIs(op: Op, k: string, lo: int, hi: int, limit: nat)
    requires ConcUse(op, k, lo, hi, limit) && op.Admit? && Touches(op, k)
    ensures ConcOnly(op.rules, k, lo, hi) && Compatible(op.rules) && 0 <= op.now && Reads(op.rules, |op.rules|, k)
  {
    hide Compatible, ConcOnly, HasLimit;
  }

  /** Never more unexpired ids than the limit. */
  lemma {:induction false} IdsWithinLimit(ops: seq<Op>, k: string, lo: int, hi: int, limit: nat)
    requires 0 < lo <= hi <= lo + 60001 && ConcRun(ops, k, lo, hi, limit)
    ensures |Unexpired(Held(ops, k), LastTime(ops))| <= limit
  {
    hide *;
    if ops == [] {
      NothingUnexpired(k);
    } else {
      var n := |ops| - 1;
      var h := Held(ops[..n], k);
      ConcLast(ops, k, lo, hi, limit);
      IdsWithinLimit(ops[..n], k, lo, hi, limit);
      SlotsAreHolders(ops, k, lo, hi, limit);
      UnexpiredShrinks(h, LastTime(ops[..n]), ops[n].now, if ops[n].Release? then ops[n].id else "");
      if ops[n].Admit? && Touches(ops[n], k) && ReplyTo(map[], ops, n) == Ok {
        RoomLeft(ops[n], k, lo, hi, limit, |Unexpired(h, ops[n].now)|);
        UnexpiredGrows(h, ops[n].now, ops[n].id, ops[n].now + TtlOn(ops[n].rules, k));
      }
    }
  }

  lemma NothingUnexpired(k: string)
    ensures |Unexpired(Held([], k), LastTime([]))| == 0
  {
    assert Unexpired(map[], 0) == map[];
  }

  lemma UnexpiredShrinks(h: map<string, int>, t: int, now: int, id: string)
    requires t <= now
    ensures |Unexpired(h, now)| <= |Unexpired(h, t)|
    ensures |Unexpired(h - {id}, now)| <= |Unexpired(h, t)|
  {
    Submap(Unexpired(h, now), Unexpired(h, t));
    Submap(Unexpired(h - {id}, now), Unexpired(h, t));
  }

  lemma UnexpiredGrows(h: map<string, int>, now: int, id: string, deadline: int)
    ensures |Unexpired(h[id := deadline], now)| <= |Unexpired(h, now)| + 1
  {
    Submap(Unexpired(h[id := deadline], now), Unexpired(h, now)[id := 0]);
  }

  lemma RoomLeft(op: Op, k: string, lo: int, hi: int, limit: nat, used: nat)
    requires op.Admit? && Touches(op, k) && ConcUse(op, k, lo, hi, limit) && Decided(Ok, op.rules, k, used)
    ensures used + 1 <= limit
  {
    hide Compatible, ConcOnly;
  }

  // Requests, as distinct from their ids.

  /** A request that was admitted and has not been released. */
  datatype Holder = Holder(id: string, deadline: int)

  /** All of them, in the order of admission. A release ends one request with that id. */
  function Flying(ops: seq<Op>, k: string): seq<Holder> {
    if ops == [] then []
    else
      var n := |ops| - 1;
      var f := Flying(ops[..n], k);
      if !Touches(ops[n], k) then f
      else if ops[n].Release? then Ended(f, ops[n].id)
      else if ops[n].Admit? && ReplyTo(map[], ops, n) == Ok then f + [Holder(ops[n].id, ops[n].now + TtlOn(ops[n].rules, k))]
      else f
  }

  function Ended(f: seq<Holder>, id: string): seq<Holder> {
    if f == [] then [] else if f[0].id == id then f[1..] else [f[0]] + Ended(f[1..], id)
  }

  /** How many of them have not reached their deadline. */
  function Holding(f: seq<Holder>, now: int): nat {
    if f == [] then 0 else (if f[0].deadline > now then 1 else 0) + Holding(f[1..], now)
  }

  /** No batch on `k` carries the id of a request in flight there. */
  predicate Distinct(ops: seq<Op>, k: string) {
    ops == [] ||
    var n := |ops| - 1;
    && Distinct(ops[..n], k)
    && (Touches(ops[n], k) && ops[n].Admit? ==> forall h | h in Flying(ops[..n], k) :: h.id != ops[n].id)
  }

  /** Every request in flight has an id of its own, noted with its deadline. */
  predicate Noted(f: seq<Holder>, h: map<string, int>) {
    && (forall i :: 0 <= i < |f| ==> f[i].id in h && h[f[i].id] == f[i].deadline)
    && (forall i, j :: 0 <= i < j < |f| ==> f[i].id != f[j].id)
  }

  lemma {:induction false} EndedNoted(f: seq<Holder>, h: map<string, int>, id: string)
    requires Noted(f, h)
    ensures Noted(Ended(f, id), h - {id}) && forall x :: x in Ended(f, id) ==> x in f
  {
    if f != [] && f[0].id != id {
      EndedNoted(f[1..], h, id);
      assert forall x :: x in f[1..] ==> x.id != f[0].id;
    }
  }

  lemma DistinctLast(ops: seq<Op>, k: string)
    requires ops != [] && Distinct(ops, k)
    ensures var n := |ops| - 1;
            var op, f := ops[n], Flying(ops[..n], k);
            && Distinct(ops[..n], k)
            && (Touches(op, k) && op.Admit? ==> forall h | h in f :: h.id != op.id)
  {
    hide Touches, ReplyTo, TtlOn, Flying;
  }

  lemma FlyingStep(ops: seq<Op>, k: string)
    requires ops != []
    ensures var n := |ops| - 1;
            var op, f := ops[n], Flying(ops[..n], k);
            Flying(ops, k) == if !Touches(op, k) then f
                              else if op.Release? then Ended(f, op.id)
                              else if op.Admit? && ReplyTo(map[], ops, n) == Ok then f + [Holder(op.id, op.now + TtlOn(op.rules, k))]
                              else f
  {
    hide Touches, ReplyTo, TtlOn;
  }

  lemma NotedSnoc(f: seq<Holder>, h: map<string, int>, id: string, deadline: int)
    requires Noted(f, h) && forall x | x in f :: x.id != id
    ensures Noted(f + [Holder(id, deadline)], h[id := deadline])
  {
    forall i | 0 <= i < |f| ensures f[i].id != id { assert f[i] in f; }
  }

  lemma NothingNoted(k: string)
    ensures Noted(Flying([], k), Held([], k))
  {}

  lemma {:induction false} AllNoted(ops: seq<Op>, k: string, lo: int, hi: int, limit: nat)
    requires ConcRun(ops, k, lo, hi, limit) && Distinct(ops, k)
    ensures Noted(Flying(ops, k), Held(ops, k))
  {
    hide *;
    if ops == [] {
      NothingNoted(k);
    } else {
      var n := |ops| - 1;
      ConcLast(ops, k, lo, hi, limit);
      DistinctLast(ops, k);
      FlyingStep(ops, k);
      AllNoted(ops[..n], k, lo, hi, limit);
      if Touches(ops[n], k) {
        if ops[n].Release? {
          EndedNoted(Flying(ops[..n], k), Held(ops[..n], k), ops[n].id);
        } else if ReplyTo(map[], ops, n) == Ok {
          NotedSnoc(Flying(ops[..n], k), Held(ops[..n], k), ops[n].id, ops[n].now + TtlOn(ops[n].rules, k));
        }
      }
    }
  }

  lemma {:induction false} HoldingNoted(f: seq<Holder>, h: map<string, int>, now: int)
    requires Noted(f, h)
    ensures Holding(f, now) <= |Unexpired(h, now)|
  {
    if f != [] {
      var id := f[0].id;
      assert Noted(f[1..], h - {id});
      HoldingNoted(f[1..], h - {id}, now);
      Submap(Unexpired(h - {id}, now), Unexpired(h, now));
      if f[0].deadline > now {
        assert id in Unexpired(h, now);
        assert Unexpired(h, now).Keys == Unexpired(h - {id}, now).Keys + {id};
        assert |Unexpired(h, now)| == |Unexpired(h, now).Keys| && |Unexpired(h - {id}, now)| == |Unexpired(h - {id}, now).Keys|;
      }
    }
  }

  /** Never more unexpired requests than the limit, as long as no two in flight on the key share an id. */
  lemma NeverOverLimit(ops: seq<Op>, k: string, lo: int, hi: int, limit: nat)
    requires 0 < lo <= hi <= lo + 60001 && ConcRun(ops, k, lo, hi, limit) && Distinct(ops, k)
    ensures Holding(Flying(ops, k), LastTime(ops)) <= limit
  {
    hide *;
    IdsWithinLimit(ops, k, lo, hi, limit);
    AllNoted(ops, k, lo, hi, limit);
    HoldingNoted(Flying(ops, k), Held(ops, k), LastTime(ops));
  }

  /** When every admitted request has been released or has timed out, the next cleanup leaves the key empty. */
  lemma Drains(ops: seq<Op>, k: string, lo: int, hi: int, limit: nat, now: int)
    requires 0 < lo <= hi <= lo + 60001 && ConcRun(ops, k, lo, hi, limit)
    requires LastTime(ops) <= now && forall m :: m in Held(ops, k) ==> Held(ops, k)[m] <= now
    ensures ZRemUpTo(LiveEntry(Get(Run(map[], ops), k), now), now).None?
            || Scores(ZRemUpTo(LiveEntry(Get(Run(map[], ops), k), now), now)) == map[]
  {
    SlotsAreHolders(ops, k, lo, hi, limit);
    CleanedExactly(Get(Run(map[], ops), k), Held(ops, k), lo, LastTime(ops), now);
    assert Unexpired(Held(ops, k), now) == map[];
  }

  /** The keys whose set holds the request. */
  function KeysWith(db: Db, keys: seq<string>, id: string): set<string> { set k | k in keys && id in Scores(Get(db, k)) }

  /** A release reports how many slots it frees. */
  lemma {:induction false} ReleaseCounts(db: Db, keys: seq<string>, id: string)
    requires forall i, j :: 0 <= i < j < |keys| ==> keys[i] != keys[j]
    ensures ReleaseAll(db, keys, id).1 == |KeysWith(db, keys, id)|
  {
    hide *;
    if keys == [] {
      NoneReleased(db, id);
    } else {
      var n := |keys| - 1;
      var pre, k := keys[..n], keys[n];
      ReleaseCounts(db, pre, id);
      ReleaseFrame(db, pre, id, k);
      ReleaseLast(db, keys, id);
      KeysLast(db, pre, k, id);
      assert keys == pre + [k];
    }
  }

  lemma NoneReleased(db: Db, id: string)
    ensures ReleaseAll(db, [], id).1 == 0 && KeysWith(db, [], id) == {}
  {}

  lemma ReleaseLast(db: Db, keys: seq<string>, id: string)
    requires keys != []
    ensures var n := |keys| - 1;
            var (d, c) := ReleaseAll(db, keys[..n], id);
            ReleaseAll(db, keys, id).1 == if id in Scores(Get(d, keys[n])) then c + 1 else c
  {
    hide Scores, Get, Put, ZRem;
  }

  lemma KeysLast(db: Db, pre: seq<string>, k: string, id: string)
    requires k !in pre
    ensures |KeysWith(db, pre + [k], id)| == |KeysWith(db, pre, id)| + if id in Scores(Get(db, k)) then 1 else 0
  {
    hide Scores, Get;
    assert KeysWith(db, pre + [k], id) == KeysWith(db, pre, id) + if id in Scores(Get(db, k)) then {k} else {};
  }

  /** Releasing again removes nothing and changes nothing. */
  lemma ReleaseIdempotent(db: Db, keys: seq<string>, id: string)
    ensures var d := ReleaseAll(db, keys, id).0;
            ReleaseAll(d, keys, id) == (d, 0)
  {
    var d := ReleaseAll(db, keys, id).0;
    forall k | k in keys ensures id !in Scores(Get(d, k)) {
      ReleaseFrame(db, keys, id, k);
    }
    ReleaseAbsent(d, keys, id);
  }

  lemma {:induction false} ReleaseAbsent(d: Db, keys: seq<string>, id: string)
    requires forall k :: k in keys ==> id !in Scores(Get(d, k))
    ensures ReleaseAll(d, keys, id) == (d, 0)
  {
    if keys != [] {
      var n := |keys| - 1;
      ReleaseAbsent(d, keys[..n], id);
      assert keys[n] in keys;
      assert Put(d, keys[n], Get(d, keys[n])) == d;
    }
  }

  // The timeouts must not be further apart than the key's own 60 s margin.

  lemma OneRuleBatch(db: Db, now: int, k: string, limit: int, ttl: int, id: string)
    requires ttl > 0
    requires var e := LiveEntry(Get(db, k), now); e.Some? ==> e.value.val.ZSet?
    requires |Scores(ZRemUpTo(LiveEntry(Get(db, k), now), now))| + 1 <= limit
    ensures var c := ZRemUpTo(LiveEntry(Get(db, k), now), now);
            Batch(db, now, [Conc(k, limit, ttl)], id) ==
            (Put(Live(db, now), k, Some(Entry(ZSet(Scores(c)[id := now + ttl]), Some(now + ttl + 60000)))), Ok)
  {
    hide *;
    var r := Conc(k, limit, ttl);
    var live := Live(db, now);
    var d := Clean(live, r, now);
    var c := ZRemUpTo(Get(live, k), now);
    var p := PConc(k, now + ttl, ttl);
    LiveGet(db, now, k);
    ConcTryIs(Get(live, k), k, limit, ttl, now);
    TryUnfold(live, now, [r], []);
    assert [] + [p] == [p];
    TryUnfold(d, now, [r], [p]);
    CleanConc(live, k, limit, ttl, now);
    CommitConc(c, k, ttl, now, id);
    CommitOne(d, now, id, p);
    PutTwice(live, k, c, Commit(c, p, now, id).value);
    BatchIs(db, now, [r], id);
  }

  lemma CleanConc(live: Db, k: string, limit: int, ttl: int, now: int)
    requires Get(live, k).Some? ==> Get(live, k).value.val.ZSet?
    ensures var c := ZRemUpTo(Get(live, k), now);
            && Clean(live, Conc(k, limit, ttl), now) == Put(live, k, c) && Get(Put(live, k, c), k) == c
            && (c.Some? ==> c.value.val.ZSet?)
  {
    hide DropUpTo;
  }

  lemma CommitOne(d: Db, now: int, id: string, p: Plan)
    requires !p.Noop? && Commit(Get(d, p.key), p, now, id).Some?
    ensures CommitFrom(d, now, id, [p], 0) == (Put(d, p.key, Commit(Get(d, p.key), p, now, id).value), true)
  {
    hide Commit;
    var d' := Put(d, p.key, Commit(Get(d, p.key), p, now, id).value);
    assert CommitFrom(d', now, id, [p], 1) == (d', true);
  }

  lemma PutTwice(d: Db, k: string, a: Option<Entry>, b: Option<Entry>)
    ensures Put(Put(d, k, a), k, b) == Put(d, k, b)
  {}

  /** The store with the one key `k`, holding `m` until `exp`. */
  function OneKey(k: string, m: map<string, int>, exp: int): Db { map[k := Entry(ZSet(m), Some(exp))] }

  /** What a batch finds there: an expired key counts as empty. */
  lemma OneKeyScores(k: string, m: map<string, int>, exp: int, now: int)
    requires now <= exp ==> forall x :: x in m ==> m[x] > now
    ensures var e := LiveEntry(Get(OneKey(k, m, exp), k), now);
            && (e.Some? ==> e.value.val.ZSet?)
            && Scores(ZRemUpTo(e, now)) == if now <= exp then m else map[]
  {
    assert DropUpTo(m, now) == m || now > exp;
  }

  lemma OneKeyPut(k: string, m: map<string, int>, exp: int, now: int, m': map<string, int>, exp': int)
    ensures Put(Live(OneKey(k, m, exp), now), k, Some(Entry(ZSet(m'), Some(exp')))) == OneKey(k, m', exp')
  {}

  lemma OneKeyBatch(k: string, m: map<string, int>, exp: int, now: int, limit: nat, ttl: int, id: string)
    requires ttl > 0 && limit >= 1 && (now <= exp ==> |m| + 1 <= limit && forall x :: x in m ==> m[x] > now)
    ensures var m' := if now <= exp then m else map[];
            Batch(OneKey(k, m, exp), now, [Conc(k, limit, ttl)], id) == (OneKey(k, m'[id := now + ttl], now + ttl + 60000), Ok)
  {
    OneKeyScores(k, m, exp, now);
    var m' := if now <= exp then m else map[];
    OneKeyPut(k, m, exp, now, m'[id := now + ttl], now + ttl + 60000);
    hide Batch, OneKey, Live, Put, LiveEntry, ZRemUpTo;
    OneRuleBatch(OneKey(k, m, exp), now, k, limit, ttl, id);
  }

  lemma FirstBatch(k: string, limit: nat, ttl: int, id: string)
    requires ttl > 0 && limit >= 1
    ensures Batch(map[], 0, [Conc(k, limit, ttl)], id) == (OneKey(k, map[id := ttl], ttl + 60000), Ok)
  {
    hide Batch;
    assert Live(map[], 0) == map[];
    OneRuleBatch(map[], 0, k, limit, ttl, id);
  }

  function One(now: int, k: string, limit: nat, ttl: int, id: string): Op { Admit(now, [Conc(k, limit, ttl)], id) }

  lemma OneIs(now: int, k: string, lo: int, hi: int, limit: nat, ttl: int, id: string)
    requires lo <= ttl <= hi && 0 <= now
    ensures var op := One(now, k, limit, ttl, id);
            && ConcUse(op, k, lo, hi, limit) && Touches(op, k) && op.Admit? && op.now == now && op.id == id && TtlOn(op.rules, k) == ttl
            && op.rules == [Conc(k, limit, ttl)]
  {
    var rules := [Conc(k, limit, ttl)];
    assert rules[0].key == k;
  }

  lemma ConcAppend(ops: seq<Op>, op: Op, k: string, lo: int, hi: int, limit: nat)
    requires ConcRun(ops, k, lo, hi, limit) && LastTime(ops) <= op.now && ConcUse(op, k, lo, hi, limit)
    ensures ConcRun(ops + [op], k, lo, hi, limit) && LastTime(ops + [op]) == op.now
    ensures Distinct(ops, k) && (forall h | h in Flying(ops, k) :: op.Admit? ==> h.id != op.id) ==> Distinct(ops + [op], k)
  {
    hide ConcUse, Touches, Flying;
    assert (ops + [op])[..|ops|] == ops;
  }

  /** Extending a run by an admitted one-rule batch. */
  lemma AdmitNext(ops: seq<Op>, k: string, lo: int, hi: int, limit: nat, now: int, ttl: int, id: string) returns (ops': seq<Op>)
    requires ConcRun(ops, k, lo, hi, limit) && 0 <= LastTime(ops) <= now && lo <= ttl <= hi
    requires Batch(Run(map[], ops), now, [Conc(k, limit, ttl)], id).1 == Ok
    ensures ConcRun(ops', k, lo, hi, limit) && LastTime(ops') == now
    ensures Flying(ops', k) == Flying(ops, k) + [Holder(id, now + ttl)]
    ensures Distinct(ops, k) && (forall h | h in Flying(ops, k) :: h.id != id) ==> Distinct(ops', k)
    ensures Run(map[], ops') == Batch(Run(map[], ops), now, [Conc(k, limit, ttl)], id).0
  {
    hide *;
    var op := One(now, k, limit, ttl, id);
    ops' := ops + [op];
    assert ops'[..|ops|] == ops;
    OneIs(now, k, lo, hi, limit, ttl, id);
    ConcAppend(ops, op, k, lo, hi, limit);
    StepIsBatch(Run(map[], ops), op);
    LastStep(map[], ops', k);
    FlyingStep(ops', k);
  }

  /** Extending a run by a release. */
  lemma ReleaseNext(ops: seq<Op>, k: string, lo: int, hi: int, limit: nat, now: int, id: string) returns (ops': seq<Op>)
    requires ConcRun(ops, k, lo, hi, limit) && 0 <= LastTime(ops) <= now
    ensures ConcRun(ops', k, lo, hi, limit) && LastTime(ops') == now && Flying(ops', k) == Ended(Flying(ops, k), id)
    ensures Run(map[], ops') == ReleaseAll(Live(Run(map[], ops), now), [k], id).0
  {
    hide *;
    var op := Release(now, [k], id);
    ops' := ops + [op];
    assert ops'[..|ops|] == ops;
    ReleaseIs(now, k, lo, hi, limit, id, Run(map[], ops));
    ConcAppend(ops, op, k, lo, hi, limit);
    LastStep(map[], ops', k);
    FlyingStep(ops', k);
  }

  lemma ReleaseIs(now: int, k: string, lo: int, hi: int, limit: nat, id: string, db: Db)
    requires 0 <= now
    ensures var op := Release(now, [k], id);
            && ConcUse(op, k, lo, hi, limit) && Touches(op, k) && op.Release? && op.now == now && op.id == id
            && Step(db, op) == (ReleaseAll(Live(db, now), [k], id).0, Ok)
  {
    hide ReleaseAll, Live;
  }

  lemma EmptyRun(k: string, lo: int, hi: int, limit: nat)
    ensures ConcRun([], k, lo, hi, limit) && Flying([], k) == [] && Distinct([], k) && Run(map[], []) == map[] && LastTime([]) == 0
    ensures Holding([], 0) == 0
  {}

  lemma {:induction false} HoldingSnoc(f: seq<Holder>, h: Holder, now: int)
    ensures Holding(f + [h], now) == Holding(f, now) + (if h.deadline > now then 1 else 0)
  {
    if f == [] {
      assert [] + [h] == [h] && [h][1..] == [];
    } else {
      assert (f + [h])[1..] == f[1..] + [h];
      HoldingSnoc(f[1..], h, now);
    }
  }

  // Far-apart timeouts.

  /** The set of the first `n` requests after the key has expired, and the run that made it. */
  function Fresh(n: nat, deadline: int): map<string, int> {
    if n == 0 then map[] else Fresh(n - 1, deadline)[Dec(n + 1) := deadline]
  }

  lemma {:induction false} FreshIds(n: nat, deadline: int, x: string)
    requires x in Fresh(n, deadline)
    ensures Fresh(n, deadline)[x] == deadline && exists i | 2 <= i <= n + 1 :: x == Dec(i)
  {
    hide Dec;
    if x != Dec(n + 1) { FreshIds(n - 1, deadline, x); }
  }

  lemma {:induction false} FreshIs(n: nat, deadline: int)
    ensures |Fresh(n, deadline)| == n && forall x :: x in Fresh(n, deadline) ==> Fresh(n, deadline)[x] == deadline
  {
    hide Dec;
    if n > 0 {
      FreshIs(n - 1, deadline);
      var m := Fresh(n - 1, deadline);
      if Dec(n + 1) in m {
        FreshIds(n - 1, deadline, Dec(n + 1));
        var i :| 2 <= i <= n && Dec(n + 1) == Dec(i);
        DecInjective(n + 1, i);
      }
      NewKey(m, Dec(n + 1), deadline);
    }
  }

  lemma NewKey(m: map<string, int>, x: string, v: int)
    requires x !in m
    ensures |m[x := v]| == |m| + 1
  {
    assert m[x := v].Keys == m.Keys + {x};
    assert |m| == |m.Keys| && |m[x := v]| == |m[x := v].Keys|;
  }

  /** Ids below `Dec(n + 2)` only. */
  predicate Earlier(f: seq<Holder>, n: nat) { forall h | h in f :: exists i | 0 <= i < n :: h.id == Dec(i) }

  lemma EarlierSnoc(f: seq<Holder>, n: nat, deadline: int)
    requires Earlier(f, n)
    ensures Earlier(f + [Holder(Dec(n), deadline)], n + 1) && forall h | h in f :: h.id != Dec(n)
  {
    forall h | h in f ensures h.id != Dec(n) {
      var i :| 0 <= i < n && h.id == Dec(i);
      if Dec(i) == Dec(n) { DecInjective(i, n); }
    }
    hide Dec;
    var g := f + [Holder(Dec(n), deadline)];
    forall h | h in g ensures exists i | 0 <= i < n + 1 :: h.id == Dec(i) {
      if h in f { var i :| 0 <= i < n && h.id == Dec(i); } else { assert h.id == Dec(n); }
    }
  }

  /** One holder with the long timeout, then one with the short one, which shortens the key's life. */
  lemma ShortLived(k: string, lo: int, hi: int, limit: nat) returns (ops: seq<Op>)
    requires 0 < lo <= hi && limit >= 2
    ensures ConcRun(ops, k, lo, hi, limit) && Distinct(ops, k) && LastTime(ops) == 0
    ensures Flying(ops, k) == [Holder(Dec(0), hi), Holder(Dec(1), lo)]
    ensures Run(map[], ops) == OneKey(k, map[Dec(0) := hi, Dec(1) := lo], lo + 60000)
  {
    hide *;
    EmptyRun(k, lo, hi, limit);
    FirstBatch(k, limit, hi, Dec(0));
    ops := AdmitNext([], k, lo, hi, limit, 0, hi, Dec(0));
    OneKeyBatch(k, map[Dec(0) := hi], hi + 60000, 0, limit, lo, Dec(1));
    if Dec(0) == Dec(1) { DecInjective(0, 1); }
    assert [] + [Holder(Dec(0), hi)] + [Holder(Dec(1), 0 + lo)] == [Holder(Dec(0), hi), Holder(Dec(1), lo)];
    assert map[Dec(0) := hi][Dec(1) := 0 + lo] == map[Dec(0) := hi, Dec(1) := lo];
    ops := AdmitNext(ops, k, lo, hi, limit, 0, lo, Dec(1));
  }

  /** After the key has expired the set starts over, while the first holder goes on. */
  lemma {:induction false} FillsAgain(k: string, lo: int, hi: int, limit: nat, n: nat) returns (ops: seq<Op>)
    requires 0 < lo && lo + 60001 < hi && 1 <= n <= limit && limit >= 2
    ensures var now := lo + 60001;
            && ConcRun(ops, k, lo, hi, limit) && Distinct(ops, k) && LastTime(ops) == now && Earlier(Flying(ops, k), n + 2)
            && Holding(Flying(ops, k), now) == n + 1
            && Run(map[], ops) == OneKey(k, Fresh(n, now + lo), now + lo + 60000)
  {
    hide *;
    var now := lo + 60001;
    FreshStep(n, now + lo);
    FreshIs(n - 1, now + lo);
    if n == 1 {
      var pre := ShortLived(k, lo, hi, limit);
      TwoEarlier(hi, lo, now);
      OneKeyBatch(k, map[Dec(0) := hi, Dec(1) := lo], lo + 60000, now, limit, lo, Dec(2));
      EarlierSnoc(Flying(pre, k), 2, now + lo);
      HoldingSnoc(Flying(pre, k), Holder(Dec(2), now + lo), now);
      ops := AdmitNext(pre, k, lo, hi, limit, now, lo, Dec(2));
    } else {
      var pre := FillsAgain(k, lo, hi, limit, n - 1);
      OneKeyBatch(k, Fresh(n - 1, now + lo), now + lo + 60000, now, limit, lo, Dec(n + 1));
      EarlierSnoc(Flying(pre, k), n + 1, now + lo);
      HoldingSnoc(Flying(pre, k), Holder(Dec(n + 1), now + lo), now);
      ops := AdmitNext(pre, k, lo, hi, limit, now, lo, Dec(n + 1));
    }
  }

  lemma FreshStep(n: nat, deadline: int)
    requires n >= 1
    ensures Fresh(n, deadline) == Fresh(n - 1, deadline)[Dec(n + 1) := deadline] && Fresh(0, deadline) == map[]
  {
    hide Dec;
  }

  lemma TwoEarlier(hi: int, lo: int, now: int)
    requires hi > now && lo <= now
    ensures var f := [Holder(Dec(0), hi), Holder(Dec(1), lo)]; Earlier(f, 2) && Holding(f, now) == 1
  {
    hide Dec;
    var f := [Holder(Dec(0), hi), Holder(Dec(1), lo)];
    assert f == [] + [Holder(Dec(0), hi)] + [Holder(Dec(1), lo)];
    HoldingSnoc([], Holder(Dec(0), hi), now);
    HoldingSnoc([] + [Holder(Dec(0), hi)], Holder(Dec(1), lo), now);
    forall h | h in f ensures exists i | 0 <= i < 2 :: h.id == Dec(i) { if h.id != Dec(0) { assert h.id == Dec(1); } }
  }

  /** Timeouts further apart than 60001 ms let more requests than any limit above 1 hold its slots, with distinct ids: one with
      the long timeout, and as many as the limit once the key itself has expired. */
  lemma WideTimeoutsOversell(k: string, lo: int, hi: int, limit: nat) returns (ops: seq<Op>)
    requires 0 < lo && lo + 60001 < hi && limit >= 2
    ensures ConcRun(ops, k, lo, hi, limit) && Distinct(ops, k) && Holding(Flying(ops, k), LastTime(ops)) == limit + 1
  {
    ops := FillsAgain(k, lo, hi, limit, limit);
  }

  // Repeated ids.

  /** One id used for several requests: each overwrites the last one's membership, and any number holds one of two or more slots. */
  lemma {:induction false} RepeatedIdOversells(k: string, lo: int, hi: int, limit: nat, n: nat) returns (ops: seq<Op>)
    requires 0 < lo <= hi && limit >= 2
    ensures ConcRun(ops, k, lo, hi, limit) && LastTime(ops) == 0 && Holding(Flying(ops, k), 0) == n
    ensures Run(map[], ops) == if n == 0 then map[] else OneKey(k, map["x" := lo], lo + 60000)
  {
    hide *;
    EmptyRun(k, lo, hi, limit);
    if n == 0 {
      ops := [];
    } else {
      var pre := RepeatedIdOversells(k, lo, hi, limit, n - 1);
      HoldingSnoc(Flying(pre, k), Holder("x", 0 + lo), 0);
      FirstBatch(k, limit, lo, "x");
      OneKeyBatch(k, map["x" := lo], lo + 60000, 0, limit, lo, "x");
      assert map["x" := lo]["x" := 0 + lo] == map["x" := lo];
      ops := AdmitNext(pre, k, lo, hi, limit, 0, lo, "x");
    }
  }

  /** A single slot: the release of a request that has timed out frees the slot of a later one with the same id. */
  lemma LateReleaseOversells(k: string, lo: int, hi: int) returns (ops: seq<Op>)
    requires 0 < lo <= hi
    ensures ConcRun(ops, k, lo, hi, 1) && Holding(Flying(ops, k), LastTime(ops)) == 2
  {
    hide *;
    EmptyRun(k, lo, hi, 1);
    FirstBatch(k, 1, lo, "x");
    ops := AdmitNext([], k, lo, hi, 1, 0, lo, "x");
    AfterTimeout(k, lo);
    ops := AdmitNext(ops, k, lo, hi, 1, lo, lo, "x");
    ops := ReleaseNext(ops, k, lo, hi, 1, lo, "x");
    ops := AdmitNext(ops, k, lo, hi, 1, lo, lo, "y");
    LateHolders(lo);
  }

  lemma AfterTimeout(k: string, ttl: int)
    requires ttl > 0
    ensures var d := OneKey(k, map["x" := ttl + ttl], ttl + ttl + 60000);
            && Batch(OneKey(k, map["x" := ttl], ttl + 60000), ttl, [Conc(k, 1, ttl)], "x") == (d, Ok)
            && ReleaseAll(Live(d, ttl), [k], "x").0 == map[]
            && Batch(map[], ttl, [Conc(k, 1, ttl)], "y").1 == Ok
  {
    hide *;
    var m := map["x" := ttl + ttl];
    TimedOut(k, ttl);
    OneKeyPut(k, map["x" := ttl], ttl + 60000, ttl, m, ttl + ttl + 60000);
    OneKeyLive(k, m, ttl + ttl + 60000, ttl);
    OneReleased(k, m, ttl + ttl + 60000);
    OneRuleBatch(OneKey(k, map["x" := ttl], ttl + 60000), ttl, k, 1, ttl, "x");
    assert map[]["x" := ttl + ttl] == m;
    OneRuleBatch(map[], ttl, k, 1, ttl, "y");
  }

  lemma TimedOut(k: string, ttl: int)
    requires ttl > 0
    ensures var e := LiveEntry(Get(OneKey(k, map["x" := ttl], ttl + 60000), k), ttl);
            (e.Some? ==> e.value.val.ZSet?) && ZRemUpTo(e, ttl).None? && Scores(None) == map[] && |Scores(None)| == 0
    ensures var e := LiveEntry(Get(map[], k), ttl); e.None? && ZRemUpTo(e, ttl).None?
  {
    assert DropUpTo(map["x" := ttl], ttl) == map[];
  }

  lemma OneKeyLive(k: string, m: map<string, int>, exp: int, now: int)
    requires now <= exp
    ensures Live(OneKey(k, m, exp), now) == OneKey(k, m, exp)
  {}

  lemma OneReleased(k: string, m: map<string, int>, exp: int)
    requires m.Keys == {"x"}
    ensures ReleaseAll(OneKey(k, m, exp), [k], "x").0 == map[]
  {
    assert [k][..0] == [];
    assert m - {"x"} == map[];
  }

  lemma LateHolders(ttl: int)
    requires ttl > 0
    ensures var x := Holder("x", ttl + ttl);
            Holding(Ended([] + [Holder("x", 0 + ttl)] + [x], "x") + [Holder("y", ttl + ttl)], ttl) == 2
  {
    var a, x, y := Holder("x", 0 + ttl), Holder("x", ttl + ttl), Holder("y", ttl + ttl);
    assert [] + [a] + [x] == [a, x] && [a, x][1..] == [x] == [] + [x];
    HoldingSnoc([], x, ttl);
    HoldingSnoc([] + [x], y, ttl);
  }

  // A single slot.

  /** What a key with a single slot keeps, whatever the timeouts: at most one unexpired id, and that one in the live set. */
  ghost predicate Guards(e: Option<Entry>, h: map<string, int>, now: int) {
    && (e.Some? ==> e.value.val.ZSet? && e.value.exp.Some?)
    && (forall m :: m in h && h[m] > now ==> m in Scores(e) && Scores(e)[m] == h[m] && h[m] <= e.value.exp.value)
    && |Unexpired(h, now)| <= 1
  }

  lemma GuardsLater(e: Option<Entry>, h: map<string, int>, t: int, now: int)
    requires t <= now && Guards(e, h, t)
    ensures Guards(LiveEntry(e, now), h, now)
  {
    UnexpiredShrinks(h, t, now, "");
    hide Unexpired;
  }

  lemma GuardsCleaned(e: Option<Entry>, h: map<string, int>, now: int)
    requires Guards(e, h, now)
    ensures Guards(ZRemUpTo(e, now), h, now)
  {
    hide Unexpired;
  }

  lemma GuardsEmpty(c: Option<Entry>, h: map<string, int>, now: int)
    requires Guards(c, h, now) && |Scores(c)| + 1 <= 1
    ensures forall m :: m in h ==> h[m] <= now
  {
    assert Scores(c) == map[];
  }

  lemma GuardsNew(c: Option<Entry>, h: map<string, int>, now: int, ttl: int, id: string)
    requires ttl > 0 && forall m :: m in h ==> h[m] <= now
    ensures Guards(Some(Entry(ZSet(Scores(c)[id := now + ttl]), Some(now + ttl + 60000))), h[id := now + ttl], now)
  {
    Submap(Unexpired(h[id := now + ttl], now), map[id := 0]);
  }

  lemma GuardsRelease(e: Option<Entry>, h: map<string, int>, now: int, id: string)
    requires Guards(e, h, now)
    ensures Guards(ZRem(e, id), h - {id}, now)
  {
    UnexpiredShrinks(h, now, now, id);
  }

  lemma GuardsSet(e: Option<Entry>, h: map<string, int>, now: int)
    requires Guards(e, h, now)
    ensures e.Some? ==> e.value.val.ZSet?
  {}

  lemma GuardStep(d: Db, op: Op, k: string, lo: int, hi: int, limit: nat, h: map<string, int>, t: int)
    requires 0 < lo <= hi && limit <= 1 && ConcUse(op, k, lo, hi, limit) && t <= op.now && Guards(Get(d, k), h, t)
    requires Touches(op, k) ==> op.Admit? || op.Release?
    ensures var (d', reply) := Step(d, op);
            && Guards(Get(d', k), if !Touches(op, k) then h else if op.Release? then h - {op.id}
                                  else if reply == Ok then h[op.id := op.now + TtlOn(op.rules, k)] else h, op.now)
            && (op.Admit? && Touches(op, k) && reply == Ok ==> limit == 1)
  {
    hide *;
    var e := LiveEntry(Get(d, k), op.now);
    var c := ZRemUpTo(e, op.now);
    GuardsLater(Get(d, k), h, t, op.now);
    GuardsCleaned(e, h, op.now);
    GuardsSet(e, h, op.now);
    if !Touches(op, k) {
      Untouched(d, op, k);
    } else if op.Release? {
      ReleasedAt(d, op, k);
      GuardsRelease(e, h, op.now, op.id);
    } else {
      UseIs(op, k, lo, hi, limit);
      StepIsBatch(d, op);
      ConcBatchAt(d, op.now, op.rules, op.id, k, lo, hi);
      if Step(d, op).1 == Ok {
        RoomLeft(op, k, lo, hi, limit, |Scores(c)|);
        GuardsEmpty(c, h, op.now);
        GuardsNew(c, h, op.now, TtlOn(op.rules, k), op.id);
      }
    }
  }

  lemma ReleasedAt(d: Db, op: Op, k: string)
    requires op.Release? && Touches(op, k)
    ensures Get(Step(d, op).0, k) == ZRem(LiveEntry(Get(d, k), op.now), op.id)
  {
    LiveGet(d, op.now, k);
    ReleaseFrame(Live(d, op.now), op.keys, op.id, k);
    hide ReleaseAll, Live, ZRem;
  }

  /** With a limit of at most 1, at most one unexpired id whatever the timeouts, and with a limit of 0 nothing at all. */
  lemma {:induction false} SingleIds(ops: seq<Op>, k: string, lo: int, hi: int, limit: nat)
    requires 0 < lo <= hi && limit <= 1 && ConcRun(ops, k, lo, hi, limit)
    ensures Guards(Get(Run(map[], ops), k), Held(ops, k), LastTime(ops))
    ensures limit == 0 ==> Flying(ops, k) == []
  {
    hide *;
    if ops == [] {
      NothingGuarded(k);
      EmptyRun(k, lo, hi, limit);
    } else {
      var n := |ops| - 1;
      ConcLast(ops, k, lo, hi, limit);
      LastStep(map[], ops, k);
      FlyingStep(ops, k);
      SingleIds(ops[..n], k, lo, hi, limit);
      GuardStep(Run(map[], ops[..n]), ops[n], k, lo, hi, limit, Held(ops[..n], k), LastTime(ops[..n]));
      NoneEnded(ops[n]);
    }
  }

  lemma NoneEnded(op: Op)
    ensures op.Release? ==> Ended([], op.id) == []
  {}

  lemma NothingGuarded(k: string)
    ensures Guards(Get(Run(map[], []), k), Held([], k), LastTime([]))
  {
    assert Unexpired(map[], 0) == map[];
  }

  lemma GuardsCount(e: Option<Entry>, h: map<string, int>, now: int)
    requires Guards(e, h, now)
    ensures |Unexpired(h, now)| <= 1
  {
    hide Unexpired;
  }

  // The exact condition.

  /** A limit holds in every run over timeouts between `lo` and `hi`, with distinct ids in flight or whatever the ids. */
  ghost predicate Capped(lo: int, hi: int, limit: nat, distinct: bool) {
    forall ops, k | ConcRun(ops, k, lo, hi, limit) && (distinct ==> Distinct(ops, k)) :: Holding(Flying(ops, k), LastTime(ops)) <= limit
  }

  lemma Holds(ops: seq<Op>, k: string, lo: int, hi: int, limit: nat, distinct: bool)
    requires 0 < lo <= hi && ConcRun(ops, k, lo, hi, limit) && (distinct ==> Distinct(ops, k))
    requires limit == 0 || (distinct && (limit == 1 || hi <= lo + 60001))
    ensures Holding(Flying(ops, k), LastTime(ops)) <= limit
  {
    hide *;
    if limit == 0 {
      SingleIds(ops, k, lo, hi, limit);
      NoneHolding(LastTime(ops));
    } else if limit == 1 {
      SingleIds(ops, k, lo, hi, limit);
      GuardsCount(Get(Run(map[], ops), k), Held(ops, k), LastTime(ops));
      AllNoted(ops, k, lo, hi, limit);
      HoldingNoted(Flying(ops, k), Held(ops, k), LastTime(ops));
    } else {
      NeverOverLimit(ops, k, lo, hi, limit);
    }
  }

  lemma NoneHolding(now: int)
    ensures Holding([], now) == 0
  {}

  /** The exact condition, limit by limit: requests in flight on one key have ids of their own, and there is a single slot or the
      timeouts ever used there lie within 60001 ms of each other. */
  lemma CappedIff(lo: int, hi: int, limit: nat, distinct: bool)
    requires 0 < lo <= hi
    ensures Capped(lo, hi, limit, distinct) <==> limit == 0 || (distinct && (limit == 1 || hi <= lo + 60001))
  {
    hide ConcRun, Distinct, Holding, Flying;
    if limit == 0 || (distinct && (limit == 1 || hi <= lo + 60001)) {
      forall ops, k | ConcRun(ops, k, lo, hi, limit) && (distinct ==> Distinct(ops, k)) ensures Holding(Flying(ops, k), LastTime(ops)) <= limit {
        Holds(ops, k, lo, hi, limit, distinct);
      }
    } else if limit == 1 {
      var ops := LateReleaseOversells("k", lo, hi);
    } else if !distinct {
      var ops := RepeatedIdOversells("k", lo, hi, limit, limit + 1);
    } else {
      var ops := WideTimeoutsOversell("k", lo, hi, limit);
    }
  }
}
