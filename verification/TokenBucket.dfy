/** Token buckets over whole runs: the last rule on a key, whose state is the one that is stored, never admits more than burst
    plus refill, and reclaiming an idle bucket is invisible to it. The other rules on the key are in module BucketRules. */
module TokenBucket {
  import opened Prelude
  import opened Redis
  import opened BatchCheck
  import opened TwoPhase
  import opened AtKey
  import opened Runs

  /** All rules on `k` are buckets, and the last of them has this rate and burst. */
  predicate LastBucket(rules: seq<LRule>, k: string, rate: Rate, burst: nat) {
    && (forall i | 0 <= i < |rules| && rules[i].key == k :: rules[i].Bucket? && rules[i].burst >= 0)
    && (Reads(rules, |rules|, k) ==> rules[LastOn(rules, k)] == Bucket(k, rate, burst))
  }

  /** Only batches touch `k`, with the same last bucket there. */
  ghost predicate BucketUse(op: Op, k: string, rate: Rate, burst: nat) {
    Touches(op, k) ==> op.Admit? && Compatible(op.rules) && LastBucket(op.rules, k, rate, burst)
  }

  ghost predicate BucketRun(ops: seq<Op>, k: string, rate: Rate, burst: nat) {
    Ordered(ops) && forall i :: 0 <= i < |ops| ==> BucketUse(ops[i], k, rate, burst)
  }

  /** Tokens gained in `ms` milliseconds. */
  function Refill(rate: Rate, ms: int): real { ms as real / 1000.0 * rate }

  /** The ideal bucket, which nobody ever deletes: the level at `now` from the state last written. */
  function Ideal(e: Option<Entry>, rate: Rate, burst: nat, now: int): real
    requires e.Some? ==> e.value.val.Hash?
  {
    if e.None? then burst as real
    else MinReal(burst as real, e.value.val.tokens + Refill(rate, now - e.value.val.ts))
  }

  /** What a run keeps at time `t`. */
  predicate Sound(e: Option<Entry>, rate: Rate, burst: nat, t: int) {
    e.Some? ==>
      && e.value.val.Hash?
      && 0.0 <= e.value.val.tokens <= burst as real
      && e.value.val.ts <= t
      && e.value.exp.Some? && e.value.val.ts + BucketTtl(rate, burst) <= e.value.exp.value
  }

  lemma RefillMonotone(rate: Rate, a: int, b: int)
    requires a <= b
    ensures Refill(rate, a) <= Refill(rate, b)
    ensures Refill(rate, b) == Refill(rate, a) + Refill(rate, b - a)
  {
    var d := (b - a) as real / 1000.0;
    assert b as real / 1000.0 == a as real / 1000.0 + d;
    assert d * rate >= 0.0;
  }

  /** The time after which an expired bucket would have been full is long enough. */
  lemma TtlFills(rate: Rate, burst: nat, ms: int)
    requires ms >= BucketTtl(rate, burst)
    ensures Refill(rate, ms) >= burst as real
  {
    var need := burst as real / rate * 1000.0;
    assert ms as real >= need;
    assert ms as real / 1000.0 >= burst as real / rate;
    var x, y := ms as real / 1000.0, burst as real / rate;
    assert (x - y) * rate >= 0.0;
    assert y * rate == burst as real;
  }

  /** Reclaiming the key is invisible: the script reads the ideal level whether or not the key has expired. */
  lemma ExpiryInvisible(e: Option<Entry>, rate: Rate, burst: nat, t: int, now: int)
    requires t <= now && Sound(e, rate, burst, t)
    ensures BucketLevel(LiveEntry(e, now), rate, burst, now) == Ideal(e, rate, burst, now)
    ensures Sound(LiveEntry(e, now), rate, burst, now)
    ensures 0.0 <= Ideal(e, rate, burst, now) <= burst as real
  {
    if e.Some? {
      RefillMonotone(rate, 0, now - e.value.val.ts);
      if now > e.value.exp.value { TtlFills(rate, burst, now - e.value.val.ts); }
    }
  }

  /** Between two times the level rises by at most the refill. */
  lemma LevelRises(e: Option<Entry>, rate: Rate, burst: nat, a: int, b: int)
    requires a <= b && (e.Some? ==> e.value.val.Hash?)
    ensures Ideal(e, rate, burst, a) <= Ideal(e, rate, burst, b) <= Ideal(e, rate, burst, a) + Refill(rate, b - a)
  {
    RefillMonotone(rate, 0, b - a);
    if e.Some? { RefillMonotone(rate, a - e.value.val.ts, b - e.value.val.ts); }
  }

  lemma BucketTrial(e: Option<Entry>, now: int, r: LRule)
    requires r.Bucket? && (e.Some? ==> e.value.val.Hash?)
    ensures Writes(r) && PurgeBound(r, now).None?
    ensures Try(e, r, now) ==
            var level := BucketLevel(e, r.rate, r.burst, now);
            if level < 1.0 then Fail(Ceil((1.0 - level) / r.rate * 1000.0))
            else Pass(PBucket(r.key, level, BucketTs(e, now), r.rate, r.burst))
  {}

  lemma CommitBucket(e: Option<Entry>, k: string, level: real, rate: Rate, burst: nat, now: int, id: string)
    requires e.Some? ==> e.value.val.Hash?
    ensures BucketTtl(rate, burst) > 0
    ensures Commit(e, PBucket(k, level, now, rate, burst), now, id)
            == Some(Some(Entry(Hash(level - 1.0, now), Some(now + BucketTtl(rate, burst)))))
  {
    assert burst as real / rate * 1000.0 >= 0.0;
  }

  /** One batch on the bucket, whoever wrote it last: admitted only when every rule there sees a token, and then the last one's
      level less one token is stored; a refusal there means that rule sees less than one. */
  lemma BucketBatchOn(db: Db, now: int, rules: seq<LRule>, id: string, k: string, rate: Rate, burst: nat)
    requires Compatible(rules) && Reads(rules, |rules|, k) && LastBucket(rules, k, rate, burst)
    requires var e := LiveEntry(Get(db, k), now); e.Some? ==> e.value.val.Hash? && e.value.val.ts <= now
    ensures var (d, reply) := Batch(db, now, rules, id);
            var e := LiveEntry(Get(db, k), now);
            var level := BucketLevel(e, rate, burst, now);
            && (reply == Ok ==>
                  (forall i | 0 <= i < |rules| && rules[i].key == k :: rules[i].Bucket? && BucketLevel(e, rules[i].rate, rules[i].burst, now) >= 1.0))
            && (reply == Ok ==> level >= 1.0)
            && (reply == Ok ==> Get(d, k) == Some(Entry(Hash(level - 1.0, now), Some(now + BucketTtl(rate, burst)))))
            && (reply != Ok ==> Get(d, k) == e)
            && (reply.Denied? ==> 1 <= reply.index <= |rules|)
            && (reply.Denied? && rules[reply.index - 1].key == k ==>
                  var r := rules[reply.index - 1];
                  var own := BucketLevel(e, r.rate, r.burst, now);
                  own < 1.0 && reply.retry == Ceil((1.0 - own) / r.rate * 1000.0))
  {
    var e := LiveEntry(Get(db, k), now);
    var level := BucketLevel(e, rate, burst, now);
    assert BucketTs(e, now) == now;
    BucketTrials(e, now, rules, k);
    LastIsBucket(rules, k, rate, burst);
    CommitBucket(e, k, level, rate, burst, now, id);
    hide *;
    PlanBatchAt(db, now, rules, id, k, None);
    PurgeNone(e);
  }

  lemma PurgeNone(e: Option<Entry>)
    ensures PurgeTo(e, None) == e
  {}

  lemma BucketTrials(e: Option<Entry>, now: int, rules: seq<LRule>, k: string)
    requires (e.Some? ==> e.value.val.Hash?) && BucketTs(e, now) == now
    requires forall i | 0 <= i < |rules| && rules[i].key == k :: rules[i].Bucket?
    ensures forall i | 0 <= i < |rules| && rules[i].key == k ::
              && rules[i].Bucket?
              && var own := BucketLevel(e, rules[i].rate, rules[i].burst, now);
                 Try(e, rules[i], now) == if own < 1.0 then Fail(Ceil((1.0 - own) / rules[i].rate * 1000.0))
                                          else Pass(PBucket(k, own, now, rules[i].rate, rules[i].burst))
    ensures Uniform(rules, k, now, None)
  {
    hide Try, BucketLevel, BucketTs;
    forall i | 0 <= i < |rules| && rules[i].key == k
      ensures PurgeBound(rules[i], now).None?
      ensures var own := BucketLevel(e, rules[i].rate, rules[i].burst, now);
              Try(e, rules[i], now) == if own < 1.0 then Fail(Ceil((1.0 - own) / rules[i].rate * 1000.0))
                                       else Pass(PBucket(k, own, now, rules[i].rate, rules[i].burst))
    {
      BucketTrial(e, now, rules[i]);
    }
  }

  lemma LastIsBucket(rules: seq<LRule>, k: string, rate: Rate, burst: nat)
    requires Reads(rules, |rules|, k) && LastBucket(rules, k, rate, burst)
    ensures OneKind(rules, k) && rules[LastOn(rules, k)] == Bucket(k, rate, burst)
  {
    hide LastOn;
  }

  /** The same on a bucket kept by one last rule, whose level does not depend on the key's expiry. */
  lemma BucketBatchAt(db: Db, now: int, rules: seq<LRule>, id: string, k: string, rate: Rate, burst: nat, t: int)
    requires Compatible(rules) && Reads(rules, |rules|, k) && LastBucket(rules, k, rate, burst)
    requires t <= now && Sound(Get(db, k), rate, burst, t)
    ensures var (d, reply) := Batch(db, now, rules, id);
            var e := LiveEntry(Get(db, k), now);
            var level := Ideal(Get(db, k), rate, burst, now);
            && (e.Some? ==> e.value.val.Hash?)
            && (reply == Ok ==>
                  (forall i | 0 <= i < |rules| && rules[i].key == k :: rules[i].Bucket? && BucketLevel(e, rules[i].rate, rules[i].burst, now) >= 1.0))
            && (reply == Ok ==> level >= 1.0)
            && (reply == Ok ==> Get(d, k) == Some(Entry(Hash(level - 1.0, now), Some(now + BucketTtl(rate, burst)))))
            && (reply != Ok ==> Get(d, k) == LiveEntry(Get(db, k), now))
            && (reply.Denied? ==> 1 <= reply.index <= |rules|)
            && (reply.Denied? && rules[reply.index - 1].key == k ==>
                  var r := rules[reply.index - 1];
                  var own := BucketLevel(e, r.rate, r.burst, now);
                  own < 1.0 && reply.retry == Ceil((1.0 - own) / r.rate * 1000.0))
  {
    hide *;
    ExpiryInvisible(Get(db, k), rate, burst, t, now);
    SoundThen(Get(db, k), rate, burst, t, now);
    BucketBatchOn(db, now, rules, id, k, rate, burst);
  }

  lemma SoundThen(e: Option<Entry>, rate: Rate, burst: nat, t: int, now: int)
    requires t <= now && Sound(e, rate, burst, t)
    ensures var l := LiveEntry(e, now); l.Some? ==> l.value.val.Hash? && l.value.val.ts <= now
  {
    hide BucketTtl;
  }

  function LastTime(ops: seq<Op>): int
    requires ops != []
  {
    ops[|ops| - 1].now
  }

  lemma {:induction false} BucketSound(db: Db, ops: seq<Op>, k: string, rate: Rate, burst: nat, t0: int)
    requires BucketRun(ops, k, rate, burst) && Sound(Get(db, k), rate, burst, t0)
    requires ops != [] ==> t0 <= ops[0].now
    ensures Sound(Get(Run(db, ops), k), rate, burst, if ops == [] then t0 else LastTime(ops))
  {
    if ops != [] {
      var n := |ops| - 1;
      BucketSound(db, ops[..n], k, rate, burst, t0);
      assert BucketUse(ops[n], k, rate, burst);
      StepSound(Run(db, ops[..n]), ops[n], k, rate, burst, if n == 0 then t0 else LastTime(ops[..n]));
    }
  }

  /** One call keeps the state sound, and an admission takes exactly one token from the ideal level. */
  lemma StepSound(d: Db, op: Op, k: string, rate: Rate, burst: nat, t: int)
    requires BucketUse(op, k, rate, burst) && t <= op.now && Sound(Get(d, k), rate, burst, t)
    ensures Sound(Get(Step(d, op).0, k), rate, burst, op.now)
    ensures var taken := if op.Admit? && Touches(op, k) && Step(d, op).1 == Ok then 1.0 else 0.0;
            Ideal(Get(Step(d, op).0, k), rate, burst, op.now) == Ideal(Get(d, k), rate, burst, op.now) - taken
  {
    ExpiryInvisible(Get(d, k), rate, burst, t, op.now);
    if Touches(op, k) {
      hide Batch, Compatible, BucketTtl;
      BucketBatchAt(d, op.now, op.rules, op.id, k, rate, burst, t);
    } else {
      hide Step, Touches, BucketTtl;
      Untouched(d, op, k);
    }
  }

  /** One call's effect on admissions and level. */
  lemma StepBalance(db: Db, ops: seq<Op>, k: string, rate: Rate, burst: nat)
    requires BucketRun(ops, k, rate, burst) && k !in db && ops != []
    ensures var n := |ops| - 1;
            var e, e' := Get(Run(db, ops[..n]), k), Get(Run(db, ops), k);
            && Sound(e', rate, burst, ops[n].now) && (e.Some? ==> e.value.val.Hash?) && (e'.Some? ==> e'.value.val.Hash?)
            && Admitted(db, ops, k) as real + Ideal(e', rate, burst, ops[n].now)
               == Admitted(db, ops[..n], k) as real + Ideal(e, rate, burst, ops[n].now)
            && Ideal(e, rate, burst, ops[n].now) <= burst as real
  {
    hide *;
    var n := |ops| - 1;
    var pre := ops[..n];
    var t := BucketBefore(db, ops, k, rate, burst);
    LastStep(db, ops, k);
    StepSound(Run(db, pre), ops[n], k, rate, burst, t);
    ExpiryInvisible(Get(Run(db, pre), k), rate, burst, t, ops[n].now);
    SoundIsHash(Get(Run(db, pre), k), rate, burst, t);
    SoundIsHash(Get(Run(db, ops), k), rate, burst, ops[n].now);
  }

  lemma BucketBefore(db: Db, ops: seq<Op>, k: string, rate: Rate, burst: nat) returns (t: int)
    requires BucketRun(ops, k, rate, burst) && k !in db && ops != []
    ensures var n := |ops| - 1;
            Sound(Get(Run(db, ops[..n]), k), rate, burst, t) && t <= ops[n].now && BucketUse(ops[n], k, rate, burst)
  {
    hide Sound, BucketUse, Run;
    var n := |ops| - 1;
    t := if n == 0 then ops[0].now else ops[n - 1].now;
    NothingSound(db, k, rate, burst, ops[0].now);
    assert BucketRun(ops[..n], k, rate, burst);
    BucketSound(db, ops[..n], k, rate, burst, ops[0].now);
    assert n > 0 ==> LastTime(ops[..n]) == t;
  }

  lemma NothingSound(db: Db, k: string, rate: Rate, burst: nat, t: int)
    requires k !in db
    ensures Sound(Get(db, k), rate, burst, t)
  {}

  lemma SoundIsHash(e: Option<Entry>, rate: Rate, burst: nat, t: int)
    requires Sound(e, rate, burst, t)
    ensures e.Some? ==> e.value.val.Hash?
  {
    hide BucketTtl;
  }

  /** From any call i to the end of the run, admissions plus what is left in the bucket are at most the burst
      plus the refill of the time between: no idle time, expiry or other traffic buys an extra request. */
  lemma {:induction false} NeverOverfilled(db: Db, ops: seq<Op>, k: string, rate: Rate, burst: nat, i: nat)
    requires BucketRun(ops, k, rate, burst) && k !in db && i < |ops|
    ensures Sound(Get(Run(db, ops), k), rate, burst, LastTime(ops))
    ensures (Admitted(db, ops, k) - Admitted(db, ops[..i], k)) as real + Ideal(Get(Run(db, ops), k), rate, burst, LastTime(ops))
            <= burst as real + Refill(rate, LastTime(ops) - ops[i].now)
  {
    hide *;
    var n := |ops| - 1;
    StepBalance(db, ops, k, rate, burst);
    LastTimeIs(ops);
    if i < n {
      BucketPrefix(ops, k, rate, burst, i);
      NeverOverfilled(db, ops[..n], k, rate, burst, i);
      KeepsFilled(db, ops, k, rate, burst, i);
    } else {
      NoRefill(rate);
    }
  }

  lemma NoRefill(rate: Rate)
    ensures Refill(rate, 0) == 0.0
  {}

  lemma BucketPrefix(ops: seq<Op>, k: string, rate: Rate, burst: nat, i: nat)
    requires BucketRun(ops, k, rate, burst) && i < |ops| - 1
    ensures var n := |ops| - 1;
            var pre := ops[..n];
            && BucketRun(pre, k, rate, burst) && pre[..i] == ops[..i] && pre[i] == ops[i]
            && LastTime(pre) == ops[n - 1].now <= ops[n].now
  {}

  lemma KeepsFilled(db: Db, ops: seq<Op>, k: string, rate: Rate, burst: nat, i: nat)
    requires i < |ops| - 1 && ops[|ops| - 2].now <= ops[|ops| - 1].now
    requires var n := |ops| - 1;
             var e, e' := Get(Run(db, ops[..n]), k), Get(Run(db, ops), k);
             && (e.Some? ==> e.value.val.Hash?) && (e'.Some? ==> e'.value.val.Hash?)
             && Admitted(db, ops, k) as real + Ideal(e', rate, burst, ops[n].now)
                == Admitted(db, ops[..n], k) as real + Ideal(e, rate, burst, ops[n].now)
             && (Admitted(db, ops[..n], k) - Admitted(db, ops[..i], k)) as real + Ideal(e, rate, burst, ops[n - 1].now)
                <= burst as real + Refill(rate, ops[n - 1].now - ops[i].now)
    ensures var n := |ops| - 1;
            (Admitted(db, ops, k) - Admitted(db, ops[..i], k)) as real + Ideal(Get(Run(db, ops), k), rate, burst, ops[n].now)
            <= burst as real + Refill(rate, ops[n].now - ops[i].now)
  {
    var n := |ops| - 1;
    hide *;
    LevelRises(Get(Run(db, ops[..n]), k), rate, burst, ops[n - 1].now, ops[n].now);
    RefillSplits(rate, ops[i].now, ops[n - 1].now, ops[n].now);
  }

  lemma LastTimeIs(ops: seq<Op>)
    requires ops != []
    ensures LastTime(ops) == ops[|ops| - 1].now
  {}

  lemma RefillSplits(rate: Rate, a: int, b: int, c: int)
    requires b <= c
    ensures Refill(rate, c - a) == Refill(rate, b - a) + Refill(rate, c - b)
  {
    RefillMonotone(rate, b - a, c - a);
    assert c - a - (b - a) == c - b;
  }

  /** The retry hint is exact: without further admissions the bucket holds a token at that moment and not a millisecond earlier. */
  lemma RetryExact(e: Option<Entry>, rate: Rate, burst: nat, t: int, now: int, later: int)
    requires burst >= 1 && t <= now <= later && Sound(e, rate, burst, t) && Ideal(e, rate, burst, now) < 1.0
    ensures Ideal(e, rate, burst, later) >= 1.0
            <==> later - now >= Ceil((1.0 - Ideal(e, rate, burst, now)) / rate * 1000.0)
  {
    var level := Ideal(e, rate, burst, now);
    var need := (1.0 - level) / rate * 1000.0;
    var ms := later - now;
    RefillMonotone(rate, now - e.value.val.ts, later - e.value.val.ts);
    assert Ideal(e, rate, burst, later) == MinReal(burst as real, level + Refill(rate, ms));
    assert Refill(rate, ms) >= 1.0 - level <==> ms as real >= need by { RefillReaches(rate, ms, 1.0 - level); }
    assert ms as real >= need <==> ms >= Ceil(need);
  }

  lemma RefillReaches(rate: Rate, ms: int, x: real)
    ensures Refill(rate, ms) >= x <==> ms as real >= x / rate * 1000.0
  {
    var y := x / rate;
    assert y * rate == x;
    var m := ms as real / 1000.0;
    assert ms as real >= y * 1000.0 <==> m >= y;
    if m >= y { assert (m - y) * rate >= 0.0; } else { assert (y - m) * rate > 0.0; }
  }
}
