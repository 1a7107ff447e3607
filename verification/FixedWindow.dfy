/** Fixed windows over whole runs: a window key is never oversold, whatever else the cluster does. */
module FixedWindow {
  import opened Prelude
  import opened Redis
  import opened BatchCheck
  import opened TwoPhase
  import opened AtKey
  import opened Runs

  /** The use of key `k` in one window: only batches touch it, with fixed-window rules one of which
      has limit `limit` or less, and all of them between `lo` and `lo` plus the key's lifetime. */
  ghost predicate WindowUse(op: Op, k: string, expire: int, limit: nat, lo: int) {
    Touches(op, k) ==>
      && op.Admit? && Compatible(op.rules)
      && FixedOnly(op.rules, k, expire)
      && (exists i :: 0 <= i < |op.rules| && op.rules[i].key == k && op.rules[i].limit <= limit)
      && lo <= op.now <= lo + expire * 1000
  }

  ghost predicate WindowRun(ops: seq<Op>, k: string, expire: int, limit: nat, lo: int) {
    && Ordered(ops)
    && forall i :: 0 <= i < |ops| ==> WindowUse(ops[i], k, expire, limit, lo)
  }

  lemma RunPrefix(ops: seq<Op>, k: string, expire: int, limit: nat, lo: int)
    requires ops != [] && WindowRun(ops, k, expire, limit, lo)
    ensures WindowRun(ops[..|ops| - 1], k, expire, limit, lo)
  {}

  /** What a run keeps: the counter is at least the number of admissions and outlives every use of the key. */
  ghost predicate Kept(db: Db, ops: seq<Op>, k: string, expire: int, limit: nat, lo: int) {
    var e := Get(Run(db, ops), k);
    var a := Admitted(db, ops, k);
    && a <= limit
    && (e.None? ==> a == 0 || (ops != [] && ops[|ops| - 1].now > lo + expire * 1000))
    && (e.Some? ==> e.value.val.Str? && 1 <= e.value.val.n && a <= e.value.val.n
                    && e.value.exp.Some? && lo + expire * 1000 <= e.value.exp.value)
  }

  /** No number of instances, and no other traffic, admits more than `limit` requests in one window. */
  lemma {:induction false} NeverOversold(db: Db, ops: seq<Op>, k: string, expire: int, limit: nat, lo: int)
    requires k !in db && expire > 0 && WindowRun(ops, k, expire, limit, lo)
    ensures Admitted(db, ops, k) <= limit
    ensures Kept(db, ops, k, expire, limit, lo)
  {
    if ops != [] {
      var n := |ops| - 1;
      var op := ops[n];
      RunPrefix(ops, k, expire, limit, lo);
      NeverOversold(db, ops[..n], k, expire, limit, lo);
      assert WindowUse(op, k, expire, limit, lo);
      assert n > 0 ==> ops[n - 1].now <= op.now;
      hide Batch, Compatible;
      if Touches(op, k) {
        FixedBatchAt(Run(db, ops[..n]), op.now, op.rules, op.id, k, expire);
      } else {
        Untouched(Run(db, ops[..n]), op, k);
      }
    }
  }

  predicate SoleRule(op: Op, k: string, limit: nat) {
    op.Admit? && Touches(op, k) ==>
      && CountRules(op.rules, 0, k) == 1
      && forall j | 0 <= j < |op.rules| && op.rules[j].key == k :: op.rules[j].Fixed? && op.rules[j].limit == limit
  }

  /** The reply refuses because of a rule on `k`. */
  predicate RefusedAt(op: Op, reply: Reply, k: string) {
    op.Admit? && reply.Denied? && 1 <= reply.index <= |op.rules| && op.rules[reply.index - 1].key == k
  }

  lemma StepCounts(d: Db, op: Op, k: string, expire: int, limit: nat, lo: int)
    requires expire > 0 && WindowUse(op, k, expire, limit, lo) && SoleRule(op, k, limit)
    requires Counter(LiveEntry(Get(d, k), op.now))
    ensures var e := LiveEntry(Get(d, k), op.now);
            var (d', reply) := Step(d, op);
            && (if Touches(op, k) && reply == Ok then Get(d', k).Some? && Get(d', k).value.val == Str(Used(e) + 1) else Get(d', k) == e)
            && (RefusedAt(op, reply, k) ==> Used(e) + 1 > limit)
  {
    hide Batch, Compatible, LiveEntry;
    if Touches(op, k) {
      FixedBatchAt(d, op.now, op.rules, op.id, k, expire);
    } else {
      hide Step;
      Untouched(d, op, k);
      if op.Admit? { ReadsIndex(op, k); }
    }
  }

  /** Every batch that uses `k` has exactly one rule there, with limit `limit`. */
  ghost predicate OneRule(ops: seq<Op>, k: string, limit: nat) {
    forall i :: 0 <= i < |ops| ==> SoleRule(ops[i], k, limit)
  }

  /** With one rule a batch the counter is the number of admissions, so the rule refuses exactly when its limit is used up. */
  lemma {:induction false} CounterIsAdmissions(db: Db, ops: seq<Op>, k: string, expire: int, limit: nat, lo: int)
    requires k !in db && expire > 0 && WindowRun(ops, k, expire, limit, lo) && OneRule(ops, k, limit)
    requires forall i :: 0 <= i < |ops| ==> ops[i].now <= lo + expire * 1000
    ensures Get(Run(db, ops), k).Some? ==> Get(Run(db, ops), k).value.val == Str(Admitted(db, ops, k))
    ensures Get(Run(db, ops), k).None? <==> Admitted(db, ops, k) == 0
    ensures ops != [] && RefusedAt(ops[|ops| - 1], ReplyTo(db, ops, |ops| - 1), k) ==> Admitted(db, ops, k) == limit
  {
    if ops != [] {
      var n := |ops| - 1;
      var op := ops[n];
      RunPrefix(ops, k, expire, limit, lo);
      NeverOversold(db, ops[..n], k, expire, limit, lo);
      assert SoleRule(op, k, limit) && WindowUse(op, k, expire, limit, lo);
      KeptView(db, ops[..n], k, expire, limit, lo, op.now);
      UseAdmits(op, k, expire, limit, lo);
      LastStep(db, ops, k);
      assert OneRule(ops[..n], k, limit);
      CounterIsAdmissions(db, ops[..n], k, expire, limit, lo);
      hide *;
      StepCounts(Run(db, ops[..n]), op, k, expire, limit, lo);
      RefusedReply(op, ReplyTo(db, ops, n), k);
      UsedIs(Get(Run(db, ops[..n]), k), Admitted(db, ops[..n], k));
    }
  }

  lemma KeptView(db: Db, ops: seq<Op>, k: string, expire: int, limit: nat, lo: int, now: int)
    requires Kept(db, ops, k, expire, limit, lo) && now <= lo + expire * 1000 && (ops != [] ==> ops[|ops| - 1].now <= now)
    ensures Admitted(db, ops, k) <= limit
    ensures Counter(Get(Run(db, ops), k)) && LiveEntry(Get(Run(db, ops), k), now) == Get(Run(db, ops), k)
  {}

  lemma UsedIs(e: Option<Entry>, a: nat)
    requires e.Some? ==> e.value.val == Str(a)
    requires e.None? ==> a == 0
    ensures Counter(e) && Used(e) == a
  {}

  lemma RefusedReply(op: Op, reply: Reply, k: string)
    ensures RefusedAt(op, reply, k) ==> reply != Ok
  {}

  lemma UseAdmits(op: Op, k: string, expire: int, limit: nat, lo: int)
    requires WindowUse(op, k, expire, limit, lo)
    ensures Touches(op, k) ==> op.Admit?
  {}

  lemma ReadsIndex(op: Op, k: string)
    requires op.Admit? && !Touches(op, k)
    ensures forall j :: 0 <= j < |op.rules| ==> op.rules[j].key != k
  {}

  /** The waiting time is exact: without further traffic on the key the rule passes once that many milliseconds are over, and not
      before; a key without expiry counts as one that was created just now. */
  lemma RetryExact(e: Option<Entry>, k: string, limit: int, expire: int, now: int, later: int)
    requires Counter(e) && LiveEntry(e, now) == e && now <= later && limit >= 1
    ensures var v := Try(e, Fixed(k, limit, expire), now);
            && (v.Fail? ==> e.Some? && (e.value.exp.None? ==> v.retry == expire * 1000))
            && (v.Fail? && e.value.exp.Some? ==>
                  (Try(LiveEntry(e, later), Fixed(k, limit, expire), later).Pass? <==> later > now + v.retry))
  {}
}
