/** The admission script (internal/limiter/scripts/batch_check.lua), the release script
    (release_conc.lua) and the two-phase property of the first. */
module BatchCheck {
  import opened Prelude
  import opened Redis

  type Rate = r: real | r > 0.0 witness 1.0

  /** One element of the rule array Check sends (limiter.go: luaRule). The cost of a writing rate
      rule is always 1; the other kinds carry none. */
  datatype LRule =
    | Fixed(key: string, limit: int, expire: int)
    | Sliding(key: string, limit: int, window: int)
    | Bucket(key: string, rate: Rate, burst: int)
    | Conc(key: string, limit: int, ttl: int)
    | TkAdmit(key: string, limit: int)
    | Unknown(key: string)

  datatype Plan =
    | PFixed(key: string, expire: int, isNew: bool)
    | PSliding(key: string, window: int)
    | PBucket(key: string, tokens: real, ts: int, rate: Rate, burst: int)
    | PConc(key: string, deadline: int, ttl: int)
    | Noop

  datatype Verdict = Pass(plan: Plan) | Fail(retry: int) | WrongType

  /** `index` is one-based, as in Lua. */
  datatype Reply = Ok | Denied(index: nat, retry: int) | ScriptError

  datatype Trial = AllPass(plans: seq<Plan>) | Stopped(reply: Reply)

  // Phase 1, one rule.

  /** The highest score the rule's cleanup removes, if it cleans up at all. */
  function PurgeBound(r: LRule, now: int): Option<int> {
    if r.Sliding? then Some(now - r.window) else if r.Conc? then Some(now) else None
  }

  function PurgeTo(e: Option<Entry>, hi: Option<int>): Option<Entry> {
    if hi.Some? then ZRemUpTo(e, hi.value) else e
  }

  function BucketLevel(e: Option<Entry>, rate: Rate, burst: int, now: int): real
    requires e.None? || e.value.val.Hash?
  {
    if e.None? then burst as real
    else
      var h := e.value.val;
      if now > h.ts then MinReal(burst as real, h.tokens + (now - h.ts) as real / 1000.0 * rate) else h.tokens
  }

  function BucketTs(e: Option<Entry>, now: int): int
    requires e.None? || e.value.val.Hash?
  {
    if e.None? then now else Max(e.value.val.ts, now)
  }

  /** Until the oldest member leaves the window. */
  function SlidingWait(m: map<string, int>, window: int, now: int): int {
    if m == map[] then window else Max(0, MinScore(m) + window - now)
  }

  /** The read-only trial of one rule against its key's entry. */
  function Try(e: Option<Entry>, r: LRule, now: int): Verdict {
    match r
    case Fixed(k, limit, expire) =>
      if e.Some? && !e.value.val.Str? then WrongType
      else
        var cur := if e.None? then 0 else e.value.val.n;
        if cur + 1 > limit then Fail(if Pttl(e, now) < 0 then expire * 1000 else Pttl(e, now))
        else Pass(PFixed(k, expire, cur == 0))
    case Sliding(k, limit, window) =>
      if e.Some? && !e.value.val.ZSet? then WrongType
      else
        var m := Scores(ZRemUpTo(e, now - window));
        if |m| + 1 > limit then Fail(SlidingWait(m, window, now))
        else Pass(PSliding(k, window))
    case Bucket(k, rate, burst) =>
      if e.Some? && !e.value.val.Hash? then WrongType
      else
        var tokens := BucketLevel(e, rate, burst, now);
        if tokens < 1.0 then Fail(Ceil((1.0 - tokens) / rate * 1000.0))
        else Pass(PBucket(k, tokens, BucketTs(e, now), rate, burst))
    case Conc(k, limit, ttl) =>
      if e.Some? && !e.value.val.ZSet? then WrongType
      else if |Scores(ZRemUpTo(e, now))| + 1 > limit then Fail(ttl)
      else Pass(PConc(k, now + ttl, ttl))
    case TkAdmit(k, limit) =>
      if e.Some? && !e.value.val.Str? then WrongType
      else
        var used := if e.None? then 0 else e.value.val.n;
        if used >= limit then Fail(Max(0, Pttl(e, now))) else Pass(Noop)
    case Unknown(_) => Pass(Noop)
  }

  /** What the cleanup of rule `r` leaves of a store; cleanup is the only write of phase 1. */
  function Clean(db: Db, r: LRule, now: int): Db {
    Put(db, r.key, PurgeTo(Get(db, r.key), PurgeBound(r, now)))
  }

  /** The rest of phase 1, once the first `|plans|` rules have passed with these plans. */
  function TryFrom(db: Db, now: int, rules: seq<LRule>, plans: seq<Plan>): (Db, Trial)
    requires |plans| <= |rules|
    decreases |rules| - |plans|
  {
    if |plans| == |rules| then (db, AllPass(plans))
    else
      var r := rules[|plans|];
      match Try(Get(db, r.key), r, now)
      case WrongType => (db, Stopped(ScriptError))
      case Fail(retry) => (Clean(db, r, now), Stopped(Denied(|plans| + 1, retry)))
      case Pass(p) => TryFrom(Clean(db, r, now), now, rules, plans + [p])
  }

  // Phase 2.

  /** Committing one plan to its key's entry; None is a type error. */
  function Commit(e: Option<Entry>, p: Plan, now: int, id: string): Option<Option<Entry>> {
    match p
    case PFixed(_, expire, isNew) =>
      if e.Some? && !e.value.val.Str? then None
      else
        var v := Str(if e.None? then 1 else e.value.val.n + 1);
        Some(if isNew then Pexpire(v, now, expire * 1000)
             else Some(Entry(v, if e.None? then None else e.value.exp)))
    case PSliding(_, window) =>
      if e.Some? && !e.value.val.ZSet? then None
      else Some(Pexpire(ZAdd(e, id + ":1", now), now, window + 1000))
    case PBucket(_, tokens, ts, rate, burst) =>
      if e.Some? && !e.value.val.Hash? then None
      else Some(Pexpire(Hash(tokens - 1.0, ts), now, Ceil(burst as real / rate * 1000.0) + 60000))
    case PConc(_, deadline, ttl) =>
      if e.Some? && !e.value.val.ZSet? then None
      else Some(Pexpire(ZAdd(e, id, deadline), now, ttl + 60000))
    case Noop => Some(e)
  }

  /** How long a bucket's key lives: until an empty bucket has filled up, and a minute. */
  function BucketTtl(rate: Rate, burst: int): int {
    Ceil(burst as real / rate * 1000.0) + 60000
  }

  /** The rest of phase 2 from plan `i` on: a type error stops the script and keeps what was written. */
  function CommitFrom(db: Db, now: int, id: string, plans: seq<Plan>, i: nat): (Db, bool)
    requires i <= |plans|
    decreases |plans| - i
  {
    if i == |plans| then (db, true)
    else if plans[i].Noop? then CommitFrom(db, now, id, plans, i + 1)
    else
      match Commit(Get(db, plans[i].key), plans[i], now, id)
      case None => (db, false)
      case Some(e) => CommitFrom(Put(db, plans[i].key, e), now, id, plans, i + 1)
  }

  /** The whole script as one atomic step. */
  function Batch(db: Db, now: int, rules: seq<LRule>, id: string): (Db, Reply) {
    var (d, t) := TryFrom(Live(db, now), now, rules, []);
    match t
    case Stopped(reply) => (d, reply)
    case AllPass(plans) =>
      var (d', ok) := CommitFrom(d, now, id, plans, 0);
      (d', if ok then Ok else ScriptError)
  }

  /** release_conc.lua: ZREM the request from each key, counting removals. */
  function ReleaseAll(db: Db, keys: seq<string>, id: string): (r: (Db, nat))
    ensures r.1 <= |keys|
  {
    if keys == [] then (db, 0)
    else
      var n := |keys| - 1;
      var (d, c) := ReleaseAll(db, keys[..n], id);
      var e := Get(d, keys[n]);
      (Put(d, keys[n], ZRem(e, id)), if id in Scores(e) then c + 1 else c)
  }

  // token_ledger.lua on its one key.

  function LedgerAdmit(e: Option<Entry>, limit: int, now: int): (bool, int)
    requires e.Some? ==> e.value.val.Str?
  {
    ((if e.None? then 0 else e.value.val.n) < limit, Max(0, Pttl(e, now)))
  }

  function ReserveEntry(e: Option<Entry>, now: int, delta: int, expire: int): Option<Entry>
    requires e.Some? ==> e.value.val.Str?
  {
    if delta <= 0 then e
    else
      var used := (if e.None? then 0 else e.value.val.n) + delta;
      if used == delta then Pexpire(Str(used), now, expire * 1000)
      else Some(Entry(Str(used), if e.None? then None else e.value.exp))
  }

  function SettleEntry(e: Option<Entry>, now: int, reserved: int, actual: int, expire: int): Option<Entry>
    requires e.Some? ==> e.value.val.Str?
  {
    var adjust := actual - reserved;
    if adjust == 0 then e
    else if e.None? then (if adjust > 0 then Pexpire(Str(adjust), now, expire * 1000) else None)
    else Some(Entry(Str(Max(0, e.value.val.n + adjust)), e.value.exp))
  }

  /** The Redis server with its three scripts, written as the Lua code is. */
  class Server {
    var db: Db

    constructor ()
      ensures db == map[]
    {
      db := map[];
    }

    // The phase-1 branches, one method a rule kind.

    method TryFixed(key: string, limit: int, expire: int, now: int) returns (v: Verdict)
      ensures v == Try(Get(db, key), Fixed(key, limit, expire), now)
    {
      var e := Get(db, key);
      if e.Some? && !e.value.val.Str? { return WrongType; }
      var cur := if e.None? then 0 else e.value.val.n;
      if cur + 1 > limit {
        var ttl := Pttl(e, now);
        if ttl < 0 { ttl := expire * 1000; }
        return Fail(ttl);
      }
      v := Pass(PFixed(key, expire, cur == 0));
    }

    method TrySliding(key: string, limit: int, window: int, now: int) returns (v: Verdict)
      modifies this
      ensures v == Try(Get(old(db), key), Sliding(key, limit, window), now)
      ensures db == if v.WrongType? then old(db) else Put(old(db), key, ZRemUpTo(Get(old(db), key), now - window))
    {
      hide ZRemUpTo, SlidingWait, Scores;
      var e := Get(db, key);
      if e.Some? && !e.value.val.ZSet? { return WrongType; }
      db := Put(db, key, ZRemUpTo(e, now - window));
      var m := Scores(ZRemUpTo(e, now - window));
      if |m| + 1 > limit {
        var wait := OldestWait(m, window, now);
        return Fail(wait);
      }
      v := Pass(PSliding(key, window));
    }

    method OldestWait(m: map<string, int>, window: int, now: int) returns (wait: int)
      ensures wait == SlidingWait(m, window, now)
    {
      wait := window;
      if m != map[] {
        wait := MinScore(m) + window - now;
        if wait < 0 { wait := 0; }
      }
    }

    method TryBucket(key: string, rate: Rate, burst: int, now: int) returns (v: Verdict)
      ensures v == Try(Get(db, key), Bucket(key, rate, burst), now)
    {
      var e := Get(db, key);
      if e.Some? && !e.value.val.Hash? { return WrongType; }
      var tokens, last := burst as real, now;
      if e.Some? {
        tokens, last := e.value.val.tokens, e.value.val.ts;
        var delta := now - last;
        if delta > 0 {
          tokens := tokens + delta as real / 1000.0 * rate;
          if tokens > burst as real { tokens := burst as real; }
          last := now;
        }
      }
      if tokens < 1.0 {
        var need := 1.0 - tokens;
        return Fail(Ceil(need / rate * 1000.0));
      }
      v := Pass(PBucket(key, tokens, last, rate, burst));
    }

    method TryConc(key: string, limit: int, ttl: int, now: int) returns (v: Verdict)
      modifies this
      ensures v == Try(Get(old(db), key), Conc(key, limit, ttl), now)
      ensures db == if v.WrongType? then old(db) else Put(old(db), key, ZRemUpTo(Get(old(db), key), now))
    {
      var e := Get(db, key);
      if e.Some? && !e.value.val.ZSet? { return WrongType; }
      db := Put(db, key, ZRemUpTo(e, now));
      if |Scores(Get(db, key))| + 1 > limit { return Fail(ttl); }
      v := Pass(PConc(key, now + ttl, ttl));
    }

    method TryTkAdmit(key: string, limit: int, now: int) returns (v: Verdict)
      ensures v == Try(Get(db, key), TkAdmit(key, limit), now)
    {
      var e := Get(db, key);
      if e.Some? && !e.value.val.Str? { return WrongType; }
      var used := if e.None? then 0 else e.value.val.n;
      if used >= limit {
        var pttl := Pttl(e, now);
        if pttl < 0 { pttl := 0; }
        return Fail(pttl);
      }
      v := Pass(Noop);
    }

    method TryRule(r: LRule, now: int) returns (v: Verdict)
      modifies this
      ensures v == Try(Get(old(db), r.key), r, now)
      ensures db == if v.WrongType? then old(db) else Clean(old(db), r, now)
    {
      KeepClean(db, r, now);
      match r {
        case Fixed(key, limit, expire) => v := TryFixed(key, limit, expire, now);
        case Sliding(key, limit, window) => v := TrySliding(key, limit, window, now);
        case Bucket(key, rate, burst) => v := TryBucket(key, rate, burst, now);
        case Conc(key, limit, ttl) => v := TryConc(key, limit, ttl, now);
        case TkAdmit(key, limit) => v := TryTkAdmit(key, limit, now);
        case Unknown(_) => v := Pass(Noop);
      }
    }

    /** The phase-2 branch for one plan; false is a type error. */
    method CommitPlan(p: Plan, now: int, id: string) returns (ok: bool)
      requires !p.Noop?
      modifies this
      ensures ok == Commit(Get(old(db), p.key), p, now, id).Some?
      ensures db == if ok then Put(old(db), p.key, Commit(Get(old(db), p.key), p, now, id).value) else old(db)
    {
      var e := Get(db, p.key);
      match p {
        case PFixed(key, expire, isNew) =>
          if e.Some? && !e.value.val.Str? { return false; }
          var v := Str(if e.None? then 1 else e.value.val.n + 1);
          db := Put(db, key, Some(Entry(v, if e.None? then None else e.value.exp)));
          if isNew { db := Put(db, key, Pexpire(v, now, expire * 1000)); }
        case PSliding(key, window) =>
          if e.Some? && !e.value.val.ZSet? { return false; }
          db := Put(db, key, Pexpire(ZAdd(e, id + ":1", now), now, window + 1000));
        case PBucket(key, tokens, ts, rate, burst) =>
          if e.Some? && !e.value.val.Hash? { return false; }
          db := Put(db, key, Pexpire(Hash(tokens - 1.0, ts), now, Ceil(burst as real / rate * 1000.0) + 60000));
        case PConc(key, deadline, ttl) =>
          if e.Some? && !e.value.val.ZSet? { return false; }
          db := Put(db, key, Pexpire(ZAdd(e, id, deadline), now, ttl + 60000));
      }
      ok := true;
    }

    method BatchCheck(now: int, rules: seq<LRule>, id: string) returns (reply: Reply)
      modifies this
      ensures (db, reply) == Batch(old(db), now, rules, id)
    {
      hide Try, Commit, Clean;
      db := Live(db, now);
      // Lua's `plans` table: ipairs in phase 2 stops at the first missing index.
      var plans: map<int, Plan> := map[];
      ghost var list: seq<Plan> := [];
      var i := 0;
      while i < |rules|
        invariant 0 <= i == |list| <= |rules|
        invariant TryFrom(Live(old(db), now), now, rules, []) == TryFrom(db, now, rules, list)
        invariant plans == map j | 0 <= j < i :: list[j]
      {
        var v := TryRule(rules[i], now);
        match v {
          case WrongType => return ScriptError;
          case Fail(retry) => return Denied(i + 1, retry);
          case Pass(p) =>
            plans := plans[i := p];
            list := list + [p];
        }
        i := i + 1;
      }
      ghost var tried := db;
      i := 0;
      while i in plans
        invariant 0 <= i <= |list|
        invariant CommitFrom(tried, now, id, list, 0) == CommitFrom(db, now, id, list, i)
        decreases |list| - i
      {
        if !plans[i].Noop? {
          var ok := CommitPlan(plans[i], now, id);
          if !ok { return ScriptError; }
        }
        i := i + 1;
      }
      reply := Ok;
    }

    method ReleaseConc(keys: seq<string>, id: string) returns (removed: nat)
      modifies this
      ensures (db, removed) == ReleaseAll(old(db), keys, id)
    {
      removed := 0;
      for i := 0 to |keys|
        invariant (db, removed) == ReleaseAll(old(db), keys[..i], id)
      {
        assert keys[..i + 1][..i] == keys[..i];
        var e := Get(db, keys[i]);
        if id in Scores(e) { removed := removed + 1; }
        db := Put(db, keys[i], ZRem(e, id));
      }
      assert keys[..|keys|] == keys;
    }

    method LedgerReserve(now: int, key: string, delta: int, expire: int) returns (ok: bool)
      modifies this
      ensures var e := LiveEntry(Get(old(db), key), now);
              && ok == (e.Some? ==> e.value.val.Str?)
              && db == if ok then Put(Live(old(db), now), key, ReserveEntry(e, now, delta, expire)) else Live(old(db), now)
    {
      LiveGet(db, now, key);
      db := Live(db, now);
      var e := Get(db, key);
      if e.Some? && !e.value.val.Str? { return false; }
      ok := true;
      if delta > 0 {
        var used := (if e.None? then 0 else e.value.val.n) + delta;
        db := Put(db, key, Some(Entry(Str(used), if e.None? then None else e.value.exp)));
        if used == delta { db := Put(db, key, Pexpire(Str(used), now, expire * 1000)); }
      }
    }

    method LedgerSettle(now: int, key: string, reserved: int, actual: int, expire: int) returns (ok: bool)
      modifies this
      ensures var e := LiveEntry(Get(old(db), key), now);
              && ok == (e.Some? ==> e.value.val.Str?)
              && db == if ok then Put(Live(old(db), now), key, SettleEntry(e, now, reserved, actual, expire))
                       else Live(old(db), now)
    {
      LiveGet(db, now, key);
      db := Live(db, now);
      var e := Get(db, key);
      if e.Some? && !e.value.val.Str? { return false; }
      ok := true;
      var adjust := actual - reserved;
      if adjust != 0 {
        if e.None? {
          if adjust > 0 { db := Put(db, key, Pexpire(Str(adjust), now, expire * 1000)); }
        } else {
          var used := e.value.val.n + adjust;
          if used < 0 { used := 0; }
          db := Put(db, key, Some(Entry(Str(used), e.value.exp)));
        }
      }
    }
  }

  lemma KeepClean(db: Db, r: LRule, now: int)
    ensures PurgeBound(r, now).None? ==> Clean(db, r, now) == db
  {}
}
