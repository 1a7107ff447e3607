/** The part of Redis the limiter scripts touch: typed values, per-key expiry, type errors.
    Times are milliseconds; a script reads one clock value and runs as one atomic step. */
module Redis {
  import opened Prelude

  datatype Value =
    | Str(n: int)                          // integer string: GET, INCRBY
    | ZSet(scores: map<string, int>)       // sorted set: ZADD, ZREM, ZCARD, ZREMRANGEBYSCORE
    | Hash(tokens: real, ts: int)          // the two fields of a token bucket

  datatype Entry = Entry(val: Value, exp: Option<int>)

  type Db = map<string, Entry>

  function Get(db: Db, k: string): Option<Entry> {
    if k in db then Some(db[k]) else None
  }

  function Put(db: Db, k: string, e: Option<Entry>): Db {
    match e
    case Some(v) => db[k := v]
    case None => db - {k}
  }

  predicate IsLive(e: Entry, now: int) { e.exp.None? || now <= e.exp.value }

  /** What a command run at `now` can see. */
  function Live(db: Db, now: int): Db {
    map k | k in db && IsLive(db[k], now) :: db[k]
  }

  function LiveEntry(e: Option<Entry>, now: int): Option<Entry> {
    if e.Some? && IsLive(e.value, now) then e else None
  }

  lemma LiveGet(db: Db, now: int, k: string)
    ensures Get(Live(db, now), k) == LiveEntry(Get(db, k), now)
  {}

  lemma PutGet(db: Db, k: string, e: Option<Entry>, j: string)
    ensures Get(Put(db, k, e), j) == if j == k then e else Get(db, j)
  {}

  /** PTTL: negative when the key is absent or has no expiry. */
  function Pttl(e: Option<Entry>, now: int): int {
    if e.None? then -2 else if e.value.exp.None? then -1 else e.value.exp.value - now
  }

  /** PEXPIRE: an expiry that is already due deletes the key. */
  function Pexpire(v: Value, now: int, ms: int): Option<Entry> {
    if ms <= 0 then None else Some(Entry(v, Some(now + ms)))
  }

  /** ZREMRANGEBYSCORE key 0 hi on the scores alone. */
  function DropUpTo(m: map<string, int>, hi: int): (r: map<string, int>)
    ensures r.Keys <= m.Keys
    ensures forall s :: s in m ==> (s in r <==> !(0 <= m[s] <= hi))
    ensures forall s :: s in r ==> r[s] == m[s]
  {
    map s | s in m && !(0 <= m[s] <= hi) :: m[s]
  }

  /** The same on a key: a set that becomes empty disappears. */
  function ZRemUpTo(e: Option<Entry>, hi: int): Option<Entry> {
    if e.Some? && e.value.val.ZSet? then
      var m := DropUpTo(e.value.val.scores, hi);
      if m == map[] then None else Some(Entry(ZSet(m), e.value.exp))
    else e
  }

  function Scores(e: Option<Entry>): map<string, int> {
    if e.Some? && e.value.val.ZSet? then e.value.val.scores else map[]
  }

  /** ZADD: creates the set without an expiry, otherwise keeps the key's expiry. */
  function ZAdd(e: Option<Entry>, member: string, score: int): Value {
    ZSet(Scores(e)[member := score])
  }

  /** ZREM on one key. */
  function ZRem(e: Option<Entry>, member: string): Option<Entry> {
    if e.Some? && e.value.val.ZSet? && member in e.value.val.scores then
      var m := e.value.val.scores - {member};
      if m == map[] then None else Some(Entry(ZSet(m), e.value.exp))
    else e
  }

  /** The smallest score of a non-empty set. */
  function MinScore(m: map<string, int>): (s: int)
    requires m != map[]
  {
    MinScoreExists(m);
    var s :| s in m.Values && (forall j :: j in m ==> s <= m[j]);
    s
  }

  lemma MinScoreLeast(m: map<string, int>)
    requires m != map[]
    ensures exists k :: k in m && m[k] == MinScore(m)
    ensures forall k :: k in m ==> MinScore(m) <= m[k]
  {
    MinScoreExists(m);
  }

  lemma {:induction false} MinScoreExists(m: map<string, int>)
    requires m != map[]
    ensures exists k :: k in m && (forall j :: j in m ==> m[k] <= m[j])
    ensures exists s :: s in m.Values && (forall j :: j in m ==> s <= m[j])
    decreases |m|
  {
    var k :| k in m;
    var rest := m - {k};
    if rest == map[] {
      assert forall j :: j in m && j != k ==> j in rest;
      assert m[k] in m.Values;
    } else {
      assert |rest| < |m|;
      MinScoreExists(rest);
      var i :| i in rest && (forall j :: j in rest ==> rest[i] <= rest[j]);
      var w := if m[k] <= m[i] then k else i;
      assert forall j :: j in m ==> j == k || j in rest;
      assert w in m && (forall j :: j in m ==> m[w] <= m[j]);
      assert m[w] in m.Values;
    }
  }
}
