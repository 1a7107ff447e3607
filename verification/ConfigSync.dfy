/** How a configuration reaches every instance (internal/config/store.go): a version counter and a snapshot in Redis,
    lossy notifications, and polling. A handler's load, compare and apply is one step. */
module ConfigSync {
  import opened Prelude

  /** The rules and the policy overrides that were read from the database together. */
  datatype Doc = Doc(rules: string, policy: string)

  datatype Snap = Snap(version: int, doc: Doc)

  /** One instance: the snapshot in force, the overrides in force, and whether the config store is out of reach. */
  datatype Inst = Inst(cur: Snap, overrides: string, degraded: bool)

  function Apply(x: Inst, s: Snap): Inst { x.(cur := s, overrides := s.doc.policy) }

  /** A notification, when the snapshot can be read (`snap` is None when it cannot). */
  function OnMessage(x: Inst, snap: Option<Snap>): Inst {
    if snap.Some? && snap.value.version >= x.cur.version then Apply(x, snap.value) else x
  }

  /** One round of polling; None stands for a failed read. */
  function OnPoll(x: Inst, counter: Option<int>, snap: Option<Snap>): Inst {
    if counter.None? then x.(degraded := true)
    else
      var y := x.(degraded := false);
      if counter.value > x.cur.version && snap.Some? then Apply(y, snap.value) else y
  }

  class Store {
    var cur: Snap
    var overrides: string
    var degraded: bool

    function State(): Inst
      reads this
    {
      Inst(cur, overrides, degraded)
    }

    constructor ()
      ensures State() == Start()
    {
      cur, overrides, degraded := Snap(0, Doc("", "")), "", false;
    }

    method ApplySnap(s: Snap)
      modifies this
      ensures State() == Apply(old(State()), s)
    {
      cur := s;
      overrides := s.doc.policy;
    }

    method HandleMessage(snap: Option<Snap>)
      modifies this
      ensures State() == OnMessage(old(State()), snap)
    {
      if snap.Some? {
        if snap.value.version >= cur.version { ApplySnap(snap.value); }
      }
    }

    method PollOnce(counter: Option<int>, snap: Option<Snap>)
      modifies this
      ensures State() == OnPoll(old(State()), counter, snap)
    {
      if counter.None? {
        degraded := true;
        return;
      }
      degraded := false;
      if counter.value > cur.version && snap.Some? { ApplySnap(snap.value); }
    }

    /** LoadFromDB behind the database reads, with the outcomes of INCR and SET. */
    method Publish(r: Shared, doc: Doc, incr: bool, stored: bool, unix: int) returns (s: Snap)
      modifies this, r
      ensures var (counter, ver) := Numbering(old(r.counter), incr, unix);
              && s == Snap(ver, doc) && r.counter == counter
              && r.snapshot == Writing(old(r.snapshot), s, stored)
              && State() == Finished(old(State()), s)
    {
      var ver := unix;
      if incr {
        r.counter := r.counter + 1;
        ver := r.counter;
      }
      s := Snap(ver, doc);
      if stored { r.snapshot := Some(s); }
      cur := s;
      overrides := s.doc.policy;
      degraded := false;
    }
  }

  /** The two keys in Redis. */
  class Shared {
    var counter: int
    var snapshot: Option<Snap>

    constructor ()
      ensures counter == 0 && snapshot == None
    {
      counter, snapshot := 0, None;
    }
  }

  function Numbering(counter: int, incr: bool, unix: int): (int, int) {
    if incr then (counter + 1, counter + 1) else (counter, unix)
  }

  function Writing(before: Option<Snap>, s: Snap, stored: bool): Option<Snap> { if stored then Some(s) else before }

  function Finished(x: Inst, s: Snap): Inst { Apply(x, s).(degraded := false) }

  function Start(): Inst { Inst(Snap(0, Doc("", "")), "", false) }

  // The protocol. Publishing is three steps, with anything in between; a second publisher starts after the first.

  datatype Phase = Idle | Numbered(who: nat, snap: Snap) | Written(who: nat, snap: Snap)

  /** `log` holds the documents in the order of their version numbers. */
  datatype World = World(counter: int, snapshot: Option<Snap>, insts: seq<Inst>, phase: Phase, log: seq<Doc>)

  datatype Event =
    | Number(who: nat, doc: Doc, incr: bool, unix: int)
    | Write(stored: bool)
    | Finish
    | Notify(i: nat, snapUp: bool)                 // a message arrives at instance `i`, late, repeated or never sent for
    | Poll(i: nat, counterUp: bool, snapUp: bool)

  function Seen<T>(up: bool, x: Option<T>): Option<T> { if up then x else None }

  /** Events that the state does not allow leave it alone. */
  function Step(w: World, e: Event): World {
    match e
    case Number(who, doc, incr, unix) =>
      if !w.phase.Idle? || who >= |w.insts| then w
      else
        var (counter, ver) := Numbering(w.counter, incr, unix);
        w.(counter := counter, phase := Numbered(who, Snap(ver, doc)), log := if incr then w.log + [doc] else w.log)
    case Write(stored) =>
      if !w.phase.Numbered? then w
      else w.(snapshot := Writing(w.snapshot, w.phase.snap, stored), phase := Written(w.phase.who, w.phase.snap))
    case Finish =>
      if !w.phase.Written? || w.phase.who >= |w.insts| then w
      else w.(insts := w.insts[w.phase.who := Finished(w.insts[w.phase.who], w.phase.snap)], phase := Idle)
    case Notify(i, snapUp) =>
      if i >= |w.insts| then w else w.(insts := w.insts[i := OnMessage(w.insts[i], Seen(snapUp, w.snapshot))])
    case Poll(i, counterUp, snapUp) =>
      if i >= |w.insts| then w
      else w.(insts := w.insts[i := OnPoll(w.insts[i], Seen(counterUp, Some(w.counter)), Seen(snapUp, w.snapshot))])
  }

  function Init(n: nat): World { World(0, None, seq(n, i => Start()), Idle, []) }

  function Run(n: nat, es: seq<Event>): World {
    if es == [] then Init(n) else Step(Run(n, es[..|es| - 1]), es[|es| - 1])
  }

  predicate Healthy(e: Event) { (e.Number? ==> e.incr) && (e.Write? ==> e.stored) }

  predicate AllHealthy(es: seq<Event>) { forall i :: 0 <= i < |es| ==> Healthy(es[i]) }

  /** The document published as version `v`; version 0 is the empty one. */
  function DocOf(log: seq<Doc>, v: int): Doc
    requires 0 <= v <= |log|
  {
    if v == 0 then Doc("", "") else log[v - 1]
  }

  /** A snapshot carries the document of its version. */
  predicate Genuine(log: seq<Doc>, s: Snap) { 0 <= s.version <= |log| && s.doc == DocOf(log, s.version) }

  /** Instance `x` runs exactly one published version, rules and overrides alike, not newer than the stored snapshot. */
  predicate Whole(w: World, x: Inst) {
    && Genuine(w.log, x.cur) && x.overrides == x.cur.doc.policy
    && x.cur.version <= (if w.snapshot.Some? then w.snapshot.value.version else 0)
  }

  predicate Consistent(w: World) {
    && w.counter == |w.log|
    && (w.snapshot.Some? ==> Genuine(w.log, w.snapshot.value))
    && (forall i :: 0 <= i < |w.insts| ==> Whole(w, w.insts[i]))
    && match w.phase
       case Idle => w.counter == if w.snapshot.Some? then w.snapshot.value.version else 0
       case Numbered(who, s) => who < |w.insts| && Genuine(w.log, s) && s.version == w.counter
       case Written(who, s) => who < |w.insts| && Genuine(w.log, s) && s.version == w.counter && w.snapshot == Some(s)
  }

  lemma GenuineGrows(log: seq<Doc>, d: Doc, s: Snap)
    requires Genuine(log, s)
    ensures Genuine(log + [d], s)
  {}

  lemma StepKeeps(w: World, e: Event)
    requires Consistent(w) && Healthy(e)
    ensures var w' := Step(w, e);
            && Consistent(w') && |w'.insts| == |w.insts| && w.counter <= w'.counter
            && forall i :: 0 <= i < |w.insts| ==> w.insts[i].cur.version <= w'.insts[i].cur.version
  {
    if e.Number? {
      forall i | 0 <= i < |w.insts| ensures Genuine(w.log + [e.doc], w.insts[i].cur) {
        GenuineGrows(w.log, e.doc, w.insts[i].cur);
      }
      if w.snapshot.Some? { GenuineGrows(w.log, e.doc, w.snapshot.value); }
    }
  }

  /** Safety, over every run in which INCR and SET succeed, with reads failing and messages lost, delayed or repeated at
      will: every instance runs exactly one published version, its overrides are that version's, its version is at most the
      counter, and no step lowers it. */
  lemma {:induction false} VersionsAreWhole(n: nat, es: seq<Event>)
    requires AllHealthy(es)
    ensures var w := Run(n, es);
            && Consistent(w) && |w.insts| == n
            && (forall i :: 0 <= i < n ==> Genuine(w.log, w.insts[i].cur) && w.insts[i].overrides == w.insts[i].cur.doc.policy
                                           && w.insts[i].cur.version <= w.counter)
    ensures es != [] ==> |Run(n, es[..|es| - 1]).insts| == n
                         && forall i :: 0 <= i < n ==> Run(n, es[..|es| - 1]).insts[i].cur.version <= Run(n, es).insts[i].cur.version
  {
    if es != [] {
      VersionsAreWhole(n, es[..|es| - 1]);
      StepKeeps(Run(n, es[..|es| - 1]), es[|es| - 1]);
      hide Step;
    }
  }

  /** Convergence: once no publication is under way, one completed poll puts an instance on the latest version, its
      rules and its overrides, whatever messages were lost. */
  lemma PollConverges(n: nat, es: seq<Event>, i: nat)
    requires AllHealthy(es) && i < n && Run(n, es).phase.Idle?
    ensures var w := Run(n, es);
            var w' := Step(w, Poll(i, true, true));
            && w.counter == |w.log|
            && |w'.insts| == n && w'.insts[i].cur == Snap(w.counter, DocOf(w.log, w.counter))
            && w'.insts[i].overrides == DocOf(w.log, w.counter).policy && !w'.insts[i].degraded
  {
    VersionsAreWhole(n, es);
  }

  /** A message that arrives while the snapshot can be read leaves the instance no older than the snapshot: on it, unless what it
      runs is newer. */
  lemma NotifyCatchesUp(w: World, i: nat)
    requires i < |w.insts| && w.snapshot.Some?
    ensures var s, x, y := w.snapshot.value, w.insts[i], Step(w, Notify(i, true)).insts[i];
            && y.cur.version == Max(x.cur.version, s.version)
            && (x.cur.version <= s.version ==> y.cur == s && y.overrides == s.doc.policy)
            && (x.cur.version > s.version ==> y == x)
            && y.degraded == x.degraded
  {}

  /** The config store was out of reach when instance `i` last polled it, and `i` has not finished publishing since. */
  ghost predicate LastPollFailed(n: nat, es: seq<Event>, i: nat) {
    es != [] &&
    var m := |es| - 1;
    var e, phase := es[m], Run(n, es[..m]).phase;
    if e.Poll? && e.i == i then !e.counterUp
    else if e.Finish? && phase.Written? && phase.who == i then false
    else LastPollFailed(n, es[..m], i)
  }

  /** An instance reports itself degraded exactly then, in every run. */
  lemma {:induction false} DegradedIff(n: nat, es: seq<Event>, i: nat)
    requires i < n
    ensures |Run(n, es).insts| == n && (Run(n, es).insts[i].degraded <==> LastPollFailed(n, es, i))
  {
    if es != [] { DegradedIff(n, es[..|es| - 1], i); }
  }

  // What failures break.

  /** A poll lowers an instance's version exactly when the instance is ahead of the stored snapshot and behind the counter:
      polling, unlike a notification, applies whatever snapshot it finds. */
  lemma PollLowersIff(w: World, i: nat)
    requires i < |w.insts| && w.snapshot.Some?
    ensures var v := w.insts[i].cur.version;
            Step(w, Poll(i, true, true)).insts[i].cur.version < v <==> w.snapshot.value.version < v < w.counter
    ensures Step(w, Notify(i, true)).insts[i].cur.version >= w.insts[i].cur.version
  {}

  /** One failed SET gets there: the publisher runs version 2, the next publication has incremented the counter and not yet
      written, and a poll at that moment takes the publisher back to version 1. */
  lemma FailedSetGoesBack(a: Doc, b: Doc)
    ensures var first := [Number(0, a, true, 0), Write(true), Finish];
            var second := [Number(0, b, true, 0), Write(false), Finish];
            var w := Run(1, first + second);
            var w' := Run(1, first + second + [Number(0, b, true, 0), Poll(0, true, true)]);
            && |w.insts| == 1 && w.insts[0].cur == Snap(2, b)
            && |w'.insts| == 1 && w'.insts[0].cur == Snap(1, a)
  {
    Published(1, [], a, true);
    var first := [Number(0, a, true, 0), Write(true), Finish];
    assert [] + first == first;
    Published(1, first, b, false);
    var es := first + [Number(0, b, true, 0), Write(false), Finish];
    RunSnoc(1, es, Number(0, b, true, 0));
    RunSnoc(1, es + [Number(0, b, true, 0)], Poll(0, true, true));
    assert es + [Number(0, b, true, 0)] + [Poll(0, true, true)] == es + [Number(0, b, true, 0), Poll(0, true, true)];
  }

  /** A whole publication by instance 0. */
  lemma Published(n: nat, es: seq<Event>, d: Doc, stored: bool)
    requires n > 0 && Run(n, es).phase.Idle? && |Run(n, es).insts| == n
    ensures var w := Run(n, es);
            var s := Snap(w.counter + 1, d);
            Run(n, es + [Number(0, d, true, 0), Write(stored), Finish])
            == World(w.counter + 1, if stored then Some(s) else w.snapshot, w.insts[0 := Finished(w.insts[0], s)], Idle, w.log + [d])
  {
    hide *;
    var e1, e2 := Number(0, d, true, 0), Write(stored);
    RunSnoc(n, es, e1);
    RunSnoc(n, es + [e1], e2);
    RunSnoc(n, es + [e1] + [e2], Finish);
    assert es + [e1] + [e2] + [Finish] == es + [e1, e2, Finish];
    PublishSteps(Run(n, es), d, stored);
  }

  lemma PublishSteps(w: World, d: Doc, stored: bool)
    requires w.phase.Idle? && w.insts != []
    ensures var s := Snap(w.counter + 1, d);
            Step(Step(Step(w, Number(0, d, true, 0)), Write(stored)), Finish)
            == World(w.counter + 1, if stored then Some(s) else w.snapshot, w.insts[0 := Finished(w.insts[0], s)], Idle, w.log + [d])
  {
    var s := Snap(w.counter + 1, d);
    var u1 := w.(counter := w.counter + 1, phase := Numbered(0, s), log := w.log + [d]);
    assert Step(w, Number(0, d, true, 0)) == u1;
    var u2 := u1.(snapshot := if stored then Some(s) else w.snapshot, phase := Written(0, s));
    assert Step(u1, Write(stored)) == u2;
    hide Finished;
  }

  lemma RunSnoc(n: nat, es: seq<Event>, e: Event)
    ensures Run(n, es + [e]) == Step(Run(n, es), e)
  {
    assert (es + [e])[..|es|] == es;
  }

  function RunFrom(w: World, es: seq<Event>): World {
    if es == [] then w else Step(RunFrom(w, es[..|es| - 1]), es[|es| - 1])
  }

  predicate PublishedBy(es: seq<Event>, i: nat) { exists j :: 0 <= j < |es| && es[j].Number? && es[j].who == i }

  /** A failed INCR stamps the clock instead of a version. An instance that has loaded such a snapshot stays on it through
      every later healthy run: no message and no poll moves it before the counter itself has passed that clock value or the
      instance publishes. */
  lemma {:induction false} StaysFrozen(w: World, es: seq<Event>, i: nat, t: int)
    requires Frozen(w, i, t) && AllHealthy(es) && !PublishedBy(es, i)
    requires 0 <= w.counter && w.counter + |es| <= t
    ensures var u := RunFrom(w, es);
            && |u.insts| == |w.insts| && u.insts[i].cur == w.insts[i].cur && u.insts[i].overrides == w.insts[i].overrides
            && u.counter <= w.counter + |es| && (!u.phase.Idle? ==> u.phase.snap.version <= u.counter && u.phase.who != i)
            && u.snapshot.Some? && (u.snapshot.value == w.insts[i].cur || u.snapshot.value.version < t)
  {
    if es != [] {
      var n := |es| - 1;
      StaysFrozen(w, es[..n], i, t);
    }
  }

  /** Instance `i` runs the stored snapshot, which is stamped `t`, and no publication is under way. */
  predicate Frozen(w: World, i: nat, t: int) {
    && i < |w.insts| && w.insts[i].cur.version == t && w.phase.Idle? && w.snapshot == Some(w.insts[i].cur)
    && w.insts[i].overrides == w.insts[i].cur.doc.policy
  }

  lemma {:induction false} RunSplits(n: nat, a: seq<Event>, b: seq<Event>)
    ensures Run(n, a + b) == RunFrom(Run(n, a), b)
  {
    if b == [] {
      assert a + b == a;
    } else {
      assert (a + b)[..|a + b| - 1] == a + b[..|b| - 1] && (a + b)[|a + b| - 1] == b[|b| - 1];
      RunSplits(n, a, b[..|b| - 1]);
    }
  }

  /** The publication at which INCR fails while the clock reads `t`, and one message about it. */
  function Unnumbered(p: nat, i: nat, doc: Doc, t: int): seq<Event> {
    [Number(p, doc, false, t), Write(true), Finish, Notify(i, true)]
  }

  /** After any healthy run, one publication by `p` whose INCR fails stamps the clock `t` and leaves whoever hears of it there. */
  lemma UnnumberedFreezes(n: nat, pre: seq<Event>, p: nat, i: nat, doc: Doc, t: int)
    requires AllHealthy(pre) && Run(n, pre).phase.Idle? && p < n && i < n && Run(n, pre).counter <= t
    ensures var w := Run(n, pre + Unnumbered(p, i, doc, t));
            Frozen(w, i, t) && w.insts[i].cur == Snap(t, doc) && w.counter == Run(n, pre).counter >= 0
  {
    hide *;
    VersionsAreWhole(n, pre);
    WholeCounts(Run(n, pre));
    var a, b, c, d := Number(p, doc, false, t), Write(true), Finish, Notify(i, true);
    UnnumberedIs(p, i, doc, t);
    assert pre + Unnumbered(p, i, doc, t) == pre + [a] + [b] + [c] + [d];
    RunSnoc(n, pre, a);
    RunSnoc(n, pre + [a], b);
    RunSnoc(n, pre + [a] + [b], c);
    RunSnoc(n, pre + [a] + [b] + [c], d);
    UnnumberedSteps(Run(n, pre), p, i, doc, t);
  }

  lemma UnnumberedIs(p: nat, i: nat, doc: Doc, t: int)
    ensures Unnumbered(p, i, doc, t) == [Number(p, doc, false, t), Write(true), Finish, Notify(i, true)]
  {}

  lemma WholeCounts(w: World)
    requires Consistent(w)
    ensures w.counter >= 0 && forall i :: 0 <= i < |w.insts| ==> w.insts[i].cur.version <= w.counter
  {
    forall i | 0 <= i < |w.insts| ensures w.insts[i].cur.version <= w.counter { assert Whole(w, w.insts[i]); }
  }

  lemma UnnumberedSteps(w: World, p: nat, i: nat, doc: Doc, t: int)
    requires w.phase.Idle? && p < |w.insts| && i < |w.insts| && w.insts[i].cur.version <= w.counter <= t
    ensures var u := Step(Step(Step(Step(w, Number(p, doc, false, t)), Write(true)), Finish), Notify(i, true));
            Frozen(u, i, t) && u.insts[i].cur == Snap(t, doc) && u.counter == w.counter
  {
    var s := Snap(t, doc);
    var x := w.insts[p := Finished(w.insts[p], s)];
    var u1 := w.(phase := Numbered(p, s));
    assert Step(w, Number(p, doc, false, t)) == u1;
    var u2 := u1.(snapshot := Some(s), phase := Written(p, s));
    assert Step(u1, Write(true)) == u2;
    var u3 := u2.(insts := x, phase := Idle);
    assert Step(u2, Finish) == u3;
    hide Finished;
  }

  /** From the start: through every healthy run after such a publication the instance stays on the clock-stamped snapshot, until
      the counter has passed the clock or the instance publishes. */
  lemma FailedIncrFreezes(n: nat, pre: seq<Event>, p: nat, i: nat, doc: Doc, t: int, es: seq<Event>)
    requires AllHealthy(pre) && Run(n, pre).phase.Idle? && p < n && i < n
    requires AllHealthy(es) && !PublishedBy(es, i) && Run(n, pre).counter + |es| <= t
    ensures var u := Run(n, pre + Unnumbered(p, i, doc, t) + es);
            |u.insts| == n && u.insts[i].cur == Snap(t, doc) && u.insts[i].overrides == doc.policy
  {
    VersionsAreWhole(n, pre);
    UnnumberedFreezes(n, pre, p, i, doc, t);
    RunSplits(n, pre + Unnumbered(p, i, doc, t), es);
    RunLength(n, pre + Unnumbered(p, i, doc, t));
    StaysFrozen(Run(n, pre + Unnumbered(p, i, doc, t)), es, i, t);
    hide Run, RunFrom, Consistent, Genuine;
  }

  lemma {:induction false} RunLength(n: nat, es: seq<Event>)
    ensures |Run(n, es).insts| == n
  {
    if es != [] { RunLength(n, es[..|es| - 1]); }
  }

  /** In healthy runs the stored snapshot follows the counter. */
  predicate Follows(w: World, u: World) {
    && w.counter <= u.counter
    && match u.phase
       case Idle => (u.counter == w.counter && u.snapshot == w.snapshot) || (u.snapshot.Some? && u.snapshot.value.version == u.counter)
       case Numbered(_, s) => s.version == u.counter > w.counter
       case Written(_, s) => s.version == u.counter > w.counter && u.snapshot == Some(s)
  }

  lemma {:induction false} SnapshotFollows(w: World, es: seq<Event>)
    requires w.phase.Idle? && AllHealthy(es)
    ensures Follows(w, RunFrom(w, es)) && |RunFrom(w, es).insts| == |w.insts|
  {
    if es != [] { SnapshotFollows(w, es[..|es| - 1]); }
  }

  /** And then one completed poll moves it: while it is on that snapshot and no publication is under way, a poll moves it if and
      only if the counter has passed the clock, and then to the latest version. */
  lemma ThawsIff(w: World, es: seq<Event>, i: nat, t: int)
    requires Frozen(w, i, t) && AllHealthy(es) && w.counter <= t
    requires var u := RunFrom(w, es); u.phase.Idle? && i < |u.insts| && u.insts[i].cur == w.insts[i].cur
    ensures var u := RunFrom(w, es);
            var x := Step(u, Poll(i, true, true)).insts[i];
            && (x.cur == w.insts[i].cur <==> u.counter <= t)
            && (u.counter > t ==> u.snapshot == Some(x.cur) && x.cur.version == u.counter)
  {
    SnapshotFollows(w, es);
    hide RunFrom;
  }
}
