/** Token accounting of one stream (internal/meter/token.go: Counter; internal/proxy/handler.go: sseSink). */
module Metering {
  import opened Prelude

  /** A safety buffer that is not positive counts as 1. */
  function Factor(buffer: real): real { if buffer <= 0.0 then 1.0 else buffer }

  /** The estimate with its safety buffer, rounded up. */
  function Buffered(estimated: int, buffer: real): int { Ceil(estimated as real * Factor(buffer)) }

  datatype Count = Count(estimated: int, exact: int, hasExact: bool, flushed: int)

  function Flush(c: Count, buffer: real): (Count, int) {
    var want := Buffered(c.estimated, buffer);
    if want <= c.flushed then (c, 0) else (c.(flushed := want), want - c.flushed)
  }

  function FinalOf(c: Count, buffer: real): int {
    if c.hasExact then c.exact else Buffered(c.estimated, buffer)
  }

  class Counter {
    var estimated: int
    var exact: int
    var hasExact: bool
    var flushed: int

    function State(): Count
      reads this
    {
      Count(estimated, exact, hasExact, flushed)
    }

    constructor ()
      ensures State() == Count(0, 0, false, 0)
    {
      estimated, exact, hasExact, flushed := 0, 0, false, 0;
    }

    method AddEstimate(n: int)
      modifies this
      ensures State() == old(State()).(estimated := old(estimated) + n)
    {
      estimated := estimated + n;
    }

    method SetExact(n: int)
      modifies this
      ensures State() == old(State()).(exact := n, hasExact := true)
    {
      exact := n;
      hasExact := true;
    }

    method PendingFlush(buffer: real) returns (delta: int)
      modifies this
      ensures (State(), delta) == Flush(old(State()), buffer)
    {
      var b := buffer;
      if b <= 0.0 { b := 1.0; }
      var want := Ceil(estimated as real * b);
      assert want == Buffered(estimated, buffer);
      var done := flushed;
      if want <= done { return 0; }
      delta := want - done;
      flushed := flushed + delta;
    }

    method Final(buffer: real) returns (n: int)
      ensures n == FinalOf(State(), buffer)
    {
      if hasExact { return exact; }
      var b := buffer;
      if b <= 0.0 { b := 1.0; }
      n := Ceil(estimated as real * b);
    }
  }

  /** What a data frame contributes: an estimate of its content and, if it reports usage, the exact total. */
  datatype Frame = Frame(estimate: nat, usage: Option<nat>)

  datatype Input = Data(payload: string) | Tick | End

  /** The metering settings of a stream, with the extraction of content and usage left abstract. */
  datatype Meter = Meter(buffer: real, parse: string -> Frame)

  /** A ledger call the sink makes. */
  datatype Charge = Reserve(delta: int) | Settle(reserved: int, actual: int)

  datatype SinkState = SinkState(count: Count, charges: seq<Charge>)

  function OnInput(s: SinkState, i: Input, m: Meter): SinkState {
    match i
    case Data(payload) =>
      var f := m.parse(payload);
      var c := if f.usage.Some? then s.count.(exact := f.usage.value, hasExact := true) else s.count;
      s.(count := c.(estimated := c.estimated + f.estimate))
    case Tick => Topped(s, m.buffer)
    case End =>
      var t := Topped(s, m.buffer);
      var actual := FinalOf(t.count, m.buffer);
      if !t.count.hasExact || t.count.flushed == actual then t
      else t.(charges := t.charges + [Settle(t.count.flushed, actual)])
  }

  function Topped(s: SinkState, buffer: real): SinkState {
    var (c, delta) := Flush(s.count, buffer);
    SinkState(c, if delta <= 0 then s.charges else s.charges + [Reserve(delta)])
  }

  class Sink {
    const m: Meter
    const c: Counter
    var charges: seq<Charge>
    ghost var seen: seq<Input>

    function State(): SinkState
      reads this, c
    {
      SinkState(c.State(), charges)
    }

    constructor (m: Meter)
      ensures this.m == m && fresh(c)
      ensures State() == SinkState(Count(0, 0, false, 0), []) && seen == []
    {
      this.m := m;
      c := new Counter();
      charges, seen := [], [];
    }

    method OnData(payload: string)
      modifies this, c
      ensures State() == OnInput(old(State()), Data(payload), m) && seen == old(seen) + [Data(payload)]
    {
      seen := seen + [Data(payload)];
      var f := m.parse(payload);
      if f.usage.Some? { c.SetExact(f.usage.value); }
      if f.estimate != 0 { c.AddEstimate(f.estimate); }
    }

    method OnFlushTick()
      modifies this, c
      ensures State() == OnInput(old(State()), Tick, m) && seen == old(seen) + [Tick]
    {
      seen := seen + [Tick];
      var delta := c.PendingFlush(m.buffer);
      if delta <= 0 { return; }
      charges := charges + [Reserve(delta)];
    }

    method OnEnd()
      modifies this, c
      ensures State() == OnInput(old(State()), End, m) && seen == old(seen) + [End]
    {
      seen := seen + [End];
      var reserved := c.flushed;
      var tail := c.PendingFlush(m.buffer);
      if tail > 0 {
        reserved := reserved + tail;
        charges := charges + [Reserve(tail)];
      }
      var actual := c.Final(m.buffer);
      if !c.hasExact || reserved == actual { return; }
      charges := charges + [Settle(reserved, actual)];
    }
  }

  // Conservation.

  function AfterFrom(s: SinkState, ins: seq<Input>, m: Meter): SinkState {
    if ins == [] then s else OnInput(AfterFrom(s, ins[..|ins| - 1], m), ins[|ins| - 1], m)
  }

  function After(ins: seq<Input>, m: Meter): SinkState {
    AfterFrom(SinkState(Count(0, 0, false, 0), []), ins, m)
  }

  lemma AfterOne(s: SinkState, i: Input, m: Meter)
    ensures AfterFrom(s, [], m) == s && AfterFrom(s, [i], m) == OnInput(s, i, m)
  {
    assert [i][..0] == [];
  }

  lemma {:induction false} AfterConcat(s: SinkState, a: seq<Input>, b: seq<Input>, m: Meter)
    ensures AfterFrom(s, a + b, m) == AfterFrom(AfterFrom(s, a, m), b, m)
  {
    if b == [] {
      assert a + b == a;
    } else {
      var n := |b| - 1;
      assert (a + b)[..|a| + n] == a + b[..n];
      AfterConcat(s, a, b[..n], m);
      hide OnInput;
    }
  }

  function Estimate(ins: seq<Input>, m: Meter): nat {
    if ins == [] then 0
    else
      var n := |ins| - 1;
      Estimate(ins[..n], m) + (if ins[n].Data? then m.parse(ins[n].payload).estimate else 0)
  }

  function LastUsage(ins: seq<Input>, m: Meter): Option<nat> {
    if ins == [] then None
    else
      var n := |ins| - 1;
      if ins[n].Data? && m.parse(ins[n].payload).usage.Some? then m.parse(ins[n].payload).usage
      else LastUsage(ins[..n], m)
  }

  /** What a list of ledger calls charges in all. */
  function Net(charges: seq<Charge>): int {
    if charges == [] then 0
    else
      var n := |charges| - 1;
      Net(charges[..n]) + match charges[n] case Reserve(d) => d case Settle(reserved, actual) => actual - reserved
  }

  /** Only reserves, all positive. */
  predicate OnlyReserves(charges: seq<Charge>) {
    forall i :: 0 <= i < |charges| ==> charges[i].Reserve? && charges[i].delta > 0
  }

  predicate Running(ins: seq<Input>) { forall i :: 0 <= i < |ins| ==> !ins[i].End? }

  lemma BufferedGrows(a: nat, b: nat, buffer: real)
    requires a <= b
    ensures 0 <= Buffered(a, buffer) <= Buffered(b, buffer)
  {
    BufferedIs(a, buffer);
    BufferedIs(b, buffer);
    hide *;
    ScaledGrows(a as real, b as real, Factor(buffer));
  }

  lemma BufferedIs(a: int, buffer: real)
    ensures Factor(buffer) > 0.0 && Buffered(a, buffer) == Ceil(Times(a as real, Factor(buffer)))
  {}

  function Times(x: real, f: real): real { x * f }

  lemma ScaledGrows(x: real, y: real, f: real)
    requires 0.0 <= x <= y && f > 0.0
    ensures 0 <= Ceil(Times(x, f)) <= Ceil(Times(y, f))
  {
    Product(x, f);
    Scale(x, y, f);
    CeilGrows(Times(x, f), Times(y, f));
  }

  lemma CeilGrows(u: real, v: real)
    requires 0.0 <= u <= v
    ensures 0 <= Ceil(u) <= Ceil(v)
  {
    CeilUnique(0.0, 0);
    CeilMonotone(0.0, u);
    CeilMonotone(u, v);
  }

  lemma NetSnoc(charges: seq<Charge>, c: Charge)
    ensures Net(charges + [c]) == Net(charges) + match c case Reserve(d) => d case Settle(reserved, actual) => actual - reserved
  {
    assert (charges + [c])[..|charges|] == charges;
  }

  lemma ToppedNet(s: SinkState, buffer: real)
    requires Net(s.charges) == s.count.flushed && OnlyReserves(s.charges)
    ensures var t := Topped(s, buffer);
            && Net(t.charges) == t.count.flushed && OnlyReserves(t.charges)
            && t.count == s.count.(flushed := Max(s.count.flushed, Buffered(s.count.estimated, buffer)))
            && s.charges <= t.charges
  {
    hide Buffered, Net;
    NetSnoc(s.charges, Reserve(Flush(s.count, buffer).1));
  }

  /** While the stream runs, what has been reserved is the buffered estimate as of the last tick; it never decreases. */
  lemma {:induction false} ReservedTracksEstimate(ins: seq<Input>, m: Meter)
    requires Running(ins)
    ensures var s := After(ins, m);
            && s.count.estimated == Estimate(ins, m)
            && s.count.hasExact == LastUsage(ins, m).Some?
            && (s.count.hasExact ==> s.count.exact == LastUsage(ins, m).value)
            && Net(s.charges) == s.count.flushed && OnlyReserves(s.charges)
            && 0 <= s.count.flushed <= Buffered(Estimate(ins, m), m.buffer)
            && (ins != [] && ins[|ins| - 1].Tick? ==> Net(s.charges) == Buffered(Estimate(ins, m), m.buffer))
            && (ins != [] ==> Net(After(ins[..|ins| - 1], m).charges) <= Net(s.charges))
  {
    hide Buffered;
    if ins == [] {
      BufferedGrows(0, 0, m.buffer);
    } else {
      var n := |ins| - 1;
      ReservedTracksEstimate(ins[..n], m);
      BufferedGrows(Estimate(ins[..n], m), Estimate(ins, m), m.buffer);
      if ins[n].Tick? { ToppedNet(After(ins[..n], m), m.buffer); }
    }
  }

  /** What a stream should cost: the last exact usage it delivered, or else the buffered estimate of all of it. */
  function Cost(ins: seq<Input>, m: Meter): int {
    if LastUsage(ins, m).Some? then LastUsage(ins, m).value else Buffered(Estimate(ins, m), m.buffer)
  }

  /** Conservation: for every series of frames and ticks, once the stream has ended the ledger calls sum up to its cost;
      a settle, if any, comes last and corrects exactly what the reserves before it add up to. */
  lemma StreamConserves(ins: seq<Input>, m: Meter)
    requires Running(ins)
    ensures var charges := After(ins + [End], m).charges;
            && Net(charges) == Cost(ins, m)
            && (OnlyReserves(charges)
                || (charges != [] && charges[|charges| - 1].Settle?
                    && OnlyReserves(charges[..|charges| - 1])
                    && charges[|charges| - 1] == Settle(Net(charges[..|charges| - 1]), Cost(ins, m))))
  {
    var s := After(ins, m);
    ReservedTracksEstimate(ins, m);
    ToppedNet(s, m.buffer);
    var t := Topped(s, m.buffer);
    NetSnoc(t.charges, Settle(t.count.flushed, FinalOf(t.count, m.buffer)));
    assert (ins + [End])[..|ins|] == ins;
    hide Buffered, Topped;
    assert t.charges + [Settle(t.count.flushed, FinalOf(t.count, m.buffer))] == OnInput(s, End, m).charges || t == OnInput(s, End, m);
  }

  // Responses that are not streams.

  /** The charge for a JSON response (forwardJSONWithMetering): usage from the header, else from the body, else the estimate,
      which only a buffer above 1 scales, rounded down. */
  method JsonCharge(mode: string, header: Option<nat>, body: Option<nat>, estimate: nat, buffer: real) returns (used: int)
    ensures mode in ["header", "auto"] && header.Some? ==> used == header.value
    ensures !(mode in ["header", "auto"] && header.Some?) && mode in ["json_body", "auto"] && body.Some? ==> used == body.value
    ensures !(mode in ["header", "auto"] && header.Some?) && !(mode in ["json_body", "auto"] && body.Some?) ==>
              used == if mode == "disabled" then 0 else JsonEstimate(estimate, buffer)
  {
    used := 0;
    var ok := false;
    if mode == "header" || mode == "auto" {
      if header.Some? { used, ok := header.value, true; }
    }
    if !ok && (mode == "json_body" || mode == "auto") {
      ok := body.Some?;
      if ok { used := body.value; }
    }
    if !ok && mode != "disabled" {
      used := estimate;
      if buffer > 1.0 { used := (estimate as real * buffer).Floor; }
    }
  }

  function JsonEstimate(estimate: nat, buffer: real): int {
    if buffer > 1.0 then Times(estimate as real, buffer).Floor else estimate
  }

  /** Without exact usage a stream and a JSON response charge the same estimate alike exactly as follows: with a buffer above
      1 if the product is whole, and otherwise the stream pays one token more; with a buffer between 0 and 1, which
      discounts streams only, if the discount is less than one token; with any other always. */
  lemma JsonVersusStream(estimate: nat, buffer: real)
    ensures var stream, json := Buffered(estimate, buffer), JsonEstimate(estimate, buffer);
            && (if buffer < 1.0 then stream <= json else json <= stream <= json + 1)
            && (stream == json <==>
                  if buffer > 1.0 then Times(estimate as real, buffer) == json as real
                  else 0.0 < buffer ==> Times(estimate as real, 1.0 - buffer) < 1.0)
  {
    BufferedIs(estimate, buffer);
    var x := estimate as real;
    CeilUnique(x, estimate);
    TimesOne(x);
    if 0.0 < buffer <= 1.0 {
      Discount(x, buffer);
      CeilMonotone(Times(x, buffer), x);
      CeilIs(Times(x, buffer), estimate);
    }
    hide Times, Buffered;
  }

  lemma CeilIs(y: real, n: int)
    requires y <= n as real
    ensures Ceil(y) == n <==> n as real - y < 1.0
  {
    if n as real - y < 1.0 { CeilUnique(y, n); }
  }

  lemma TimesOne(x: real)
    ensures Times(x, 1.0) == x
  {}

  lemma Discount(x: real, f: real)
    requires x >= 0.0 && 0.0 < f <= 1.0
    ensures Times(x, f) <= x && Times(x, 1.0 - f) == x - Times(x, f)
  {
    Product(x, 1.0 - f);
    assert x * (1.0 - f) == x - x * f;
  }
}
