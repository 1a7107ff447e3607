/** Copying a server-sent event stream line by line (internal/proxy/stream.go). Characters stand for bytes. */
module Stream {
  import opened Prelude
  import M = Metering

  const BUFFER := 16384

  /** What the upstream delivers before it ends, whether it ends in an error, and whether its end is already known when
      its last bytes are read. */
  datatype Source = Source(bytes: string, failed: bool, eager: bool)

  /** What the copy meets: write `i` fails after the given number of bytes, line `i` finds the flush interval elapsed. */
  datatype World = World(fate: nat -> Option<nat>, due: nat -> bool)

  datatype Status = More | Full | Done

  /** The first newline of `s` in [i, limit). */
  function NewlineIn(s: string, i: nat, limit: nat): (r: Option<nat>)
    requires i <= limit <= |s|
    ensures r.Some? ==> i <= r.value < limit && s[r.value] == '\n'
    ensures forall j :: i <= j < (if r.Some? then r.value else limit) ==> s[j] != '\n'
    decreases limit - i
  {
    if i == limit then None else if s[i] == '\n' then Some(i) else NewlineIn(s, i + 1, limit)
  }

  /** bufio.Reader.ReadSlice('\n') with a buffer of `cap` bytes. */
  function ReadSlice(rest: string, cap: nat, eager: bool): (r: (nat, Status))
    requires cap > 0
    ensures r.0 <= |rest| && (r.0 == 0 ==> r.1 == Done)
  {
    var n := NewlineIn(rest, 0, if |rest| < cap then |rest| else cap);
    if n.Some? then (n.value + 1, More)
    else if |rest| > cap || (|rest| == cap && !eager) then (cap, Full)
    else (|rest|, Done)
  }

  function TrimEol(s: string): string {
    if s != "" && s[|s| - 1] in "\r\n" then TrimEol(s[..|s| - 1]) else s
  }

  predicate IsFrameEnd(line: string) { TrimEol(line) == "" }

  function StripDataPrefix(line: string): Option<string> {
    var t := TrimEol(line);
    if "data:" <= t then Some(TrimSpace(t[5..])) else None
  }

  datatype Error = WriteFailed | ReadFailed

  datatype Trace = Trace(written: string, inputs: seq<M.Input>, frames: nat, err: Option<Error>)

  function InputsOf(line: string, due: bool): seq<M.Input> {
    (if StripDataPrefix(line).Some? then [M.Data(StripDataPrefix(line).value)] else []) + (if due then [M.Tick] else [])
  }

  function FramesOf(line: string): nat { if IsFrameEnd(line) then 1 else 0 }

  /** The rest of the copy, before line `i`. */
  function CopyFrom(s: Source, w: World, cap: nat, rest: string, i: nat): Trace
    requires cap > 0
    decreases |rest|
  {
    var (n, status) := ReadSlice(rest, cap, s.eager);
    var line := rest[..n];
    var readErr := if s.failed then Some(ReadFailed) else None;
    if n == 0 then Trace("", [], 0, readErr)
    else if w.fate(i).Some? then
      Trace(line[..Min(w.fate(i).value, n)], [], 0, Some(WriteFailed))
    else if status == Done then Trace(line, InputsOf(line, w.due(i)), FramesOf(line), readErr)
    else
      var t := CopyFrom(s, w, cap, rest[n..], i + 1);
      Trace(line + t.written, InputsOf(line, w.due(i)) + t.inputs, FramesOf(line) + t.frames, t.err)
  }

  class Client {
    var received: string
    var writes: nat
    const fate: nat -> Option<nat>

    constructor (fate: nat -> Option<nat>)
      ensures received == "" && writes == 0 && this.fate == fate
    {
      received, writes := "", 0;
      this.fate := fate;
    }

    method Write(line: string) returns (n: nat, failed: bool)
      modifies this
      ensures writes == old(writes) + 1
      ensures failed == fate(old(writes)).Some?
      ensures n == if failed then Min(fate(old(writes)).value, |line|) else |line|
      ensures n <= |line|
      ensures received == old(received) + line[..n]
    {
      var f := fate(writes);
      failed := f.Some?;
      n := if failed then Min(f.value, |line|) else |line|;
      received := received + line[..n];
      writes := writes + 1;
    }
  }

  datatype Outcome = Outcome(bytes: nat, frames: nat, err: Option<Error>)

  /** A trace with what happened before it. */
  function Prefixed(p: Trace, t: Trace): Trace {
    Trace(p.written + t.written, p.inputs + t.inputs, p.frames + t.frames, t.err)
  }

  /** What one line adds once it has been written. */
  function LineTrace(line: string, due: bool, err: Option<Error>): Trace {
    Trace(line, InputsOf(line, due), FramesOf(line), err)
  }

  function ReadError(s: Source): Option<Error> { if s.failed then Some(ReadFailed) else None }

  /** One unfolding of the copy. */
  lemma CopyUnfold(s: Source, w: World, cap: nat, rest: string, i: nat)
    requires cap > 0
    ensures var (n, status) := ReadSlice(rest, cap, s.eager);
            var line := rest[..n];
            var t := CopyFrom(s, w, cap, rest, i);
            if n == 0 then status == Done && t == Trace("", [], 0, ReadError(s))
            else if w.fate(i).Some? then t == Trace(line[..Min(w.fate(i).value, n)], [], 0, Some(WriteFailed))
            else if status == Done then t == LineTrace(line, w.due(i), ReadError(s))
            else t == Prefixed(LineTrace(line, w.due(i), None), CopyFrom(s, w, cap, rest[n..], i + 1))
  {
    hide InputsOf, FramesOf, ReadSlice;
  }

  lemma PrefixedTwice(p: Trace, q: Trace, t: Trace)
    ensures Prefixed(p, Prefixed(q, t)) == Prefixed(Prefixed(p, q), t)
  {
    assert p.written + (q.written + t.written) == (p.written + q.written) + t.written;
    assert p.inputs + (q.inputs + t.inputs) == (p.inputs + q.inputs) + t.inputs;
  }

  lemma PrefixedNone(t: Trace)
    ensures Prefixed(Trace("", [], 0, None), t) == t
  {
    assert "" + t.written == t.written && [] + t.inputs == t.inputs;
  }

  /** The past after the attempt to write one more line. */
  function Attempt(past: Trace, fate: Option<nat>, line: string, due: bool): Trace {
    if fate.Some? then past.(written := past.written + line[..Min(fate.value, |line|)], err := Some(WriteFailed))
    else Prefixed(past, LineTrace(line, due, None))
  }

  /** One round of the copy moves one line from what is left to what is past. */
  lemma CopyStep(s: Source, w: World, cap: nat, rest: string, i: nat, past: Trace)
    requires cap > 0
    ensures var (n, status) := ReadSlice(rest, cap, s.eager);
            var all := Prefixed(past, CopyFrom(s, w, cap, rest, i));
            if n == 0 then status == Done && all == past.(err := ReadError(s))
            else
              var past' := Attempt(past, w.fate(i), rest[..n], w.due(i));
              if w.fate(i).Some? then all == past'
              else if status == Done then all == past'.(err := ReadError(s))
              else all == Prefixed(past', CopyFrom(s, w, cap, rest[n..], i + 1))
  {
    CopyUnfold(s, w, cap, rest, i);
    hide InputsOf, FramesOf, ReadSlice, CopyFrom;
    var (n, status) := ReadSlice(rest, cap, s.eager);
    PrefixedTwice(past, LineTrace(rest[..n], w.due(i), None), CopyFrom(s, w, cap, rest[n..], i + 1));
  }

  /** `sink` has taken `ins` since it was in the given state. */
  ghost predicate Metered(sink: M.Sink, state: M.SinkState, seen: seq<M.Input>, ins: seq<M.Input>)
    reads sink, sink.c
  {
    sink.seen == seen + ins && sink.State() == M.AfterFrom(state, ins, sink.m)
  }

  /** Handing one line to the sink. */
  method Meter(sink: M.Sink, line: string, due: bool, ghost start: M.SinkState, ghost seen: seq<M.Input>, ghost ins: seq<M.Input>)
    requires Metered(sink, start, seen, ins)
    modifies sink, sink.c
    ensures Metered(sink, start, seen, ins + InputsOf(line, due))
  {
    hide StripDataPrefix, M.OnInput;
    var data := StripDataPrefix(line);
    ghost var now := ins;
    if data.Some? {
      MeteredStep(sink.State(), start, now, M.Data(data.value), sink.m);
      sink.OnData(data.value);
      now := now + [M.Data(data.value)];
      assert Metered(sink, start, seen, now);
    }
    if due {
      MeteredStep(sink.State(), start, now, M.Tick, sink.m);
      sink.OnFlushTick();
      now := now + [M.Tick];
      assert Metered(sink, start, seen, now);
    }
    assert now == ins + InputsOf(line, due);
  }

  lemma MeteredStep(s: M.SinkState, start: M.SinkState, ins: seq<M.Input>, i: M.Input, m: M.Meter)
    requires s == M.AfterFrom(start, ins, m)
    ensures M.OnInput(s, i, m) == M.AfterFrom(start, ins + [i], m)
  {
    M.AfterOne(s, i, m);
    M.AfterConcat(start, ins, [i], m);
  }

  lemma LineParts(p: Trace, line: string, due: bool)
    ensures var q := Prefixed(p, LineTrace(line, due, None));
            && q.written == p.written + line && q.inputs == p.inputs + InputsOf(line, due) && q.err.None?
            && q.frames == p.frames + (if IsFrameEnd(line) then 1 else 0)
  {}

  function Tally(t: Trace, flush: bool): Outcome {
    Outcome(|t.written|, if flush then t.frames else 0, t.err)
  }

  /** The body of the loop for a line that has been read: forward first, then account. */
  method CopyLine(client: Client, sink: M.Sink?, line: string, due: bool, flush: bool, res0: Outcome,
                  ghost received: string, ghost past: Trace, ghost start: M.SinkState, ghost seen: seq<M.Input>)
    returns (res: Outcome, failed: bool)
    requires client.received == received + past.written && res0 == Tally(past, flush) && past.err.None?
    requires sink != null ==> Metered(sink, start, seen, past.inputs)
    modifies client, sink, if sink == null then {} else {sink.c}
    ensures client.writes == old(client.writes) + 1 && failed == client.fate(old(client.writes)).Some?
    ensures var past' := Attempt(past, client.fate(old(client.writes)), line, due);
            && client.received == received + past'.written && res == Tally(past', flush)
            && (sink != null ==> Metered(sink, start, seen, past'.inputs))
  {
    LineParts(past, line, due);
    hide Prefixed, LineTrace, IsFrameEnd, Metered, InputsOf;
    var k;
    k, failed := client.Write(line);
    res := res0.(bytes := res0.bytes + k);
    if failed { return res.(err := Some(WriteFailed)), true; }
    assert line[..k] == line;
    if flush && IsFrameEnd(line) { res := res.(frames := res.frames + 1); }
    if sink != null { Meter(sink, line, due, start, seen, past.inputs); }
  }

  /** The loop. */
  method CopyLines(client: Client, s: Source, sink: M.Sink?, due: nat -> bool, flush: bool) returns (res: Outcome)
    requires client.writes == 0
    modifies client, sink, if sink == null then {} else {sink.c}
    ensures var t := CopyFrom(s, World(client.fate, due), 16384, s.bytes, 0);
            && client.received == old(client.received) + t.written && res == Tally(t, flush)
            && (sink != null ==> Metered(sink, old(sink.State()), old(sink.seen), t.inputs))
  {
    var rest := s.bytes;
    var i: nat := 0;
    ghost var w := World(client.fate, due);
    ghost var all := CopyFrom(s, w, BUFFER, s.bytes, 0);
    ghost var past := Trace("", [], 0, None);
    res := Outcome(0, 0, None);
    ghost var start, seen := M.SinkState(M.Count(0, 0, false, 0), []), [];
    if sink != null {
      start, seen := sink.State(), sink.seen;
      M.AfterOne(start, M.End, sink.m);
    }
    assert (sink != null ==> Metered(sink, start, seen, [])) && res == Tally(past, flush);
    PrefixedNone(all);
    hide *;
    var stop := false;
    while !stop
      invariant client.received == old(client.received) + past.written && res == Tally(past, flush)
      invariant sink != null ==> Metered(sink, start, seen, past.inputs)
      invariant stop ==> all == past
      invariant !stop ==> client.writes == i && past.err.None? && all == Prefixed(past, CopyFrom(s, w, BUFFER, rest, i))
      decreases |rest|, !stop
    {
      var (n, status) := ReadSlice(rest, BUFFER, s.eager);
      CopyStep(s, w, BUFFER, rest, i, past);
      if n > 0 {
        AttemptFails(past, w.fate(i), rest[..n], w.due(i));
        res, stop := CopyLine(client, sink, rest[..n], due(i), flush, res, old(client.received), past, start, seen);
        past := Attempt(past, w.fate(i), rest[..n], w.due(i));
        i := i + 1;
      }
      rest := rest[n..];
      if !stop && status == Done {
        TallyError(past, flush, ReadError(s));
        past := past.(err := ReadError(s));
        res := res.(err := ReadError(s));
        stop := true;
      }
    }
  }

  lemma AttemptFails(past: Trace, fate: Option<nat>, line: string, due: bool)
    ensures Attempt(past, fate, line, due).err == if fate.Some? then Some(WriteFailed) else None
  {}

  lemma TallyError(t: Trace, flush: bool, err: Option<Error>)
    ensures Tally(t.(err := err), flush) == Tally(t, flush).(err := err)
  {}

  /** copySSE; `flush` says whether the client can flush, and without a sink nothing is metered. The sink is told the end
      exactly once, after everything else, on every exit. */
  method CopySse(client: Client, s: Source, sink: M.Sink?, due: nat -> bool, flush: bool) returns (res: Outcome)
    requires client.writes == 0
    modifies client, sink, if sink == null then {} else {sink.c}
    ensures var t := CopyFrom(s, World(client.fate, due), 16384, s.bytes, 0);
            && client.received == old(client.received) + t.written
            && res == Tally(t, flush)
            && (sink != null ==> Metered(sink, old(sink.State()), old(sink.seen), t.inputs + [M.End]))
  {
    ghost var t := CopyFrom(s, World(client.fate, due), BUFFER, s.bytes, 0);
    hide CopyFrom, Tally, M.OnInput, M.AfterFrom;
    res := CopyLines(client, s, sink, due, flush);
    if sink != null {
      ghost var s1 := sink.State();
      sink.OnEnd();
      M.AfterOne(s1, M.End, sink.m);
      M.AfterConcat(old(sink.State()), t.inputs, [M.End], sink.m);
    }
  }

  // What is copied.

  /** The bytes written are a prefix of what the upstream delivered, and all of it unless a write failed; a read error is
      reported exactly when everything was forwarded and the upstream then failed. */
  lemma {:induction false} WrittenExact(s: Source, w: World, cap: nat, rest: string, i: nat)
    requires cap > 0
    ensures var t := CopyFrom(s, w, cap, rest, i);
            && t.written <= rest
            && (t.err != Some(WriteFailed) ==> t.written == rest && t.err == (if s.failed then Some(ReadFailed) else None))
    decreases |rest|
  {
    CopyUnfold(s, w, cap, rest, i);
    var (n, status) := ReadSlice(rest, cap, s.eager);
    if status == Done { DoneIsAll(rest, cap, s.eager); }
    hide CopyFrom, ReadSlice, InputsOf, FramesOf;
    if n > 0 && w.fate(i).None? && status != Done {
      WrittenExact(s, w, cap, rest[n..], i + 1);
      PrefixStep(rest, n, CopyFrom(s, w, cap, rest[n..], i + 1).written);
    }
  }

  lemma PrefixStep(s: string, n: nat, t: string)
    requires n <= |s| && t <= s[n..]
    ensures s[..n] + t <= s && (t == s[n..] ==> s[..n] + t == s)
  {
    assert s == s[..n] + s[n..];
  }

  /** The copy itself never ends the sink. */
  lemma {:induction false} NoEnd(s: Source, w: World, cap: nat, rest: string, i: nat)
    requires cap > 0
    ensures M.Running(CopyFrom(s, w, cap, rest, i).inputs)
    decreases |rest|
  {
    CopyUnfold(s, w, cap, rest, i);
    hide CopyFrom, ReadSlice, StripDataPrefix, FramesOf;
    var (n, status) := ReadSlice(rest, cap, s.eager);
    if n > 0 && w.fate(i).None? && status != Done {
      NoEnd(s, w, cap, rest[n..], i + 1);
    }
  }

  lemma DoneIsAll(rest: string, cap: nat, eager: bool)
    requires cap > 0 && ReadSlice(rest, cap, eager).1 == Done
    ensures ReadSlice(rest, cap, eager).0 == |rest|
  {}

  /** The lines of a body, each with its newline; an unterminated rest is a line too. */
  function Lines(s: string): seq<string>
    decreases |s|
  {
    if s == "" then []
    else
      var n := NewlineIn(s, 0, |s|);
      if n.None? then [s] else [s[..n.value + 1]] + Lines(s[n.value + 1..])
  }

  predicate AllFit(lines: seq<string>, cap: nat) { forall i :: 0 <= i < |lines| ==> |lines[i]| <= cap }

  const PREFIX: string := "data:"

  /** A line that starts with the prefix has what follows as its payload, without the white space around it. */
  function Payload(line: string): seq<string> { if PREFIX <= line then [TrimSpace(line[5..])] else [] }

  function Payloads(lines: seq<string>): seq<string> {
    if lines == [] then [] else Payload(lines[0]) + Payloads(lines[1..])
  }

  /** Nothing but line ends. */
  predicate Blank(line: string) { forall i :: 0 <= i < |line| ==> line[i] in "\r\n" }

  function BlankLines(lines: seq<string>): nat {
    if lines == [] then 0 else (if Blank(lines[0]) then 1 else 0) + BlankLines(lines[1..])
  }

  lemma {:induction false} EolIsSpace(s: string)
    ensures TrimEol(s) <= s && AllSpace(s[|TrimEol(s)|..]) && forall i :: |TrimEol(s)| <= i < |s| ==> s[i] in "\r\n"
  {
    if s != "" && s[|s| - 1] in "\r\n" {
      var t := s[..|s| - 1];
      EolIsSpace(t);
      assert TrimEol(s) == TrimEol(t);
      forall i | |TrimEol(s)| <= i < |s| ensures s[i] in "\r\n" { assert i < |t| ==> s[i] == t[i]; }
    }
  }

  /** Stripping a data line is trimming what follows its prefix. */
  lemma StripIs(line: string)
    ensures (if StripDataPrefix(line).Some? then [StripDataPrefix(line).value] else []) == Payload(line)
  {
    EolIsSpace(line);
    var t := TrimEol(line);
    if PREFIX <= line {
      assert line[4] == PREFIX[4];
      assert |t| >= 5;
      assert PREFIX <= t;
      assert line[5..] == t[5..] + line[|t|..];
      TrimJoin(t[5..], line[|t|..]);
    } else {
      assert PREFIX <= t ==> PREFIX <= line;
    }
  }

  lemma {:induction false} BlankIs(line: string)
    ensures FramesOf(line) == if Blank(line) then 1 else 0
  {
    EolIsSpace(line);
    if line != "" && Blank(line) { BlankIs(line[..|line| - 1]); }
  }

  /** The payloads handed to the sink. */
  function Handed(ins: seq<M.Input>): seq<string> {
    if ins == [] then [] else (if ins[0].Data? then [ins[0].payload] else []) + Handed(ins[1..])
  }

  /** How many of `n` writes, from write `i` on, go through before one fails. */
  function Survivors(w: World, i: nat, n: nat): (k: nat)
    ensures k <= n && (forall j :: i <= j < i + k ==> w.fate(j).None?) && (k < n ==> w.fate(i + k).Some?)
    decreases n
  {
    if n == 0 || w.fate(i).Some? then 0 else 1 + Survivors(w, i + 1, n - 1)
  }

  lemma {:induction false} NewlineAgrees(s: string, i: nat, a: nat, b: nat)
    requires i <= a <= b <= |s|
    ensures NewlineIn(s, i, a).Some? ==> NewlineIn(s, i, b) == NewlineIn(s, i, a)
    ensures NewlineIn(s, i, b).Some? && NewlineIn(s, i, b).value < a ==> NewlineIn(s, i, a) == NewlineIn(s, i, b)
    decreases a - i
  {
    if i < a { NewlineAgrees(s, i + 1, a, b); }
  }

  /** Where the first line ends. */
  function FirstLine(s: string): (n: nat)
    requires s != ""
    ensures 0 < n <= |s|
  {
    var n := NewlineIn(s, 0, |s|);
    if n.None? then |s| else n.value + 1
  }

  lemma LinesUnfold(s: string)
    requires s != ""
    ensures Lines(s) == [s[..FirstLine(s)]] + Lines(s[FirstLine(s)..])
  {
    if NewlineIn(s, 0, |s|).None? { assert s[..|s|] == s && Lines(s[|s|..]) == []; }
  }

  /** As long as the first line fits the buffer, a read is a line. */
  lemma ReadIsLine(rest: string, cap: nat, eager: bool)
    requires cap > 0 && rest != "" && FirstLine(rest) <= cap
    ensures ReadSlice(rest, cap, eager).0 == FirstLine(rest)
    ensures ReadSlice(rest, cap, eager).1 == Done ==> FirstLine(rest) == |rest|
  {
    NewlineAgrees(rest, 0, if |rest| < cap then |rest| else cap, |rest|);
  }

  lemma {:induction false} HandedConcat(a: seq<M.Input>, b: seq<M.Input>)
    ensures Handed(a + b) == Handed(a) + Handed(b)
  {
    if a == [] {
      assert a + b == b;
    } else {
      HandedConcat(a[1..], b);
      assert (a + b)[1..] == a[1..] + b;
    }
  }

  lemma HandedLine(line: string, due: bool)
    ensures Handed(InputsOf(line, due)) == Payload(line)
  {
    StripIs(line);
    hide StripDataPrefix, Payload;
    var d := StripDataPrefix(line);
    var a: seq<M.Input> := if d.Some? then [M.Data(d.value)] else [];
    var b: seq<M.Input> := if due then [M.Tick] else [];
    HandedConcat(a, b);
    assert Handed(b) == [];
  }

  /** A round of the copy on a line that fits. */
  lemma LineRound(s: Source, w: World, cap: nat, rest: string, i: nat)
    requires cap > 0 && rest != "" && FirstLine(rest) <= cap
    ensures var n := FirstLine(rest);
            var t := CopyFrom(s, w, cap, rest, i);
            if w.fate(i).Some? then t.inputs == [] && t.frames == 0 && t.err == Some(WriteFailed)
            else
              var u := CopyFrom(s, w, cap, rest[n..], i + 1);
              t.inputs == InputsOf(rest[..n], w.due(i)) + u.inputs && t.frames == FramesOf(rest[..n]) + u.frames && t.err == u.err
  {
    CopyUnfold(s, w, cap, rest, i);
    ReadIsLine(rest, cap, s.eager);
    if ReadSlice(rest, cap, s.eager).1 == Done {
      CopyUnfold(s, w, cap, "", i + 1);
      assert rest[FirstLine(rest)..] == "";
      hide ReadSlice, CopyFrom, InputsOf, FramesOf, FirstLine;
    } else {
      hide ReadSlice, CopyFrom, InputsOf, FramesOf, FirstLine;
    }
  }

  /** When every line fits the buffer, the sink is handed exactly the payloads of the data lines, in order, up to the first
      failed write, and the frames counted are the blank lines among them. */
  lemma {:induction false} PayloadsExact(s: Source, w: World, cap: nat, rest: string, i: nat)
    requires cap > 0 && AllFit(Lines(rest), cap)
    ensures var t := CopyFrom(s, w, cap, rest, i);
            var lines := Lines(rest);
            var k := Survivors(w, i, |lines|);
            && Handed(t.inputs) == Payloads(lines[..k])
            && t.frames == BlankLines(lines[..k])
            && (t.err == Some(WriteFailed) <==> k < |lines|)
    decreases |rest|
  {
    if rest == "" {
      EmptyLines();
    } else {
      var n := FirstLine(rest);
      var line, lines := rest[..n], Lines(rest);
      LinesUnfold(rest);
      assert lines[0] == line && lines[1..] == Lines(rest[n..]);
      hide ReadSlice, Lines, StripDataPrefix, FramesOf, CopyFrom, FirstLine, Payloads, BlankLines, Survivors;
      LineRound(s, w, cap, rest, i);
      FirstSurvivor(w, i, lines);
      if w.fate(i).None? {
        HandedLine(line, w.due(i));
        hide InputsOf, Handed;
        AllFitTail(lines, cap);
        PayloadsExact(s, w, cap, rest[n..], i + 1);
        HandedConcat(InputsOf(line, w.due(i)), CopyFrom(s, w, cap, rest[n..], i + 1).inputs);
      }
    }
  }

  lemma FirstSurvivor(w: World, i: nat, lines: seq<string>)
    requires lines != []
    ensures var k := Survivors(w, i, |lines|);
            if w.fate(i).Some? then k == 0 && Payloads(lines[..k]) == [] && BlankLines(lines[..k]) == 0
            else
              var j := Survivors(w, i + 1, |lines| - 1);
              && k == 1 + j
              && Payloads(lines[..k]) == Payload(lines[0]) + Payloads(lines[1..][..j])
              && BlankLines(lines[..k]) == FramesOf(lines[0]) + BlankLines(lines[1..][..j])
  {
    BlankIs(lines[0]);
    hide Payload, FramesOf, Blank;
    var k := Survivors(w, i, |lines|);
    if k > 0 { assert lines[..k][1..] == lines[1..][..k - 1] && lines[..k][0] == lines[0]; }
  }

  lemma EmptyLines()
    ensures Lines("") == []
  {}

  lemma AllFitTail(lines: seq<string>, cap: nat)
    requires lines != [] && AllFit(lines, cap)
    ensures AllFit(lines[1..], cap)
  {}

  /** The whole chain: for every body, tick schedule and disconnect, the ledger calls of a stream sum up to the cost of the
      frames that were delivered. */
  lemma CopyConserves(s: Source, w: World, m: M.Meter)
    ensures var t := CopyFrom(s, w, 16384, s.bytes, 0);
            M.Net(M.After(t.inputs + [M.End], m).charges) == M.Cost(t.inputs, m)
  {
    NoEnd(s, w, 16384, s.bytes, 0);
    M.StreamConserves(CopyFrom(s, w, 16384, s.bytes, 0).inputs, m);
  }

  /** A flush that is due at a line covers that line: what has been reserved then is the buffered estimate of everything up to it. */
  lemma FlushCovers(ins: seq<M.Input>, line: string, m: M.Meter)
    requires M.Running(ins)
    ensures var all := ins + InputsOf(line, true);
            && M.Net(M.After(all, m).charges) == M.Buffered(M.Estimate(all, m), m.buffer)
            && M.Estimate(all, m) == M.Estimate(ins, m) + if Payload(line) == [] then 0 else m.parse(Payload(line)[0]).estimate
  {
    StripIs(line);
    hide StripDataPrefix, Payload, M.Buffered, M.Net, M.OnInput;
    var d := StripDataPrefix(line);
    var all := ins + InputsOf(line, true);
    if d.Some? {
      assert all == ins + [M.Data(d.value)] + [M.Tick];
      assert all[..|all| - 1] == ins + [M.Data(d.value)] && (ins + [M.Data(d.value)])[..|ins|] == ins;
    } else {
      assert all == ins + [M.Tick] && all[..|all| - 1] == ins;
    }
    assert all[|all| - 1] == M.Tick;
    M.ReservedTracksEstimate(all, m);
  }

  const LONG: string := seq(16384, i => 'x') + "data:1\n"

  lemma LongShape()
    ensures |LONG| == 16384 + 7 && LONG[0] == 'x' && LONG[..16384] != "" && LONG[..16384][0] == 'x'
    ensures LONG[16384..] == "data:1\n"
    ensures LONG[|LONG| - 1] == '\n' && forall j :: 0 <= j < |LONG| - 1 ==> LONG[j] != '\n'
  {}

  lemma LongReads()
    ensures ReadSlice(LONG, 16384, false) == (16384, Full)
    ensures ReadSlice("data:1\n", 16384, false) == (7, More)
    ensures ReadSlice("", 16384, false) == (0, Done)
    ensures Lines(LONG) == [LONG]
  {
    LongShape();
    hide LONG;
    LinesUnfold(LONG);
    assert FirstLine(LONG) == |LONG| && LONG[..|LONG|] == LONG && LONG[|LONG|..] == "";
    EmptyLines();
    hide Lines;
    assert "data:1\n"[6] == '\n' && forall j :: 0 <= j < 6 ==> "data:1\n"[j] != '\n';
  }

  lemma CopyInputs(s: Source, w: World, cap: nat, rest: string, i: nat)
    requires cap > 0 && (w.fate(i).None? || ReadSlice(rest, cap, s.eager).0 == 0)
    ensures var (n, status) := ReadSlice(rest, cap, s.eager);
            CopyFrom(s, w, cap, rest, i).inputs
            == if n == 0 then []
               else if status == Done then InputsOf(rest[..n], w.due(i))
               else InputsOf(rest[..n], w.due(i)) + CopyFrom(s, w, cap, rest[n..], i + 1).inputs
  {
    CopyUnfold(s, w, cap, rest, i);
    hide CopyFrom, ReadSlice, InputsOf, FramesOf;
  }

  /** A line longer than the buffer is forwarded intact but read in pieces: this body has one line, which is no data line,
      and yet the sink is handed a payload. */
  lemma LongLineLeaks(w: World)
    requires w.fate(0).None? && w.fate(1).None? && !w.due(0) && !w.due(1)
    ensures Payloads(Lines(LONG)) == []
    ensures Handed(CopyFrom(Source(LONG, false, false), w, 16384, LONG, 0).inputs) == ["1"]
  {
    hide *;
    LongShape();
    LongReads();
    var s := Source(LONG, false, false);
    var pad, tail := LONG[..16384], "data:1\n";
    PayloadX(LONG);
    PayloadX(pad);
    TailPayload();
    CopyInputs(s, w, 16384, LONG, 0);
    CopyInputs(s, w, 16384, tail, 1);
    CopyInputs(s, w, 16384, "", 2);
    assert tail[..7] == tail && tail[7..] == "";
    HandedLine(pad, false);
    HandedLine(tail, false);
    HandedConcat(InputsOf(pad, false), CopyFrom(s, w, 16384, tail, 1).inputs);
    HandedConcat(InputsOf(tail, false), []);
    NoneHanded();
  }

  lemma NoneHanded()
    ensures Handed([]) == []
  {}

  lemma PayloadX(line: string)
    requires line != "" && line[0] == 'x'
    ensures Payload(line) == [] && Payloads([line]) == []
  {
    assert PREFIX[0] == 'd';
  }

  lemma TailPayload()
    ensures Payload("data:1\n") == ["1"]
  {
    assert "data:1\n"[5..] == "1\n";
    assert TrimLeft("1\n") == "1\n" && "1\n"[..1] == "1" && TrimRight("1") == "1" && TrimRight("1\n") == "1";
  }
}
