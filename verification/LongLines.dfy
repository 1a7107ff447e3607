/** What the sink is handed when lines are longer than the read buffer (internal/proxy/stream.go). */
module LongLines {
  import opened Prelude
  import opened Stream

  /** The payloads of the pieces one line is read in. */
  function Cut(line: string, cap: nat): seq<string>
    requires cap > 0
    decreases |line|
  {
    if |line| <= cap then Payload(line) else Payload(line[..cap]) + Cut(line[cap..], cap)
  }

  function CutAll(lines: seq<string>, cap: nat): seq<string>
    requires cap > 0
  {
    if lines == [] then [] else Cut(lines[0], cap) + CutAll(lines[1..], cap)
  }

  // What the copy hands over.

  /** A read is the first line, or as much of it as the buffer holds. */
  lemma ReadIsPiece(rest: string, cap: nat, eager: bool)
    requires cap > 0 && rest != ""
    ensures ReadSlice(rest, cap, eager).0 == Min(cap, FirstLine(rest))
    ensures ReadSlice(rest, cap, eager).1 == Done ==> FirstLine(rest) == |rest| <= cap
  {
    NewlineAgrees(rest, 0, if |rest| < cap then |rest| else cap, |rest|);
  }

  lemma {:induction false} NewlineShift(s: string, n: nat, i: nat)
    requires n <= i <= |s|
    ensures NewlineIn(s, i, |s|).Some? == NewlineIn(s[n..], i - n, |s[n..]|).Some?
    ensures NewlineIn(s, i, |s|).Some? ==> NewlineIn(s, i, |s|).value == n + NewlineIn(s[n..], i - n, |s[n..]|).value
    decreases |s| - i
  {
    if i < |s| && s[i] != '\n' { NewlineShift(s, n, i + 1); }
  }

  lemma {:induction false} NewlineSkip(s: string, i: nat, n: nat)
    requires i <= n <= |s| && forall j :: i <= j < n ==> s[j] != '\n'
    ensures NewlineIn(s, i, |s|) == NewlineIn(s, n, |s|)
    decreases n - i
  {
    if i < n { NewlineSkip(s, i + 1, n); }
  }

  lemma FirstLineCut(rest: string, n: nat)
    requires n < |rest| && n < FirstLine(rest)
    ensures rest[n..] != "" && FirstLine(rest[n..]) == FirstLine(rest) - n
  {
    NewlineSkip(rest, 0, n);
    NewlineShift(rest, n, n);
    hide NewlineIn;
  }

  lemma SliceOfSlice(s: string, n: nat, m: nat)
    requires n <= m <= |s|
    ensures s[n..][m - n..] == s[m..] && s[n..][..m - n] == s[..m][n..]
  {}

  /** After a piece, the rest of its line comes first. */
  lemma LinesCut(rest: string, n: nat)
    requires n < |rest| && n < FirstLine(rest)
    ensures var line, m := rest[..FirstLine(rest)], FirstLine(rest);
            && Lines(rest) == [line] + Lines(rest[m..])
            && Lines(rest[n..]) == [line[n..]] + Lines(rest[m..])
  {
    hide *;
    LinesUnfold(rest);
    LinesUnfold(rest[n..]);
    FirstLineCut(rest, n);
    var m := FirstLine(rest);
    SliceOfSlice(rest, n, m);
  }

  /** A round of the copy without a failed write. */
  lemma PieceRound(s: Source, w: World, cap: nat, rest: string, i: nat)
    requires cap > 0 && rest != "" && w.fate(i).None?
    ensures var n := Min(cap, FirstLine(rest));
            0 < n <= |rest|
            && CopyFrom(s, w, cap, rest, i).inputs == InputsOf(rest[..n], w.due(i)) + CopyFrom(s, w, cap, rest[n..], i + 1).inputs
  {
    CopyUnfold(s, w, cap, rest, i);
    ReadIsPiece(rest, cap, s.eager);
    if ReadSlice(rest, cap, s.eager).1 == Done {
      CopyUnfold(s, w, cap, "", i + 1);
      assert rest[FirstLine(rest)..] == "" && ReadSlice("", cap, s.eager).0 == 0;
      hide ReadSlice, CopyFrom, InputsOf, FramesOf, FirstLine;
    } else {
      hide ReadSlice, CopyFrom, InputsOf, FramesOf, FirstLine;
    }
  }

  lemma {:induction false} CopyHands(s: Source, w: World, cap: nat, rest: string, i: nat)
    requires cap > 0 && forall j :: i <= j ==> w.fate(j).None?
    ensures Handed(CopyFrom(s, w, cap, rest, i).inputs) == CutAll(Lines(rest), cap)
    decreases |rest|
  {
    if rest == "" {
      EmptyLines();
      CopyUnfold(s, w, cap, rest, i);
    } else {
      hide CopyFrom, Lines, InputsOf, Handed, FirstLine, Cut, StripDataPrefix;
      var n := Min(cap, FirstLine(rest));
      PieceRound(s, w, cap, rest, i);
      HandedConcat(InputsOf(rest[..n], w.due(i)), CopyFrom(s, w, cap, rest[n..], i + 1).inputs);
      HandedLine(rest[..n], w.due(i));
      CopyHands(s, w, cap, rest[n..], i + 1);
      CutRound(rest, cap);
    }
  }

  lemma CutRound(rest: string, cap: nat)
    requires cap > 0 && rest != ""
    ensures var n := Min(cap, FirstLine(rest));
            0 < n <= |rest| && CutAll(Lines(rest), cap) == Payload(rest[..n]) + CutAll(Lines(rest[n..]), cap)
  {
    var m := FirstLine(rest);
    hide Payload, Lines, FirstLine;
    if m <= cap {
      LinesUnfold(rest);
      assert Lines(rest)[1..] == Lines(rest[m..]);
    } else {
      LinesCut(rest, cap);
      assert Lines(rest)[1..] == Lines(rest[m..]) == Lines(rest[cap..])[1..];
      assert rest[..m][..cap] == rest[..cap];
    }
  }

  // The condition.

  /** None of the pieces of `s` starts a data line. */
  predicate NoDataPiece(s: string, cap: nat)
    requires cap > 0
  {
    !(PREFIX <= s) && (|s| > cap ==> NoDataPiece(s[cap..], cap))
  }

  /** The buffer holds the line, or loses nothing of it: it is a data line that goes on in white space only, or another line
      none of whose later pieces starts like one. */
  predicate Clean(line: string, cap: nat)
    requires cap > 0
  {
    |line| <= cap || if PREFIX <= line then AllSpace(line[cap..]) else NoDataPiece(line[cap..], cap)
  }

  lemma {:induction false} CutEmpty(s: string, cap: nat)
    requires cap >= 5
    ensures Cut(s, cap) == [] <==> NoDataPiece(s, cap)
    decreases |s|
  {
    hide TrimSpace;
    if |s| > cap {
      assert PREFIX <= s <==> PREFIX <= s[..cap];
      CutEmpty(s[cap..], cap);
    }
  }

  lemma {:induction false} SpaceHoldsNoData(s: string, cap: nat)
    requires cap > 0 && AllSpace(s)
    ensures NoDataPiece(s, cap)
    decreases |s|
  {
    if |s| > cap { SpaceHoldsNoData(s[cap..], cap); }
    assert s != "" ==> IsSpace(s[0]);
  }

  /** One line is handed over right exactly when it is clean, and never as fewer payloads than it has. */
  lemma CutIff(line: string, cap: nat)
    requires cap >= 5
    ensures Cut(line, cap) == Payload(line) <==> Clean(line, cap)
    ensures |Cut(line, cap)| >= |Payload(line)|
  {
    hide *;
    CutUnfold(line, cap);
    if |line| > cap {
      CutEmpty(line[cap..], cap);
      StartsSame(line, cap);
      if PREFIX <= line {
        DataSplit(line, cap);
        OnePlus(TrimSpace(line[..cap][5..]), Cut(line[cap..], cap), TrimSpace(line[5..]));
      }
    }
  }

  lemma DataSplit(line: string, cap: nat)
    requires 5 <= cap < |line|
    ensures TrimSpace(line[..cap][5..]) == TrimSpace(line[5..]) <==> AllSpace(line[cap..])
    ensures AllSpace(line[cap..]) ==> NoDataPiece(line[cap..], cap)
  {
    hide *;
    var a, r := line[..cap][5..], line[cap..];
    assert line[5..] == a + r;
    TrimJoin(a, r);
    if AllSpace(r) { SpaceHoldsNoData(r, cap); }
  }

  lemma CutUnfold(line: string, cap: nat)
    requires cap > 0
    ensures Cut(line, cap) == if |line| <= cap then Payload(line) else Payload(line[..cap]) + Cut(line[cap..], cap)
    ensures Clean(line, cap)
            <==> |line| <= cap || if PREFIX <= line then AllSpace(line[cap..]) else NoDataPiece(line[cap..], cap)
  {
    hide Payload, AllSpace, NoDataPiece;
  }

  lemma StartsSame(line: string, cap: nat)
    requires 5 <= cap <= |line|
    ensures PREFIX <= line <==> PREFIX <= line[..cap]
    ensures PREFIX <= line ==> Payload(line) == [TrimSpace(line[5..])] && Payload(line[..cap]) == [TrimSpace(line[..cap][5..])]
    ensures !(PREFIX <= line) ==> Payload(line) == [] == Payload(line[..cap])
  {}

  lemma OnePlus(a: string, c: seq<string>, b: string)
    ensures [a] + c == [b] <==> a == b && c == []
  {
    assert ([a] + c)[0] == a;
  }

  lemma {:induction false} CutAllIff(lines: seq<string>, cap: nat)
    requires cap >= 5
    ensures CutAll(lines, cap) == Payloads(lines) <==> forall i :: 0 <= i < |lines| ==> Clean(lines[i], cap)
    ensures |CutAll(lines, cap)| >= |Payloads(lines)|
  {
    if lines != [] {
      CutIff(lines[0], cap);
      CutAllIff(lines[1..], cap);
      assert Payloads(lines) == Payload(lines[0]) + Payloads(lines[1..]);
      var c, p := Cut(lines[0], cap), Payload(lines[0]);
      hide Cut, Payload, Payloads, Clean;
      var cs, ps := CutAll(lines[1..], cap), Payloads(lines[1..]);
      SameSplit(c, p, cs, ps);
      assert forall i :: 1 <= i < |lines| ==> lines[i] == lines[1..][i - 1];
    }
  }

  lemma SameSplit(c: seq<string>, p: seq<string>, cs: seq<string>, ps: seq<string>)
    requires |c| >= |p| && |cs| >= |ps|
    ensures c + cs == p + ps <==> c == p && cs == ps
  {
    if c + cs == p + ps {
      assert c == (c + cs)[..|c|] && p == (p + ps)[..|p|];
      assert cs == (c + cs)[|c|..] && ps == (p + ps)[|p|..];
    }
  }

  /** Without a failed write the sink is handed exactly the payloads of the body's data lines if and only if every line is
      clean. */
  lemma PayloadsExactIff(s: Source, w: World, rest: string, i: nat)
    requires forall j :: i <= j ==> w.fate(j).None?
    ensures Handed(CopyFrom(s, w, 16384, rest, i).inputs) == Payloads(Lines(rest))
            <==> forall k :: 0 <= k < |Lines(rest)| ==> Clean(Lines(rest)[k], 16384)
  {
    CopyHands(s, w, 16384, rest, i);
    CutAllIff(Lines(rest), 16384);
  }
}
