/** Sets and Restores of resolv.conf over whole runs. */
module ResolvConfRuns {
  import opened Text
  import opened ResolvConf

  lemma PassOverUnlines(f: string -> seq<string>, ls: seq<string>)
    requires ls != [] && f("") == [] && forall l <- ls :: NoNewline(l)
    ensures Flat(f, Lines(Unlines(ls))) == Flat(f, ls)
  {
    LinesOfUnlines(ls);
    FlatAppend(f, ls, [""]);
    FlatOne(f, "");
  }

  // ----- the normal form -----

  lemma NormalLineIsNormal(line: string)
    ensures Flat(NormalLine, NormalLine(line)) == NormalLine(line)
    ensures NoNewline(line) ==> forall l <- NormalLine(line) :: NoNewline(l)
  {
    var t := TrimSpace(line);
    TrimIsTight(line);
    TightIsTrimmed(t);
    if NormalLine(line) == [t] {
      FlatOne(NormalLine, t);
    } else if NormalLine(line) == [line] {
      FlatOne(NormalLine, line);
    }
  }

  lemma FallbackIsNormal()
    ensures NormalLine(FALLBACK) == [FALLBACK] && NormalLine("") == []
  {
    FallbackLine();
    FirstLetter(FALLBACK);
    assert TrimSpace("") == "";
  }

  function NormalLines(content: string): seq<string> { Flat(NormalLine, Lines(content)) }

  lemma NormalLinesHaveNoNewline(content: string)
    ensures forall l <- OrFallback(NormalLines(content)) :: NoNewline(l)
  {
    LinesHaveNoNewline(content);
    FallbackLine();
    forall l | l in NormalLines(content) ensures NoNewline(l) {
      var line := FlatMembers(NormalLine, Lines(content), l);
      NormalLineIsNormal(line);
    }
  }

  lemma NormalizeTwice(content: string)
    ensures Normalize(Normalize(content)) == Normalize(content)
  {
    var ls := NormalLines(content);
    NormalLinesHaveNoNewline(content);
    FallbackIsNormal();
    PassOverUnlines(NormalLine, OrFallback(ls));
    forall line | line in Lines(content) ensures Flat(NormalLine, NormalLine(line)) == NormalLine(line) {
      NormalLineIsNormal(line);
    }
    FlatFlat(NormalLine, NormalLine, NormalLine, Lines(content));
    FlatOne(NormalLine, FALLBACK);
  }

  /** A content that has been through one Set and one Restore comes through
      every further pair unchanged. */
  lemma RestoredIsFixed(content: string)
    ensures var restored := Restore(Set(content)); Restore(Set(restored)) == restored
  {
    RestoreOfSet(content);
    RestoreOfSet(Normalize(content));
    NormalizeTwice(content);
  }

  lemma {:induction false} FlatContains(f: string -> seq<string>, ls: seq<string>, line: string, x: string)
    requires line in ls && x in f(line)
    ensures x in Flat(f, ls)
  {
    var n := |ls| - 1;
    if line != ls[n] {
      assert line in ls[..n];
      FlatContains(f, ls[..n], line, x);
    }
  }

  /** No line is lost that is neither blank nor gecit's; an original
      nameserver 127.0.0.1 is no exception. */
  lemma LinesSurvive(content: string, line: string)
    requires line in Lines(content) && !Blank(line) && !Gecit(line)
    ensures (if Nameserver(line) then TrimSpace(line) else line) in Lines(Restore(Set(content)))
  {
    var x := if Nameserver(line) then TrimSpace(line) else line;
    RestoreOfSet(content);
    NormalLinesHaveNoNewline(content);
    FlatContains(NormalLine, Lines(content), line, x);
    LinesOfUnlines(NormalLines(content));
  }

  // ----- what every Set and Restore keeps -----

  function OtherLine(line: string): seq<string> {
    if Blank(line) || Gecit(line) || Nameserver(line) then [] else [line]
  }

  function ActiveLine(line: string): seq<string> {
    if Nameserver(line) then [TrimSpace(line)] else []
  }

  function NoLine(line: string): seq<string> { [] }

  /** The lines that are neither blank, nor gecit's, nor nameserver lines. */
  function Others(content: string): seq<string> { Flat(OtherLine, Lines(content)) }

  /** The nameserver lines in force. */
  function Active(content: string): seq<string> { Flat(ActiveLine, Lines(content)) }

  lemma {:induction false} FlatNothing(ls: seq<string>)
    ensures Flat(NoLine, ls) == []
  {
    if ls != [] { FlatNothing(ls[..|ls| - 1]); }
  }

  lemma SetLineParts(line: string)
    ensures Flat(OtherLine, SetLine(line)) == OtherLine(line)
    ensures Flat(ActiveLine, SetLine(line)) == []
    ensures Flat(NormalLine, SetLine(line)) == OtherLine(line)
  {
    var t := TrimSpace(line);
    TrimIsTight(line);
    if !Blank(line) && !Gecit(line) {
      if Nameserver(line) {
        SavedLine(t);
        var saved := SAVED + t;
        assert saved[0] == '#' && NAMESERVER[0] == 'n';
        FlatOne(OtherLine, saved);
        FlatOne(ActiveLine, saved);
        FlatOne(NormalLine, saved);
      } else {
        FlatOne(OtherLine, line);
        FlatOne(ActiveLine, line);
        FlatOne(NormalLine, line);
      }
    }
  }

  lemma HeaderParts()
    ensures OtherLine(MARKER) == OtherLine(LOCAL) == OtherLine("") == []
    ensures ActiveLine(MARKER) == ActiveLine("") == [] && ActiveLine(LOCAL) == [LOCAL]
    ensures NormalLine(MARKER) == NormalLine("") == [] && NormalLine(LOCAL) == [LOCAL]
  {
    MarkerLine();
    LocalLine();
    FirstLetter(LOCAL);
    assert MARKER[0] == '#' && NAMESERVER[0] == 'n';
    assert TrimSpace("") == "";
  }

  /** From any content: a Set keeps the other lines and leaves exactly one
      nameserver in force, the local one. */
  lemma SetKeeps(content: string)
    ensures Others(Set(content)) == Others(content)
    ensures Active(Set(content)) == [LOCAL]
  {
    var ls := Lines(content);
    HeaderParts();
    forall line | line in ls
      ensures Flat(OtherLine, SetLine(line)) == OtherLine(line)
      ensures Flat(ActiveLine, SetLine(line)) == NoLine(line)
    {
      SetLineParts(line);
    }
    PassOverSet(OtherLine, content);
    FlatFlat(SetLine, OtherLine, OtherLine, ls);
    PassOverSet(ActiveLine, content);
    FlatFlat(SetLine, ActiveLine, NoLine, ls);
    FlatNothing(ls);
  }

  /** A line saved by a Set holds a nameserver line. */
  predicate SavedSound(line: string) {
    SAVED <= TrimSpace(line) ==> NAMESERVER <= TrimSpace(line)[|SAVED|..]
  }

  predicate Sound(content: string) {
    forall line <- Lines(content) :: SavedSound(line)
  }

  lemma SetLineIsSound(line: string)
    ensures forall l <- SetLine(line) :: SavedSound(l)
  {
    TrimIsTight(line);
    var t := TrimSpace(line);
    if !Blank(line) && !Gecit(line) {
      if Nameserver(line) {
        SavedLine(t);
        assert (SAVED + t)[|SAVED|..] == t;
      } else {
        assert GECIT <= SAVED;
        assert SAVED <= t ==> GECIT <= t;
      }
    }
  }

  lemma SetIsSound(content: string)
    ensures Sound(Set(content))
  {
    LinesOfSet(content);
    MarkerLine();
    LocalLine();
    FirstLetter(LOCAL);
    forall line | line in Lines(Set(content)) ensures SavedSound(line) {
      if line != MARKER && line != LOCAL && line != "" {
        assert line in Flat(SetLine, Lines(content));
        var from := FlatMembers(SetLine, Lines(content), line);
        SetLineIsSound(from);
      }
    }
  }

  /** The nameserver line inside a saved line. */
  lemma UnsavedLine(t: string)
    requires Tight(t) && SAVED <= t && NAMESERVER <= t[|SAVED|..]
    ensures var r := t[|SAVED|..];
            && TrimSpace(r) == r && OtherLine(r) == [] && !StateLine(r)
            && (NoNewline(t) ==> NoNewline(r))
  {
    var r := t[|SAVED|..];
    FirstLetter(r);
    assert NAMESERVER[0] == 'n' && r[0] == NAMESERVER[0];
    assert r[|r| - 1] == t[|t| - 1];
    TightIsTrimmed(r);
    assert forall c <- r :: c in t;
  }

  lemma StateIsGecit(t: string)
    ensures SAVED <= t || STATE <= t ==> GECIT <= t
  {
    assert GECIT <= SAVED && GECIT <= STATE;
  }

  /** What a Restore makes of one sound line. */
  lemma RestoreLineParts(line: string)
    requires SavedSound(line)
    ensures Flat(OtherLine, RestoreLine(line)) == OtherLine(line)
    ensures forall l <- RestoreLine(line) :: !StateLine(l)
    ensures NoNewline(line) ==> forall l <- RestoreLine(line) :: NoNewline(l)
  {
    var t := TrimSpace(line);
    TrimIsTight(line);
    StateIsGecit(t);
    if SAVED <= t {
      UnsavedLine(t);
      FlatOne(OtherLine, t[|SAVED|..]);
    } else if !Gecit(line) && t != LOCAL && t != "" {
      FlatOne(OtherLine, line);
    } else if t == LOCAL {
      assert NAMESERVER <= LOCAL;
    }
  }

  lemma RestoredLines(content: string)
    requires Sound(content) && HasState(content)
    ensures var ls := OrFallback(Flat(RestoreLine, Lines(content)));
            && Restore(content) == Unlines(ls)
            && (forall l <- ls :: NoNewline(l) && !StateLine(l))
            && Flat(OtherLine, ls) == Others(content)
  {
    var restored := Flat(RestoreLine, Lines(content));
    LinesHaveNoNewline(content);
    forall line | line in Lines(content) ensures Flat(OtherLine, RestoreLine(line)) == OtherLine(line) {
      RestoreLineParts(line);
    }
    FlatFlat(RestoreLine, OtherLine, OtherLine, Lines(content));
    forall l | l in restored ensures NoNewline(l) && !StateLine(l) {
      var line := FlatMembers(RestoreLine, Lines(content), l);
      RestoreLineParts(line);
    }
    FallbackLine();
    FirstLetter(FALLBACK);
    FlatOne(OtherLine, FALLBACK);
  }

  /** After a Restore no gecit state is left, and the other lines are kept. */
  lemma RestoreKeeps(content: string)
    requires Sound(content)
    ensures Others(Restore(content)) == Others(content)
    ensures !HasState(Restore(content)) && Sound(Restore(content))
  {
    if HasState(content) {
      var ls := OrFallback(Flat(RestoreLine, Lines(content)));
      RestoredLines(content);
      HeaderParts();
      PassOverUnlines(OtherLine, ls);
      LinesOfUnlines(ls);
      assert !StateLine("");
    }
    StatelessIsSound(Restore(content));
  }

  lemma StatelessIsSound(content: string)
    requires !HasState(content)
    ensures Sound(content)
  {
    forall line | line in Lines(content) ensures SavedSound(line) { assert !StateLine(line); }
  }

  datatype Op = OpSet | OpRestore

  function Apply(content: string, op: Op): string {
    if op.OpSet? then Set(content) else Restore(content)
  }

  function Run(content: string, ops: seq<Op>): string {
    if ops == [] then content else Apply(Run(content, ops[..|ops| - 1]), ops[|ops| - 1])
  }

  /** From a file without gecit state, over any run of Sets and Restores: the
      other lines are conserved; a run ending in a Set leaves the local
      nameserver alone in force; a run ending in a Restore leaves no state, so
      that a further Restore changes nothing. */
  lemma {:induction false} RunKeeps(content: string, ops: seq<Op>)
    requires !HasState(content)
    ensures var now := Run(content, ops);
            && Others(now) == Others(content) && Sound(now)
            && (ops != [] && ops[|ops| - 1].OpSet? ==> Active(now) == [LOCAL])
            && (ops != [] && ops[|ops| - 1].OpRestore? ==> !HasState(now) && Restore(now) == now)
  {
    if ops == [] {
      StatelessIsSound(content);
    } else {
      var before := Run(content, ops[..|ops| - 1]);
      RunKeeps(content, ops[..|ops| - 1]);
      if ops[|ops| - 1].OpSet? {
        SetKeeps(before);
        SetIsSound(before);
      } else {
        RestoreKeeps(before);
      }
    }
  }

  // ----- two Sets in a row -----

  /** The second Set drops what the first one saved: Restore then brings back
      the local nameserver in its place. */
  lemma RestoreAfterTwoSets(content: string)
    ensures Restore(Set(Set(content))) == Unlines([LOCAL] + Others(content))
  {
    RestoreOfSet(Set(content));
    HeaderParts();
    PassOverSet(NormalLine, content);
    forall line | line in Lines(content) ensures Flat(NormalLine, SetLine(line)) == OtherLine(line) {
      SetLineParts(line);
    }
    FlatFlat(SetLine, NormalLine, OtherLine, Lines(content));
  }

  lemma NormalLineParts(line: string)
    ensures Flat(ActiveLine, NormalLine(line)) == ActiveLine(line)
    ensures Flat(ActiveLine, OtherLine(line)) == []
  {
    var t := TrimSpace(line);
    TrimIsTight(line);
    TightIsTrimmed(t);
    if Nameserver(line) {
      FirstLetter(t);
      FlatOne(ActiveLine, t);
    } else {
      FlatOne(ActiveLine, line);
    }
  }

  lemma ActiveOfNormalize(content: string)
    ensures Active(Normalize(content)) == if NormalLines(content) == [] then [FALLBACK] else Active(content)
    ensures NormalLines(content) == [] ==> Active(content) == []
  {
    NormalLinesHaveNoNewline(content);
    HeaderParts();
    PassOverUnlines(ActiveLine, OrFallback(NormalLines(content)));
    forall line | line in Lines(content) ensures Flat(ActiveLine, NormalLine(line)) == ActiveLine(line) {
      NormalLineParts(line);
    }
    FlatFlat(NormalLine, ActiveLine, ActiveLine, Lines(content));
    FallbackLine();
    FlatOne(ActiveLine, FALLBACK);
  }

  lemma OthersHaveNoNewline(content: string)
    ensures forall l <- Others(content) :: NoNewline(l)
  {
    LinesHaveNoNewline(content);
    forall l | l in Others(content) ensures NoNewline(l) {
      var line := FlatMembers(OtherLine, Lines(content), l);
    }
  }

  lemma ActiveAfterTwoSets(content: string)
    ensures Active(Restore(Set(Set(content)))) == [LOCAL]
  {
    var ls := Lines(content);
    RestoreAfterTwoSets(content);
    OthersHaveNoNewline(content);
    LocalLine();
    HeaderParts();
    PassOverUnlines(ActiveLine, [LOCAL] + Others(content));
    FlatAppend(ActiveLine, [LOCAL], Others(content));
    FlatOne(ActiveLine, LOCAL);
    forall line | line in ls ensures Flat(ActiveLine, OtherLine(line)) == NoLine(line) {
      NormalLineParts(line);
    }
    FlatFlat(OtherLine, ActiveLine, NoLine, ls);
    FlatNothing(ls);
  }

  /** A second Set loses nameservers unless the local one was the only one to
      lose: only then does Restore bring back the same after two Sets as after
      one. */
  lemma SecondSetKeepsNameserversExactly(content: string)
    ensures Active(Restore(Set(Set(content)))) == Active(Restore(Set(content))) <==> Active(content) == [LOCAL]
  {
    var one, two := Restore(Set(content)), Restore(Set(Set(content)));
    ActiveAfterTwoSets(content);
    assert Active(one) == if NormalLines(content) == [] then [FALLBACK] else Active(content) by {
      RestoreOfSet(content);
      ActiveOfNormalize(content);
    }
    ActiveOfNormalize(content);
    FallbackIsNotLocal();
  }

  lemma FallbackIsNotLocal()
    ensures [LOCAL] != [FALLBACK]
  {
    assert LOCAL[11] == '1' && FALLBACK[11] == '8';
    assert LOCAL != FALLBACK;
  }

  // ----- what a Restore brings back, over whole runs -----

  /** Some Set follows a Set with no Restore between them. */
  predicate DoubleSet(ops: seq<Op>) {
    exists i :: 0 < i < |ops| && ops[i - 1].OpSet? && ops[i].OpSet?
  }

  /** What a Restore gives after `ops`. */
  function Recovered(content: string, ops: seq<Op>): string {
    if OpSet !in ops then content
    else if DoubleSet(ops) then Unlines([LOCAL] + Others(content))
    else Normalize(content)
  }

  lemma DoubleSetSnoc(ops: seq<Op>)
    requires ops != []
    ensures var n := |ops| - 1;
            DoubleSet(ops) <==> DoubleSet(ops[..n]) || (n > 0 && ops[n - 1].OpSet? && ops[n].OpSet?)
  {
    var n := |ops| - 1;
    if DoubleSet(ops[..n]) {
      var i :| 0 < i < n && ops[..n][i - 1].OpSet? && ops[..n][i].OpSet?;
      assert ops[i - 1].OpSet? && ops[i].OpSet?;
    }
    if DoubleSet(ops) {
      var i :| 0 < i < |ops| && ops[i - 1].OpSet? && ops[i].OpSet?;
      assert i < n ==> ops[..n][i - 1].OpSet? && ops[..n][i].OpSet?;
    }
  }

  /** What is recovered after a Set is in normal form. */
  lemma RecoveredIsNormal(content: string, ops: seq<Op>)
    ensures OpSet in ops ==> Normalize(Recovered(content, ops)) == Recovered(content, ops)
  {
    NormalizeTwice(content);
    RestoreAfterTwoSets(content);
    RestoreOfSet(Set(content));
    NormalizeTwice(Set(content));
  }

  lemma RestoreRecovers(content: string, ops: seq<Op>)
    ensures Recovered(content, ops + [OpRestore]) == Recovered(content, ops)
  {
    var more := ops + [OpRestore];
    DoubleSetSnoc(more);
    assert more[..|ops|] == ops;
  }

  lemma FirstSetRecovers(content: string, ops: seq<Op>)
    requires ops == [] || ops[|ops| - 1].OpRestore?
    ensures Restore(Set(Recovered(content, ops))) == Recovered(content, ops + [OpSet])
  {
    var more := ops + [OpSet];
    DoubleSetSnoc(more);
    assert more[..|ops|] == ops && more[|ops|] in more;
    if DoubleSet(ops) {
      var i :| 0 < i < |ops| && ops[i - 1].OpSet? && ops[i].OpSet?;
      assert ops[i] in ops;
    }
    RestoreOfSet(Recovered(content, ops));
    RecoveredIsNormal(content, ops);
  }

  lemma SecondSetRecovers(content: string, ops: seq<Op>, x: string)
    requires ops != [] && ops[|ops| - 1].OpSet? && Others(x) == Others(content)
    ensures Restore(Set(Set(x))) == Recovered(content, ops + [OpSet])
  {
    var more := ops + [OpSet];
    assert more[|ops| - 1].OpSet? && more[|ops|].OpSet? && more[|ops|] in more;
    RestoreAfterTwoSets(x);
  }

  lemma RunSnoc(content: string, ops: seq<Op>, op: Op)
    ensures Run(content, ops + [op]) == Apply(Run(content, ops), op)
  {
    assert (ops + [op])[..|ops|] == ops;
  }

  /** Over every run from a file without gecit state: the file after a Restore
      is the original if nothing was set, its normal form if no Set followed a
      Set, and else the local nameserver with the other lines. */
  lemma {:induction false} RunRestores(content: string, ops: seq<Op>)
    requires !HasState(content)
    ensures Restore(Run(content, ops)) == Recovered(content, ops)
    ensures ops == [] || ops[|ops| - 1].OpRestore? ==> Run(content, ops) == Recovered(content, ops)
  {
    if ops != [] {
      var n := |ops| - 1;
      var before, op := ops[..n], ops[n];
      assert ops == before + [op];
      RunRestores(content, before);
      RunSnoc(content, before, op);
      if op.OpRestore? {
        RestoreRecovers(content, before);
        RunKeeps(content, ops);
      } else if n == 0 || before[n - 1].OpRestore? {
        FirstSetRecovers(content, before);
      } else {
        var x := Run(content, before[..n - 1]);
        RunKeeps(content, before[..n - 1]);
        SecondSetRecovers(content, before, x);
      }
    }
  }

  /** The nameservers come back over a run with a Set in it exactly when no
      Set followed a Set, or the local one was the only one there was. */
  lemma NameserversComeBackExactly(content: string, ops: seq<Op>)
    requires !HasState(content) && OpSet in ops
    ensures Active(Restore(Run(content, ops))) == Active(Normalize(content)) <==>
            !DoubleSet(ops) || Active(content) == [LOCAL]
  {
    RunRestores(content, ops);
    RestoreAfterTwoSets(content);
    RestoreOfSet(content);
    ActiveAfterTwoSets(content);
    SecondSetKeepsNameserversExactly(content);
  }
}
