/** Which nameservers one Set and one Restore leave in resolv.conf, by the text
    of its lines alone. */
module ResolvConfNames {
  import opened Text
  import opened ResolvConf
  import opened ResolvConfRuns

  /** The texts that make a line what it is. */
  lemma FixedTexts()
    ensures NAMESERVER == "nameserver" && GECIT == "# gecit" && STATE == "# gecit:"
    ensures LOCAL == "nameserver 127.0.0.1" && FALLBACK == "nameserver 8.8.8.8"
    ensures SAVED == "# gecit-saved: " && |SAVED| == 15
  {
  }

  // ----- what a Set puts away -----

  /** The line inside a saved line. */
  function SavedPart(line: string): seq<string> {
    if "# gecit-saved: " <= TrimSpace(line) then [TrimSpace(line)[15..]] else []
  }

  /** The lines a Restore can still bring back. */
  function Saved(content: string): seq<string> { Flat(SavedPart, Lines(content)) }

  lemma SetLineSaves(line: string)
    ensures Flat(SavedPart, SetLine(line)) == ActiveLine(line)
  {
    var t := TrimSpace(line);
    TrimIsTight(line);
    FixedTexts();
    assert GECIT <= SAVED;
    if Nameserver(line) {
      FirstLetter(t);
      SavedLine(t);
      FlatOne(SavedPart, SAVED + t);
      assert (SAVED + t)[15..] == t;
    } else if !Blank(line) && !Gecit(line) {
      FlatOne(SavedPart, line);
    }
  }

  lemma {:induction false} SetCounts(ls: seq<string>)
    ensures |Flat(SetLine, ls)| == |Flat(ActiveLine, ls)| + |Flat(OtherLine, ls)|
  {
    if ls != [] {
      var line := ls[|ls| - 1];
      SetCounts(ls[..|ls| - 1]);
      if Nameserver(line) { FirstLetter(TrimSpace(line)); }
    }
  }

  /** From any content: after a Set the local nameserver alone is in force; the
      nameservers that were in force are saved, in order, and what an earlier
      Set saved is gone; the other lines stand as they were. There is no line
      besides these, the marker and the empty piece after the last newline. */
  lemma SetSaves(content: string)
    ensures Active(Set(content)) == ["nameserver 127.0.0.1"]
    ensures Saved(Set(content)) == Active(content)
    ensures Others(Set(content)) == Others(content)
    ensures |Lines(Set(content))| == |Active(content)| + |Others(content)| + 3
  {
    LinesOfSet(content);
    SetCounts(Lines(content));
    SetKeeps(content);
    FixedTexts();
    MarkerLine();
    LocalLine();
    FirstLetter(LOCAL);
    assert TrimSpace("") == "";
    forall line | line in Lines(content) ensures Flat(SavedPart, SetLine(line)) == ActiveLine(line) {
      SetLineSaves(line);
    }
    PassOverSet(SavedPart, content);
    FlatFlat(SetLine, SavedPart, ActiveLine, Lines(content));
  }

  // ----- what a Restore brings back -----

  /** The nameserver in force that a Restore makes of one line. */
  function Brought(line: string): seq<string> {
    var t := TrimSpace(line);
    if "# gecit-saved: " <= t then ActiveLine(t[15..])
    else if t == "nameserver 127.0.0.1" then []
    else ActiveLine(line)
  }

  /** The other line that a Restore makes of one line. */
  function BroughtOther(line: string): seq<string> {
    var t := TrimSpace(line);
    if "# gecit-saved: " <= t then OtherLine(t[15..]) else OtherLine(line)
  }

  /** A line of which a Restore leaves nothing. */
  predicate Dropped(line: string) {
    var t := TrimSpace(line);
    t == "" || t == "nameserver 127.0.0.1" || (Gecit(line) && !("# gecit-saved: " <= t))
  }

  lemma SavedLineBrings(line: string)
    requires SAVED <= TrimSpace(line)
    ensures Flat(ActiveLine, RestoreLine(line)) == Brought(line)
    ensures Flat(OtherLine, RestoreLine(line)) == BroughtOther(line)
    ensures RestoreLine(line) != [] && !Dropped(line)
  {
    var t := TrimSpace(line);
    FixedTexts();
    FlatOne(ActiveLine, t[15..]);
    FlatOne(OtherLine, t[15..]);
    assert t[0] == '#' && LOCAL[0] == 'n';
  }

  lemma PlainLineBrings(line: string)
    requires !(SAVED <= TrimSpace(line))
    ensures Flat(ActiveLine, RestoreLine(line)) == Brought(line)
    ensures Flat(OtherLine, RestoreLine(line)) == BroughtOther(line)
    ensures RestoreLine(line) == [] <==> Dropped(line)
  {
    var t := TrimSpace(line);
    FixedTexts();
    FlatOne(ActiveLine, line);
    FlatOne(OtherLine, line);
    if NAMESERVER <= t { FirstLetter(t); }
    LocalLine();
  }

  lemma RestoreLineBrings(line: string)
    ensures Flat(ActiveLine, RestoreLine(line)) == Brought(line)
    ensures Flat(OtherLine, RestoreLine(line)) == BroughtOther(line)
    ensures RestoreLine(line) == [] <==> Dropped(line)
  {
    if SAVED <= TrimSpace(line) { SavedLineBrings(line); } else { PlainLineBrings(line); }
  }

  lemma RestoreLineHasNoNewline(line: string)
    requires NoNewline(line)
    ensures forall l <- RestoreLine(line) :: NoNewline(l)
  {
    var t := TrimSpace(line);
    TrimIsTight(line);
    if SAVED <= t { assert forall c <- t[|SAVED|..] :: c in t; }
  }

  lemma {:induction false} FlatEmpty(f: string -> seq<string>, ls: seq<string>)
    ensures Flat(f, ls) == [] <==> forall l <- ls :: f(l) == []
  {
    if ls != [] {
      var n := |ls| - 1;
      FlatEmpty(f, ls[..n]);
      assert forall l <- ls :: l in ls[..n] || l == ls[n];
    }
  }

  /** For any content with state: a Restore leaves in force the saved
      nameservers and those that were in force but the local one, in order,
      and keeps the other lines in order; or the fallback alone, when there is
      no line to keep. */
  lemma RestoreBrings(content: string)
    requires HasState(content)
    ensures var ls, restored := Lines(content), Restore(content);
            if forall line <- ls :: Dropped(line) then
              Active(restored) == ["nameserver 8.8.8.8"] && Others(restored) == []
            else
              Active(restored) == Flat(Brought, ls) && Others(restored) == Flat(BroughtOther, ls)
  {
    var ls := Lines(content);
    var lines := Flat(RestoreLine, ls);
    forall line | line in ls
      ensures Flat(ActiveLine, RestoreLine(line)) == Brought(line)
      ensures Flat(OtherLine, RestoreLine(line)) == BroughtOther(line)
      ensures RestoreLine(line) == [] <==> Dropped(line)
    {
      RestoreLineBrings(line);
    }
    RestoredHaveNoNewline(content);
    HeaderParts();
    PassOverUnlines(ActiveLine, OrFallback(lines));
    PassOverUnlines(OtherLine, OrFallback(lines));
    FlatEmpty(RestoreLine, ls);
    FallbackParts();
    FlatFlat(RestoreLine, ActiveLine, Brought, ls);
    FlatFlat(RestoreLine, OtherLine, BroughtOther, ls);
  }

  lemma FallbackParts()
    ensures Flat(ActiveLine, [FALLBACK]) == ["nameserver 8.8.8.8"] && Flat(OtherLine, [FALLBACK]) == []
  {
    FixedTexts();
    FallbackLine();
    FlatOne(ActiveLine, FALLBACK);
    FlatOne(OtherLine, FALLBACK);
  }

  lemma RestoredHaveNoNewline(content: string)
    ensures forall l <- OrFallback(Flat(RestoreLine, Lines(content))) :: NoNewline(l)
  {
    LinesHaveNoNewline(content);
    FallbackLine();
    forall l | l in Flat(RestoreLine, Lines(content)) ensures NoNewline(l) {
      var line := FlatMembers(RestoreLine, Lines(content), l);
      RestoreLineHasNoNewline(line);
    }
  }
}
