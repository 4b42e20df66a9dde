/** The resolv.conf rewrite and restore of pkg/dns/system_linux.go. */
module ResolvConf {
  import opened Text

  const GECIT := "# gecit"
  const STATE := GECIT + ":"
  const SAVED := GECIT + "-saved: "
  const NAMESERVER := "nameserver"
  const LOCAL := NAMESERVER + " 127.0.0.1"
  const FALLBACK := NAMESERVER + " 8.8.8.8"

  const ACTIVE_TEXT := " DoH DNS active "
  const ORIGINAL_TEXT := "\U{2014} original "
  const LINES_TEXT := "lines commented below"
  const MARKER := STATE + ACTIVE_TEXT + ORIGINAL_TEXT + LINES_TEXT

  // ----- what each pass does to one line -----

  function SetLine(line: string): seq<string> {
    var trimmed := TrimSpace(line);
    if trimmed == "" || GECIT <= trimmed then []
    else if NAMESERVER <= trimmed then [SAVED + trimmed]
    else [line]
  }

  function RestoreLine(line: string): seq<string> {
    var trimmed := TrimSpace(line);
    if SAVED <= trimmed then [trimmed[|SAVED|..]]
    else if GECIT <= trimmed then []
    else if trimmed == LOCAL then []
    else if trimmed != "" then [line]
    else []
  }

  predicate StateLine(line: string) {
    STATE <= TrimSpace(line) || SAVED <= TrimSpace(line)
  }

  predicate HasState(content: string) {
    exists line <- Lines(content) :: StateLine(line)
  }

  function SetLines(content: string): seq<string> { [MARKER, LOCAL] + Flat(SetLine, Lines(content)) }

  function OrFallback(lines: seq<string>): (r: seq<string>)
    ensures r != []
  {
    if lines == [] then [FALLBACK] else lines
  }

  function Set(content: string): string { Unlines(SetLines(content)) }

  function Restore(content: string): string {
    if !HasState(content) then content
    else Unlines(OrFallback(Flat(RestoreLine, Lines(content))))
  }

  // ----- the code -----

  class ResolvConfFile {
    /** None: the file cannot be read. */
    var content: Content

    constructor (content: Content)
      ensures this.content == content
    {
      this.content := content;
    }

    method SetSystemDNS() returns (ok: bool)
      modifies this
      ensures ok == old(content).Readable?
      ensures content == if ok then Readable(Set(old(content).text)) else old(content)
    {
      if content.Unreadable? {
        return false;
      }
      var orig := Lines(content.text);
      var lines := [];
      lines := lines + [MARKER];
      lines := lines + [LOCAL];
      ghost var head := lines;
      assert head == [MARKER, LOCAL];
      for i := 0 to |orig|
        invariant lines == head + Flat(SetLine, orig[..i])
      {
        var line := orig[i];
        var trimmed := TrimSpace(line);
        NextLine(SetLine, orig, i);
        LinesAssoc(head, Flat(SetLine, orig[..i]), SetLine(line));
        if trimmed == "" || GECIT <= trimmed {
          continue;
        }
        if NAMESERVER <= trimmed {
          lines := lines + [SAVED + trimmed];
        } else {
          lines := lines + [line];
        }
      }
      assert orig[..|orig|] == orig;
      content := Readable(Unlines(lines));
      return true;
    }

    method HasGecitDNSState(text: string) returns (found: bool)
      ensures found == HasState(text)
    {
      var lines := Lines(text);
      for i := 0 to |lines|
        invariant forall j :: 0 <= j < i ==> !StateLine(lines[j])
      {
        var trimmed := TrimSpace(lines[i]);
        if STATE <= trimmed || SAVED <= trimmed {
          assert StateLine(lines[i]);
          return true;
        }
      }
      return false;
    }

    method SystemDNSNeedsRestore() returns (needed: bool)
      ensures needed <==> content.Readable? && HasState(content.text)
    {
      if content.Unreadable? {
        return false;
      }
      needed := HasGecitDNSState(content.text);
    }

    method RestoreSystemDNS() returns (ok: bool)
      modifies this
      ensures ok == old(content).Readable?
      ensures content == if ok then Readable(Restore(old(content).text)) else old(content)
    {
      if content.Unreadable? {
        return false;
      }
      var found := HasGecitDNSState(content.text);
      if !found {
        return true;
      }
      var data := Lines(content.text);
      var lines := [];
      for i := 0 to |data|
        invariant lines == Flat(RestoreLine, data[..i])
      {
        var line := data[i];
        var trimmed := TrimSpace(line);
        NextLine(RestoreLine, data, i);
        if SAVED <= trimmed {
          lines := lines + [trimmed[|SAVED|..]];
        } else if GECIT <= trimmed {
          continue;
        } else if trimmed == LOCAL {
          continue;
        } else if trimmed != "" {
          lines := lines + [line];
        }
      }
      assert data[..|data|] == data;
      if |lines| == 0 {
        lines := lines + [FALLBACK];
      }
      content := Readable(Unlines(lines));
      return true;
    }
  }

  datatype Content = Unreadable | Readable(text: string)

  lemma LinesAssoc(a: seq<string>, b: seq<string>, c: seq<string>)
    ensures a + b + c == a + (b + c)
  {
  }

  lemma NextLine(f: string -> seq<string>, ls: seq<string>, i: nat)
    requires i < |ls|
    ensures Flat(f, ls[..i + 1]) == Flat(f, ls[..i]) + f(ls[i])
  {
    assert ls[..i + 1][..i] == ls[..i];
  }

  // ----- one Set, one Restore -----

  /** Saved and marker lines are the lines a Set drops or a Restore removes. */
  predicate Gecit(line: string) { GECIT <= TrimSpace(line) }

  predicate Nameserver(line: string) { NAMESERVER <= TrimSpace(line) }

  predicate Blank(line: string) { TrimSpace(line) == "" }

  /** A line as one Set and one Restore leave it. */
  function NormalLine(line: string): seq<string> {
    if Blank(line) || Gecit(line) then []
    else if Nameserver(line) then [TrimSpace(line)]
    else [line]
  }

  /** The content's lines without blank and gecit lines, nameserver lines
      trimmed; or the fallback when nothing is left. */
  function Normalize(content: string): string {
    Unlines(OrFallback(Flat(NormalLine, Lines(content))))
  }

  lemma SavedLine(t: string)
    requires Tight(t) && NAMESERVER <= t
    ensures TrimSpace(SAVED + t) == SAVED + t && RestoreLine(SAVED + t) == [t]
    ensures Gecit(SAVED + t)
  {
    var s := SAVED + t;
    assert s[0] == '#' && s[|s| - 1] == t[|t| - 1];
    TightIsTrimmed(s);
    assert s[|SAVED|..] == t;
    assert GECIT <= s;
  }

  lemma MarkerLine()
    ensures TrimSpace(MARKER) == MARKER && STATE <= MARKER && GECIT <= MARKER && !(SAVED <= MARKER)
  {
    TightIsTrimmed(MARKER);
    assert GECIT <= STATE;
    assert MARKER[7] == ':' && SAVED[7] == '-';
  }

  lemma MarkerHasNoNewline()
    ensures NoNewline(MARKER)
  {
    assert NoNewline(STATE) && NoNewline(ACTIVE_TEXT) && NoNewline(ORIGINAL_TEXT);
    assert NoNewline(LINES_TEXT);
  }

  lemma LocalLine()
    ensures TrimSpace(LOCAL) == LOCAL && NAMESERVER <= LOCAL && NoNewline(LOCAL)
  {
    TightIsTrimmed(LOCAL);
  }

  lemma FallbackLine()
    ensures TrimSpace(FALLBACK) == FALLBACK && NAMESERVER <= FALLBACK && NoNewline(FALLBACK)
  {
    TightIsTrimmed(FALLBACK);
  }

  /** A nameserver line is not a gecit line. */
  lemma FirstLetter(t: string)
    requires NAMESERVER <= t
    ensures !(GECIT <= t) && !(SAVED <= t) && !(STATE <= t) && t != ""
  {
    assert t[0] == 'n' && GECIT[0] == SAVED[0] == STATE[0] == '#';
  }

  lemma HeaderIsRemoved()
    ensures RestoreLine(MARKER) == [] && RestoreLine(LOCAL) == [] && RestoreLine("") == []
  {
    MarkerLine();
    LocalLine();
    FirstLetter(LOCAL);
    assert TrimSpace("") == "";
  }

  lemma LineRoundTrip(line: string)
    ensures Flat(RestoreLine, SetLine(line)) == NormalLine(line)
  {
    var t := TrimSpace(line);
    TrimIsTight(line);
    if !Blank(line) && !Gecit(line) {
      if Nameserver(line) {
        SavedLine(t);
        FlatOne(RestoreLine, SAVED + t);
      } else {
        FlatOne(RestoreLine, line);
        assert GECIT <= SAVED;
        assert SAVED <= t ==> GECIT <= t;
      }
    }
  }

  lemma SetLineHasNoNewline(line: string)
    requires NoNewline(line)
    ensures forall l <- SetLine(line) :: NoNewline(l)
  {
    TrimIsTight(line);
    assert NoNewline(SAVED);
  }

  lemma SetHasNoNewline(content: string)
    ensures forall l <- SetLines(content) :: NoNewline(l)
  {
    LinesHaveNoNewline(content);
    MarkerHasNoNewline();
    LocalLine();
    forall l | l in Flat(SetLine, Lines(content)) ensures NoNewline(l) {
      var line := FlatMembers(SetLine, Lines(content), l);
      SetLineHasNoNewline(line);
    }
  }

  /** What a Set writes, split into lines again. */
  lemma LinesOfSet(content: string)
    ensures Lines(Set(content)) == SetLines(content) + [""]
  {
    SetHasNoNewline(content);
    LinesOfUnlines(SetLines(content));
  }

  lemma SetLeavesState(content: string)
    ensures HasState(Set(content))
  {
    LinesOfSet(content);
    MarkerLine();
    assert StateLine(MARKER);
    assert SetLines(content)[0] == MARKER;
    assert MARKER in Lines(Set(content));
  }

  lemma RestoreAfterSet(lines: seq<string>)
    ensures Flat(RestoreLine, Flat(SetLine, lines)) == Flat(NormalLine, lines)
  {
    forall line | line in lines ensures Flat(RestoreLine, SetLine(line)) == NormalLine(line) {
      LineRoundTrip(line);
    }
    FlatFlat(SetLine, RestoreLine, NormalLine, lines);
  }

  /** The lines a pass makes of what a Set wrote. */
  lemma PassOverSet(f: string -> seq<string>, content: string)
    requires f("") == []
    ensures Flat(f, Lines(Set(content))) == f(MARKER) + f(LOCAL) + Flat(f, Flat(SetLine, Lines(content)))
  {
    LinesOfSet(content);
    FlatHeaded(f, MARKER, LOCAL, Flat(SetLine, Lines(content)));
  }

  lemma RestorePassOverSet(content: string)
    ensures Flat(RestoreLine, Lines(Set(content))) == Flat(NormalLine, Lines(content))
  {
    HeaderIsRemoved();
    PassOverSet(RestoreLine, content);
    RestoreAfterSet(Lines(content));
  }

  /** Restore undoes one Set up to the normal form. */
  lemma RestoreOfSet(content: string)
    ensures Restore(Set(content)) == Normalize(content)
  {
    SetLeavesState(content);
    RestorePassOverSet(content);
  }
}
