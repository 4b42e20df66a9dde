/** Lines of text: the parts of Go's strings package that the resolv.conf code
    uses, on strings of Unicode characters. */
module Text {

  /** unicode.IsSpace. */
  predicate IsSpace(c: char) {
    || c in "\t\n\r "
    || c in ['\U{000b}', '\U{000c}', '\U{0085}', '\U{00a0}', '\U{1680}', '\U{2028}', '\U{2029}',
             '\U{202f}', '\U{205f}', '\U{3000}']
    || '\U{2000}' <= c <= '\U{200a}'
  }

  function TrimLeft(s: string): string {
    if s != "" && IsSpace(s[0]) then TrimLeft(s[1..]) else s
  }

  function TrimRight(s: string): string {
    if s != "" && IsSpace(s[|s| - 1]) then TrimRight(s[..|s| - 1]) else s
  }

  /** strings.TrimSpace. */
  function TrimSpace(s: string): string { TrimRight(TrimLeft(s)) }

  /** No space at either end. */
  predicate Tight(s: string) {
    s != "" ==> !IsSpace(s[0]) && !IsSpace(s[|s| - 1])
  }

  predicate NoNewline(s: string) { '\n' !in s }

  lemma {:induction false} TrimLeftIs(s: string)
    ensures var t := TrimLeft(s);
            && (t != "" ==> !IsSpace(t[0])) && (NoNewline(s) ==> NoNewline(t))
    decreases |s|
  {
    if s != "" && IsSpace(s[0]) { TrimLeftIs(s[1..]); }
  }

  lemma {:induction false} TrimRightIs(s: string)
    ensures var t := TrimRight(s);
            && t <= s && (t != "" ==> !IsSpace(t[|t| - 1]))
    decreases |s|
  {
    if s != "" && IsSpace(s[|s| - 1]) { TrimRightIs(s[..|s| - 1]); }
  }

  lemma TrimIsTight(s: string)
    ensures Tight(TrimSpace(s)) && (NoNewline(s) ==> NoNewline(TrimSpace(s)))
  {
    TrimLeftIs(s);
    TrimRightIs(TrimLeft(s));
    var t := TrimSpace(s);
    assert t != "" ==> t[0] == TrimLeft(s)[0];
    assert forall c <- t :: c in TrimLeft(s);
  }

  lemma {:induction false} TrimLeftSplits(s: string) returns (a: string)
    ensures s == a + TrimLeft(s) && forall c <- a :: IsSpace(c)
  {
    a := "";
    if s != "" && IsSpace(s[0]) {
      a := TrimLeftSplits(s[1..]);
      a := [s[0]] + a;
    }
  }

  lemma {:induction false} TrimRightSplits(s: string) returns (b: string)
    ensures s == TrimRight(s) + b && forall c <- b :: IsSpace(c)
  {
    b := "";
    if s != "" && IsSpace(s[|s| - 1]) {
      b := TrimRightSplits(s[..|s| - 1]);
      b := b + [s[|s| - 1]];
    }
  }

  /** Only spaces are cut off, and all of them at both ends. */
  lemma TrimSplits(s: string) returns (a: string, b: string)
    ensures s == a + TrimSpace(s) + b && forall c <- a + b :: IsSpace(c)
    ensures Tight(TrimSpace(s))
  {
    a := TrimLeftSplits(s);
    b := TrimRightSplits(TrimLeft(s));
    TrimIsTight(s);
    assert s == a + (TrimSpace(s) + b);
  }

  lemma TightIsTrimmed(s: string)
    requires Tight(s)
    ensures TrimSpace(s) == s
  {
  }

  /** strings.Split(s, "\n"). */
  function Lines(s: string): (ls: seq<string>)
    ensures |ls| >= 1
  {
    if s == "" then [""]
    else if s[0] == '\n' then [""] + Lines(s[1..])
    else
      var rest := Lines(s[1..]);
      [[s[0]] + rest[0]] + rest[1..]
  }

  /** strings.Join(ls, "\n") + "\n". */
  function Unlines(ls: seq<string>): string
    requires ls != []
  {
    if |ls| == 1 then ls[0] + "\n" else ls[0] + "\n" + Unlines(ls[1..])
  }

  lemma {:induction false} LinesHaveNoNewline(s: string)
    ensures forall l <- Lines(s) :: NoNewline(l)
  {
    if s != "" {
      LinesHaveNoNewline(s[1..]);
      var rest := Lines(s[1..]);
      assert rest[0] in rest;
      forall l | l in Lines(s) ensures NoNewline(l) {
        if s[0] != '\n' && l != Lines(s)[0] { assert l in rest[1..]; }
      }
    }
  }

  lemma {:induction false} FirstLine(l: string, rest: string)
    requires NoNewline(l)
    ensures Lines(l + "\n" + rest) == [l] + Lines(rest)
  {
    var s := l + "\n" + rest;
    if l == "" {
      assert s[1..] == rest;
    } else {
      assert s[1..] == l[1..] + "\n" + rest;
      FirstLine(l[1..], rest);
      assert l == [l[0]] + l[1..];
    }
  }

  /** Joined lines split back into themselves, and an empty last piece. */
  lemma {:induction false} LinesOfUnlines(ls: seq<string>)
    requires ls != [] && forall l <- ls :: NoNewline(l)
    ensures Lines(Unlines(ls)) == ls + [""]
  {
    if |ls| == 1 {
      FirstLine(ls[0], "");
      assert ls[0] + "\n" + "" == Unlines(ls);
    } else {
      FirstLine(ls[0], Unlines(ls[1..]));
      LinesOfUnlines(ls[1..]);
    }
  }

  /** Split lines join back into the text they came from. */
  lemma {:induction false} UnlinesOfLines(s: string)
    ensures Unlines(Lines(s)) == s + "\n"
  {
    if s != "" {
      UnlinesOfLines(s[1..]);
      var rest := Lines(s[1..]);
      if s[0] == '\n' {
        assert Lines(s)[1..] == rest;
      } else {
        assert Lines(s)[1..] == rest[1..];
        assert Unlines(Lines(s)) == [s[0]] + Unlines(rest);
        assert s == [s[0]] + s[1..];
      }
    }
  }

  /** Each line turned into some lines. */
  function Flat(f: string -> seq<string>, ls: seq<string>): seq<string> {
    if ls == [] then [] else Flat(f, ls[..|ls| - 1]) + f(ls[|ls| - 1])
  }

  lemma {:induction false} FlatAppend(f: string -> seq<string>, a: seq<string>, b: seq<string>)
    ensures Flat(f, a + b) == Flat(f, a) + Flat(f, b)
  {
    if b == [] {
      assert a + b == a;
    } else {
      var n := |b| - 1;
      assert (a + b)[..|a| + n] == a + b[..n];
      FlatAppend(f, a, b[..n]);
    }
  }

  lemma FlatOne(f: string -> seq<string>, l: string)
    ensures Flat(f, [l]) == f(l)
  {
    assert Flat(f, [l]) == Flat(f, []) + f(l);
  }

  lemma FlatHeaded(f: string -> seq<string>, a: string, b: string, body: seq<string>)
    requires f("") == []
    ensures Flat(f, [a, b] + body + [""]) == f(a) + f(b) + Flat(f, body)
  {
    FlatAppend(f, [a, b] + body, [""]);
    FlatAppend(f, [a, b], body);
    FlatAppend(f, [a], [b]);
    assert [a] + [b] == [a, b];
    FlatOne(f, a);
    FlatOne(f, b);
    FlatOne(f, "");
  }

  /** Two passes in a row, told line by line. */
  lemma {:induction false} FlatFlat(f: string -> seq<string>, g: string -> seq<string>, h: string -> seq<string>,
                                    ls: seq<string>)
    requires forall l <- ls :: Flat(g, f(l)) == h(l)
    ensures Flat(g, Flat(f, ls)) == Flat(h, ls)
  {
    if ls != [] {
      var n := |ls| - 1;
      FlatFlat(f, g, h, ls[..n]);
      FlatAppend(g, Flat(f, ls[..n]), f(ls[n]));
    }
  }

  lemma {:induction false} FlatMembers(f: string -> seq<string>, ls: seq<string>, x: string) returns (l: string)
    requires x in Flat(f, ls)
    ensures l in ls && x in f(l)
  {
    var n := |ls| - 1;
    if x in f(ls[n]) { l := ls[n]; } else { l := FlatMembers(f, ls[..n], x); }
  }
}
