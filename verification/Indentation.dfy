/** How the cleaned text looks byte by byte: every line is so many tabs as braces are open, and then begins. */
module Indentation {
  import opened Buffers
  import opened CleanConf
  import opened CleanConfProperties

  // ----- Tabs -----

  /** An indentation is one byte 9 for every level. */
  lemma {:induction false} TabsExact(n: int)
    ensures |Tabs(n)| == if n > 0 then n else 0
    ensures forall i | 0 <= i < |Tabs(n)| :: Tabs(n)[i] == 9
  {
    if n > 0 {
      TabsExact(n - 1);
    }
  }

  // ----- Lines -----

  function Unlines(ls: seq<seq<byte>>): seq<byte>
    requires ls != []
  {
    if |ls| == 1 then ls[0] else Unlines(ls[..|ls| - 1]) + [10] + ls[|ls| - 1]
  }

  lemma UnlinesSnoc(ls: seq<Line>, l: Line)
    requires ls != []
    ensures Unlines(ls + [l]) == Unlines(ls) + [10] + l
  {
    assert (ls + [l])[..|ls|] == ls;
  }

  /** The lines are what stands between the line feeds. */
  lemma {:induction false} LinesExact(x: Text)
    ensures Unlines(Lines(x)) == x
    ensures forall l: Line | l in Lines(x) :: (10 as byte) !in l
  {
    LinesHaveNoLF(x);
    if x != [] {
      var init, c := x[..|x| - 1], x[|x| - 1];
      var ls := Lines(init);
      LinesExact(init);
      assert x == init + [c];
      if c == LF {
        UnlinesSnoc(ls, []);
      } else {
        assert ls == ls[..|ls| - 1] + [ls[|ls| - 1]];
        LastLineGrows(ls[..|ls| - 1], ls[|ls| - 1], c);
      }
    }
  }

  lemma LastLineGrows(init: seq<Line>, l: Line, c: byte)
    ensures Unlines(init + [l + [c]]) == Unlines(init + [l]) + [c]
  {
    if init == [] {
      assert init + [l] == [l] && init + [l + [c]] == [l + [c]];
    } else {
      UnlinesSnoc(init, l);
      UnlinesSnoc(init, l + [c]);
    }
  }

  // ----- Levels -----

  /** The bytes of a line before its first '#'. */
  function Code(l: seq<byte>): seq<byte> {
    if l == [] || l[0] == 35 then [] else [l[0]] + Code(l[1..])
  }

  /** How many more '{' than '}' a line has, not counting what follows a '#'. */
  function Opens(l: seq<byte>): int {
    var opening: int, closing: int := multiset(Code(l))[123], multiset(Code(l))[125];
    opening - closing
  }

  /** How many '{' are open after some lines. */
  function Level(ls: seq<seq<byte>>): int {
    if ls == [] then 0 else Level(ls[..|ls| - 1]) + Opens(ls[|ls| - 1])
  }

  function LeadingBlanks(l: seq<byte>): (n: nat)
    ensures n <= |l|
    ensures forall i | 0 <= i < n :: l[i] == 9 || l[i] == 32
    ensures n < |l| ==> l[n] != 9 && l[n] != 32
  {
    if l != [] && (l[0] == 9 || l[0] == 32) then 1 + LeadingBlanks(l[1..]) else 0
  }

  /** So many tabs and then something else: the level before the line, one less for a line that begins with '}'. */
  predicate StandsAt(l: seq<byte>, level: int) {
    var n := LeadingBlanks(l);
    && (forall i | 0 <= i < n :: l[i] == 9)
    && var indent := if n < |l| && l[n] == 125 then level - 1 else level;
       n == if indent > 0 then indent else 0
  }

  lemma {:induction false} CodeSnoc(l: Line, c: byte)
    ensures Code(l + [c]) == if 35 in l || c == 35 then Code(l) else Code(l) + [c]
  {
    if l == [] {
      assert l + [c] == [c] && [c][1..] == [];
    } else {
      assert (l + [c])[1..] == l[1..] + [c];
      assert l == [l[0]] + l[1..];
      if l[0] != 35 {
        CodeSnoc(l[1..], c);
      }
    }
  }

  lemma {:induction false} BalanceExact(l: Line)
    ensures BraceBalance(l) == Opens(l)
  {
    if l != [] {
      var init, c := l[..|l| - 1], l[|l| - 1];
      BalanceExact(init);
      OpensSnoc(init, c);
      assert l == init + [c];
    }
  }

  lemma OpensSnoc(l: Line, c: byte)
    ensures Opens(l + [c]) == Opens(l) + if 35 in l then 0 else if c == 123 then 1 else if c == 125 then -1 else 0
  {
    CodeSnoc(l, c);
    assert multiset(Code(l) + [c]) == multiset(Code(l)) + multiset{c};
  }

  lemma {:induction false} LeadingTabs(tabs: Line, l: Line)
    requires forall i | 0 <= i < |tabs| :: tabs[i] == 9
    requires l != [] ==> l[0] != 9 && l[0] != 32
    ensures LeadingBlanks(tabs + l) == |tabs|
  {
    if tabs == [] {
      assert tabs + l == l;
    } else {
      assert (tabs + l)[1..] == tabs[1..] + l;
      LeadingTabs(tabs[1..], l);
    }
  }

  lemma {:induction false} CodeIndented(tabs: Line, l: Line)
    requires forall i | 0 <= i < |tabs| :: tabs[i] == 9
    ensures Code(tabs + l) == tabs + Code(l)
  {
    if tabs == [] {
      assert tabs + l == l;
    } else {
      assert (tabs + l)[1..] == tabs[1..] + l;
      CodeIndented(tabs[1..], l);
    }
  }

  lemma OpensIndented(tabs: Line, l: Line)
    requires forall i | 0 <= i < |tabs| :: tabs[i] == 9
    ensures Opens(tabs + l) == Opens(l)
  {
    CodeIndented(tabs, l);
    assert multiset(tabs + Code(l)) == multiset(tabs) + multiset(Code(l));
    assert multiset(tabs)[123] == 0 && multiset(tabs)[125] == 0;
  }

  /** The lines of a text in normal form have the depth that the reference gives their stripped lines. */
  lemma {:induction false} LevelIsDepth(raw: seq<Line>, st: seq<Line>)
    requires |raw| == |st| && forall k | 0 <= k < |raw| :: raw[k] == Indented(st[..k], st[k])
    ensures Level(raw) == Depth(st)
  {
    if raw != [] {
      var n := |raw| - 1;
      forall k | 0 <= k < n ensures raw[..n][k] == Indented(st[..n][..k], st[..n][k]) {
        assert st[..n][..k] == st[..k];
      }
      LevelIsDepth(raw[..n], st[..n]);
      BalanceExact(st[n]);
      TabsExact(IndentOf(st[..n], st[n]));
      OpensIndented(Tabs(IndentOf(st[..n], st[n])), st[n]);
    }
  }

  lemma IndentedStands(before: seq<Line>, l: Line)
    requires l != [] ==> l[0] != 9 && l[0] != 32
    ensures StandsAt(Indented(before, l), Depth(before))
  {
    var n := IndentOf(before, l);
    TabsExact(n);
    LeadingTabs(Tabs(n), l);
    assert l != [] ==> Indented(before, l)[|Tabs(n)|] == l[0];
  }

  lemma StripTidied(y: Text, k: nat)
    requires k < |Lines(y)|
    ensures StripAll(Lines(y))[k] == Strip(Lines(y)[k]) && Tidy(Strip(Lines(y)[k]))
  {
    LinesHaveNoLF(y);
    StripAllAt(Lines(y), k);
    StripIsTidy(Lines(y)[k]);
  }

  /** A line of a text in normal form that is ended or says something. */
  lemma NormalLine(raw: seq<Line>, st: seq<Line>, k: nat)
    requires k < |raw| == |st| && (st[k] != [] ==> st[k][0] != 9 && st[k][0] != 32)
    requires forall i | 0 <= i <= k :: raw[i] == Indented(st[..i], st[i])
    ensures StandsAt(raw[k], Level(raw[..k])) && raw[k][LeadingBlanks(raw[k])..] == st[k]
  {
    forall i | 0 <= i < k ensures raw[..k][i] == Indented(st[..k][..i], st[..k][i]) {
      assert st[..k][..i] == st[..i];
    }
    LevelIsDepth(raw[..k], st[..k]);
    IndentedStands(st[..k], st[k]);
    TabsExact(IndentOf(st[..k], st[k]));
    LeadingTabs(Tabs(IndentOf(st[..k], st[k])), st[k]);
  }

  /** What the cleaned text looks like, whatever the input.  Every line, except an empty one that nothing ends, is
      exactly one tab for every brace that is open before it, a leading '}' closing one more, and then what it says;
      there is no carriage return. */
  lemma CleanIndents(x: seq<byte>, k: nat)
    requires k < |Lines(Run(x).1)|
    ensures var out := Lines(Run(x).1);
            && 13 !in Run(x).1 && out[k][LeadingBlanks(out[k])..] == Strip(out[k])
            && if k == |out| - 1 && Strip(out[k]) == [] then out[k] == [] else StandsAt(out[k], Level(out[..k]))
  {
    CleanIsNormal(x);
    var out := Lines(Run(x).1);
    StripTidied(Run(x).1, k);
    if k < |out| - 1 || Strip(out[k]) != [] {
      NormalLine(out, StripAll(out), k);
    }
  }

  // ----- Blank lines -----

  /** The lines that are kept: all but the blank ones that follow a blank one. */
  function Kept(ls: seq<seq<byte>>): seq<seq<byte>> {
    if ls == [] then []
    else
      var n := |ls| - 1;
      Kept(ls[..n]) + if ls[n] == [] && n > 0 && ls[n - 1] == [] then [] else [ls[n]]
  }

  /** Of every run of blank lines the first is kept, and every line that says something. */
  lemma {:induction false} CollapseExact(ls: seq<Line>)
    ensures Collapse(ls) == Kept(ls) && (EndsBlank(Collapse(ls)) <==> EndsBlank(ls))
  {
    if ls != [] {
      CollapseExact(ls[..|ls| - 1]);
    }
  }

  /** The ended lines of the cleaned text say what the kept lines of the input say, in order; so does the last line. */
  lemma CleanKeepsLines(x: seq<byte>)
    ensures var before, after := StripAll(Lines(x)), StripAll(Lines(Run(x).1));
            && Kept(after[..|after| - 1]) == Kept(before[..|before| - 1])
            && after[|after| - 1] == before[|before| - 1]
  {
    CleanKeepsSkeleton(x);
    var before, after := StripAll(Lines(x)), StripAll(Lines(Run(x).1));
    CollapseExact(before[..|before| - 1]);
    CollapseExact(after[..|after| - 1]);
    assert Skeleton(x)[..|Skeleton(x)| - 1] == Collapse(before[..|before| - 1]);
    assert Skeleton(Run(x).1)[..|Skeleton(Run(x).1)| - 1] == Collapse(after[..|after| - 1]);
  }

  // ----- What is kept of a text as a whole -----

  /** A text without tabs, line feeds, carriage returns and spaces. */
  function Ink(x: seq<byte>): seq<byte> {
    if x == [] then []
    else
      var c := x[|x| - 1];
      Ink(x[..|x| - 1]) + if c == 9 || c == 10 || c == 13 || c == 32 then [] else [c]
  }

  lemma InkSnoc(x: Text, c: byte)
    ensures Ink(x + [c]) == Ink(x) + if c == 9 || c == 10 || c == 13 || c == 32 then [] else [c]
  {
    assert (x + [c])[..|x|] == x;
  }

  lemma {:induction false} InkConcat(x: Text, y: Text)
    ensures Ink(x + y) == Ink(x) + Ink(y)
  {
    if y == [] {
      assert x + y == x;
    } else {
      var init, c := y[..|y| - 1], y[|y| - 1];
      InkConcat(x, init);
      InkSnoc(x + init, c);
      assert (x + init) + [c] == x + y;
    }
  }

  lemma {:induction false} InkOfTabs(n: int)
    ensures Ink(Tabs(n)) == []
  {
    if n > 0 {
      InkOfTabs(n - 1);
      InkSnoc(Tabs(n - 1), 9);
    }
  }

  lemma EmitKeepsInk(s: State, indent: int, c: byte, next: State)
    ensures Ink(Emit(s, indent, c, next).1) == Ink([c])
  {
    InkOfTabs(indent);
    InkConcat(Tabs(indent), [c]);
    assert Ink([]) == [] && [] + [c] == [c];
  }

  lemma StepKeepsInk(s: State, c: byte)
    ensures Ink(Step(s, c).1) == Ink([c])
  {
    forall indent, next ensures Ink(Emit(s, indent, c, next).1) == Ink([c]) {
      EmitKeepsInk(s, indent, c, next);
    }
    InkSnoc([], c);
    assert [] + [c] == [c];
  }

  /** Cleaning neither drops, adds nor reorders any byte that is not blank. */
  lemma {:induction false} CleanKeepsInk(x: seq<byte>)
    ensures Ink(Run(x).1) == Ink(x)
  {
    if x != [] {
      var init, c := x[..|x| - 1], x[|x| - 1];
      var (s, o) := Run(init);
      CleanKeepsInk(init);
      StepKeepsInk(s, c);
      InkConcat(o, Step(s, c).1);
      InkConcat(init, [c]);
      assert x == init + [c];
    }
  }
}
