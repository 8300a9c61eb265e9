/** What the cleaner promises about whole texts: it keeps what the lines say, normalises how they are
    laid out, does nothing to a text that is already normal, and never needs a second pass. */
module CleanConfProperties {
  import opened Basics
  import opened Buffers
  import opened CleanConf

  /** A line that stripping leaves alone. */
  predicate Tidy(l: Line) {
    LF !in l && CR !in l && (l != [] ==> !IsBlank(l[0]))
  }

  predicate AllTidy(ls: seq<Line>) {
    forall l | l in ls :: Tidy(l)
  }

  lemma {:induction false} LinesHaveNoLF(x: Text)
    ensures forall l | l in Lines(x) :: LF !in l
  {
    if x != [] {
      LinesHaveNoLF(x[..|x| - 1]);
    }
  }

  lemma {:induction false} StripIsTidy(l: Line)
    requires LF !in l
    ensures Tidy(Strip(l))
    decreases |l|
  {
    if l == [] {
    } else {
      var init, c := l[..|l| - 1], l[|l| - 1];
      StripIsTidy(init);
      assert init + [c] == l;
      StripSnoc(init, c);
    }
  }

  lemma {:induction false} StripTidy(l: Line)
    requires Tidy(l)
    ensures Strip(l) == l
  {
    if l != [] {
      var init, c := l[..|l| - 1], l[|l| - 1];
      StripTidy(init);
      assert init + [c] == l;
      StripSnoc(init, c);
    }
  }

  lemma {:induction false} StripAllAt(ls: seq<Line>, k: nat)
    requires k < |ls|
    ensures StripAll(ls)[k] == Strip(ls[k]) && StripAll(ls)[..k] == StripAll(ls[..k])
  {
    if k < |ls| - 1 {
      StripAllAt(ls[..|ls| - 1], k);
      assert ls[..|ls| - 1][..k] == ls[..k];
      assert StripAll(ls)[..k] == StripAll(ls[..|ls| - 1])[..k];
    } else {
      assert StripAll(ls)[..k] == StripAll(ls[..k]);
    }
  }

  lemma {:induction false} CollapseSubset(ls: seq<Line>)
    ensures forall l | l in Collapse(ls) :: l in ls
  {
    if ls != [] {
      CollapseSubset(ls[..|ls| - 1]);
    }
  }

  lemma SkeletonIsTidy(x: Text)
    ensures AllTidy(Skeleton(x))
  {
    var ls := Lines(x);
    var st := StripAll(ls);
    LinesHaveNoLF(x);
    forall l | l in st ensures Tidy(l) {
      var k :| 0 <= k < |st| && st[k] == l;
      StripAllAt(ls, k);
      assert ls[k] in ls;
      StripIsTidy(ls[k]);
    }
    CollapseSubset(st[..|st| - 1]);
  }

  // ----- The lines of a rendered skeleton -----

  lemma {:induction false} LinesAppend(x: Text, ls: seq<Line>, m: Line, l: Line)
    requires Lines(x) == ls + [m] && LF !in l
    ensures Lines(x + l) == ls + [m + l]
    decreases |l|
  {
    if l == [] {
      assert x + l == x && m + l == m;
    } else {
      LinesAppendByte(x, ls, m, l[0]);
      LinesAppend(x + [l[0]], ls, m + [l[0]], l[1..]);
      assert x + [l[0]] + l[1..] == x + l;
      assert m + [l[0]] + l[1..] == m + l;
    }
  }

  lemma LinesAppendByte(x: Text, ls: seq<Line>, m: Line, c: byte)
    requires Lines(x) == ls + [m] && c != LF
    ensures Lines(x + [c]) == ls + [m + [c]]
  {
    LinesSnoc(x, c);
  }

  function RenderedLines(ls: seq<Line>): (r: seq<Line>)
    ensures |r| == |ls|
  {
    if ls == [] then []
    else RenderedLines(ls[..|ls| - 1]) + [Indented(ls[..|ls| - 1], ls[|ls| - 1])]
  }

  lemma LinesEnd(x: Text)
    ensures Lines(x + [LF]) == Lines(x) + [[]]
  {
    LinesSnoc(x, LF);
  }

  lemma {:induction false} LinesOfRender(ls: seq<Line>)
    requires AllTidy(ls)
    ensures Lines(RenderTerminated(ls)) == RenderedLines(ls) + [[]]
  {
    if ls != [] {
      var init, l := ls[..|ls| - 1], ls[|ls| - 1];
      assert l in ls;
      LinesOfRender(init);
      LinesOfRenderedLine(RenderTerminated(init), RenderedLines(init), Indented(init, l));
    }
  }

  lemma LinesOfRenderedLine(before: Text, ls: seq<Line>, line: Line)
    requires Lines(before) == ls + [[]] && LF !in line
    ensures Lines(before + line + [LF]) == ls + [line] + [[]]
  {
    LinesAppend(before, ls, [], line);
    assert [] + line == line;
    LinesEnd(before + line);
  }

  lemma {:induction false} StripOnlyTabs(n: int)
    ensures Strip(Tabs(n)) == []
  {
    if n > 0 {
      StripOnlyTabs(n - 1);
      StripSnoc(Tabs(n - 1), TAB);
    }
  }

  lemma {:induction false} StripTabs(n: int, l: Line)
    requires Tidy(l)
    ensures Strip(Tabs(n) + l) == l
  {
    if l == [] {
      assert Tabs(n) + l == Tabs(n);
      StripOnlyTabs(n);
    } else {
      var init, c := l[..|l| - 1], l[|l| - 1];
      StripTabs(n, init);
      assert (Tabs(n) + init) + [c] == Tabs(n) + l;
      StripSnoc(Tabs(n) + init, c);
    }
  }

  lemma RenderedSnoc(ls: seq<Line>, l: Line)
    ensures RenderedLines(ls + [l]) == RenderedLines(ls) + [Indented(ls, l)]
  {
    assert (ls + [l])[..|ls|] == ls;
  }

  lemma RenderedSnocSays(ls: seq<Line>, l: Line)
    requires Tidy(l) && StripAll(RenderedLines(ls)) == ls
    ensures StripAll(RenderedLines(ls + [l])) == ls + [l]
  {
    RenderedSnoc(ls, l);
    StripAllSnoc(RenderedLines(ls), Indented(ls, l));
    StripTabs(IndentOf(ls, l), l);
  }

  lemma {:induction false} StripRendered(ls: seq<Line>)
    requires AllTidy(ls)
    ensures StripAll(RenderedLines(ls)) == ls
  {
    if ls != [] {
      var init, l := ls[..|ls| - 1], ls[|ls| - 1];
      assert l in ls;
      StripRendered(init);
      RenderedSnocSays(init, l);
      PrefixStep(ls, |ls| - 1);
      WholePrefix(ls);
    }
  }

  predicate NoDoubleBlank(ls: seq<Line>) {
    forall k {:trigger ls[k]} :: 0 < k < |ls| ==> !(ls[k - 1] == [] && ls[k] == [])
  }

  lemma {:induction false} CollapseHasNoDoubleBlank(ls: seq<Line>)
    ensures NoDoubleBlank(Collapse(ls))
  {
    if ls != [] {
      CollapseHasNoDoubleBlank(ls[..|ls| - 1]);
    }
  }

  lemma {:induction false} CollapseFixed(ls: seq<Line>)
    requires NoDoubleBlank(ls)
    ensures Collapse(ls) == ls
  {
    if ls != [] {
      var init := ls[..|ls| - 1];
      assert forall k {:trigger init[k]} :: 0 <= k < |init| ==> init[k] == ls[k];
      CollapseFixed(init);
    }
  }

  /** The unterminated last line as it is rendered. */
  function Tail(ended: seq<Line>, last: Line): Line {
    if last == [] then [] else Indented(ended, last)
  }

  lemma RenderLines(ended: seq<Line>, last: Line)
    requires AllTidy(ended) && Tidy(last)
    ensures Lines(Render(ended + [last])) == RenderedLines(ended) + [Tail(ended, last)]
  {
    var tail := Tail(ended, last);
    RenderOf(ended, last);
    LinesOfRender(ended);
    LinesAppend(RenderTerminated(ended), RenderedLines(ended), [], tail);
    assert [] + tail == tail;
  }

  lemma RenderSays(ended: seq<Line>, last: Line)
    requires AllTidy(ended) && Tidy(last)
    ensures StripAll(RenderedLines(ended) + [Tail(ended, last)]) == ended + [last]
  {
    var tail := Tail(ended, last);
    StripRendered(ended);
    if last == [] {
      StripTidy([]);
    } else {
      StripTabs(IndentOf(ended, last), last);
    }
    assert (RenderedLines(ended) + [tail])[..|ended|] == RenderedLines(ended);
  }

  /** The lines of a laid-out text, and what they say. */
  lemma LayoutLines(x: Text)
    ensures Lines(Layout(x)) == RenderedLines(Ended(x)) + [Tail(Ended(x), Last(x))]
    ensures StripAll(Lines(Layout(x))) == Skeleton(x)
  {
    var ended, last := Ended(x), Last(x);
    SkeletonIsTidy(x);
    assert Skeleton(x) == ended + [last];
    RenderLines(ended, last);
    RenderSays(ended, last);
  }

  // ----- The promises -----

  /** Cleaning keeps the lines: what they say, their order, and which runs of them are blank. */
  lemma CleanKeepsSkeleton(x: Text)
    ensures Skeleton(Run(x).1) == Skeleton(x)
  {
    RunIsLayout(x);
    LayoutLines(x);
    var sk := Skeleton(x);
    CollapseHasNoDoubleBlank(StripAll(Lines(x))[..|Lines(x)| - 1]);
    CollapseFixed(Ended(x));
    assert Skeleton(Layout(x)) == Ended(x) + [Last(x)] == sk;
  }

  /** The lines of a text that say something. */
  function Said(ls: seq<Line>): seq<Line> {
    if ls == [] then [] else Said(ls[..|ls| - 1]) + if ls[|ls| - 1] == [] then [] else [ls[|ls| - 1]]
  }

  lemma {:induction false} CollapseSays(ls: seq<Line>)
    ensures Said(Collapse(ls)) == Said(ls)
  {
    if ls != [] {
      var r, l := Collapse(ls[..|ls| - 1]), ls[|ls| - 1];
      CollapseSays(ls[..|ls| - 1]);
      assert (r + [l])[..|r|] == r;
    }
  }

  lemma SkeletonSays(x: Text)
    ensures Said(Skeleton(x)) == Said(StripAll(Lines(x)))
  {
    var st := StripAll(Lines(x));
    CollapseSays(st[..|st| - 1]);
    assert Skeleton(x)[..|Skeleton(x)| - 1] == Collapse(st[..|st| - 1]);
  }

  /** The non-blank lines, stripped, are the same sequence before and after. */
  lemma CleanKeepsContent(x: Text)
    ensures Said(StripAll(Lines(Run(x).1))) == Said(StripAll(Lines(x)))
  {
    CleanKeepsSkeleton(x);
    SkeletonSays(x);
    SkeletonSays(Run(x).1);
  }

  lemma CleanIdempotent(x: Text)
    ensures Run(Run(x).1).1 == Run(x).1
  {
    CleanKeepsSkeleton(x);
    RunIsLayout(x);
    RunIsLayout(Run(x).1);
  }

  /** Two texts clean to the same bytes exactly when they have the same skeleton. */
  lemma CleanForgetsOnlyLayout(x: Text, y: Text)
    ensures Run(x).1 == Run(y).1 <==> Skeleton(x) == Skeleton(y)
  {
    CleanKeepsSkeleton(x);
    CleanKeepsSkeleton(y);
    RunIsLayout(x);
    RunIsLayout(y);
  }

  /** A text in normal form: every line that is ended or not empty stands at the depth of the braces before
      it, a line that is not ended says something or is empty, and no blank line follows a blank line. */
  predicate Normal(x: Text) {
    var ls := Lines(x);
    var st := StripAll(ls);
    var n := |ls| - 1;
    && (forall k | 0 <= k < n :: ls[k] == Indented(st[..k], st[k]))
    && (if st[n] == [] then ls[n] == [] else ls[n] == Indented(st[..n], st[n]))
    && NoDoubleBlank(st[..n])
  }

  lemma {:induction false} RenderedAt(ls: seq<Line>, k: nat)
    requires k < |ls|
    ensures RenderedLines(ls)[k] == Indented(ls[..k], ls[k])
  {
    if k < |ls| - 1 {
      RenderedAt(ls[..|ls| - 1], k);
      assert ls[..|ls| - 1][..k] == ls[..k];
    }
  }

  lemma CleanIsNormal(x: Text)
    ensures Normal(Run(x).1) && CR !in Run(x).1
  {
    RunIsLayout(x);
    LayoutLines(x);
    var sk, ended := Skeleton(x), Ended(x);
    var n := |ended|;
    forall k | 0 <= k < n ensures Lines(Layout(x))[k] == Indented(sk[..k], sk[k]) {
      RenderedAt(ended, k);
      assert ended[..k] == sk[..k];
    }
    CollapseHasNoDoubleBlank(StripAll(Lines(x))[..|Lines(x)| - 1]);
    SkeletonIsTidy(x);
    RenderHasNoCR(ended);
    assert Last(x) in sk;
  }

  lemma {:induction false} RenderHasNoCR(ls: seq<Line>)
    requires AllTidy(ls)
    ensures CR !in RenderTerminated(ls)
  {
    if ls != [] {
      RenderHasNoCR(ls[..|ls| - 1]);
      assert ls[|ls| - 1] in ls;
    }
  }

  function Join(ls: seq<Line>): Text {
    if ls == [] then [] else Join(ls[..|ls| - 1]) + ls[|ls| - 1] + [LF]
  }

  lemma JoinSnoc(ls: seq<Line>, l: Line)
    ensures Join(ls + [l]) == Join(ls) + l + [LF]
  {
    assert (ls + [l])[..|ls|] == ls;
  }

  lemma {:induction false} JoinLines(x: Text)
    ensures var ls := Lines(x); Join(ls[..|ls| - 1]) + ls[|ls| - 1] == x
  {
    if x != [] {
      var init, c := x[..|x| - 1], x[|x| - 1];
      JoinLines(init);
      var ls := Lines(init);
      assert x == init + [c];
      if c == LF {
        assert Lines(x)[..|ls|] == ls;
        assert Join(ls) == Join(ls[..|ls| - 1]) + ls[|ls| - 1] + [LF];
      } else {
        assert Lines(x)[..|ls| - 1] == ls[..|ls| - 1];
      }
    }
  }

  lemma JoinStep(st: seq<Line>, l: Line, raw: seq<Line>, r: Line)
    requires RenderTerminated(st) == Join(raw) && r == Indented(st, l)
    ensures RenderTerminated(st + [l]) == Join(raw + [r])
  {
    JoinSnoc(raw, r);
    RenderTerminatedSnoc(st, l);
  }

  lemma {:induction false} RenderIsJoin(raw: seq<Line>, st: seq<Line>, n: nat)
    requires n <= |raw| == |st| && forall k | 0 <= k < n :: raw[k] == Indented(st[..k], st[k])
    ensures RenderTerminated(st[..n]) == Join(raw[..n])
  {
    if n > 0 {
      RenderIsJoin(raw, st, n - 1);
      JoinStep(st[..n - 1], st[n - 1], raw[..n - 1], raw[n - 1]);
      PrefixStep(raw, n - 1);
      PrefixStep(st, n - 1);
    }
  }

  /** The normal texts are exactly the texts that cleaning leaves alone. */
  lemma CleanFixesExactlyNormal(x: Text)
    ensures Run(x).1 == x <==> Normal(x)
  {
    if Run(x).1 == x {
      CleanIsNormal(x);
    }
    if Normal(x) {
      NormalIsLayout(x);
      RunIsLayout(x);
    }
  }

  lemma NormalIsLayout(x: Text)
    requires Normal(x)
    ensures Layout(x) == x
  {
    var ls := Lines(x);
    var st := StripAll(ls);
    var n := |ls| - 1;
    RenderIsJoin(ls, st, n);
    CollapseFixed(st[..n]);
    JoinLines(x);
    RenderOf(st[..n], st[n]);
  }
}
