/** The cleaner that normalises a rendered nginx configuration text.

    The program is a byte-at-a-time machine.  `Layout` is the reference: it works on whole lines and
    knows nothing about the machine's state. */
module CleanConf {
  import opened Buffers

  const TAB: byte := 9
  const LF: byte := 10
  const CR: byte := 13
  const SPACE: byte := 32
  const HASH: byte := 35
  const OPEN: byte := 123
  const CLOSE: byte := 125

  type Text = seq<byte>
  type Line = seq<byte>

  // ----- The reference: lines, stripped lines, and how they are laid out -----

  /** The lines of a text.  The last one is the line after the last LF; it is the only one that no LF ends. */
  function Lines(x: Text): (ls: seq<Line>)
    ensures |ls| > 0
  {
    if x == [] then [[]]
    else
      var ls := Lines(x[..|x| - 1]);
      var c := x[|x| - 1];
      if c == LF then ls + [[]] else ls[..|ls| - 1] + [ls[|ls| - 1] + [c]]
  }

  predicate IsBlank(c: byte) {
    c == SPACE || c == TAB
  }

  function RemoveCR(l: Line): Line {
    if l == [] then []
    else RemoveCR(l[..|l| - 1]) + if l[|l| - 1] == CR then [] else [l[|l| - 1]]
  }

  function DropLeadingBlanks(l: Line): Line {
    if l != [] && IsBlank(l[0]) then DropLeadingBlanks(l[1..]) else l
  }

  /** What a line says: its bytes without carriage returns and without leading blanks. */
  function Strip(l: Line): Line {
    DropLeadingBlanks(RemoveCR(l))
  }

  function StripAll(ls: seq<Line>): (r: seq<Line>)
    ensures |r| == |ls|
  {
    if ls == [] then [] else StripAll(ls[..|ls| - 1]) + [Strip(ls[|ls| - 1])]
  }

  /** Keeps one empty line of every run of empty lines. */
  function Collapse(ls: seq<Line>): seq<Line> {
    if ls == [] then []
    else
      var r := Collapse(ls[..|ls| - 1]);
      var l := ls[|ls| - 1];
      if l == [] && EndsBlank(r) then r else r + [l]
  }

  predicate EndsBlank(ls: seq<Line>) {
    ls != [] && ls[|ls| - 1] == []
  }

  /** The lines a text amounts to: stripped, with runs of blank lines collapsed.  The unterminated last
      line stays apart, because it is not a line of the file until its LF has been seen. */
  function Skeleton(x: Text): (r: seq<Line>)
    ensures |r| > 0
  {
    var ls := StripAll(Lines(x));
    Collapse(ls[..|ls| - 1]) + [ls[|ls| - 1]]
  }

  /** Opening minus closing braces of one line, not counting what follows a '#'. */
  function BraceBalance(l: Line): int {
    if l == [] then 0
    else
      var init, c := l[..|l| - 1], l[|l| - 1];
      BraceBalance(init) +
      if HASH in init then 0 else if c == OPEN then 1 else if c == CLOSE then -1 else 0
  }

  function Depth(ls: seq<Line>): int {
    if ls == [] then 0 else Depth(ls[..|ls| - 1]) + BraceBalance(ls[|ls| - 1])
  }

  function Tabs(n: int): (r: Text)
    ensures LF !in r && CR !in r
  {
    if n <= 0 then [] else Tabs(n - 1) + [TAB]
  }

  /** How deep a line stands after the lines before it: a leading '}' already counts. */
  function IndentOf(before: seq<Line>, l: Line): int {
    Depth(before) - if l != [] && l[0] == CLOSE then 1 else 0
  }

  function Indented(before: seq<Line>, l: Line): Line {
    Tabs(IndentOf(before, l)) + l
  }

  function RenderTerminated(ls: seq<Line>): Text {
    if ls == [] then []
    else
      var init := ls[..|ls| - 1];
      RenderTerminated(init) + Indented(init, ls[|ls| - 1]) + [LF]
  }

  /** What the last line, which nothing ends yet, contributes. */
  function Tail(ended: seq<Line>, last: Line): Text {
    if last == [] then [] else Indented(ended, last)
  }

  function Render(skeleton: seq<Line>): Text
    requires |skeleton| > 0
  {
    var ended, last := skeleton[..|skeleton| - 1], skeleton[|skeleton| - 1];
    RenderTerminated(ended) + Tail(ended, last)
  }

  function Layout(x: Text): Text {
    Render(Skeleton(x))
  }

  // ----- The machine -----

  datatype State = State(depth: int, lineStarted: bool, emptyLineWritten: bool, comment: bool)

  /** What one byte does: the next state and the bytes written. */
  function Step(s: State, c: byte): (State, Text) {
    if s.comment then
      if c == CR then (s, [])
      else if c == LF then Emit(s, s.depth, c, s.(lineStarted := false, comment := false))
      else Emit(s, s.depth, c, s)
    else if c == OPEN then Emit(s, s.depth, c, s.(depth := s.depth + 1, lineStarted := true))
    else if c == CLOSE then Emit(s, s.depth - 1, c, s.(depth := s.depth - 1, lineStarted := true))
    else if IsBlank(c) then if s.lineStarted then Emit(s, s.depth, c, s) else (s, [])
    else if c == CR then (s, [])
    else if c == LF then
      if !s.lineStarted && s.emptyLineWritten then (s, []) else Emit(s, s.depth, c, s.(lineStarted := false))
    else Emit(s, s.depth, c, s.(lineStarted := true, comment := c == HASH))
  }

  function Emit(s: State, indent: int, c: byte, next: State): (State, Text) {
    (next.(emptyLineWritten := !s.lineStarted), (if s.lineStarted then [] else Tabs(indent)) + [c])
  }

  /** The machine's state says where the text read so far stands in its lines. */
  ghost predicate Tracks(ended: seq<Line>, last: Line, s: State) {
    && s.depth == Depth(ended) + BraceBalance(last)
    && s.lineStarted == (last != [])
    && s.comment == (HASH in last)
    && (!s.lineStarted ==> s.emptyLineWritten == EndsBlank(ended))
  }

  /** The skeleton after one more byte. */
  ghost function Extend(ended: seq<Line>, last: Line, c: byte): (seq<Line>, Line) {
    if c == LF then (if last == [] && EndsBlank(ended) then ended else ended + [last], [])
    else (ended, if c == CR || (last == [] && IsBlank(c)) then last else last + [c])
  }

  ghost function Ended(x: Text): seq<Line> {
    Skeleton(x)[..|Skeleton(x)| - 1]
  }

  ghost function Last(x: Text): Line {
    Skeleton(x)[|Skeleton(x)| - 1]
  }

  lemma StripSnoc(l: Line, c: byte)
    ensures Strip(l + [c]) ==
            if c == CR || (Strip(l) == [] && IsBlank(c)) then Strip(l) else Strip(l) + [c]
  {
    assert (l + [c])[..|l|] == l;
    assert RemoveCR(l + [c]) == RemoveCR(l) + if c == CR then [] else [c];
    if c == CR {
      assert RemoveCR(l + [c]) == RemoveCR(l);
    } else {
      DropSnoc(RemoveCR(l), c);
    }
  }

  lemma {:induction false} DropSnoc(l: Line, c: byte)
    ensures DropLeadingBlanks(l + [c]) ==
            if DropLeadingBlanks(l) == [] && IsBlank(c) then [] else DropLeadingBlanks(l) + [c]
  {
    if l == [] {
      assert l + [c] == [c];
      assert [c][1..] == [];
    } else if IsBlank(l[0]) {
      assert (l + [c])[1..] == l[1..] + [c];
      DropSnoc(l[1..], c);
    }
  }

  lemma LinesSnoc(x: Text, c: byte)
    ensures var ls := Lines(x);
            Lines(x + [c]) == if c == LF then ls + [[]] else ls[..|ls| - 1] + [ls[|ls| - 1] + [c]]
  {
    assert (x + [c])[..|x|] == x;
  }

  lemma StripAllSnoc(ls: seq<Line>, l: Line)
    ensures StripAll(ls + [l]) == StripAll(ls) + [Strip(l)]
  {
    assert (ls + [l])[..|ls|] == ls;
  }

  lemma CollapseSnoc(ls: seq<Line>, l: Line)
    ensures var r := Collapse(ls);
            Collapse(ls + [l]) == if l == [] && EndsBlank(r) then r else r + [l]
  {
    assert (ls + [l])[..|ls|] == ls;
  }

  /** The skeleton of a text whose lines are `ls` and then `l`. */
  lemma SkeletonOf(x: Text, ls: seq<Line>, l: Line)
    requires Lines(x) == ls + [l]
    ensures Ended(x) == Collapse(StripAll(ls)) && Last(x) == Strip(l)
  {
    StripAllSnoc(ls, l);
    assert (StripAll(ls) + [Strip(l)])[..|ls|] == StripAll(ls);
  }

  /** How the next byte changes the skeleton of the text. */
  lemma SkeletonSnoc(x: Text, c: byte)
    ensures (Ended(x + [c]), Last(x + [c])) == Extend(Ended(x), Last(x), c)
  {
    var ls, l := Lines(x)[..|Lines(x)| - 1], Lines(x)[|Lines(x)| - 1];
    assert Lines(x) == ls + [l];
    LinesSnoc(x, c);
    SkeletonOf(x, ls, l);
    if c == LF {
      SkeletonOf(x + [c], ls + [l], []);
      StripAllSnoc(ls, l);
      CollapseSnoc(StripAll(ls), Strip(l));
      assert Strip([]) == [];
    } else {
      SkeletonOf(x + [c], ls, l + [c]);
      StripSnoc(l, c);
    }
  }

  lemma BalanceSnoc(l: Line, c: byte)
    ensures BraceBalance(l + [c]) ==
            BraceBalance(l) + if HASH in l then 0 else if c == OPEN then 1 else if c == CLOSE then -1 else 0
  {
    assert (l + [c])[..|l|] == l;
  }

  lemma RenderOf(ended: seq<Line>, last: Line)
    ensures Render(ended + [last]) == RenderTerminated(ended) + Tail(ended, last)
  {
    assert (ended + [last])[..|ended|] == ended;
  }

  lemma RenderTerminatedSnoc(ended: seq<Line>, l: Line)
    ensures RenderTerminated(ended + [l]) == RenderTerminated(ended) + Indented(ended, l) + [LF]
    ensures Depth(ended + [l]) == Depth(ended) + BraceBalance(l)
  {
    assert (ended + [l])[..|ended|] == ended;
  }

  lemma LineFeedTracks(ended: seq<Line>, last: Line, s: State)
    requires Tracks(ended, last, s)
    ensures Tracks(Extend(ended, last, LF).0, [], Step(s, LF).0)
  {
    RenderTerminatedSnoc(ended, last);
  }

  /** A carriage return, or a blank before anything else on its line, writes nothing and changes nothing. */
  lemma SuppressedStep(ended: seq<Line>, last: Line, s: State, c: byte)
    requires Tracks(ended, last, s) && (c == CR || (last == [] && IsBlank(c)))
    ensures Step(s, c) == (s, [])
  {
  }

  lemma InLineTracks(ended: seq<Line>, last: Line, s: State, c: byte)
    requires Tracks(ended, last, s) && c != LF && c != CR && !(last == [] && IsBlank(c))
    ensures Tracks(ended, last + [c], Step(s, c).0)
  {
    BalanceSnoc(last, c);
    var next := Step(s, c).0;
    assert next.lineStarted;
    assert next.comment == (HASH in last || c == HASH);
    assert next.depth == Depth(ended) + BraceBalance(last + [c]);
  }

  lemma LineFeedRenders(ended: seq<Line>, last: Line, s: State)
    requires Tracks(ended, last, s) && !(last == [] && EndsBlank(ended))
    ensures Render(ended + [last] + [[]]) == Render(ended + [last]) + Step(s, LF).1
  {
    RenderOf(ended, last);
    RenderOf(ended + [last], []);
    RenderTerminatedSnoc(ended, last);
  }

  /** What a byte that is not suppressed writes. */
  lemma StepWrites(s: State, c: byte)
    requires s.comment ==> s.lineStarted
    requires c != CR && c != LF && (s.lineStarted || !IsBlank(c))
    ensures Step(s, c).1 ==
            if s.lineStarted then [c] else Tabs(s.depth - if c == CLOSE then 1 else 0) + [c]
  {
  }

  lemma TailSnoc(ended: seq<Line>, last: Line, c: byte)
    ensures Tail(ended, last + [c]) ==
            Tail(ended, last) + if last == [] then Tabs(Depth(ended) - if c == CLOSE then 1 else 0) + [c] else [c]
  {
    IndentedSnoc(ended, last, c);
  }

  lemma Concat(a: Text, b: Text, c: Text)
    ensures a + (b + c) == (a + b) + c
  {
  }

  lemma InLineWrites(ended: seq<Line>, last: Line, s: State, c: byte)
    requires Tracks(ended, last, s) && c != LF && c != CR && !(last == [] && IsBlank(c))
    ensures Tail(ended, last + [c]) == Tail(ended, last) + Step(s, c).1
  {
    StepWrites(s, c);
    TailSnoc(ended, last, c);
  }

  lemma InLineRenders(ended: seq<Line>, last: Line, s: State, c: byte)
    requires Tracks(ended, last, s) && c != LF && c != CR && !(last == [] && IsBlank(c))
    ensures Render(ended + [last + [c]]) == Render(ended + [last]) + Step(s, c).1
  {
    InLineWrites(ended, last, s, c);
    RenderOf(ended, last);
    RenderOf(ended, last + [c]);
    Concat(RenderTerminated(ended), Tail(ended, last), Step(s, c).1);
  }

  lemma IndentedSnoc(before: seq<Line>, l: Line, c: byte)
    ensures Indented(before, l + [c]) ==
            if l == [] then Tabs(Depth(before) - if c == CLOSE then 1 else 0) + [c] else Indented(before, l) + [c]
  {
    if l == [] {
      assert l + [c] == [c];
    } else {
      assert (l + [c])[0] == l[0];
    }
  }

  /** One step of the machine keeps its output laid out and its state in step with the lines read. */
  lemma StepTracks(x: Text, s: State, c: byte)
    requires Tracks(Ended(x), Last(x), s)
    ensures Tracks(Ended(x + [c]), Last(x + [c]), Step(s, c).0)
    ensures Layout(x + [c]) == Layout(x) + Step(s, c).1
  {
    var ended, last := Ended(x), Last(x);
    SkeletonSnoc(x, c);
    assert Layout(x) == Render(ended + [last]) by {
      assert Skeleton(x) == ended + [last];
    }
    assert Layout(x + [c]) == Render(Extend(ended, last, c).0 + [Extend(ended, last, c).1]) by {
      assert Skeleton(x + [c]) == Ended(x + [c]) + [Last(x + [c])];
    }
    StepRenders(ended, last, s, c);
  }

  lemma StepRenders(ended: seq<Line>, last: Line, s: State, c: byte)
    requires Tracks(ended, last, s)
    ensures var (e, l) := Extend(ended, last, c);
            && Tracks(e, l, Step(s, c).0)
            && Render(e + [l]) == Render(ended + [last]) + Step(s, c).1
  {
    if c == CR || (last == [] && IsBlank(c)) {
      SuppressedStep(ended, last, s, c);
    } else if c != LF {
      InLineTracks(ended, last, s, c);
      InLineRenders(ended, last, s, c);
    } else {
      LineFeedTracks(ended, last, s);
      if last == [] && EndsBlank(ended) {
        assert Step(s, LF).1 == [];
      } else {
        LineFeedRenders(ended, last, s);
      }
    }
  }

  const START := State(0, false, false, false)

  /** The machine on a whole text: its last state and everything it wrote. */
  function Run(x: Text): (State, Text) {
    if x == [] then (START, [])
    else
      var (s, o) := Run(x[..|x| - 1]);
      var (s', o') := Step(s, x[|x| - 1]);
      (s', o + o')
  }

  ghost predicate InStep(x: Text, r: (State, Text)) {
    Tracks(Ended(x), Last(x), r.0) && r.1 == Layout(x)
  }

  lemma StartInStep()
    ensures InStep([], (START, []))
  {
    assert Lines([]) == [[]] && Strip([]) == [];
    assert StripAll([[]]) == StripAll([]) + [[]];
    assert Skeleton([]) == [[]];
  }

  lemma RunSnoc(x: Text, c: byte)
    ensures Run(x + [c]) == (Step(Run(x).0, c).0, Run(x).1 + Step(Run(x).0, c).1)
  {
    assert (x + [c])[..|x|] == x;
  }

  lemma InStepSnoc(x: Text, r: (State, Text), c: byte)
    requires InStep(x, r)
    ensures InStep(x + [c], (Step(r.0, c).0, r.1 + Step(r.0, c).1))
  {
    StepTracks(x, r.0, c);
  }

  ghost predicate RunsInStep(x: Text) {
    InStep(x, Run(x))
  }

  lemma RunInStepSnoc(x: Text, c: byte)
    requires RunsInStep(x)
    ensures RunsInStep(x + [c])
  {
    InStepSnoc(x, Run(x), c);
    RunSnoc(x, c);
  }

  lemma {:induction false} RunInStep(x: Text)
    ensures RunsInStep(x)
  {
    if x == [] {
      StartInStep();
    } else {
      RunInStep(x[..|x| - 1]);
      RunInStepSnoc(x[..|x| - 1], x[|x| - 1]);
      LastByte(x);
    }
  }

  lemma LastByte(x: Text)
    requires x != []
    ensures x[..|x| - 1] + [x[|x| - 1]] == x
  {
  }

  /** The byte machine refines the line-by-line reference. */
  lemma RunIsLayout(x: Text)
    ensures Run(x).1 == Layout(x)
  {
    RunInStep(x);
  }

  // ----- The program -----

  /** Writes `depth` tabs; none when the braces closed more than they opened. */
  method WriteIndent(output: Buffer, depth: int)
    modifies output
    ensures output.data == old(output.data) + Tabs(depth)
  {
    var i := 0;
    while i < depth
      invariant 0 <= i && (i <= depth || i == 0)
      invariant output.data == old(output.data) + Tabs(i)
    {
      output.WriteByte(TAB);
      i := i + 1;
    }
  }

  /** One round of the cleaner's loop: classifies the byte, then writes what it calls for. */
  method Feed(ghost done: Text, s: State, c: byte, output: Buffer) returns (s': State, ghost written: Text)
    requires s == Run(done).0
    modifies output
    ensures output.data == old(output.data) + written
    ensures Run(done + [c]) == (s', Run(done).1 + written)
  {
    var depth, lineStarted, comment := s.depth, s.lineStarted, s.comment;
    var needOutput := false;
    var nextDepth, nextLineStarted := depth, lineStarted;
    if comment {
      if c == CR {
      } else if c == LF {
        needOutput, nextLineStarted, comment := true, false, false;
      } else {
        needOutput := true;
      }
    } else if c == OPEN {
      needOutput, nextDepth, nextLineStarted := true, depth + 1, true;
    } else if c == CLOSE {
      needOutput := true;
      depth := depth - 1;
      nextDepth, nextLineStarted := depth, true;
    } else if IsBlank(c) {
      needOutput := lineStarted;
    } else if c == CR {
    } else if c == LF {
      needOutput, nextLineStarted := !(!lineStarted && s.emptyLineWritten), false;
    } else if c == HASH {
      needOutput, nextLineStarted, comment := true, true, true;
    } else {
      needOutput, nextLineStarted := true, true;
    }

    var emptyLineWritten := s.emptyLineWritten;
    if needOutput {
      if !lineStarted {
        WriteIndent(output, depth);
      }
      emptyLineWritten := !lineStarted;
      output.WriteByte(c);
    }
    s' := State(nextDepth, nextLineStarted, emptyLineWritten, comment);
    written := Step(s, c).1;
    assert output.data == old(output.data) + written;
    assert s' == Step(s, c).0;
    RunSnoc(done, c);
  }

  /** Cleans `input` into `output`; reaching the end of the input is its only way to stop. */
  method CleanConf(input: Buffer, output: Buffer)
    requires input != output
    modifies input, output
    ensures input.data == []
    ensures output.data == old(output.data) + Layout(old(input.data))
  {
    var s := START;
    ghost var all, start := input.data, output.data;
    ghost var done: Text := [];
    while true
      invariant all == done + input.data
      invariant s == Run(done).0
      invariant output.data == start + Run(done).1
      decreases |input.data|
    {
      var next := input.ReadByte();
      if next.None? {
        assert done == all;
        RunIsLayout(all);
        return;
      }
      var c := next.value;
      assert all == (done + [c]) + input.data;
      ghost var written;
      s, written := Feed(done, s, c, output);
      assert output.data == start + (Run(done).1 + written);
      done := done + [c];
    }
  }
}
