/** What the spans found in a source are: ordered, disjoint, and exactly the blanked positions. */
module JsSpans {
  import opened Chars
  import opened JsAutomaton

  ghost predicate Plain(mode: Mode) {
    !mode.Text?() && !mode.Comment?()
  }

  /** What one transition does to the open span: continue it, open one, or close one. */
  ghost predicate Shape(src: string, i: nat, st: State, m: Move)
    requires i < |src|
  {
    var mode, next := st.mode, m.next.mode;
    || (m.comments == [] && m.literals == [] &&
        if mode.Text?() then next.Text?() && next.from == mode.from && m.kind == InText
        else if mode.Comment?() then next.Comment?() && next.from == mode.from && m.kind == InComment
        else if next.Text?() then next.from == i + 1 && m.kind == Kept
        else if next.Comment?() then next.from == i && m.kind == InComment
        else m.kind == Kept)
    || (m.comments == [] && |m.literals| == 1 && Plain(next) &&
        var span := m.literals[0];
        if mode.Text?() then
          && span.start == mode.from
          && if m.kind == Kept then span.end == i
             else m.kind == InText && (span.end == i + 1 || (EscapesEnd(src, i, mode) && span.end == i + 2))
        else Plain(mode) && m.kind == Kept && span == Span(i + 1, i + 1))
    || (|m.comments| == 1 && m.literals == [] && Plain(next) && mode.Comment?() && m.kind == InComment &&
        var c := m.comments[0];
        c.start == mode.from && c.end == i + 1 && c.line == 1 + Newlines(Slice(src, 0, c.start)))
  }

  /** The last character is a backslash in the text of a literal: it escapes past the end. */
  ghost predicate EscapesEnd(src: string, i: nat, mode: Mode)
    requires i < |src|
  {
    i == |src| - 1 && src[i] == '\\' && mode.Text?() && !mode.Escape?()
  }

  lemma StepShape(src: string, i: nat, st: State)
    requires i < |src|
    ensures Shape(src, i, st, Step(src, i, st))
  {
    hide Newlines, Slice, OperandExpected, IsSpace, IsWord, IsLetter, CodeStep, CommentStep;
    if st.mode.Code? {
      CodeShape(src, i, st);
    } else if st.mode.Comment?() {
      CommentShape(src, i, st);
    }
  }

  lemma CodeShape(src: string, i: nat, st: State)
    requires i < |src| && st.mode.Code?
    ensures Shape(src, i, st, CodeStep(src, i, st))
  {
    hide Newlines, Slice, OperandExpected, IsSpace, IsWord, IsLetter;
  }

  lemma CommentShape(src: string, i: nat, st: State)
    requires i < |src| && st.mode.Comment?()
    ensures Shape(src, i, st, CommentStep(src, i, st))
  {
    hide Newlines, Slice;
  }

  // --- order ---

  /** Every span is a span; comments and literals follow each other without overlap. */
  ghost predicate Ordered(cs: seq<Comment>, ls: seq<Span>) {
    && (forall a :: 0 <= a < |ls| ==> ls[a].start <= ls[a].end)
    && (forall a :: 0 <= a < |cs| ==> cs[a].start < cs[a].end)
    && (forall a, b :: 0 <= a < b < |ls| ==> ls[a].end < ls[b].start)
    && (forall a, b :: 0 <= a < b < |cs| ==> cs[a].end <= cs[b].start)
    && (forall a, b :: 0 <= a < |cs| && 0 <= b < |ls| ==> cs[a].end <= ls[b].start || ls[b].end <= cs[a].start)
  }

  ghost predicate EndBy(cs: seq<Comment>, ls: seq<Span>, k: nat) {
    && (forall a :: 0 <= a < |cs| ==> cs[a].end <= k)
    && (forall a :: 0 <= a < |ls| ==> ls[a].end <= k)
  }

  lemma AppendLiteral(cs: seq<Comment>, ls: seq<Span>, k: nat, span: Span)
    requires Ordered(cs, ls) && EndBy(cs, ls, k) && k < span.start <= span.end
    ensures Ordered(cs, ls + [span]) && EndBy(cs, ls + [span], span.end)
  {
  }

  lemma AppendComment(cs: seq<Comment>, ls: seq<Span>, k: nat, c: Comment)
    requires Ordered(cs, ls) && EndBy(cs, ls, k) && k <= c.start < c.end
    ensures Ordered(cs + [c], ls) && EndBy(cs + [c], ls, c.end)
  {
  }

  /** The spans closed before `i` all end before the one that is open there. */
  ghost predicate Placed(src: string, i: nat)
    requires i <= |src|
  {
    var mode, cs, ls := StateAt(src, i).mode, CommentsTo(src, i), LiteralsTo(src, i);
    && Ordered(cs, ls)
    && (mode.Text?() ==> 0 < mode.from <= i && EndBy(cs, ls, mode.from - 1))
    && (mode.Comment?() ==> mode.from < i && EndBy(cs, ls, mode.from))
    && (Plain(mode) ==> EndBy(cs, ls, if Overrun(src, i) then i + 1 else i))
    && (Plain(mode) ==> forall a :: 0 <= a < |cs| ==> cs[a].end <= i)
    && (i == |src| ==> Plain(mode))
  }

  /** The source ends in a backslash inside the text of a literal, whose span then ends one further. */
  ghost predicate Overrun(src: string, i: nat)
    requires i <= |src|
  {
    i == |src| && i > 0 && EscapesEnd(src, i - 1, StateAt(src, i - 1).mode)
  }

  lemma StartsEmpty(src: string)
    ensures StateAt(src, 0) == START && CommentsTo(src, 0) == [] && LiteralsTo(src, 0) == [] && Ordered([], [])
  {
  }

  /** At the end of the source every span is closed. */
  lemma ClosedAtEnd(src: string, i: nat, st: State)
    requires i == |src| - 1
    ensures Plain(Step(src, i, st).next.mode)
  {
    hide Newlines, Slice, OperandExpected, IsSpace, IsWord, IsLetter, CommentAt;
  }

  lemma {:induction false} PlacedAt(src: string, i: nat)
    requires i <= |src|
    ensures Placed(src, i)
  {
    hide JsAutomaton.Step, StateAt, CommentsTo, LiteralsTo, Placed;
    if i == 0 {
      PlacedAtStart(src);
    } else {
      PlacedAt(src, i - 1);
      StepShape(src, i - 1, StateAt(src, i - 1));
      PlacedNext(src, i - 1);
    }
  }

  lemma PlacedAtStart(src: string)
    ensures Placed(src, 0)
  {
    hide StateAt, CommentsTo, LiteralsTo;
    StartsEmpty(src);
  }

  lemma PlacedNext(src: string, i: nat)
    requires i < |src| && Placed(src, i) && Shape(src, i, StateAt(src, i), MoveAt(src, i))
    ensures Placed(src, i + 1)
  {
    hide MoveAt, Placed, Shape;
    if MoveAt(src, i).literals != [] {
      PlacedLiteral(src, i);
    } else if MoveAt(src, i).comments != [] {
      PlacedComment(src, i);
    } else {
      PlacedSilent(src, i);
    }
  }

  lemma PlacedLiteral(src: string, i: nat)
    requires i < |src| && Placed(src, i) && Shape(src, i, StateAt(src, i), MoveAt(src, i))
    requires MoveAt(src, i).literals != []
    ensures Placed(src, i + 1)
  {
    hide JsAutomaton.Step, Ordered, StateAt, CommentsTo, LiteralsTo;
    var mode, l := StateAt(src, i).mode, MoveAt(src, i).literals[0];
    Moves(src, i);
    assert MoveAt(src, i).literals == [l];
    AppendLiteral(CommentsTo(src, i), LiteralsTo(src, i), if mode.Text?() then mode.from - 1 else i, l);
  }

  lemma PlacedComment(src: string, i: nat)
    requires i < |src| && Placed(src, i) && Shape(src, i, StateAt(src, i), MoveAt(src, i))
    requires MoveAt(src, i).comments != []
    ensures Placed(src, i + 1)
  {
    hide JsAutomaton.Step, Ordered, StateAt, CommentsTo, LiteralsTo;
    var c := MoveAt(src, i).comments[0];
    Moves(src, i);
    assert MoveAt(src, i).comments == [c];
    AppendComment(CommentsTo(src, i), LiteralsTo(src, i), c.start, c);
  }

  lemma PlacedSilent(src: string, i: nat)
    requires i < |src| && Placed(src, i) && Shape(src, i, StateAt(src, i), MoveAt(src, i))
    requires MoveAt(src, i).literals == [] && MoveAt(src, i).comments == []
    ensures Placed(src, i + 1)
  {
    hide JsAutomaton.Step, Ordered, StateAt, CommentsTo, LiteralsTo, Newlines, Slice;
    Moves(src, i);
    if i + 1 == |src| { ClosedAtEnd(src, i, StateAt(src, i)); }
  }

  ghost predicate ByQuotes(mode: Mode) {
    mode.Quoted? || mode.QuotedEscape? ==> mode.q == '\'' || mode.q == '"'
  }

  lemma {:induction false} QuotesOnly(src: string, i: nat)
    requires i <= |src|
    ensures ByQuotes(StateAt(src, i).mode)
  {
    hide StateAt, JsAutomaton.Step;
    if i == 0 {
      StartsEmpty(src);
    } else {
      QuotesOnly(src, i - 1);
      Moves(src, i - 1);
      QuotesStep(src, i - 1, StateAt(src, i - 1));
    }
  }

  lemma QuotesStep(src: string, i: nat, st: State)
    requires i < |src| && ByQuotes(st.mode)
    ensures ByQuotes(Step(src, i, st).next.mode)
  {
    hide OperandExpected, IsSpace, IsWord, IsLetter, CommentAt;
  }

  predicate ClosesBlock(src: string, k: nat) {
    k < |src| && src[k] == '*' && Next?(src, k, '/')
  }

  /** What has been seen of the open comment at `i`: how it began and that nothing has ended it. */
  ghost predicate OpenComment(src: string, i: nat, mode: Mode) {
    mode.Comment?() ==>
      var from := mode.from;
      && from + 1 < |src| && from < i && src[from] == '/'
      && src[from + 1] == (if mode.LineComment? then '/' else '*')
      && (mode.LineComment? ==> forall k :: from < k <= i && k < |src| ==> src[k] != '\n')
      && (mode.BlockOpen? ==> i == from + 1)
      && (mode.Block? ==> i >= from + 2 && forall k :: from + 2 <= k < i ==> !ClosesBlock(src, k))
      && (mode.BlockClose? ==>
            i >= from + 3 && ClosesBlock(src, i - 1) && forall k :: from + 2 <= k < i - 1 ==> !ClosesBlock(src, k))
  }

  /** A comment as the source has it: where it ends, on which line it starts, and its text without the
      delimiters. */
  ghost predicate Read(src: string, c: Comment) {
    && c.start + 1 < c.end <= |src| && src[c.start] == '/'
    && c.line == 1 + Newlines(src[..c.start])
    && if src[c.start + 1] == '/' then
         && c.text == src[c.start + 2..c.end] && '\n' !in src[c.start..c.end]
         && (c.end < |src| ==> src[c.end] == '\n')
       else
         && src[c.start + 1] == '*'
         && if c.end >= c.start + 4 && ClosesBlock(src, c.end - 2) then
              c.text == src[c.start + 2..c.end - 2] && forall k :: c.start + 2 <= k < c.end - 2 ==> !ClosesBlock(src, k)
            else
              && c.end == |src| && c.text == src[c.start + 2..]
              && forall k :: c.start + 2 <= k < |src| ==> !ClosesBlock(src, k)
  }

  lemma CommentEnds(src: string, i: nat, st: State)
    requires i < |src| && OpenComment(src, i, st.mode) && st.mode.Comment?()
    ensures var m := CommentStep(src, i, st);
            OpenComment(src, i + 1, m.next.mode) && forall c <- m.comments :: Read(src, c)
  {
    hide Newlines;
    assert src[0..st.mode.from] == src[..st.mode.from];
  }

  lemma CommentOpens(src: string, i: nat, st: State)
    requires i < |src| && OpenComment(src, i, st.mode)
    ensures var m := Step(src, i, st);
            OpenComment(src, i + 1, m.next.mode) && forall c <- m.comments :: Read(src, c)
  {
    hide Newlines, Slice, OperandExpected, IsSpace, IsWord, IsLetter, CommentStep, CodeStep, Read,
         OpenComment;
    if st.mode.Comment?() {
      CommentEnds(src, i, st);
    } else if st.mode.Code? {
      CodeOpens(src, i, st);
    } else {
      TextOpensNone(src, i, st);
    }
  }

  lemma CodeOpens(src: string, i: nat, st: State)
    requires i < |src| && st.mode.Code?
    ensures var m := CodeStep(src, i, st); OpenComment(src, i + 1, m.next.mode) && m.comments == []
  {
    hide OperandExpected, IsSpace, IsWord;
  }

  lemma TextOpensNone(src: string, i: nat, st: State)
    requires i < |src| && !st.mode.Code? && !st.mode.Comment?()
    ensures var m := Step(src, i, st); OpenComment(src, i + 1, m.next.mode) && m.comments == []
  {
    hide IsWord, IsLetter;
  }

  lemma {:induction false} CommentsRead(src: string, i: nat)
    requires i <= |src|
    ensures OpenComment(src, i, StateAt(src, i).mode)
    ensures forall a :: 0 <= a < |CommentsTo(src, i)| ==> Read(src, CommentsTo(src, i)[a])
  {
    hide StateAt, CommentsTo, LiteralsTo, JsAutomaton.Step, Read;
    if i == 0 {
      StartsEmpty(src);
    } else {
      CommentsRead(src, i - 1);
      Moves(src, i - 1);
      CommentOpens(src, i - 1, StateAt(src, i - 1));
    }
  }

  /** Comments and literal texts are in order, disjoint and inside the source, and each comment has
      its line number; only an escape at the very end lets the last span end one further. */
  lemma SpansInOrder(src: string)
    ensures Ordered(Comments(src), Literals(src))
    ensures forall c <- Comments(src) :: c.end <= |src| && Read(src, c)
    ensures forall l <- Literals(src) :: l.end <= |src| || (l.end == |src| + 1 && src[|src| - 1] == '\\')
  {
    PlacedAt(src, |src|);
    CommentsRead(src, |src|);
  }

  // --- the spans are exactly the positions read as comment or text ---

  ghost predicate InComments(cs: seq<Comment>, p: nat) {
    exists a :: 0 <= a < |cs| && cs[a].start <= p < cs[a].end
  }

  ghost predicate InLiterals(ls: seq<Span>, p: nat) {
    exists a :: 0 <= a < |ls| && ls[a].start <= p < ls[a].end
  }

  ghost predicate Classified(src: string, i: nat, p: nat)
    requires p < i <= |src|
  {
    var mode := StateAt(src, i).mode;
    && (KindAt(src, p) == InComment <==> InComments(CommentsTo(src, i), p) || (mode.Comment?() && mode.from <= p))
    && (KindAt(src, p) == InText <==> InLiterals(LiteralsTo(src, i), p) || (mode.Text?() && mode.from <= p))
  }

  lemma AppendInLiterals(ls: seq<Span>, span: Span, p: nat)
    ensures InLiterals(ls + [span], p) <==> InLiterals(ls, p) || span.start <= p < span.end
  {
    var all := ls + [span];
    if InLiterals(ls, p) {
      var a :| 0 <= a < |ls| && ls[a].start <= p < ls[a].end;
      assert all[a] == ls[a];
    }
    assert all[|ls|] == span;
  }

  lemma AppendInComments(cs: seq<Comment>, c: Comment, p: nat)
    ensures InComments(cs + [c], p) <==> InComments(cs, p) || c.start <= p < c.end
  {
    var all := cs + [c];
    if InComments(cs, p) {
      var a :| 0 <= a < |cs| && cs[a].start <= p < cs[a].end;
      assert all[a] == cs[a];
    }
    assert all[|cs|] == c;
  }

  lemma NotYet(src: string, i: nat)
    requires i < |src|
    ensures !InComments(CommentsTo(src, i), i) && !InLiterals(LiteralsTo(src, i), i)
  {
    PlacedAt(src, i);
  }

  lemma {:induction false} ClassifiedAt(src: string, i: nat, p: nat)
    requires p < i <= |src|
    ensures Classified(src, i, p)
  {
    hide JsAutomaton.Step, StateAt, CommentsTo, LiteralsTo, InComments, InLiterals, EndBy, Ordered;
    if p < i - 1 { ClassifiedAt(src, i - 1, p); } else { NotYet(src, p); }
    PlacedAt(src, i - 1);
    Moves(src, i - 1);
    StepShape(src, i - 1, StateAt(src, i - 1));
    var m := MoveAt(src, i - 1);
    if m.literals != [] {
      assert m.literals == [m.literals[0]];
      AppendInLiterals(LiteralsTo(src, i - 1), m.literals[0], p);
    } else if m.comments != [] {
      assert m.comments == [m.comments[0]];
      AppendInComments(CommentsTo(src, i - 1), m.comments[0], p);
    }
  }

  /** A position lies in a reported span if and only if the automaton reads it as such. */
  lemma SpansAreKinds(src: string, p: nat)
    requires p < |src|
    ensures KindAt(src, p) == InComment <==> InComments(Comments(src), p)
    ensures KindAt(src, p) == InText <==> InLiterals(Literals(src), p)
  {
    ClassifiedAt(src, |src|, p);
    PlacedAt(src, |src|);
  }
}
