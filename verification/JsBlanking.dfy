/** The two blanking passes, `jsCode` and `jsMask`, and why scanning a blanked source is safe. */
module JsBlanking {
  import opened Chars
  import opened JsAutomaton
  import opened JsScanner
  import opened JsSpans

  /** `src` with every comment blanked. */
  ghost function CodeOf(src: string): (r: string)
    ensures |r| == |src|
    ensures forall k :: 0 <= k < |src| ==> r[k] == if KindAt(src, k) == InComment then Blank(src[k]) else src[k]
  {
    seq(|src|, k requires 0 <= k < |src| => if KindAt(src, k) == InComment then Blank(src[k]) else src[k])
  }

  /** `src` with comments and literal texts blanked; an escape at the very end adds one blank. */
  ghost function MaskOf(src: string): (r: string)
    ensures |r| == |src| + if Overrun(src, |src|) then 1 else 0
    ensures forall k :: 0 <= k < |src| ==> r[k] == if KindAt(src, k) == Kept then src[k] else Blank(src[k])
    ensures Overrun(src, |src|) ==> r[|src|] == ' '
  {
    seq(|src|, k requires 0 <= k < |src| => if KindAt(src, k) == Kept then src[k] else Blank(src[k]))
    + if Overrun(src, |src|) then " " else ""
  }

  method JsComments(src: string) returns (comments: seq<Comment>)
    ensures comments == Comments(src)
  {
    var literals;
    comments, literals := JsScan(src);
  }

  method JsCode(src: string) returns (out: string)
    ensures out == CodeOf(src)
  {
    hide CodeOf, CommentsTo, LiteralsTo, Read;
    var comments := JsComments(src);
    SpansInOrder(src);
    out := "";
    var at := 0;
    for k := 0 to |comments|
      invariant at == CommentEnd(comments, k) <= |src| && out == CodeOf(src)[..at]
    {
      var c := comments[k];
      CodePiece(src, k);
      out := out + src[at..c.start] + Blanks(src[c.start..c.end]);
      at := c.end;
    }
    CodeTail(src);
    out := out + src[at..];
  }

  ghost function CommentEnd(comments: seq<Comment>, k: nat): nat
    requires k <= |comments|
  {
    if k == 0 then 0 else comments[k - 1].end
  }

  /** From one comment's end to the next one's: code unchanged, then the comment blanked. */
  lemma CodePiece(src: string, k: nat)
    requires k < |Comments(src)|
    ensures var at, c := CommentEnd(Comments(src), k), Comments(src)[k];
            && at <= c.start <= c.end <= |src|
            && CodeOf(src)[..c.end] == CodeOf(src)[..at] + src[at..c.start] + Blanks(src[c.start..c.end])
  {
    hide KindAt, CommentsTo, LiteralsTo, Read;
    SpansInOrder(src);
    var cs := Comments(src);
    var at, c := CommentEnd(cs, k), cs[k];
    assert at <= c.start <= c.end <= |src|;
    KindsAround(src, k);
  }

  lemma KindsAround(src: string, k: nat)
    requires k < |Comments(src)|
    ensures forall p: nat :: CommentEnd(Comments(src), k) <= p < Comments(src)[k].end && p < |src| ==>
              (KindAt(src, p) == InComment <==> Comments(src)[k].start <= p)
  {
    hide KindAt, CommentsTo, LiteralsTo, Read;
    SpansInOrder(src);
    var cs := Comments(src);
    var at, c := CommentEnd(cs, k), cs[k];
    forall p: nat | at <= p < c.end
      ensures KindAt(src, p) == InComment <==> c.start <= p
    {
      SpansAreKinds(src, p);
      if InComments(cs, p) {
        var a :| 0 <= a < |cs| && cs[a].start <= p < cs[a].end;
        assert a >= k && a <= k;
      }
    }
  }

  lemma CodeTail(src: string)
    ensures var at := CommentEnd(Comments(src), |Comments(src)|);
            at <= |src| && CodeOf(src) == CodeOf(src)[..at] + src[at..]
  {
    hide KindAt, CommentsTo, LiteralsTo, Read;
    SpansInOrder(src);
    var at := CommentEnd(Comments(src), |Comments(src)|);
    forall p | at <= p < |src|
      ensures KindAt(src, p) != InComment
    {
      SpansAreKinds(src, p);
    }
  }

  /** `out` with the positions from `start` up to `end` blanked in place, growing by one if `end` is past it. */
  method BlankSpan(text: string, start: nat, end: nat) returns (out: string)
    requires start <= |text| && start <= end <= |text| + 1
    ensures |out| == if end > |text| then end else |text|
    ensures forall k :: 0 <= k < |text| ==> out[k] == if start <= k < end then Blank(text[k]) else text[k]
    ensures end > |text| && start < end ==> out[|text|] == ' '
  {
    out := text;
    var k := start;
    while k < end
      invariant start <= k <= end
      invariant |out| == if k > |text| then k else |text|
      invariant forall p :: 0 <= p < |text| ==> out[p] == if start <= p < k then Blank(text[p]) else text[p]
      invariant k > |text| ==> out[|text|] == ' '
    {
      if k == |out| { out := out + [' ']; } else if out[k] != '\n' { out := out[k := ' ']; }
      k := k + 1;
    }
  }

  ghost predicate Covered(spans: seq<Span>, k: nat, p: nat)
    requires k <= |spans|
  {
    exists a :: 0 <= a < k && spans[a].start <= p < spans[a].end
  }

  function AllSpans(comments: seq<Comment>, literals: seq<Span>): seq<Span> {
    seq(|comments|, k requires 0 <= k < |comments| => Span(comments[k].start, comments[k].end)) + literals
  }

  lemma OneMore(spans: seq<Span>, k: nat, p: nat)
    requires k < |spans|
    ensures Covered(spans, k + 1, p) <==> Covered(spans, k, p) || spans[k].start <= p < spans[k].end
  {
  }

  lemma OverrunMove(src: string, i: nat, st: State)
    requires i < |src| && EscapesEnd(src, i, st.mode) && ByQuotes(st.mode)
    ensures Step(src, i, st).literals == [Span(st.mode.from, i + 2)] && Step(src, i, st).kind == InText
  {
    hide OperandExpected, CodeStep, CommentStep, TokenStep;
  }

  lemma NoneYet(spans: seq<Span>, p: nat)
    ensures !Covered(spans, 0, p)
  {
  }

  /** A literal's span reaches past the end of the source exactly when an escape does. */
  lemma OverrunIsSpan(src: string)
    ensures Overrun(src, |src|) <==> InLiterals(Literals(src), |src|)
  {
    hide Ordered, StateAt, CommentsTo, LiteralsTo, JsAutomaton.Step;
    PlacedAt(src, |src|);
    if Overrun(src, |src|) {
      PlacedAt(src, |src| - 1);
      Moves(src, |src| - 1);
      var before, m := LiteralsTo(src, |src| - 1), MoveAt(src, |src| - 1);
      QuotesOnly(src, |src| - 1);
      OverrunMove(src, |src| - 1, StateAt(src, |src| - 1));
      AppendInLiterals(before, m.literals[0], |src|);
    }
  }

  lemma CoveredByEither(cs: seq<Comment>, ls: seq<Span>, p: nat)
    ensures var all := AllSpans(cs, ls); Covered(all, |all|, p) <==> InComments(cs, p) || InLiterals(ls, p)
  {
    var all := AllSpans(cs, ls);
    if InComments(cs, p) {
      var a :| 0 <= a < |cs| && cs[a].start <= p < cs[a].end;
      assert all[a] == Span(cs[a].start, cs[a].end);
    } else if InLiterals(ls, p) {
      var a :| 0 <= a < |ls| && ls[a].start <= p < ls[a].end;
      assert all[|cs| + a] == ls[a];
    }
    assert forall a :: 0 <= a < |all| ==> all[a] == if a < |cs| then Span(cs[a].start, cs[a].end) else ls[a - |cs|];
  }

  /** The positions in some span, those in order, are the ones the automaton does not keep. */
  lemma CoveredIsBlanked(src: string, p: nat)
    requires p <= |src|
    ensures var all := AllSpans(Comments(src), Literals(src));
            Covered(all, |all|, p) <==> if p < |src| then KindAt(src, p) != Kept else Overrun(src, |src|)
  {
    hide KindAt, CommentsTo, LiteralsTo, Overrun, Ordered, Read;
    var cs, ls := Comments(src), Literals(src);
    SpansInOrder(src);
    CoveredByEither(cs, ls, p);
    if p < |src| { SpansAreKinds(src, p); } else { OverrunIsSpan(src); }
  }

  lemma SpansFit(src: string, k: nat)
    requires k < |AllSpans(Comments(src), Literals(src))|
    ensures var span := AllSpans(Comments(src), Literals(src))[k];
            span.start <= |src| && span.start <= span.end <= |src| + 1
  {
    hide StateAt, KindAt, CommentsTo, LiteralsTo, Read;
    SpansInOrder(src);
    LiteralStarts(src, |src|);
  }

  lemma {:induction false} LiteralStarts(src: string, i: nat)
    requires i <= |src|
    ensures forall l <- LiteralsTo(src, i) :: l.start <= i
  {
    hide JsAutomaton.Step, StateAt, Ordered;
    if i > 0 {
      LiteralStarts(src, i - 1);
      PlacedAt(src, i - 1);
      StepShape(src, i - 1, StateAt(src, i - 1));
    }
  }

  method JsMask(src: string) returns (out: string)
    ensures out == MaskOf(src)
  {
    hide CommentsTo, LiteralsTo, Covered, Overrun, KindAt, AllSpans;
    var comments, literals := JsScan(src);
    var spans := AllSpans(comments, literals);
    out := src;
    forall p: nat | p <= |src| { NoneYet(spans, p); }
    for k := 0 to |spans|
      invariant |src| <= |out|
      invariant forall p :: 0 <= p < |src| ==> out[p] == if Covered(spans, k, p) then Blank(src[p]) else src[p]
      invariant |out| == |src| + (if Covered(spans, k, |src|) then 1 else 0)
      invariant |out| > |src| ==> out[|src|] == ' '
    {
      SpansFit(src, k);
      forall p: nat
        ensures Covered(spans, k + 1, p) <==> Covered(spans, k, p) || spans[k].start <= p < spans[k].end
      {
        OneMore(spans, k, p);
      }
      out := BlankSpan(out, spans[k].start, spans[k].end);
    }
    forall p: nat | p <= |src| { CoveredIsBlanked(src, p); }
  }
}
