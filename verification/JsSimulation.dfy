/** Scanning a blanked source again: it finds what the scan of the source found. */
module JsSimulation {
  import opened Chars
  import opened JsAutomaton
  import opened JsSpans
  import opened JsBlanking

  // --- blanked comments ---

  /** Where comments are blanked the scanner is in code. */
  ghost function Uncommented(st: State): State {
    if st.mode.Comment?() then InMode(st, Code) else st
  }

  ghost function UncommentedMove(m: Move): Move {
    Move(Uncommented(m.next), if m.kind == InComment then Kept else m.kind, [], m.literals)
  }

  /** `out` at `i` and after it is `src` with the comments blanked, as the automaton reads it from `st`. */
  ghost predicate CommentsBlanked(src: string, out: string, i: nat, st: State)
    requires i < |src|
  {
    var m := Step(src, i, st);
    && |out| == |src|
    && out[i] == (if m.kind == InComment then Blank(src[i]) else src[i])
    && (i + 1 < |src| ==>
          out[i + 1] == if Step(src, i + 1, m.next).kind == InComment then Blank(src[i + 1]) else src[i + 1])
  }

  /** Looking one ahead, the only blank that is new is the one for the `/` that begins a comment. */
  lemma NextBlanked(src: string, out: string, i: nat, st: State)
    requires i + 1 < |src| && CommentsBlanked(src, out, i, st)
    ensures var next := Step(src, i, st).next.mode;
            next.Comment?() || out[i + 1] == src[i + 1] || (next.Code? && src[i + 1] == '/' && out[i + 1] == ' ')
  {
    hide OperandExpected, CommentAt, IsSpace, IsWord, IsLetter, CommentStep;
    ghost var next := Step(src, i, st).next;
    assert next.mode.Code? || next.mode.Comment?() || Step(src, i + 1, next).kind != InComment;
  }

  lemma UncommentedStep(src: string, out: string, i: nat, st: State)
    requires i < |src| && CommentsBlanked(src, out, i, st)
    ensures Step(out, i, Uncommented(st)) == UncommentedMove(Step(src, i, st))
  {
    hide CodeStep, CommentStep, RegexStep, IsSpace, IsWord, IsLetter, CommentsBlanked;
    if st.mode.Code? {
      UncommentedCodeStep(src, out, i, st);
    } else if st.mode.Comment?() {
      UncommentedCommentStep(src, out, i, st);
    } else {
      SameHere(src, out, i, st);
      if i + 1 < |src| {
        NextBlanked(src, out, i, st);
        BlankIsSpace(src[i + 1]);
      }
      if st.mode.Regex? || st.mode.RegexEscape? { UncommentedRegexStep(src, out, i, st); }
    }
  }

  lemma UncommentedRegexStep(src: string, out: string, i: nat, st: State)
    requires i < |src| && (st.mode.Regex? || st.mode.RegexEscape?) && CommentsBlanked(src, out, i, st)
    ensures RegexStep(out, i, st) == UncommentedMove(RegexStep(src, i, st))
  {
    hide CodeStep, CommentStep, QuotedStep, TemplateStep, TokenStep, IsSpace, IsWord, IsLetter;
    SameHere(src, out, i, st);
    if i + 1 < |src| {
      NextBlanked(src, out, i, st);
      BlankIsSpace(src[i + 1]);
    }
  }

  lemma SameHere(src: string, out: string, i: nat, st: State)
    requires i < |src| && CommentsBlanked(src, out, i, st) && !st.mode.Code? && !st.mode.Comment?()
    ensures |out| == |src| && out[i] == src[i] && Step(src, i, st).kind != InComment
  {
    hide CodeStep, CommentStep;
  }

  lemma UncommentedCommentStep(src: string, out: string, i: nat, st: State)
    requires i < |src| && st.mode.Comment?() && CommentsBlanked(src, out, i, st)
    ensures CodeStep(out, i, InMode(st, Code)) == UncommentedMove(CommentStep(src, i, st))
  {
    hide OperandExpected, CommentAt, IsSpace, IsWord, IsLetter, QuotedStep, RegexStep, TemplateStep,
         TokenStep;
    BlankIsSpace(src[i]);
  }

  lemma UncommentedCodeStep(src: string, out: string, i: nat, st: State)
    requires i < |src| && st.mode.Code? && CommentsBlanked(src, out, i, st)
    ensures CodeStep(out, i, st) == UncommentedMove(CodeStep(src, i, st))
  {
    hide OperandExpected, CommentAt, IsSpace, IsWord, IsLetter, CommentStep, QuotedStep, RegexStep,
         TemplateStep, TokenStep;
    BlankIsSpace(src[i]);
    if i + 1 < |src| {
      NextBlanked(src, out, i, st);
      BlankIsSpace(src[i + 1]);
    }
  }

  lemma {:induction false} CodeSimulates(src: string, i: nat)
    requires i <= |src|
    ensures StateAt(CodeOf(src), i) == Uncommented(StateAt(src, i))
    ensures LiteralsTo(CodeOf(src), i) == LiteralsTo(src, i) && CommentsTo(CodeOf(src), i) == []
    ensures forall p: nat :: p < i ==>
              KindAt(CodeOf(src), p) == if KindAt(src, p) == InComment then Kept else KindAt(src, p)
  {
    hide StateAt, LiteralsTo, CommentsTo, JsAutomaton.Step, CodeOf;
    var out := CodeOf(src);
    if i == 0 {
      StartsEmpty(src);
      StartsEmpty(out);
    } else {
      CodeSimulates(src, i - 1);
      Moves(src, i - 1);
      Moves(out, i - 1);
      assert KindAt(src, i - 1) == Step(src, i - 1, StateAt(src, i - 1)).kind;
      assert i < |src| ==> KindAt(src, i) == Step(src, i, Step(src, i - 1, StateAt(src, i - 1)).next).kind;
      UncommentedStep(src, out, i - 1, StateAt(src, i - 1));
    }
  }

  /** Blanking the comments leaves no comment, every literal where it was, and every newline. */
  lemma CodeKeepsTheRest(src: string)
    ensures |CodeOf(src)| == |src|
    ensures Comments(CodeOf(src)) == [] && Literals(CodeOf(src)) == Literals(src)
    ensures forall p :: 0 <= p <= |src| ==> Newlines(CodeOf(src)[..p]) == Newlines(src[..p])
  {
    hide LiteralsTo, CommentsTo, KindAt;
    CodeSimulates(src, |src|);
    forall p | 0 <= p <= |src| { NewlinesAgree(CodeOf(src)[..p], src[..p]); }
  }

  /** Blanking comments twice is blanking them once. */
  lemma CodeIdempotent(src: string)
    ensures CodeOf(CodeOf(src)) == CodeOf(src)
  {
    hide LiteralsTo, CommentsTo, KindAt;
    CodeSimulates(src, |src|);
  }

  /** The passes agree: on every source, masking the code alone is masking the source. */
  lemma MaskOfCode(src: string)
    ensures MaskOf(CodeOf(src)) == MaskOf(src)
  {
    hide LiteralsTo, CommentsTo, KindAt, Overrun;
    CodeSimulates(src, |src|);
    OverrunIsSpan(src);
    OverrunIsSpan(CodeOf(src));
  }

  // --- blanked literals as well ---

  /** A masked text holds no escapes and no character classes. */
  ghost function Masked(st: State): State {
    match st.mode
    case QuotedEscape(q, from) => InMode(st, Quoted(q, from))
    case TemplateEscape(from) => InMode(st, Template(from))
    case Regex(_, from) => InMode(st, Regex(false, from))
    case RegexEscape(_, from) => InMode(st, Regex(false, from))
    case _ => Uncommented(st)
  }

  ghost function MaskedMove(m: Move): Move {
    Move(Masked(m.next), if m.kind == InComment then Kept else m.kind, [], m.literals)
  }

  /** A backslash at `i` escapes a newline in a string or a regular expression: the masked text has
      the newline alone, and a literal ends there. */
  ghost predicate EscapedNewline(src: string, i: nat, mode: Mode)
    requires i < |src|
  {
    (mode.Quoted? || mode.Regex?) && src[i] == '\\' && Next?(src, i, '\n')
  }

  ghost predicate TextBlanked(src: string, out: string, i: nat, st: State)
    requires i < |src|
  {
    var m := Step(src, i, st);
    && |out| >= |src| && (i + 1 == |src| ==> |out| == |src|)
    && out[i] == (if m.kind == Kept then src[i] else Blank(src[i]))
    && (i + 1 < |src| ==> out[i + 1] == if Step(src, i + 1, m.next).kind == Kept then src[i + 1] else Blank(src[i + 1]))
    && !EscapedNewline(src, i, st.mode) && !EscapesEnd(src, i, st.mode)
    && ((st.mode.QuotedEscape? || st.mode.RegexEscape?) ==> src[i] != '\n')
    && ByQuotes(st.mode)
  }

  lemma MaskedCodeStep(src: string, out: string, i: nat, st: State)
    requires i < |src| && st.mode.Code? && TextBlanked(src, out, i, st)
    ensures CodeStep(out, i, st) == MaskedMove(CodeStep(src, i, st))
  {
    hide OperandExpected, CommentAt, IsSpace, IsWord, IsLetter, CommentStep;
    BlankIsSpace(src[i]);
    if i + 1 < |src| {
      BlankIsSpace(src[i + 1]);
    }
  }

  lemma MaskedCommentStep(src: string, out: string, i: nat, st: State)
    requires i < |src| && st.mode.Comment?() && TextBlanked(src, out, i, st)
    ensures CodeStep(out, i, InMode(st, Code)) == MaskedMove(CommentStep(src, i, st))
  {
    hide OperandExpected, CommentAt, IsSpace, IsWord, IsLetter, QuotedStep, RegexStep, TemplateStep,
         TokenStep;
    BlankIsSpace(src[i]);
  }

  lemma MaskedRegexStep(src: string, out: string, i: nat, st: State)
    requires i < |src| && (st.mode.Regex? || st.mode.RegexEscape?) && TextBlanked(src, out, i, st)
    ensures RegexStep(out, i, Masked(st)) == MaskedMove(RegexStep(src, i, st))
  {
    hide CodeStep, CommentStep, QuotedStep, TemplateStep, IsSpace, IsWord, IsLetter;
    if i + 1 < |src| { BlankIsSpace(src[i + 1]); }
  }

  lemma MaskedTextStep(src: string, out: string, i: nat, st: State)
    requires i < |src| && !st.mode.Code? && !st.mode.Comment?() && TextBlanked(src, out, i, st)
    ensures Step(out, i, Masked(st)) == MaskedMove(Step(src, i, st))
  {
    hide CodeStep, CommentStep, RegexStep, IsSpace, IsWord, IsLetter;
    if st.mode.Regex? || st.mode.RegexEscape? {
      MaskedRegexStep(src, out, i, st);
    } else if i + 1 < |src| {
      BlankIsSpace(src[i + 1]);
    }
  }

  lemma EscapeFollows(src: string, i: nat)
    requires i <= |src| && (StateAt(src, i).mode.QuotedEscape? || StateAt(src, i).mode.RegexEscape?)
    ensures i > 0 && src[i - 1] == '\\'
    ensures var before := StateAt(src, i - 1).mode; before.Quoted? || before.Regex?
  {
    hide StateAt, LiteralsTo, CommentsTo, JsAutomaton.Step, Ordered;
    if i == 0 {
      StartsEmpty(src);
    } else {
      Moves(src, i - 1);
      EscapeStep(src, i - 1, StateAt(src, i - 1));
    }
  }

  lemma EscapeStep(src: string, i: nat, st: State)
    requires i < |src|
    requires var next := Step(src, i, st).next.mode; next.QuotedEscape? || next.RegexEscape?
    ensures src[i] == '\\' && (st.mode.Quoted? || st.mode.Regex?)
  {
    hide OperandExpected, CommentAt, IsSpace, IsWord, IsLetter;
  }

  ghost predicate NoEscapedNewline(src: string, k: nat)
    requires k <= |src|
  {
    forall i :: 0 <= i < k ==> !EscapedNewline(src, i, StateAt(src, i).mode)
  }

  lemma {:induction false} MaskSimulates(src: string, i: nat)
    requires i <= |src| && NoEscapedNewline(src, i) && (Overrun(src, |src|) ==> i < |src|)
    ensures StateAt(MaskOf(src), i) == Masked(StateAt(src, i))
    ensures LiteralsTo(MaskOf(src), i) == LiteralsTo(src, i) && CommentsTo(MaskOf(src), i) == []
    ensures forall p: nat :: p < i ==>
              KindAt(MaskOf(src), p) == if KindAt(src, p) == InComment then Kept else KindAt(src, p)
  {
    hide StateAt, LiteralsTo, CommentsTo, JsAutomaton.Step, MaskOf, TextBlanked;
    var out := MaskOf(src);
    if i == 0 {
      StartsEmpty(src);
      StartsEmpty(out);
    } else {
      MaskSimulates(src, i - 1);
      Moves(src, i - 1);
      Moves(out, i - 1);
      Blanked(src, i - 1);
      MaskedStep(src, out, i - 1, StateAt(src, i - 1));
    }
  }

  /** The masked text at `i` and one further, as the source's steps have it. */
  lemma Blanked(src: string, i: nat)
    requires i < |src| && NoEscapedNewline(src, i + 1) && (Overrun(src, |src|) ==> i + 1 < |src|)
    ensures TextBlanked(src, MaskOf(src), i, StateAt(src, i))
    ensures i < |MaskOf(src)|
  {
    hide StateAt, LiteralsTo, CommentsTo, JsAutomaton.Step, MaskOf;
    Moves(src, i);
    var st := StateAt(src, i);
    assert KindAt(src, i) == Step(src, i, st).kind;
    assert i + 1 < |src| ==> KindAt(src, i + 1) == Step(src, i + 1, Step(src, i, st).next).kind;
    if st.mode.QuotedEscape? || st.mode.RegexEscape? { EscapeFollows(src, i); }
    QuotesOnly(src, i);
  }

  lemma MaskedStep(src: string, out: string, i: nat, st: State)
    requires i < |src| && TextBlanked(src, out, i, st)
    ensures Step(out, i, Masked(st)) == MaskedMove(Step(src, i, st))
  {
    hide JsAutomaton.Step, Masked, MaskedMove;
    MaskedIs(src, out, i, st);
    if st.mode.Code? {
      MaskedCodeStep(src, out, i, st);
    } else if st.mode.Comment?() {
      MaskedCommentStep(src, out, i, st);
    } else {
      MaskedTextStep(src, out, i, st);
    }
  }

  lemma MaskedIs(src: string, out: string, i: nat, st: State)
    requires i < |src| <= |out|
    ensures st.mode.Code? ==> Step(src, i, st) == CodeStep(src, i, st)
    ensures st.mode.Code? ==> Masked(st) == st && Step(out, i, st) == CodeStep(out, i, st)
    ensures st.mode.Comment?() ==> Step(src, i, st) == CommentStep(src, i, st)
    ensures st.mode.Comment?() ==> Masked(st) == InMode(st, Code)
    ensures st.mode.Comment?() ==> Step(out, i, Masked(st)) == CodeStep(out, i, Masked(st))
  {
    hide CodeStep, CommentStep;
  }

  lemma {:induction false} LiteralsGrow(src: string, j: nat, k: nat)
    requires j <= k <= |src|
    ensures LiteralsTo(src, j) <= LiteralsTo(src, k)
    ensures forall a :: |LiteralsTo(src, j)| <= a < |LiteralsTo(src, k)| ==> LiteralsTo(src, k)[a].end >= j
    decreases k
  {
    hide StateAt, LiteralsTo, JsAutomaton.Step;
    if j < k {
      LiteralsGrow(src, j, k - 1);
      Moves(src, k - 1);
      StepShape(src, k - 1, StateAt(src, k - 1));
    }
  }

  /** The masked text when an escape runs past the end: one blank more, and the same literals. */
  lemma MaskOverrun(src: string)
    requires Overrun(src, |src|) && NoEscapedNewline(src, |src|)
    ensures Literals(MaskOf(src)) == Literals(src) && Comments(MaskOf(src)) == []
    ensures forall p: nat :: p <= |src| ==>
              KindAt(MaskOf(src), p) == if p == |src| then InText
                                        else if KindAt(src, p) == InComment then Kept
                                        else KindAt(src, p)
  {
    hide StateAt, LiteralsTo, CommentsTo, JsAutomaton.Step, MaskOf, Masked, NoEscapedNewline;
    var out, n := MaskOf(src), |src|;
    NoneBefore(src, n - 1);
    MaskSimulates(src, n - 1);
    QuotesOnly(src, n - 1);
    Moves(src, n - 1);
    Moves(out, n - 1);
    Moves(out, n);
    OverrunMove(src, n - 1, StateAt(src, n - 1));
    assert KindAt(src, n - 1) == InText && out[n - 1] == ' ';
    OverrunSteps(src, out, StateAt(src, n - 1));
  }

  lemma NoneBefore(src: string, k: nat)
    requires k <= |src| && NoEscapedNewline(src, |src|)
    ensures NoEscapedNewline(src, k)
  {
    hide StateAt;
  }

  lemma OverrunSteps(src: string, out: string, st: State)
    requires |src| > 0 && |out| == |src| + 1 && EscapesEnd(src, |src| - 1, st.mode) && ByQuotes(st.mode)
    requires out[|src| - 1] == out[|src|] == ' '
    ensures Step(out, |src| - 1, Masked(st)) == Silent(Masked(st), InText)
    ensures var m := Step(out, |src|, Masked(st));
            m.literals == [Span(st.mode.from, |src| + 1)] && m.comments == [] && m.kind == InText
  {
    hide CodeStep, CommentStep, TokenStep;
  }

  /** Without an escaped newline the masked text scans as the source does, but for its comments. */
  lemma MaskScans(src: string)
    requires NoEscapedNewline(src, |src|)
    ensures Literals(MaskOf(src)) == Literals(src) && Comments(MaskOf(src)) == []
    ensures forall p: nat :: p < |MaskOf(src)| ==>
              KindAt(MaskOf(src), p) == if p == |src| then InText
                                        else if KindAt(src, p) == InComment then Kept
                                        else KindAt(src, p)
  {
    hide LiteralsTo, CommentsTo, KindAt;
    if Overrun(src, |src|) { MaskOverrun(src); } else { MaskSimulates(src, |src|); }
  }

  /** Masking loses track of a literal exactly when a string or a regular expression holds an
      escaped newline: then, and only then, the masked text's literals are not the source's. */
  lemma MaskKeepsLiterals(src: string)
    ensures Literals(MaskOf(src)) == Literals(src) <==> NoEscapedNewline(src, |src|)
  {
    hide LiteralsTo, EscapedNewline;
    if NoEscapedNewline(src, |src|) {
      MaskScans(src);
    } else {
      var p := FirstEscapedNewline(src, |src|);
      EscapedNewlineSplits(src, p);
    }
  }

  lemma {:induction false} FirstEscapedNewline(src: string, k: nat) returns (p: nat)
    requires k <= |src| && !NoEscapedNewline(src, k)
    ensures p < k && NoEscapedNewline(src, p) && EscapedNewline(src, p, StateAt(src, p).mode)
  {
    hide StateAt;
    if NoEscapedNewline(src, k - 1) { p := k - 1; } else { p := FirstEscapedNewline(src, k - 1); }
  }

  /** At the first escaped newline the masked text's literal ends and the source's goes on. */
  lemma EscapedNewlineSplits(src: string, p: nat)
    requires p < |src| && NoEscapedNewline(src, p) && EscapedNewline(src, p, StateAt(src, p).mode)
    ensures Literals(MaskOf(src)) != Literals(src)
  {
    hide StateAt, LiteralsTo, CommentsTo, JsAutomaton.Step, NoEscapedNewline;
    var out, st := MaskOf(src), StateAt(src, p);
    var k := |LiteralsTo(src, p)|;
    MaskSimulates(src, p);
    QuotesOnly(src, p);
    Moves(src, p);
    Moves(src, p + 1);
    Moves(out, p);
    Moves(out, p + 1);
    SplitSteps(src, out, p, st);
    LiteralsGrow(out, p + 2, |out|);
    assert Literals(out)[k] == Span(st.mode.from, p + 1);
    LiteralsGrow(src, p + 2, |src|);
  }

  lemma SplitSteps(src: string, out: string, p: nat, st: State)
    requires p + 1 < |src| <= |out| && EscapedNewline(src, p, st.mode) && ByQuotes(st.mode)
    requires Step(src, p, st).kind == InText ==> out[p] == ' '
    requires out[p + 1] == '\n'
    ensures Step(src, p, st).literals == []
    ensures var later := Step(src, p + 1, Step(src, p, st).next).literals;
            later == [] || later == [Span(st.mode.from, p + 2)]
    ensures var first, second := Step(out, p, Masked(st)), Step(out, p + 1, Step(out, p, Masked(st)).next);
            || first.literals == [Span(st.mode.from, p + 1)]
            || (first.literals == [] && second.literals == [Span(st.mode.from, p + 1)])
  {
    hide CodeStep, CommentStep, TokenStep, TemplateStep;
  }

  /** A source whose last string ends in a backslash: masking it makes it one character longer. */
  lemma FinalBackslashGrowsMask()
    ensures var src := "'\\"; Overrun(src, |src|) && MaskOf(src) == "'  " && |MaskOf(src)| == |src| + 1
  {
    hide StateAt, LiteralsTo, CommentsTo, JsAutomaton.Step, KindAt;
    var src := "'\\";
    StartsEmpty(src);
    OneStep(src, 0);
    assert StateAt(src, 1).mode == Quoted('\'', 1);
    QuotesOnly(src, 1);
    OverrunMove(src, 1, StateAt(src, 1));
    assert MoveAt(src, 1).kind == InText;
    KindOfMove(src, 1);
  }

  lemma KindOfMove(src: string, i: nat)
    requires i < |src|
    ensures KindAt(src, i) == MoveAt(src, i).kind
  {
    hide StateAt, JsAutomaton.Step;
  }

  /** Masking twice is masking once, unless a string or a regular expression holds an escaped newline. */
  lemma MaskIdempotent(src: string)
    requires NoEscapedNewline(src, |src|)
    ensures MaskOf(MaskOf(src)) == MaskOf(src)
  {
    hide LiteralsTo, CommentsTo, StateAt, JsAutomaton.Step;
    var out := MaskOf(src);
    MaskScans(src);
    if Overrun(out, |out|) {
      QuotesOnly(out, |out| - 1);
      OverrunMove(out, |out| - 1, StateAt(out, |out| - 1));
    }
  }

  /** With one it can differ: the quote that closed the string opens another in the masked text. */
  lemma EscapedNewlineUndoesMask()
    ensures var src := "'\\\n'x'"; MaskOf(MaskOf(src)) != MaskOf(src)
  {
    hide StateAt, KindAt, Overrun;
    var src := "'\\\n'x'";
    var out := MaskOf(src);
    EscapedNewlineKinds(src);
    assert out[0] == '\'' && out[1] == ' ' && out[2] == '\n' && out[3] == '\'' && out[4] == 'x';
    StringReopens(out);
    assert MaskOf(out)[4] == ' ';
  }

  /** It need not: where the literal would have ended anyway, masking stays idempotent, although the
      masked text's literals are not the source's. */
  lemma EscapedNewlineMayNotMatter()
    ensures var src := "'\\\n"; !NoEscapedNewline(src, |src|) && MaskOf(MaskOf(src)) == MaskOf(src)
  {
    hide StateAt, LiteralsTo, CommentsTo, JsAutomaton.Step, KindAt;
    var src := "'\\\n";
    StartsEmpty(src);
    OneStep(src, 0);
    OneStep(src, 1);
    assert EscapedNewline(src, 1, StateAt(src, 1).mode);
    LastStep(src, 2);
    var out := MaskOf(src);
    assert out == "' \n";
    StartsEmpty(out);
    OneStep(out, 0);
    OneStep(out, 1);
    LastStep(out, 2);
  }

  lemma LastStep(src: string, i: nat)
    requires i + 1 == |src| && (StateAt(src, i).mode.Quoted? || StateAt(src, i).mode.QuotedEscape?) && src[i] == '\n'
    ensures KindAt(src, i) == if StateAt(src, i).mode.Quoted? then Kept else InText
    ensures !Overrun(src, |src|)
  {
    hide StateAt, LiteralsTo, CommentsTo, CommentStep, RegexStep, TemplateStep, TokenStep, CodeStep;
  }

  lemma EscapedNewlineKinds(src: string)
    requires |src| > 5 && src[0] == '\'' && src[1] == '\\' && src[2] == '\n' && src[3] == '\'' && src[4] == 'x'
    ensures KindAt(src, 0) == KindAt(src, 3) == KindAt(src, 4) == Kept && KindAt(src, 1) == KindAt(src, 2) == InText
  {
    hide StateAt, LiteralsTo, CommentsTo, JsAutomaton.Step;
    StartsEmpty(src);
    OneStep(src, 0);
    OneStep(src, 1);
    OneStep(src, 2);
    OneStep(src, 3);
    OneStep(src, 4);
  }

  lemma StringReopens(out: string)
    requires |out| > 5 && out[0] == '\'' && out[1] == ' ' && out[2] == '\n' && out[3] == '\'' && out[4] == 'x'
    ensures KindAt(out, 4) == InText
  {
    hide StateAt, LiteralsTo, CommentsTo, JsAutomaton.Step;
    StartsEmpty(out);
    OneStep(out, 0);
    OneStep(out, 1);
    OneStep(out, 2);
    OneStep(out, 3);
    OneStep(out, 4);
  }

  /** How quotes, newlines and backslashes move the automaton in code and in a quoted string. */
  lemma OneStep(src: string, i: nat)
    requires i + 1 < |src|
    ensures var mode, c, next := StateAt(src, i).mode, src[i], StateAt(src, i + 1).mode;
            && (mode.Code? && c == '\'' ==> KindAt(src, i) == Kept && next == Quoted('\'', i + 1))
            && (mode.Code? && c == 'x' ==> KindAt(src, i) == Kept)
            && (mode.Quoted? && (c == mode.q || c == '\n') ==> KindAt(src, i) == Kept && next == Code)
            && (mode.Quoted? && c == '\\' != mode.q ==>
                   KindAt(src, i) == InText && next == QuotedEscape(mode.q, mode.from))
            && (mode.Quoted? && c !in {mode.q, '\n', '\\'} ==> KindAt(src, i) == InText && next == mode)
            && (mode.QuotedEscape? ==> KindAt(src, i) == InText && next == Quoted(mode.q, mode.from))
  {
    hide StateAt, LiteralsTo, CommentsTo, OperandExpected, CommentStep, RegexStep, TemplateStep, TokenStep;
    Moves(src, i);
  }
}
