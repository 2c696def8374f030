/** What a literal's text is, said of the source alone: it ends where the first thing stands that is
    not escaped and can end it. */
module JsLiterals {
  import opened Chars
  import opened JsAutomaton
  import opened JsSpans

  /** An odd number of backslashes stands right before `k` in the text from `from` on. */
  predicate Escaped(src: string, from: nat, k: nat)
    requires from <= k <= |src|
    decreases k
  {
    k > from && src[k - 1] == '\\' && !Escaped(src, from, k - 1)
  }

  /** `k` is inside a character class of the regular expression whose text begins at `from`. */
  predicate InClass(src: string, from: nat, k: nat)
    requires from <= k <= |src|
    decreases k
  {
    k > from &&
    if Escaped(src, from, k - 1) then InClass(src, from, k - 1)
    else src[k - 1] == '[' || (InClass(src, from, k - 1) && src[k - 1] != ']')
  }

  /** The text from `from` on, opened by the character before it, ends at `k` if it gets there: a string
      at its quote or a newline, a regular expression at a newline or a `/` outside a class, a piece of
      a template at a backtick or a substitution - none of them escaped. */
  predicate Stops(src: string, from: nat, k: nat)
    requires 0 < from <= k < |src|
  {
    var open, c := src[from - 1], src[k];
    && !Escaped(src, from, k)
    && if open == '\'' || open == '"' then c == open || c == '\n'
       else if open == '/' then c == '\n' || (c == '/' && !InClass(src, from, k))
       else c == '`' || (c == '$' && Next?(src, k, '{'))
  }

  ghost predicate NoStop(src: string, from: nat, end: nat)
    requires 0 < from
  {
    forall k :: from <= k < end && k < |src| ==> !Stops(src, from, k)
  }

  /** A literal as the source has it: from behind the character that opens it to the first that stops it,
      to the end of the source, or one further when that is escaped. */
  ghost predicate LiteralRead(src: string, l: Span) {
    && 0 < l.start <= l.end && l.start <= |src| && src[l.start - 1] in "'\"/`}"
    && NoStop(src, l.start, l.end)
    && if l.end < |src| then Stops(src, l.start, l.end)
       else l.end == if Escaped(src, l.start, |src|) then |src| + 1 else |src|
  }

  /** What has been seen of the open literal at `i`. */
  ghost predicate OpenLiteral(src: string, i: nat, mode: Mode) {
    mode.Text?() ==>
      var from := mode.from;
      && 0 < from <= i < |src| && NoStop(src, from, i)
      && (mode.Escape?() <==> Escaped(src, from, i))
      && (mode.Quoted? || mode.QuotedEscape? ==> src[from - 1] == mode.q && mode.q in "'\"")
      && (mode.Template? || mode.TemplateEscape? ==> src[from - 1] in "`}")
      && (mode.Regex? || mode.RegexEscape? ==> src[from - 1] == '/' && (mode.inClass <==> InClass(src, from, i)))
      && (mode.Regex? ==> src[i] != '\n')
  }

  ghost predicate ReadsLiteral(src: string, i: nat, m: Move) {
    OpenLiteral(src, i + 1, m.next.mode) && forall l <- m.literals :: LiteralRead(src, l)
  }

  lemma NoStopFurther(src: string, from: nat, i: nat)
    requires 0 < from <= i < |src| && NoStop(src, from, i)
    ensures NoStop(src, from, i + 1) <==> !Stops(src, from, i)
    ensures i + 1 == |src| ==> (NoStop(src, from, i + 2) <==> NoStop(src, from, i + 1))
  {
  }

  /** A literal's text has just begun. */
  lemma Begins(src: string, from: nat)
    requires 0 < from <= |src|
    ensures NoStop(src, from, from) && !Escaped(src, from, from) && !InClass(src, from, from)
  {
  }

  lemma QuotedReads(src: string, i: nat, st: State)
    requires i < |src| && (st.mode.Quoted? || st.mode.QuotedEscape?) && OpenLiteral(src, i, st.mode)
    ensures ReadsLiteral(src, i, QuotedStep(src, i, st))
  {
    hide InClass, NoStop;
    NoStopFurther(src, st.mode.from, i);
  }

  lemma TemplateReads(src: string, i: nat, st: State)
    requires i < |src| && (st.mode.Template? || st.mode.TemplateEscape?) && OpenLiteral(src, i, st.mode)
    ensures ReadsLiteral(src, i, TemplateStep(src, i, st))
  {
    hide InClass, NoStop;
    NoStopFurther(src, st.mode.from, i);
  }

  lemma RegexReads(src: string, i: nat, st: State)
    requires i < |src| && (st.mode.Regex? || st.mode.RegexEscape?) && OpenLiteral(src, i, st.mode)
    ensures ReadsLiteral(src, i, RegexStep(src, i, st))
  {
    hide NoStop, IsLetter;
    NoStopFurther(src, st.mode.from, i);
  }

  lemma CodeReads(src: string, i: nat, st: State)
    requires i < |src| && st.mode.Code?
    ensures ReadsLiteral(src, i, CodeStep(src, i, st))
  {
    hide OperandExpected, IsSpace, IsWord, NoStop, Escaped, InClass;
    Begins(src, i + 1);
  }

  lemma StepReads(src: string, i: nat, st: State)
    requires i < |src| && OpenLiteral(src, i, st.mode)
    ensures ReadsLiteral(src, i, Step(src, i, st))
  {
    hide CodeStep, QuotedStep, TemplateStep, RegexStep, LiteralRead, IsWord, IsLetter, CommentAt;
    if st.mode.Code? {
      CodeReads(src, i, st);
    } else if st.mode.Quoted? || st.mode.QuotedEscape? {
      QuotedReads(src, i, st);
    } else if st.mode.Template? || st.mode.TemplateEscape? {
      TemplateReads(src, i, st);
    } else if st.mode.Regex? || st.mode.RegexEscape? {
      RegexReads(src, i, st);
    }
  }

  lemma {:induction false} LiteralsReadTo(src: string, i: nat)
    requires i <= |src|
    ensures OpenLiteral(src, i, StateAt(src, i).mode)
    ensures forall l <- LiteralsTo(src, i) :: LiteralRead(src, l)
  {
    hide StateAt, CommentsTo, LiteralsTo, JsAutomaton.Step, LiteralRead;
    if i == 0 {
      StartsEmpty(src);
    } else {
      LiteralsReadTo(src, i - 1);
      Moves(src, i - 1);
      StepReads(src, i - 1, StateAt(src, i - 1));
    }
  }

  /** Every reported literal, in every source, ends at the first character that is not escaped and ends a
      literal of its kind, else at the end of the source. */
  lemma LiteralsRead(src: string)
    ensures forall l <- Literals(src) :: LiteralRead(src, l)
  {
    LiteralsReadTo(src, |src|);
  }
}
