/** Template substitutions: which `}` goes back to a template's text. */
module JsNesting {
  import opened Chars
  import opened JsAutomaton

  /** The depths to return to strictly increase, and the innermost is below the present depth. */
  ghost predicate Nested(resume: seq<int>, depth: int) {
    && (forall a, b :: 0 <= a < b < |resume| ==> resume[a] < resume[b])
    && (resume != [] ==> resume[|resume| - 1] < depth)
  }

  /** What the character at `i` does to the nesting: +1 for `${` and a code `{`, -1 for a code `}`. */
  ghost function Brace(src: string, i: nat): int
    requires i < |src|
  {
    var mode := StateAt(src, i).mode;
    if mode.Dollar? then 1
    else if mode.Code? && src[i] == '{' then 1
    else if mode.Code? && src[i] == '}' then -1
    else 0
  }

  /** The code braces from `p` up to `q`, counted. */
  ghost function Balance(src: string, p: nat, q: nat): int
    requires p <= q <= |src|
    decreases q
  {
    if p == q then 0 else Balance(src, p, q - 1) + Brace(src, q - 1)
  }

  /** How one transition changes the depth and the stack of depths. */
  lemma StepNests(src: string, i: nat)
    requires i < |src|
    requires Nested(StateAt(src, i).resume, StateAt(src, i).depth)
    ensures var st, next := StateAt(src, i), StateAt(src, i + 1);
            && Nested(next.resume, next.depth)
            && next.depth == st.depth + Brace(src, i)
            && next.resume == if st.mode.Dollar? then st.resume + [st.depth]
                              else if st.mode.Code? && src[i] == '}' && Resumes(st) then st.resume[..|st.resume| - 1]
                              else st.resume
  {
    hide StateAt, CommentsTo, LiteralsTo, CodeStep, CommentAt, IsSpace, IsWord, IsLetter,
         OperandExpected, Newlines, Slice;
    Moves(src, i);
    if StateAt(src, i).mode.Code? { CodeNests(src, i, StateAt(src, i)); }
  }

  lemma CodeNests(src: string, i: nat, st: State)
    requires i < |src|
    ensures var next := CodeStep(src, i, st).next;
            && next.depth == st.depth + (if src[i] == '{' then 1 else if src[i] == '}' then -1 else 0)
            && next.resume == if src[i] == '}' && Resumes(st) then st.resume[..|st.resume| - 1] else st.resume
  {
    hide OperandExpected;
  }

  /** In every run, on valid source or not, the stack of depths is strictly increasing and below the depth. */
  lemma {:induction false} NestedAt(src: string, i: nat)
    requires i <= |src|
    ensures Nested(StateAt(src, i).resume, StateAt(src, i).depth)
  {
    if i > 0 {
      NestedAt(src, i - 1);
      StepNests(src, i - 1);
    }
  }

  /** The number of open code braces inside each open substitution, outermost first: a counter per
      substitution instead of absolute depths. */
  ghost function OpenBraces(src: string, i: nat): seq<nat>
    requires i <= |src|
  {
    if i == 0 then [] else CountBrace(OpenBraces(src, i - 1), StateAt(src, i - 1).mode, src[i - 1])
  }

  ghost function CountBrace(open: seq<nat>, mode: Mode, c: char): seq<nat> {
    if mode.Dollar? then open + [0]
    else if !mode.Code? || open == [] || (c != '{' && c != '}') then open
    else
      var own := open[|open| - 1];
      if c == '{' then open[|open| - 1 := own + 1]
      else if own > 0 then open[|open| - 1 := own - 1]
      else open[..|open| - 1]
  }

  /** The depths and the counters say the same. */
  ghost predicate Counted(resume: seq<int>, depth: int, open: seq<nat>) {
    && |open| == |resume|
    && (forall k :: 0 <= k < |open| - 1 ==> open[k] == resume[k + 1] - resume[k] - 1)
    && (open != [] ==> open[|open| - 1] == depth - resume[|open| - 1] - 1)
  }

  lemma StartsInCode(src: string)
    ensures StateAt(src, 0) == START
  {
  }

  lemma {:induction false} CountedAt(src: string, i: nat)
    requires i <= |src|
    ensures Counted(StateAt(src, i).resume, StateAt(src, i).depth, OpenBraces(src, i))
  {
    hide JsAutomaton.Step, StateAt, CommentsTo, LiteralsTo;
    if i == 0 {
      assert StateAt(src, 0) == START by { StartsInCode(src); }
    } else {
      CountedAt(src, i - 1);
      NestedAt(src, i - 1);
      StepNests(src, i - 1);
      CountedStep(src, i - 1, OpenBraces(src, i - 1));
    }
  }

  lemma CountedStep(src: string, i: nat, open: seq<nat>)
    requires i < |src|
    requires var st := StateAt(src, i); Nested(st.resume, st.depth) && Counted(st.resume, st.depth, open)
    ensures var next := StateAt(src, i + 1);
            Counted(next.resume, next.depth, CountBrace(open, StateAt(src, i).mode, src[i]))
  {
    hide StateAt, JsAutomaton.Step;
    StepNests(src, i);
    var st, next := StateAt(src, i), StateAt(src, i + 1);
    var after := CountBrace(open, st.mode, src[i]);
    if st.mode.Dollar? {
      assert next.resume == st.resume + [st.depth];
    } else if open != [] && after != open {
      assert st.mode.Code?;
      assert forall k :: 0 <= k < |open| - 1 ==> k < |after| && after[k] == open[k];
    }
  }

  /** A `}` in code goes back to a template's text exactly when the innermost open substitution has
      no open brace of its own. */
  lemma ResumesAtOwnBrace(src: string, i: nat)
    requires i < |src|
    ensures Resumes(StateAt(src, i)) <==>
            OpenBraces(src, i) != [] && OpenBraces(src, i)[|OpenBraces(src, i)| - 1] == 0
  {
    hide StateAt, OpenBraces;
    CountedAt(src, i);
  }

  /** From the `{` of a `${` at `p` on, while the braces from there are not balanced, the substitution
      stays open and the depth counts them. */
  lemma {:induction false} SubstitutionStaysOpen(src: string, p: nat, q: nat)
    requires p < q <= |src| && StateAt(src, p).mode.Dollar?
    requires forall m :: p < m <= q ==> Balance(src, p, m) >= 1
    ensures StateAt(src, q).depth == StateAt(src, p).depth + Balance(src, p, q)
    ensures StateAt(src, p).resume + [StateAt(src, p).depth] <= StateAt(src, q).resume
    decreases q
  {
    hide StateAt, CommentsTo, LiteralsTo;
    NestedAt(src, q - 1);
    StepNests(src, q - 1);
    if q > p + 1 { SubstitutionStaysOpen(src, p, q - 1); }
  }

  /** The `}` that returns to the template is the one that balances its `${`: the first position at
      which the code braces from the `${` on cancel out, and no other. */
  lemma SubstitutionCloses(src: string, p: nat, q: nat)
    requires p < q < |src| && StateAt(src, p).mode.Dollar?
    requires forall m :: p < m <= q ==> Balance(src, p, m) >= 1
    ensures Balance(src, p, q + 1) == 0 <==> |StateAt(src, q + 1).resume| == |StateAt(src, p).resume|
    ensures Balance(src, p, q + 1) == 0 ==>
            && StateAt(src, q + 1).resume == StateAt(src, p).resume
            && StateAt(src, q + 1).depth == StateAt(src, p).depth
            && src[q] == '}'
            && (q + 1 < |src| ==> StateAt(src, q + 1).mode == Template(q + 1))
  {
    hide StateAt, CommentsTo, LiteralsTo;
    SubstitutionStaysOpen(src, p, q);
    NestedAt(src, q);
    StepNests(src, q);
    var st := StateAt(src, q);
    var outer := |StateAt(src, p).resume|;
    assert st.resume[outer] == StateAt(src, p).depth;
    assert |st.resume| > outer + 1 ==> st.resume[outer] < st.resume[|st.resume| - 1];
    if Balance(src, p, q + 1) == 0 && q + 1 < |src| {
      ResumedTemplate(src, q);
    }
  }

  lemma ResumedTemplate(src: string, q: nat)
    requires q + 1 < |src| && StateAt(src, q).mode.Code? && src[q] == '}' && Resumes(StateAt(src, q))
    ensures StateAt(src, q + 1).mode == Template(q + 1)
  {
    Moves(src, q);
  }
}
