/** Printing a token tree and scanning the text gives back exactly the tree's spans. */
module JsRoundTrip {
  import opened Chars
  import opened JsAutomaton
  import opened JsNesting
  import opened JsTokens
  import opened JsSpans
  import opened Wrappers

  /** From `p` to `q` the automaton goes to `st` and finds these literals and comments. */
  ghost predicate Runs(src: string, p: nat, q: nat, st: State, ls: seq<Span>, cs: seq<Comment>) {
    && p <= q <= |src|
    && StateAt(src, q) == st
    && LiteralsTo(src, q) == LiteralsTo(src, p) + ls
    && CommentsTo(src, q) == CommentsTo(src, p) + cs
  }

  /** The same without finding anything. */
  ghost predicate Passes(src: string, p: nat, q: nat, st: State) {
    && p <= q <= |src|
    && StateAt(src, q) == st
    && LiteralsTo(src, q) == LiteralsTo(src, p)
    && CommentsTo(src, q) == CommentsTo(src, p)
  }

  lemma LineAfter(src: string, s: string, p: nat)
    requires OccursAt(src, s, p)
    ensures Newlines(src[..p + |s|]) == Newlines(src[..p]) + Newlines(s)
  {
    assert src[..p + |s|] == src[..p] + s;
    NewlinesConcat(src[..p], s);
  }

  // --- what the scanner remembers, and the token before ---

  /** What the scanner remembers of the code before a token. */
  datatype Context = Context(last: string, word: string)

  function ContextAfter(t: Token, ctx: Context): Context {
    match t
    case Name(name) => if name == "" then ctx else Context([name[|name| - 1]], name)
    case Sign(c) => Context([c], "")
    case Str(q, _) => Context([q], "")
    case Rx(_, _) => Context("/", "")
    case Braces(_) => Context("}", "")
    case Tpl(_, _) => Context("`", "")
    case _ => ctx
  }

  /** Whether the scanner, remembering `ctx`, takes the divisions and regular expressions of `t` for such. */
  predicate Taken(t: Token, ctx: Context) {
    match t
    case Sign(c) => c == '/' ==> !OperandExpected(ctx.last, ctx.word)
    case Rx(_, _) => OperandExpected(ctx.last, ctx.word)
    case Braces(inner) => AllTaken(inner, Context("{", ""))
    case Tpl(_, subs) => SubsTaken(subs)
    case _ => true
  }

  predicate AllTaken(ts: Tokens, ctx: Context) {
    ts.Nil? || (Taken(ts.first, ctx) && AllTaken(ts.rest, ContextAfter(ts.first, ctx)))
  }

  predicate SubsTaken(subs: Subs) {
    subs.Done? || (AllTaken(subs.code, Context("{", "")) && SubsTaken(subs.more))
  }

  function ContextOf(before: Option<Token>): Context {
    match before
    case None => Context("", "")
    case Some(t) => ContextAfter(t, Context("", ""))
  }

  predicate Significant(before: Option<Token>) {
    before.Some? ==>
      && !before.value.Gap? && !before.value.LineNote? && !before.value.BlockNote?
      && (before.value.Name? ==>
            var name := before.value.name; name != "" && forall k :: 0 <= k < |name| ==> IsWord(name[k]))
      && (before.value.Sign? ==> !IsWord(before.value.c))
      && (before.value.Str? ==> before.value.q in "'\"")
  }

  /** The scanner's rule is the one about tokens. */
  lemma SlashRule(before: Option<Token>)
    requires Significant(before)
    ensures OperandExpected(ContextOf(before).last, ContextOf(before).word) <==> !DivisionFollows(before)
  {
  }

  lemma LatestContext(t: Token, before: Option<Token>, next: string)
    requires Fits(t, next) && Significant(before)
    ensures Significant(Latest(t, before)) && ContextOf(Latest(t, before)) == ContextAfter(t, ContextOf(before))
  {
    hide FitAll, FitSubs, RegexText, QuotedText, TemplateText, IsSpace, IsLetter;
  }

  lemma {:induction false} TokenMeant(t: Token, before: Option<Token>, next: string)
    requires Fits(t, next) && Meant(t, before) && Significant(before)
    ensures Taken(t, ContextOf(before))
    decreases t
  {
    hide OperandExpected, DivisionFollows, RegexText, QuotedText, TemplateText, IsSpace, IsLetter;
    SlashRule(before);
    BraceBefore();
    match t
    case Braces(inner) => TokensMeant(inner, Some(Sign('{')), "}");
    case Tpl(_, subs) => SubstitutionsMeant(subs);
    case _ =>
  }

  lemma BraceBefore()
    ensures Significant(Some(Sign('{'))) && ContextOf(Some(Sign('{'))) == Context("{", "")
  {
  }

  /** A tree whose slashes stand where the tokens have them is taken by the scanner as it is meant. */
  lemma {:induction false} TokensMeant(ts: Tokens, before: Option<Token>, next: string)
    requires FitAll(ts, next) && AllMeant(ts, before) && Significant(before)
    ensures AllTaken(ts, ContextOf(before))
    decreases ts
  {
    hide Fits, Meant, Taken, Significant, ContextOf, ContextAfter, Latest;
    if ts.Cons? {
      TokenMeant(ts.first, before, PrintAll(ts.rest) + next);
      LatestContext(ts.first, before, PrintAll(ts.rest) + next);
      TokensMeant(ts.rest, Latest(ts.first, before), next);
    }
  }

  lemma {:induction false} SubstitutionsMeant(subs: Subs)
    requires FitSubs(subs) && SubsMeant(subs)
    ensures SubsTaken(subs)
    decreases subs
  {
    hide FitAll, AllMeant, AllTaken, Significant, ContextOf;
    if subs.Sub? {
      BraceBefore();
      TokensMeant(subs.code, Some(Sign('{')), "}");
      SubstitutionsMeant(subs.more);
    }
  }

  // --- texts ---

  lemma {:induction false} QuotedRuns(src: string, p: nat, t: seq<Piece>)
    requires OccursAt(src, PrintText(t), p) && p + |PrintText(t)| < |src|
    requires var mode := StateAt(src, p).mode; mode.Quoted? && mode.q in "'\"" && QuotedText(mode.q, t)
    ensures Passes(src, p, p + |PrintText(t)|, StateAt(src, p))
    decreases |t|
  {
    hide StateAt, LiteralsTo, CommentsTo, JsAutomaton.Step, OccursAt;
    if t != [] {
      var head := if t[0].Plain? then [t[0].c] else ['\\', t[0].c];
      assert PrintText(t) == head + PrintText(t[1..]);
      QuotedPiece(src, p, t);
      QuotedRuns(src, p + |head|, t[1..]);
    } else {
      OccursSomewhere(src, "", p);
    }
  }

  lemma QuotedPiece(src: string, p: nat, t: seq<Piece>)
    requires t != [] && OccursAt(src, PrintText(t), p) && p + |PrintText(t)| < |src|
    requires var mode := StateAt(src, p).mode; mode.Quoted? && mode.q in "'\"" && QuotedText(mode.q, t)
    ensures var q := p + |PrintText(t)| - |PrintText(t[1..])|;
            Passes(src, p, q, StateAt(src, p)) && OccursAt(src, PrintText(t[1..]), q)
  {
    hide StateAt, LiteralsTo, CommentsTo, CodeStep, CommentStep, TemplateStep, RegexStep, TokenStep;
    var head := if t[0].Plain? then [t[0].c] else ['\\', t[0].c];
    OccursInParts(src, head, PrintText(t[1..]), p);
    assert src[p..p + |head|][0] == head[0];
    Moves(src, p);
    if t[0].Escaped? { Moves(src, p + 1); }
  }

  lemma TemplateTextTail(t: seq<Piece>)
    requires t != [] && TemplateText(t)
    ensures TemplateText(t[1..])
  {
    forall k | 0 <= k < |t[1..]| - 1
      ensures t[1..][k] != Plain('$') || t[1..][k + 1] != Plain('{')
    {
      assert t[1..][k] == t[k + 1] && t[1..][k + 1] == t[k + 1 + 1];
    }
  }

  lemma {:induction false} TemplateRuns(src: string, p: nat, t: seq<Piece>)
    requires OccursAt(src, PrintText(t), p) && p + |PrintText(t)| < |src| && src[p + |PrintText(t)|] != '{'
    requires StateAt(src, p).mode.Template? && TemplateText(t)
    ensures Passes(src, p, p + |PrintText(t)|, StateAt(src, p))
    decreases |t|
  {
    hide StateAt, LiteralsTo, CommentsTo, JsAutomaton.Step, TemplateText, OccursAt;
    if t != [] {
      var head := if t[0].Plain? then [t[0].c] else ['\\', t[0].c];
      assert PrintText(t) == head + PrintText(t[1..]);
      TemplatePiece(src, p, t);
      TemplateRuns(src, p + |head|, t[1..]);
    } else {
      OccursSomewhere(src, "", p);
    }
  }

  lemma TemplatePiece(src: string, p: nat, t: seq<Piece>)
    requires t != [] && OccursAt(src, PrintText(t), p)
    requires p + |PrintText(t)| < |src| && src[p + |PrintText(t)|] != '{'
    requires StateAt(src, p).mode.Template? && TemplateText(t)
    ensures var q := p + |PrintText(t)| - |PrintText(t[1..])|;
            Passes(src, p, q, StateAt(src, p)) && OccursAt(src, PrintText(t[1..]), q) && TemplateText(t[1..])
  {
    hide StateAt, LiteralsTo, CommentsTo, CodeStep, CommentStep, QuotedStep, RegexStep, TokenStep;
    var head := if t[0].Plain? then [t[0].c] else ['\\', t[0].c];
    OccursInParts(src, head, PrintText(t[1..]), p);
    assert src[p..p + |head|][0] == head[0];
    if t[1..] != [] {
      assert src[p + |head|] == PrintText(t[1..])[0];
      assert t[1..][0] == t[1];
    }
    Moves(src, p);
    if t[0].Escaped? { Moves(src, p + 1); }
    TemplateTextTail(t);
  }

  lemma {:induction false} RegexRuns(src: string, p: nat, t: seq<Piece>)
    requires OccursAt(src, PrintText(t), p) && p + |PrintText(t)| < |src| && src[p + |PrintText(t)|] == '/'
    requires StateAt(src, p).mode.Regex? && RegexText(t, StateAt(src, p).mode.inClass)
    ensures Passes(src, p, p + |PrintText(t)|, InMode(StateAt(src, p), Regex(false, StateAt(src, p).mode.from)))
    decreases |t|
  {
    hide StateAt, LiteralsTo, CommentsTo, CodeStep, CommentStep, QuotedStep, TemplateStep, TokenStep;
    if t != [] {
      var head := if t[0].Plain? then [t[0].c] else ['\\', t[0].c];
      OccursInParts(src, head, PrintText(t[1..]), p);
      assert src[p..p + |head|][0] == head[0];
      if t[1..] != [] { assert src[p + |head|] == PrintText(t[1..])[0] != '\n'; }
      Moves(src, p);
      if t[0].Escaped? { Moves(src, p + 1); }
      RegexRuns(src, p + |head|, t[1..]);
    }
  }

  lemma {:induction false} FlagsRun(src: string, p: nat, flags: string)
    requires OccursAt(src, flags, p) && forall k :: 0 <= k < |flags| ==> IsLetter(flags[k])
    requires p + |flags| < |src| ==> !IsLetter(src[p + |flags|])
    requires StateAt(src, p).mode == if flags == "" then Code else Flags
    ensures Passes(src, p, p + |flags|, InMode(StateAt(src, p), Code))
    decreases |flags|
  {
    hide StateAt, LiteralsTo, CommentsTo, CodeStep, CommentStep, QuotedStep, TemplateStep, RegexStep,
         IsLetter;
    if flags != "" {
      assert flags == [flags[0]] + flags[1..];
      OccursInParts(src, [flags[0]], flags[1..], p);
      if flags[1..] != "" { assert src[p + 1] == flags[1]; }
      Moves(src, p);
      FlagsRun(src, p + 1, flags[1..]);
    }
  }

  /** The rest of a name whose first characters have been read. */
  lemma {:induction false} NameRuns(src: string, p: nat, name: string)
    requires OccursAt(src, name, p) && forall k :: 0 <= k < |name| ==> IsWord(name[k])
    requires p + |name| < |src| ==> !IsWord(src[p + |name|])
    requires StateAt(src, p).mode == if name == "" then Code else Word
    ensures var st := StateAt(src, p);
            Passes(src, p, p + |name|,
                   if name == "" then st else State(Code, [name[|name| - 1]], st.word + name, st.depth, st.resume))
    decreases |name|
  {
    hide StateAt, LiteralsTo, CommentsTo, CodeStep, CommentStep, QuotedStep, TemplateStep, RegexStep, IsWord;
    if name != "" {
      assert name == [name[0]] + name[1..];
      OccursInParts(src, [name[0]], name[1..], p);
      if name[1..] != "" { assert src[p + 1] == name[1]; }
      Moves(src, p);
      NameRuns(src, p + 1, name[1..]);
      assert StateAt(src, p).word + [name[0]] + name[1..] == StateAt(src, p).word + name;
    }
  }

  lemma {:induction false} LineNoteRuns(src: string, p: nat, text: string)
    requires OccursAt(src, text, p) && '\n' !in text && text != ""
    requires p + |text| < |src| ==> src[p + |text|] == '\n'
    requires StateAt(src, p).mode.LineComment?
    ensures var st := StateAt(src, p);
            Runs(src, p, p + |text|, InMode(st, Code), [], [CommentAt(src, st.mode.from, p + |text|, 0)])
    decreases |text|
  {
    hide StateAt, LiteralsTo, CommentsTo, CodeStep, TokenStep, QuotedStep, TemplateStep, RegexStep, CommentAt;
    assert text == [text[0]] + text[1..];
    OccursInParts(src, [text[0]], text[1..], p);
    Moves(src, p);
    if text[1..] != "" {
      assert src[p + 1] == text[1] != '\n';
      LineNoteRuns(src, p + 1, text[1..]);
    }
  }

  // --- tokens ---

  /** Only the first character of what follows a token matters to it. */
  ghost predicate SameNext(a: string, b: string) {
    (a == "" <==> b == "") && (a != "" && b != "" ==> a[0] == b[0])
  }

  ghost function Remembered(st: State): Context {
    Context(st.last, st.word)
  }

  ghost function InCodeAfter(st: State, ctx: Context): State {
    State(Code, ctx.last, ctx.word, st.depth, st.resume)
  }

  ghost function AfterAll(ts: Tokens, ctx: Context): Context {
    if ts.Nil? then ctx else AfterAll(ts.rest, ContextAfter(ts.first, ctx))
  }

  ghost function LineOf(src: string, p: nat): nat {
    if p <= |src| then 1 + Newlines(src[..p]) else 1
  }

  ghost predicate TokenRuns(src: string, p: nat, t: Token)
    requires p <= |src|
  {
    var st := StateAt(src, p);
    Runs(src, p, p + |Print(t)|, InCodeAfter(st, ContextAfter(t, Remembered(st))),
         LiteralsOf(t, p), CommentsOf(t, p, LineOf(src, p)))
  }

  ghost predicate TokensRun(src: string, p: nat, ts: Tokens)
    requires p <= |src|
  {
    var st := StateAt(src, p);
    Runs(src, p, p + |PrintAll(ts)|, InCodeAfter(st, AfterAll(ts, Remembered(st))),
         LiteralsOfAll(ts, p), CommentsOfAll(ts, p, LineOf(src, p)))
  }

  lemma SignRuns(src: string, p: nat, t: Token)
    requires t.Gap? || t.Sign?
    requires OccursAt(src, Print(t), p) && StateAt(src, p).mode.Code?
    requires Fits(t, Ahead(src, p + |Print(t)|)) && Taken(t, Remembered(StateAt(src, p)))
    ensures TokenRuns(src, p, t)
  {
    hide StateAt, LiteralsTo, CommentsTo, JsAutomaton.Step, OperandExpected, IsSpace, IsWord, Newlines,
         OccursAt;
    OccursChar(src, t.c, p);
    if t.Gap? { GapPasses(src, p); } else { SignPasses(src, p); }
  }

  lemma GapPasses(src: string, p: nat)
    requires p < |src| && IsSpace(src[p]) && StateAt(src, p).mode.Code?
    ensures Passes(src, p, p + 1, StateAt(src, p))
  {
    hide StateAt, LiteralsTo, CommentsTo, OperandExpected, CommentStep, QuotedStep, TemplateStep,
         RegexStep, TokenStep;
    SpaceIsNoDelimiter(src[p]);
    hide IsSpace;
    Moves(src, p);
  }

  lemma SpaceIsNoDelimiter(c: char)
    requires IsSpace(c)
    ensures c != '/' && c != '\'' && c != '"' && c != '`' && c != '}'
  {
  }

  lemma SignPasses(src: string, p: nat)
    requires p < |src| && !IsSpace(src[p]) && !IsWord(src[p]) && src[p] !in "'\"`{}" && StateAt(src, p).mode.Code?
    requires var st := StateAt(src, p);
             src[p] == '/' ==> !OperandExpected(st.last, st.word) && !Next?(src, p, '/') && !Next?(src, p, '*')
    ensures var st := StateAt(src, p); Passes(src, p, p + 1, State(Code, [src[p]], "", st.depth, st.resume))
  {
    hide StateAt, LiteralsTo, CommentsTo, OperandExpected, CommentStep, QuotedStep, TemplateStep,
         RegexStep, TokenStep,
         IsSpace, IsWord;
    Moves(src, p);
  }

  lemma NameTokenRuns(src: string, p: nat, t: Token)
    requires t.Name?
    requires OccursAt(src, Print(t), p) && StateAt(src, p).mode.Code?
    requires Fits(t, Ahead(src, p + |Print(t)|)) && Taken(t, Remembered(StateAt(src, p)))
    ensures TokenRuns(src, p, t)
  {
    hide StateAt, LiteralsTo, CommentsTo, OperandExpected, IsWord, IsSpace, CommentStep, QuotedStep,
         TemplateStep, RegexStep, PrintText, RegexText, PrintAll, PrintSubs, FitAll, FitSubs,
         LiteralsOfAll, LiteralsOfSubs, CommentsOfAll, CommentsOfSubs, Newlines;
    var name := t.name;
    assert name == [name[0]] + name[1..];
    OccursInParts(src, [name[0]], name[1..], p);
    assert src[p] == name[0];
    if name[1..] != "" { assert src[p + 1] == name[1]; }
    WordIsPlain(src[p]);
    Moves(src, p);
    NameRuns(src, p + 1, name[1..]);
  }

  lemma BlockTokenRuns(src: string, p: nat, t: Token)
    requires t.BlockNote?
    requires OccursAt(src, Print(t), p) && StateAt(src, p).mode.Code?
    requires Fits(t, Ahead(src, p + |Print(t)|)) && Taken(t, Remembered(StateAt(src, p)))
    ensures TokenRuns(src, p, t)
  {
    hide StateAt, LiteralsTo, CommentsTo, JsAutomaton.Step, IndexOf, PrintText, RegexText, PrintAll,
         PrintSubs, FitAll, FitSubs, LiteralsOfAll, LiteralsOfSubs, CommentsOfAll, CommentsOfSubs,
         Newlines;
    var end := p + 4 + |t.text|;
    OccursInParts(src, "/*", t.text + "*/", p);
    OccursInParts(src, t.text, "*/", p + 2);
    BlockNoteEnds(src, p, t.text);
    BlockCommentRun(src, p, end);
    assert src[0..p] == src[..p] && Slice(src, p + 2, end - 2) == t.text;
  }

  lemma LineTokenRuns(src: string, p: nat, t: Token)
    requires t.LineNote?
    requires OccursAt(src, Print(t), p) && StateAt(src, p).mode.Code?
    requires Fits(t, Ahead(src, p + |Print(t)|)) && Taken(t, Remembered(StateAt(src, p)))
    ensures TokenRuns(src, p, t)
  {
    hide StateAt, LiteralsTo, CommentsTo, JsAutomaton.Step, PrintText, RegexText, PrintAll, PrintSubs,
         FitAll, FitSubs, LiteralsOfAll, LiteralsOfSubs, CommentsOfAll, CommentsOfSubs, Newlines,
         OccursAt, Slice;
    var end := p + 2 + |t.text|;
    PartAt(src, p, "//", t.text);
    OccursPair(src, '/', '/', p);
    LineNoteOpens(src, p);
    if t.text != "" { LineNoteRuns(src, p + 2, t.text); }
    OccursSlice(src, t.text, p + 2);
    OccursSlice(src, "//", p);
  }

  lemma LineNoteOpens(src: string, p: nat)
    requires p + 1 < |src| && src[p] == '/' && src[p + 1] == '/' && StateAt(src, p).mode.Code?
    ensures var st := StateAt(src, p);
            if LineEnds(src, p + 1) then Runs(src, p, p + 2, st, [], [CommentAt(src, p, p + 2, 0)])
            else Passes(src, p, p + 2, InMode(st, LineComment(p)))
  {
    hide StateAt, LiteralsTo, CommentsTo, OperandExpected, QuotedStep, TemplateStep, RegexStep,
         TokenStep, CommentAt;
    Moves(src, p);
    Moves(src, p + 1);
  }

  lemma StringTokenRuns(src: string, p: nat, t: Token)
    requires t.Str?
    requires OccursAt(src, Print(t), p) && StateAt(src, p).mode.Code?
    requires Fits(t, Ahead(src, p + |Print(t)|)) && Taken(t, Remembered(StateAt(src, p)))
    ensures TokenRuns(src, p, t)
  {
    hide StateAt, LiteralsTo, CommentsTo, JsAutomaton.Step, OperandExpected, RegexText, PrintAll,
         PrintSubs, FitAll, FitSubs, LiteralsOfAll, LiteralsOfSubs, CommentsOfAll, CommentsOfSubs,
         Newlines;
    OccursInParts(src, [t.q], PrintText(t.body) + [t.q], p);
    OccursInParts(src, PrintText(t.body), [t.q], p + 1);
    var q := p + 1 + |PrintText(t.body)|;
    assert src[p] == src[p..p + 1][0] && src[q] == src[q..q + 1][0];
    QuoteOpens(src, p);
    QuotedRuns(src, p + 1, t.body);
    QuoteCloses(src, q);
  }

  lemma QuoteOpens(src: string, p: nat)
    requires p + 1 < |src| && src[p] in "'\"" && StateAt(src, p).mode.Code?
    ensures Passes(src, p, p + 1, InMode(StateAt(src, p), Quoted(src[p], p + 1)))
  {
    hide StateAt, LiteralsTo, CommentsTo, OperandExpected;
    Moves(src, p);
  }

  lemma QuoteCloses(src: string, q: nat)
    requires q < |src| && StateAt(src, q).mode.Quoted? && src[q] == StateAt(src, q).mode.q
    ensures var st := StateAt(src, q);
            Runs(src, q, q + 1, JsAutomaton.After(st, Code, src[q]), [Span(st.mode.from, q)], [])
  {
    hide StateAt, LiteralsTo, CommentsTo;
    Moves(src, q);
  }

  lemma RegexOpens(src: string, p: nat)
    requires p + 1 < |src| && src[p] == '/' && src[p + 1] != '/' && src[p + 1] != '*' && src[p + 1] != '\n'
    requires var st := StateAt(src, p); st.mode.Code? && OperandExpected(st.last, st.word)
    ensures Passes(src, p, p + 1, InMode(StateAt(src, p), Regex(false, p + 1)))
  {
    hide StateAt, LiteralsTo, CommentsTo, OperandExpected;
    Moves(src, p);
  }

  lemma RegexCloses(src: string, q: nat)
    requires q < |src| && src[q] == '/'
    requires var mode := StateAt(src, q).mode; mode.Regex? && !mode.inClass
    ensures var st := StateAt(src, q);
            Runs(src, q, q + 1, JsAutomaton.After(st, if NextIsLetter(src, q) then Flags else Code, '/'),
                 [Span(st.mode.from, q)], [])
  {
    hide StateAt, LiteralsTo, CommentsTo;
    Moves(src, q);
  }

  lemma RegexTokenRuns(src: string, p: nat, t: Token)
    requires t.Rx?
    requires OccursAt(src, Print(t), p) && StateAt(src, p).mode.Code?
    requires Fits(t, Ahead(src, p + |Print(t)|)) && Taken(t, Remembered(StateAt(src, p)))
    ensures TokenRuns(src, p, t)
  {
    hide StateAt, LiteralsTo, CommentsTo, JsAutomaton.Step, OperandExpected, IsLetter, IsWord,
         PrintText, RegexText, PrintAll, PrintSubs, FitAll, FitSubs, LiteralsOfAll, LiteralsOfSubs,
         CommentsOfAll, CommentsOfSubs, Newlines, OccursAt;
    var body := PrintText(t.body);
    var q := p + 1 + |body|;
    PartAt(src, p, "/", body + ("/" + t.flags));
    PartAt(src, p + 1, body, "/" + t.flags);
    PartAt(src, q, "/", t.flags);
    RegexFirst(t.body);
    RegexOpens(src, p);
    RegexRuns(src, p + 1, t.body);
    RegexCloses(src, q);
    FlagsRun(src, q + 1, t.flags);
  }

  // --- trees ---

  /** A brace pair, a template or a substitution opens and closes. */
  lemma BraceSteps(src: string, p: nat)
    requires p < |src| && StateAt(src, p).mode.Code?
    ensures var st := StateAt(src, p);
            && (src[p] == '{' ==> Passes(src, p, p + 1, State(Code, "{", "", st.depth + 1, st.resume)))
            && (src[p] == '}' && !Resumes(st) ==> Passes(src, p, p + 1, State(Code, "}", "", st.depth - 1, st.resume)))
            && (src[p] == '`' && p + 1 < |src| ==> Passes(src, p, p + 1, InMode(st, Template(p + 1))))
            && (src[p] == '}' && Resumes(st) && p + 1 < |src| ==>
                  Passes(src, p, p + 1,
                         State(Template(p + 1), st.last, st.word, st.depth - 1, st.resume[..|st.resume| - 1])))
  {
    hide StateAt, LiteralsTo, CommentsTo, OperandExpected, CommentStep, QuotedStep, TemplateStep,
         RegexStep, TokenStep;
    BraceIsNoSpace();
    hide IsSpace, IsWord;
    Moves(src, p);
  }

  lemma BraceIsNoSpace()
    ensures !IsSpace('{') && !IsSpace('}') && !IsWord('{') && !IsWord('}')
  {
  }

  lemma TemplateStops(src: string, p: nat)
    requires p < |src| && StateAt(src, p).mode.Template?
    ensures var st := StateAt(src, p);
            && (src[p] == '`' ==>
                  Runs(src, p, p + 1, JsAutomaton.After(st, Code, '`'), [Span(st.mode.from, p)], []))
            && (OccursAt(src, "${", p) ==>
                  Runs(src, p, p + 2, State(Code, "{", "", st.depth + 1, st.resume + [st.depth]),
                       [Span(st.mode.from, p)], []))
  {
    hide StateAt, LiteralsTo, CommentsTo;
    Moves(src, p);
    if OccursAt(src, "${", p) {
      assert src[p..p + 2][0] == '$' && src[p..p + 2][1] == '{';
      Moves(src, p + 1);
    }
  }

  lemma TokenScans(src: string, p: nat, t: Token)
    requires OccursAt(src, Print(t), p) && StateAt(src, p).mode.Code?
    requires Nested(StateAt(src, p).resume, StateAt(src, p).depth)
    requires Fits(t, Ahead(src, p + |Print(t)|)) && Taken(t, Remembered(StateAt(src, p)))
    ensures TokenRuns(src, p, t)
    decreases t
  {
    hide StateAt, LiteralsTo, CommentsTo, OperandExpected, IsSpace, IsWord, IsLetter, PrintText;
    match t
    case Gap(_) => SignRuns(src, p, t);
    case Sign(_) => SignRuns(src, p, t);
    case Name(_) => NameTokenRuns(src, p, t);
    case LineNote(_) => LineTokenRuns(src, p, t);
    case BlockNote(_) => BlockTokenRuns(src, p, t);
    case Str(_, _) => StringTokenRuns(src, p, t);
    case Rx(_, _) => RegexTokenRuns(src, p, t);
    case Braces(inner) => BracesScan(src, p, inner);
    case Tpl(head, subs) => TemplateScans(src, p, head, subs);
  }

  lemma BracesScan(src: string, p: nat, inner: Tokens)
    requires OccursAt(src, Print(Braces(inner)), p) && StateAt(src, p).mode.Code?
    requires Nested(StateAt(src, p).resume, StateAt(src, p).depth)
    requires FitAll(inner, "}") && AllTaken(inner, Context("{", ""))
    ensures TokenRuns(src, p, Braces(inner))
    decreases inner, 2
  {
    hide StateAt, LiteralsTo, CommentsTo, JsAutomaton.Step, PrintAll, FitAll, AllTaken, OccursAt,
         Newlines, LineOf;
    DelimitersStayOnTheLine();
    PartAt(src, p, "{", PrintAll(inner) + "}");
    PartAt(src, p + 1, PrintAll(inner), "}");
    BraceSteps(src, p);
    AllScan(src, p + 1, inner, "}");
    BraceSteps(src, p + 1 + |PrintAll(inner)|);
  }

  lemma TemplateScans(src: string, p: nat, head: seq<Piece>, subs: Subs)
    requires OccursAt(src, Print(Tpl(head, subs)), p) && StateAt(src, p).mode.Code?
    requires Nested(StateAt(src, p).resume, StateAt(src, p).depth)
    requires TemplateText(head) && FitSubs(subs) && SubsTaken(subs)
    ensures TokenRuns(src, p, Tpl(head, subs))
    decreases subs, 3
  {
    hide StateAt, LiteralsTo, CommentsTo, JsAutomaton.Step, FitSubs, SubsTaken, PrintText, PrintSubs,
         TemplateText,
         OccursAt, Newlines, Nested;
    var text, rest := PrintText(head), PrintSubs(subs) + "`";
    var q := p + 1 + |text|;
    TemplateParts(src, p, text, rest);
    SubsStart(subs);
    BraceSteps(src, p);
    TemplateRuns(src, p + 1, head);
    SubsScan(src, q, subs);
  }

  lemma SubsStart(subs: Subs)
    ensures (PrintSubs(subs) + "`")[0] in "$`"
  {
  }

  /** A printed text in two parts: where each is, what the second starts with and on which line. */
  lemma PartAt(src: string, p: nat, a: string, b: string)
    requires OccursAt(src, a + b, p)
    ensures p + |a| + |b| <= |src| && OccursAt(src, a, p) && OccursAt(src, b, p + |a|)
    ensures a != "" ==> src[p] == a[0]
    ensures b != "" ==> src[p + |a|] == b[0]
    ensures LineOf(src, p + |a|) == LineOf(src, p) + Newlines(a)
  {
    hide Newlines;
    OccursInParts(src, a, b, p);
    if a != "" { assert src[p] == src[p..p + |a|][0]; }
    if b != "" { assert src[p + |a|] == src[p + |a|..p + |a| + |b|][0]; }
    LineAfter(src, a, p);
  }

  lemma DelimitersStayOnTheLine()
    ensures Newlines("`") == Newlines("{") == Newlines("}") == Newlines("${") == 0
  {
    assert "${"[..1] == "$";
  }

  lemma TemplateParts(src: string, p: nat, text: string, rest: string)
    requires rest != "" && OccursAt(src, "`" + (text + rest), p)
    ensures var q := p + 1 + |text|;
            && q + |rest| <= |src| && src[p] == '`' && src[q] == rest[0]
            && OccursAt(src, text, p + 1) && OccursAt(src, rest, q)
            && LineOf(src, q) == LineOf(src, p) + Newlines(text)
  {
    hide Newlines, OccursAt, LineOf;
    DelimitersStayOnTheLine();
    PartAt(src, p, "`", text + rest);
    PartAt(src, p + 1, text, rest);
  }

  lemma SubParts(src: string, p: nat, code: string, text: string, rest: string)
    requires rest != "" && OccursAt(src, "${" + (code + ("}" + (text + rest))), p)
    ensures var q := p + 2 + |code|; var r := q + 1 + |text|;
            && r + |rest| <= |src| && src[q] == '}' && src[r] == rest[0]
            && OccursAt(src, "${", p) && OccursAt(src, code, p + 2) && OccursAt(src, text, q + 1)
            && OccursAt(src, rest, r)
            && LineOf(src, p + 2) == LineOf(src, p)
            && LineOf(src, r) == LineOf(src, p) + Newlines(code) + Newlines(text)
  {
    hide Newlines, OccursAt, LineOf;
    var q := p + 2 + |code|;
    DelimitersStayOnTheLine();
    PartAt(src, p, "${", code + ("}" + (text + rest)));
    PartAt(src, p + 2, code, "}" + (text + rest));
    PartAt(src, q, "}", text + rest);
    PartAt(src, q + 1, text, rest);
  }

  lemma SubsScan(src: string, p: nat, subs: Subs)
    requires OccursAt(src, PrintSubs(subs) + "`", p) && StateAt(src, p).mode.Template?
    requires Nested(StateAt(src, p).resume, StateAt(src, p).depth) && FitSubs(subs) && SubsTaken(subs)
    ensures var st := StateAt(src, p);
            Runs(src, p, p + |PrintSubs(subs)| + 1, JsAutomaton.After(st, Code, '`'),
                 [Span(st.mode.from, p)] + LiteralsOfSubs(subs, p), CommentsOfSubs(subs, p, LineOf(src, p)))
    decreases subs, 2
  {
    hide StateAt, LiteralsTo, CommentsTo, JsAutomaton.Step, PrintText, PrintAll, FitAll, AllTaken, OccursAt,
         Newlines, LineOf;
    if subs.Done? {
      assert PrintSubs(subs) + "`" == "`";
      OccursChar(src, '`', p);
      TemplateStops(src, p);
    } else {
      assert PrintSubs(subs) + "`" ==
             "${" + (PrintAll(subs.code) + ("}" + (PrintText(subs.text) + (PrintSubs(subs.more) + "`"))));
      SubScan(src, p, subs);
    }
  }

  lemma SubScan(src: string, p: nat, subs: Subs)
    requires OccursAt(src, PrintSubs(subs) + "`", p)
    requires subs.Sub? && StateAt(src, p).mode.Template?
    requires OccursAt(src, "${" + (PrintAll(subs.code) +
                 ("}" + (PrintText(subs.text) + (PrintSubs(subs.more) + "`")))), p)
    requires Nested(StateAt(src, p).resume, StateAt(src, p).depth) && FitSubs(subs) && SubsTaken(subs)
    ensures var st := StateAt(src, p);
            Runs(src, p, p + |PrintSubs(subs)| + 1, JsAutomaton.After(st, Code, '`'),
                 [Span(st.mode.from, p)] + LiteralsOfSubs(subs, p), CommentsOfSubs(subs, p, LineOf(src, p)))
    decreases subs, 1
  {
    hide StateAt, LiteralsTo, CommentsTo, JsAutomaton.Step, PrintText, TemplateText, PrintAll, FitAll,
         OccursAt, Newlines, LineOf, LiteralsOfAll, CommentsOfAll, LiteralsOfSubs, CommentsOfSubs, Nested;
    var code, text, rest := PrintAll(subs.code), PrintText(subs.text), PrintSubs(subs.more) + "`";
    var q := p + 2 + |code|;
    var r := q + 1 + |text|;
    SubParts(src, p, code, text, rest);
    SubsStart(subs.more);
    CodeScan(src, p, subs.code);
    TemplateRuns(src, q + 1, subs.text);
    SubsScan(src, r, subs.more);
    SubFollows(src, p, subs, q + 1, r);
  }

  /** The spans of a substitution, of the text behind it and of the substitutions after that. */
  lemma SubFollows(src: string, p: nat, subs: Subs, q: nat, r: nat)
    requires subs.Sub? && p <= |src| && q == p + 3 + |PrintAll(subs.code)| && r == q + |PrintText(subs.text)|
    requires p + 2 <= |src| && StateAt(src, p).mode.Template? && q <= |src| && StateAt(src, q).mode == Template(q)
    requires Runs(src, p, q, StateAt(src, q), [Span(StateAt(src, p).mode.from, p)] + LiteralsOfAll(subs.code, p + 2),
                  CommentsOfAll(subs.code, p + 2, LineOf(src, p + 2)))
    requires StateAt(src, q).depth == StateAt(src, p).depth && StateAt(src, q).resume == StateAt(src, p).resume
    requires Passes(src, q, r, StateAt(src, q))
    requires Runs(src, r, r + |PrintSubs(subs.more)| + 1, JsAutomaton.After(StateAt(src, q), Code, '`'),
                  [Span(q, r)] + LiteralsOfSubs(subs.more, r), CommentsOfSubs(subs.more, r, LineOf(src, r)))
    requires LineOf(src, p + 2) == LineOf(src, p)
    requires LineOf(src, r) == LineOf(src, p) + Newlines(PrintAll(subs.code)) + Newlines(PrintText(subs.text))
    ensures var st := StateAt(src, p);
            Runs(src, p, p + |PrintSubs(subs)| + 1, JsAutomaton.After(st, Code, '`'),
                 [Span(st.mode.from, p)] + LiteralsOfSubs(subs, p), CommentsOfSubs(subs, p, LineOf(src, p)))
  {
    hide StateAt, LiteralsTo, CommentsTo, PrintText, PrintAll, Newlines, LineOf, LiteralsOfAll, CommentsOfAll,
         Runs, Passes;
    var st, back := StateAt(src, p), StateAt(src, q);
    var line := LineOf(src, p);
    RunsPassRun(src, p, q, r, r + |PrintSubs(subs.more)| + 1, back, JsAutomaton.After(back, Code, '`'),
                Span(st.mode.from, p), LiteralsOfAll(subs.code, p + 2), Span(q, r), LiteralsOfSubs(subs.more, r),
                CommentsOfAll(subs.code, p + 2, line), CommentsOfSubs(subs.more, r, LineOf(src, r)));
    assert JsAutomaton.After(back, Code, '`') == JsAutomaton.After(st, Code, '`');
    assert LiteralsOfAll(subs.code, p + 2) + [Span(q, r)] + LiteralsOfSubs(subs.more, r) == LiteralsOfSubs(subs, p);
  }

  lemma RunsPassRun(src: string, p: nat, q: nat, r: nat, end: nat, back: State, st: State, a: Span, ls: seq<Span>,
                    b: Span, ls': seq<Span>, cs: seq<Comment>, cs': seq<Comment>)
    requires Runs(src, p, q, back, [a] + ls, cs) && Passes(src, q, r, back) && Runs(src, r, end, st, [b] + ls', cs')
    ensures Runs(src, p, end, st, [a] + (ls + [b] + ls'), cs + cs')
  {
    hide StateAt, LiteralsTo, CommentsTo;
  }

  /** One substitution, from its `${` to its `}` and back in the template's text. */
  lemma CodeScan(src: string, p: nat, code: Tokens)
    requires p <= |src| && StateAt(src, p).mode.Template? && OccursAt(src, "${", p)
    requires OccursAt(src, PrintAll(code), p + 2)
    requires var q := p + 2 + |PrintAll(code)|; q + 1 < |src| && src[q] == '}'
    requires Nested(StateAt(src, p).resume, StateAt(src, p).depth)
    requires FitAll(code, "}") && AllTaken(code, Context("{", ""))
    ensures var st, q := StateAt(src, p), p + 2 + |PrintAll(code)|;
            var back := StateAt(src, q + 1);
            && back.mode == Template(q + 1) && back.depth == st.depth && back.resume == st.resume
            && Runs(src, p, q + 1, back, [Span(st.mode.from, p)] + LiteralsOfAll(code, p + 2),
                    CommentsOfAll(code, p + 2, LineOf(src, p + 2)))
    decreases code, 2
  {
    hide StateAt, LiteralsTo, CommentsTo, JsAutomaton.Step, PrintAll, FitAll, AllTaken, OccursAt,
         Newlines, LineOf,
         LiteralsOfAll, CommentsOfAll, Runs, Passes, TokensRun, AfterAll, Nested, Resumes;
    var q := p + 2 + |PrintAll(code)|;
    var inside := SubstitutionOpens(src, p);
    NextIs(src, q, '}');
    AllScan(src, p + 2, code, "}");
    var end := TokensEnd(src, p + 2, code);
    ResumesHere(end, StateAt(src, p));
    BraceSteps(src, q);
    var back := State(Template(q + 1), end.last, end.word, end.depth - 1, end.resume[..|end.resume| - 1]);
    RunsRunsPass(src, p, p + 2, q, inside, end, back, Span(StateAt(src, p).mode.from, p), LiteralsOfAll(code, p + 2),
                 CommentsOfAll(code, p + 2, LineOf(src, p + 2)));
    PassesTo(src, q, q + 1, back);
  }

  lemma SubstitutionOpens(src: string, p: nat) returns (inside: State)
    requires p <= |src| && OccursAt(src, "${", p) && StateAt(src, p).mode.Template?
    requires Nested(StateAt(src, p).resume, StateAt(src, p).depth)
    ensures p + 2 <= |src| && Runs(src, p, p + 2, inside, [Span(StateAt(src, p).mode.from, p)], [])
    ensures StateAt(src, p + 2) == inside && Nested(inside.resume, inside.depth)
    ensures var st := StateAt(src, p); inside == State(Code, "{", "", st.depth + 1, st.resume + [st.depth])
  {
    hide StateAt, LiteralsTo, CommentsTo, JsAutomaton.Step;
    TemplateStops(src, p);
    inside := StateAt(src, p + 2);
  }

  lemma NextIs(src: string, q: nat, c: char)
    requires q < |src| && src[q] == c
    ensures SameNext([c], Ahead(src, q))
  {
  }

  lemma TokensEnd(src: string, p: nat, ts: Tokens) returns (end: State)
    requires p <= |src| && TokensRun(src, p, ts)
    ensures var st, q := StateAt(src, p), p + |PrintAll(ts)|;
            && q <= |src| && StateAt(src, q) == end
            && end.mode == Code && end.depth == st.depth && end.resume == st.resume
            && Runs(src, p, q, end, LiteralsOfAll(ts, p), CommentsOfAll(ts, p, LineOf(src, p)))
  {
    hide StateAt, LiteralsTo, CommentsTo, LiteralsOfAll, CommentsOfAll, PrintAll, LineOf;
    end := StateAt(src, p + |PrintAll(ts)|);
  }

  lemma ResumesHere(end: State, st: State)
    requires end.resume == st.resume + [st.depth] && end.depth == st.depth + 1
    ensures Resumes(end) && end.resume[..|end.resume| - 1] == st.resume
  {
  }

  lemma PassesTo(src: string, p: nat, q: nat, st: State)
    requires Passes(src, p, q, st)
    ensures q <= |src| && StateAt(src, q) == st
  {
    hide StateAt, LiteralsTo, CommentsTo;
  }

  lemma RunsRunsPass(src: string, p: nat, m: nat, q: nat, mid: State, end: State, back: State, a: Span,
                     ls: seq<Span>, cs: seq<Comment>)
    requires Runs(src, p, m, mid, [a], []) && Runs(src, m, q, end, ls, cs) && Passes(src, q, q + 1, back)
    ensures Runs(src, p, q + 1, back, [a] + ls, cs)
  {
    hide StateAt, LiteralsTo, CommentsTo;
  }

  lemma AllScan(src: string, p: nat, ts: Tokens, next: string)
    requires OccursAt(src, PrintAll(ts), p) && StateAt(src, p).mode.Code?
    requires Nested(StateAt(src, p).resume, StateAt(src, p).depth)
    requires FitAll(ts, next) && AllTaken(ts, Remembered(StateAt(src, p)))
    requires SameNext(next, Ahead(src, p + |PrintAll(ts)|))
    ensures TokensRun(src, p, ts)
    decreases ts, 1
  {
    hide StateAt, LiteralsTo, CommentsTo, JsAutomaton.Step, Print, Fits, Taken, LiteralsOf, CommentsOf,
         OccursAt, Newlines, LineOf,
         TokenRuns, TokensRun, SameNext, Nested, FitSubs, SubsTaken, QuotedText, TemplateText, RegexText, Ahead;
    if ts.Nil? {
      OccursSomewhere(src, "", p);
      NothingRuns(src, p);
    } else {
      var first, rest := Print(ts.first), PrintAll(ts.rest);
      var q := p + |first|;
      PartAt(src, p, first, rest);
      NextAhead(src, q, rest, next);
      FitsNext(ts.first, rest + next, Ahead(src, q));
      TokenScans(src, p, ts.first);
      TokenLeavesCode(src, p, ts.first);
      AllScan(src, q, ts.rest, next);
      TokensFollow(src, p, ts);
    }
  }

  lemma NothingRuns(src: string, p: nat)
    requires p <= |src| && StateAt(src, p).mode.Code?
    ensures TokensRun(src, p, Nil)
  {
    hide StateAt, LiteralsTo, CommentsTo;
  }

  lemma NextAhead(src: string, q: nat, rest: string, next: string)
    requires q + |rest| <= |src| && (rest != "" ==> src[q] == rest[0]) && SameNext(next, Ahead(src, q + |rest|))
    ensures SameNext(rest + next, Ahead(src, q))
  {
  }

  lemma TokenLeavesCode(src: string, p: nat, t: Token)
    requires p <= |src| && TokenRuns(src, p, t)
    ensures var q := p + |Print(t)|;
            && q <= |src|
            && StateAt(src, q) == InCodeAfter(StateAt(src, p), ContextAfter(t, Remembered(StateAt(src, p))))
  {
    hide StateAt, LiteralsTo, CommentsTo, LiteralsOf, CommentsOf, Print, ContextAfter;
  }

  /** The spans of a token and those of the tokens after it. */
  lemma TokensFollow(src: string, p: nat, ts: Tokens)
    requires p + |PrintAll(ts)| <= |src| && ts.Cons? && TokenRuns(src, p, ts.first)
    requires TokensRun(src, p + |Print(ts.first)|, ts.rest)
    requires LineOf(src, p + |Print(ts.first)|) == LineOf(src, p) + Newlines(Print(ts.first))
    ensures TokensRun(src, p, ts)
  {
    hide StateAt, LiteralsTo, CommentsTo, Print, LiteralsOf, CommentsOf, LineOf, Newlines, ContextAfter;
  }

  lemma OccursSomewhere(src: string, s: string, p: nat)
    requires OccursAt(src, s, p)
    ensures p + |s| <= |src|
  {
  }

  lemma FitsNext(t: Token, a: string, b: string)
    requires Fits(t, a) && SameNext(a, b)
    ensures Fits(t, b)
  {
    hide FitAll, FitSubs, RegexText, QuotedText, TemplateText;
  }

  /** A `/` behind the token `before` is a division for the scanner, alone, if and only if a division may
      follow that token; else it opens a regular expression. */
  lemma SlashTaken(src: string, p: nat, before: Option<Token>)
    requires p < |src| && src[p] == '/' && !Next?(src, p, '/') && !Next?(src, p, '*') && StateAt(src, p).mode.Code?
    requires Significant(before) && Remembered(StateAt(src, p)) == ContextOf(before)
    ensures var st := StateAt(src, p);
            && (DivisionFollows(before) <==> Passes(src, p, p + 1, State(Code, "/", "", st.depth, st.resume)))
            && (!DivisionFollows(before) ==>
                  || StateAt(src, p + 1).mode == Regex(false, p + 1)
                  || LiteralsTo(src, p + 1) == LiteralsTo(src, p) + [Span(p + 1, p + 1)])
  {
    hide StateAt, LiteralsTo, CommentsTo, OperandExpected, DivisionFollows, Significant, ContextOf;
    SlashRule(before);
    SlashSteps(src, p);
  }

  lemma SlashSteps(src: string, p: nat)
    requires p < |src| && src[p] == '/' && !Next?(src, p, '/') && !Next?(src, p, '*') && StateAt(src, p).mode.Code?
    ensures var st := StateAt(src, p);
            && (!OperandExpected(st.last, st.word) <==>
                  Passes(src, p, p + 1, State(Code, "/", "", st.depth, st.resume)))
            && (OperandExpected(st.last, st.word) ==>
                  || StateAt(src, p + 1).mode == Regex(false, p + 1)
                  || LiteralsTo(src, p + 1) == LiteralsTo(src, p) + [Span(p + 1, p + 1)])
  {
    hide StateAt, LiteralsTo, CommentsTo, OperandExpected, CommentStep, QuotedStep, TemplateStep,
         RegexStep, TokenStep,
         IsWord;
    SlashIsNoSpace();
    hide IsSpace;
    Moves(src, p);
  }

  lemma SlashIsNoSpace()
    ensures !IsSpace('/') && !IsWord('/')
  {
  }

  /** Scanning a printed tree finds the literals and the comments of the tree, every one and no other,
      at any depth of nesting. */
  lemma RoundTrip(ts: Tokens)
    requires FitAll(ts, "") && AllMeant(ts, None)
    ensures Literals(PrintAll(ts)) == LiteralsOfAll(ts, 0)
    ensures Comments(PrintAll(ts)) == CommentsOfAll(ts, 0, 1)
  {
    hide StateAt, LiteralsTo, CommentsTo, PrintAll, FitAll, AllTaken, AllMeant;
    var src := PrintAll(ts);
    StartsEmpty(src);
    assert src[..0] == "" && src[0..|src|] == src;
    TokensMeant(ts, None, "");
    AllScan(src, 0, ts, "");
  }

  /** A division after a brace is no division for the scanner: of `{}/1/2` it takes `1` for the text of a
      regular expression. */
  lemma DivisionAfterBraceMisread()
    ensures Literals("{}/1/2") == [Span(3, 4)]
  {
    hide StateAt, LiteralsTo, CommentsTo, FitAll, AllMeant, OperandExpected;
    var rest := Cons(Name("2"), Nil);
    var rx := Rx([Plain('1')], "");
    var ts := Cons(Braces(Nil), Cons(rx, rest));
    BraceTreeFits();
    assert PrintText([Plain('1')]) == "1";
    assert PrintAll(rest) == "2" && PrintAll(Cons(rx, rest)) == "/1/" + "2" && PrintAll(ts) == "{}" + "/1/2";
    assert PrintAll(ts) == "{}/1/2";
    RoundTrip(ts);
    assert LiteralsOfAll(rest, 5) == [] && LiteralsOfAll(Cons(rx, rest), 2) == [TextSpan(3, [Plain('1')])] + [];
    assert LiteralsOfAll(ts, 0) == [] + [Span(3, 4)];
  }

  lemma BraceTreeFits()
    ensures var ts := Cons(Braces(Nil), Cons(Rx([Plain('1')], ""), Cons(Name("2"), Nil)));
            FitAll(ts, "") && AllMeant(ts, None)
  {
    var rest := Cons(Name("2"), Nil);
    var rx := Rx([Plain('1')], "");
    assert PrintAll(rest) == "2";
    assert FitAll(rest, "") && AllMeant(rest, Some(rx));
    assert RegexText([Plain('1')], false) && Fits(rx, "2" + "") && Meant(rx, Some(Braces(Nil)));
    assert FitAll(Cons(rx, rest), "") && AllMeant(Cons(rx, rest), Some(Braces(Nil)));
  }
}
