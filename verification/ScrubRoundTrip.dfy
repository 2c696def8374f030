/** Sources printed from tokens, and what the scrubber must leave of them. */
module ScrubRoundTrip {
  import opened Chars
  import opened Wrappers
  import opened Scrubber
  import JsTokens

  /** A token says what its characters are meant to be: `Sign('/')` is a division, `Rx` a regular
      expression; a template is a string in backticks. */
  datatype Tok =
    | Gap(c: char)
    | Name(name: string)
    | Sign(c: char)
    | LineNote(text: string)
    | BlockNote(text: string)
    | Str(q: char, body: seq<JsTokens.Piece>)
    | Rx(body: seq<JsTokens.Piece>, flags: string)

  function TokText(t: Tok): string {
    match t
    case Gap(c) => [c]
    case Name(name) => name
    case Sign(c) => [c]
    case LineNote(text) => "//" + text
    case BlockNote(text) => "/*" + (text + "*/")
    case Str(q, body) => [q] + (JsTokens.PrintText(body) + [q])
    case Rx(body, flags) => "/" + (JsTokens.PrintText(body) + ("/" + flags))
  }

  function ToksText(ts: seq<Tok>): string {
    if ts == [] then "" else TokText(ts[0]) + ToksText(ts[1..])
  }

  // --- what must be left ---

  function NewlinesOnly(s: string): string {
    if s == "" then "" else (if s[0] == '\n' then "\n" else "") + NewlinesOnly(s[1..])
  }

  /** The newlines of a literal's text that no backslash escapes. */
  function PlainNewlines(body: seq<JsTokens.Piece>): string {
    if body == [] then "" else (if body[0] == JsTokens.Plain('\n') then "\n" else "") + PlainNewlines(body[1..])
  }

  /** Code as it is, comments and strings as their newlines, a string marked by two quotes and a regular
      expression by a zero. */
  function Left(t: Tok): string {
    match t
    case Gap(c) => [c]
    case Name(name) => name
    case Sign(c) => [c]
    case LineNote(_) => ""
    case BlockNote(text) => NewlinesOnly(text)
    case Str(_, body) => PlainNewlines(body) + "\"\""
    case Rx(_, _) => "0"
  }

  function AllLeft(ts: seq<Tok>): string {
    if ts == [] then "" else Left(ts[0]) + AllLeft(ts[1..])
  }

  // --- which tokens are sources ---

  predicate StringText(q: char, body: seq<JsTokens.Piece>) {
    forall k :: 0 <= k < |body| && body[k].Plain? ==> body[k].c != q && body[k].c != '\\'
  }

  /** Whether `t` is a token as it stands, when the source goes on with `next` (empty at its end). */
  predicate Fits(t: Tok, next: string) {
    match t
    case Gap(c) => IsSpace(c)
    case Name(name) =>
      name != "" && (forall k :: 0 <= k < |name| ==> IsWord(name[k])) && (next == "" || !IsWord(next[0]))
    case Sign(c) =>
      !IsSpace(c) && !IsWord(c) && c !in "'\"`" && (c == '/' ==> next == "" || next[0] !in "/*")
    case LineNote(text) => '\n' !in text && (next == "" || next[0] == '\n')
    case BlockNote(text) => IndexOf(text, "*/", 0) < 0
    case Str(q, body) => q in "'\"`" && StringText(q, body)
    case Rx(body, flags) =>
      && body != [] && body[0] != JsTokens.Plain('*') && JsTokens.RegexText(body, false)
      && (forall k :: 0 <= k < |flags| ==> IsLetter(flags[k])) && (next == "" || !IsLetter(next[0]))
  }

  predicate AllFit(ts: seq<Tok>) {
    ts == [] || (Fits(ts[0], ToksText(ts[1..])) && AllFit(ts[1..]))
  }

  /** The token before, spaces and comments left out; the word read last, which goes on through a comment;
      and whether a name here would go on with it. */
  datatype Context = Context(before: Option<Tok>, word: string, open: bool)

  function After(t: Tok, ctx: Context): Context {
    match t
    case Gap(_) => ctx.(open := false)
    case Name(name) => Context(Some(t), if ctx.open then ctx.word + name else name, true)
    case Sign(_) => Context(Some(t), "", false)
    case Str(_, _) => Context(Some(t), "", false)
    case Rx(_, _) => Context(Some(t), "", true)
    case _ => ctx
  }

  /** A `/` starts a regular expression at the start, behind one of the signs and behind one of the words an
      operand follows; and nowhere else. */
  predicate RegexFollows(ctx: Context) {
    match ctx.before
    case None => true
    case Some(t) => (t.Sign? && t.c in JsTokens.OPERAND_SIGNS) || (t.Name? && ctx.word in JsTokens.OPERAND_WORDS)
  }

  predicate Meant(t: Tok, ctx: Context) {
    match t
    case Sign(c) => c == '/' ==> !RegexFollows(ctx)
    case Rx(_, _) => RegexFollows(ctx)
    case _ => true
  }

  predicate AllMeant(ts: seq<Tok>, ctx: Context) {
    ts == [] || (Meant(ts[0], ctx) && AllMeant(ts[1..], After(ts[0], ctx)))
  }

  // --- the automaton over one token ---

  ghost predicate Runs(src: string, p: nat, q: nat, st: State, out: string) {
    p <= q <= |src| && StateAt(src, q) == st && Written(src, q) == Written(src, p) + out
  }

  ghost predicate SamePrev(prev: string, before: Option<Tok>) {
    match before
    case None => prev == ""
    case Some(t) =>
      match t
      case Name(name) => |prev| == 1 && IsWord(prev[0])
      case Sign(c) => prev == [c]
      case Str(_, _) => prev == "\""
      case Rx(_, _) => prev == "0"
      case _ => false
  }

  /** The automaton stands in code and remembers what the tokens say. */
  ghost predicate Remembers(st: State, ctx: Context) {
    && st.mode.Code? && st.word == ctx.word && SamePrev(st.prev, ctx.before)
    && (st.last != "" && IsWord(st.last[0]) <==> ctx.open)
    && (ctx.before.None? || !ctx.before.value.Name? ==> ctx.word == "")
  }

  /** The scrubber's rule is the one about tokens. */
  lemma SlashRule(st: State, ctx: Context)
    requires Remembers(st, ctx)
    ensures RegexMayStart(st.prev, st.word) <==> RegexFollows(ctx)
  {
    hide KEYWORDS, JsTokens.OPERAND_WORDS, IsWord;
    WordsAre(st.word);
    QuoteAndZero();
    if ctx.before.Some? && ctx.before.value.Name? { WordIsNoSign(st.prev[0]); }
  }

  lemma WordsAre(word: string)
    ensures word in KEYWORDS <==> word in JsTokens.OPERAND_WORDS
    ensures "" !in KEYWORDS
  {
  }

  lemma WordIsNoSign(c: char)
    requires IsWord(c)
    ensures c !in JsTokens.OPERAND_SIGNS
  {
  }

  lemma QuoteAndZero()
    ensures '"' !in JsTokens.OPERAND_SIGNS && '0' !in JsTokens.OPERAND_SIGNS
  {
  }

  lemma StepsOn(src: string, p: nat, q: nat, r: nat, mid: State, st: State, out: string, out': string)
    requires Runs(src, p, q, mid, out) && Runs(src, q, r, st, out')
    ensures Runs(src, p, r, st, out + out')
  {
    hide StateAt, Written;
  }

  /** A character of code is written as it is. */
  lemma CodeKept(src: string, i: nat)
    requires i < |src| && StateAt(src, i).mode.Code? && src[i] !in "'\"`"
    requires src[i] == '/' ==> !Next?(src, i, '/') && !Next?(src, i, '*')
    requires src[i] == '/' ==> var st := StateAt(src, i); !RegexMayStart(st.prev, st.word)
    ensures var st, c := StateAt(src, i), src[i];
            var next := State(Code, if IsSpace(c) then st.prev else [c], WordAfter(st.word, st.last, c), [c]);
            Runs(src, i, i + 1, next, [c])
  {
    hide StateAt, Written, RegexMayStart, WordAfter, IsSpace;
    Moves(src, i);
  }

  lemma GapLeft(src: string, p: nat, c: char, ctx: Context) returns (st: State)
    requires p < |src| && src[p] == c && IsSpace(c) && Remembers(StateAt(src, p), ctx)
    ensures Runs(src, p, p + 1, st, [c]) && Remembers(st, After(Gap(c), ctx))
  {
    hide StateAt, Written, RegexMayStart, Runs;
    SpaceIsPlain(c);
    CodeKept(src, p);
    var before := StateAt(src, p);
    st := State(Code, before.prev, before.word, [c]);
  }

  lemma SpaceIsPlain(c: char)
    requires IsSpace(c)
    ensures !IsWord(c) && c != '/' && c !in "'\"`"
  {
  }

  lemma SignLeft(src: string, p: nat, c: char, ctx: Context) returns (st: State)
    requires p < |src| && src[p] == c && Remembers(StateAt(src, p), ctx)
    requires Fits(Sign(c), Ahead(src, p + 1)) && Meant(Sign(c), ctx)
    ensures Runs(src, p, p + 1, st, [c]) && Remembers(st, After(Sign(c), ctx))
  {
    hide StateAt, Written, RegexMayStart, Runs, IsSpace, IsWord, RegexFollows;
    SlashRule(StateAt(src, p), ctx);
    CodeKept(src, p);
    st := State(Code, [c], "", [c]);
  }

  /** A name goes on with the word before it when nothing but a comment stands between. */
  lemma {:induction false} NameLeft(src: string, p: nat, name: string, st: State) returns (st': State)
    requires OccursAt(src, name, p) && name != "" && forall k :: 0 <= k < |name| ==> IsWord(name[k])
    requires StateAt(src, p) == st && st.mode.Code?
    ensures var last := [name[|name| - 1]];
            st' == State(Code, last, if st.last != "" && IsWord(st.last[0]) then st.word + name else name, last)
    ensures Runs(src, p, p + |name|, st', name)
    decreases |name|
  {
    hide StateAt, Written, RegexMayStart, IsSpace, IsWord, Runs, OccursAt;
    assert name == [name[0]] + name[1..];
    OccursInParts(src, [name[0]], name[1..], p);
    OccursChar(src, name[0], p);
    WordIsPlain(name[0]);
    CodeKept(src, p);
    var word := if st.last != "" && IsWord(st.last[0]) then st.word + [name[0]] else [name[0]];
    var mid := State(Code, [name[0]], word, [name[0]]);
    assert WordAfter(st.word, st.last, name[0]) == word;
    RunsTo(src, p, p + 1, mid, [name[0]]);
    if |name| == 1 {
      st' := mid;
      assert name == [name[0]];
    } else {
      NameTail(name);
      st' := NameLeft(src, p + 1, name[1..], mid);
      StepsOn(src, p, p + 1, p + |name|, mid, st', [name[0]], name[1..]);
      JoinedWord(st.word, name);
    }
  }

  lemma NameTail(name: string)
    requires |name| > 1 && forall k :: 0 <= k < |name| ==> IsWord(name[k])
    ensures forall k :: 0 <= k < |name[1..]| ==> IsWord(name[1..][k])
    ensures name[1..][|name[1..]| - 1] == name[|name| - 1]
  {
    hide IsWord;
  }

  lemma JoinedWord(word: string, name: string)
    requires name != ""
    ensures word + [name[0]] + name[1..] == word + name && [name[0]] + name[1..] == name
  {
  }

  lemma RunsTo(src: string, p: nat, q: nat, st: State, out: string)
    requires Runs(src, p, q, st, out)
    ensures q <= |src| && StateAt(src, q) == st
  {
    hide StateAt, Written;
  }

  lemma NameTokenLeft(src: string, p: nat, name: string, ctx: Context) returns (st: State)
    requires OccursAt(src, name, p) && Fits(Name(name), "") && Remembers(StateAt(src, p), ctx)
    ensures Runs(src, p, p + |name|, st, name) && Remembers(st, After(Name(name), ctx))
  {
    hide StateAt, Written, Runs, IsWord, OccursAt;
    NameStarts(src, p, name);
    st := NameLeft(src, p, name, StateAt(src, p));
  }

  lemma NameStarts(src: string, p: nat, name: string)
    requires OccursAt(src, name, p)
    ensures p + |name| <= |src|
  {
  }

  // --- comments ---

  lemma {:induction false} LineLeft(src: string, p: nat, text: string, st: State)
    requires OccursAt(src, text, p) && '\n' !in text && (p + |text| < |src| ==> src[p + |text|] == '\n')
    requires st.mode.Code? && StateAt(src, p) == if text == "" then st else st.(mode := Line)
    ensures Runs(src, p, p + |text|, st, "")
    decreases |text|
  {
    hide StateAt, Written, CodeStep, BlockStep, RegexStep;
    if text != "" {
      assert text == [text[0]] + text[1..];
      OccursInParts(src, [text[0]], text[1..], p);
      if text[1..] != "" { assert src[p + 1] == text[1]; }
      Moves(src, p);
      LineLeft(src, p + 1, text[1..], st);
    }
  }

  lemma LineNoteLeft(src: string, p: nat, text: string, st: State)
    requires OccursAt(src, "//" + text, p) && Fits(LineNote(text), Ahead(src, p + 2 + |text|))
    requires StateAt(src, p) == st && st.mode.Code?
    ensures Runs(src, p, p + 2 + |text|, st, "")
  {
    hide StateAt, Written, BlockStep, RegexStep, RegexMayStart, IsSpace, WordAfter;
    OccursInParts(src, "//", text, p);
    OccursPair(src, '/', '/', p);
    if text != "" { assert src[p + 2] == src[p + 2..p + 2 + |text|][0]; }
    Moves(src, p);
    Moves(src, p + 1);
    LineLeft(src, p + 2, text, st);
  }

  lemma {:induction false} BlockLeft(src: string, p: nat, text: string, st: State)
    requires OccursAt(src, text, p) && p + |text| + 1 < |src| && st.mode.Code? && StateAt(src, p) == st.(mode := Block)
    requires forall k :: p <= k < p + |text| ==> !(src[k] == '*' && src[k + 1] == '/')
    ensures Runs(src, p, p + |text|, st.(mode := Block), NewlinesOnly(text))
    decreases |text|
  {
    hide StateAt, Written, CodeStep, RegexStep;
    if text != "" {
      assert text == [text[0]] + text[1..];
      OccursInParts(src, [text[0]], text[1..], p);
      OccursChar(src, text[0], p);
      Moves(src, p);
      BlockLeft(src, p + 1, text[1..], st);
    }
  }

  lemma BlockNoteLeft(src: string, p: nat, text: string, st: State)
    requires OccursAt(src, "/*" + (text + "*/"), p) && IndexOf(text, "*/", 0) < 0
    requires StateAt(src, p) == st && st.mode.Code?
    ensures Runs(src, p, p + 4 + |text|, st, NewlinesOnly(text))
  {
    hide StateAt, Written, RegexStep, RegexMayStart, IsSpace, WordAfter, IndexOf, OccursAt;
    var q := p + 2 + |text|;
    OccursInParts(src, "/*", text + "*/", p);
    OccursInParts(src, text, "*/", p + 2);
    OccursPair(src, '/', '*', p);
    OccursPair(src, '*', '/', q);
    BlockNoteEnds(src, p, text);
    forall k | p + 2 <= k < q
      ensures !(src[k] == '*' && src[k + 1] == '/')
    {
      OccursPair(src, '*', '/', k);
    }
    Moves(src, p);
    Moves(src, p + 1);
    BlockLeft(src, p + 2, text, st);
    RunsTo(src, p + 2, q, st.(mode := Block), NewlinesOnly(text));
    Moves(src, q);
    Moves(src, q + 1);
  }

  // --- strings and regular expressions ---

  /** A string or a regular expression whose text has been read. */
  ghost predicate Reads(src: string, p: nat, q: nat, mode: Mode, out: string) {
    p <= q <= |src| && StateAt(src, q).mode == mode && Written(src, q) == Written(src, p) + out
  }

  lemma {:induction false} StringRuns(src: string, p: nat, q: char, body: seq<JsTokens.Piece>)
    requires OccursAt(src, JsTokens.PrintText(body), p) && p + |JsTokens.PrintText(body)| < |src|
    requires StateAt(src, p).mode == Quoted(q) && q != '\\' && StringText(q, body)
    ensures Reads(src, p, p + |JsTokens.PrintText(body)|, Quoted(q), PlainNewlines(body))
    decreases |body|
  {
    hide StateAt, Written, Scrubber.Step, OccursAt;
    if body == [] {
      FirstOf(src, "", p);
    } else {
      var head := if body[0].Plain? then [body[0].c] else ['\\', body[0].c];
      assert JsTokens.PrintText(body) == head + JsTokens.PrintText(body[1..]);
      StringPiece(src, p, q, body);
      StringRuns(src, p + |head|, q, body[1..]);
    }
  }

  lemma StringPiece(src: string, p: nat, q: char, body: seq<JsTokens.Piece>)
    requires body != [] && OccursAt(src, JsTokens.PrintText(body), p) && p + |JsTokens.PrintText(body)| < |src|
    requires StateAt(src, p).mode == Quoted(q) && q != '\\' && StringText(q, body)
    ensures var k := p + |JsTokens.PrintText(body)| - |JsTokens.PrintText(body[1..])|;
            && Reads(src, p, k, Quoted(q), if body[0] == JsTokens.Plain('\n') then "\n" else "")
            && OccursAt(src, JsTokens.PrintText(body[1..]), k)
  {
    hide StateAt, Written, CodeStep, BlockStep, RegexStep;
    var head := if body[0].Plain? then [body[0].c] else ['\\', body[0].c];
    OccursInParts(src, head, JsTokens.PrintText(body[1..]), p);
    assert src[p..p + |head|][0] == head[0];
    Moves(src, p);
    if body[0].Escaped? { Moves(src, p + 1); }
  }

  lemma QuoteOpens(src: string, p: nat)
    requires p + 1 < |src| && src[p] in "'\"`" && StateAt(src, p).mode.Code?
    ensures Reads(src, p, p + 1, Quoted(src[p]), "")
  {
    hide StateAt, Written, RegexStep, BlockStep, RegexMayStart, IsSpace, WordAfter;
    Moves(src, p);
  }

  lemma QuoteCloses(src: string, k: nat)
    requires k < |src| && StateAt(src, k).mode == Quoted(src[k]) && src[k] in "'\"`"
    ensures Runs(src, k, k + 1, State(Code, "\"", "", "\""), "\"\"")
  {
    hide StateAt, Written, CodeStep, RegexStep, BlockStep;
    Moves(src, k);
  }

  lemma ReadsTo(src: string, p: nat, q: nat, mode: Mode, out: string)
    requires Reads(src, p, q, mode, out)
    ensures q <= |src| && StateAt(src, q).mode == mode
  {
    hide StateAt, Written;
  }

  /** What opens a literal, its text and what closes it. */
  lemma ThreeParts(src: string, p: nat, q: nat, r: nat, end: nat, open: Mode, text: Mode, st: State,
                   out: string, mark: string)
    requires Reads(src, p, q, open, "") && Reads(src, q, r, text, out) && Runs(src, r, end, st, mark)
    ensures Runs(src, p, end, st, out + mark)
  {
    hide StateAt, Written;
  }

  lemma StringLeft(src: string, p: nat, q: char, body: seq<JsTokens.Piece>)
    requires OccursAt(src, TokText(Str(q, body)), p) && Fits(Str(q, body), "") && StateAt(src, p).mode.Code?
    ensures Runs(src, p, p + |TokText(Str(q, body))|, State(Code, "\"", "", "\""), PlainNewlines(body) + "\"\"")
  {
    hide StateAt, Written, Scrubber.Step, OccursAt, JsTokens.PrintText, Runs, PlainNewlines;
    var text := JsTokens.PrintText(body);
    var k := p + 1 + |text|;
    OccursInParts(src, [q], text + [q], p);
    OccursInParts(src, text, [q], p + 1);
    OccursChar(src, q, p);
    OccursChar(src, q, k);
    QuoteOpens(src, p);
    StringRuns(src, p + 1, q, body);
    QuoteCloses(src, k);
    ThreeParts(src, p, p + 1, k, k + 1, Quoted(q), Quoted(q), State(Code, "\"", "", "\""), PlainNewlines(body), "\"\"");
  }

  lemma {:induction false} RegexRuns(src: string, p: nat, body: seq<JsTokens.Piece>, inClass: bool)
    requires OccursAt(src, JsTokens.PrintText(body), p) && p + |JsTokens.PrintText(body)| < |src|
    requires src[p + |JsTokens.PrintText(body)|] == '/'
    requires StateAt(src, p).mode == Regex(inClass) && JsTokens.RegexText(body, inClass)
    ensures Reads(src, p, p + |JsTokens.PrintText(body)|, Regex(false), "")
    decreases |body|
  {
    hide StateAt, Written, CodeStep, BlockStep;
    if body != [] {
      var head := if body[0].Plain? then [body[0].c] else ['\\', body[0].c];
      OccursInParts(src, head, JsTokens.PrintText(body[1..]), p);
      assert src[p..p + |head|][0] == head[0];
      if body[1..] != [] { assert src[p + |head|] == JsTokens.PrintText(body[1..])[0] != '\n'; }
      Moves(src, p);
      if body[0].Escaped? { Moves(src, p + 1); }
      var c := body[0].c;
      RegexRuns(src, p + |head|, body[1..], if body[0].Plain? then c == '[' || (inClass && c != ']') else inClass);
    }
  }

  lemma {:induction false} FlagsLeft(src: string, p: nat, flags: string)
    requires OccursAt(src, flags, p) && flags != "" && forall k :: 0 <= k < |flags| ==> IsLetter(flags[k])
    requires (p + |flags| < |src| ==> !IsLetter(src[p + |flags|])) && StateAt(src, p).mode == Flags
    ensures Runs(src, p, p + |flags|, State(Code, "0", "", "0"), "0")
    decreases |flags|
  {
    hide StateAt, Written, CodeStep, BlockStep, RegexStep, IsLetter;
    assert flags == [flags[0]] + flags[1..];
    OccursInParts(src, [flags[0]], flags[1..], p);
    if flags[1..] != "" { assert src[p + 1] == flags[1]; }
    Moves(src, p);
    if flags[1..] != "" { FlagsLeft(src, p + 1, flags[1..]); }
  }

  lemma RegexOpens(src: string, p: nat)
    requires p + 1 < |src| && src[p] == '/' && src[p + 1] != '/' && src[p + 1] != '*' && src[p + 1] != '\n'
    requires var st := StateAt(src, p); st.mode.Code? && RegexMayStart(st.prev, st.word)
    ensures Reads(src, p, p + 1, Regex(false), "")
  {
    hide StateAt, Written, RegexStep, BlockStep, RegexMayStart, IsSpace, WordAfter;
    Moves(src, p);
  }

  lemma RegexCloses(src: string, k: nat, flags: string)
    requires OccursAt(src, "/" + flags, k) && StateAt(src, k).mode == Regex(false)
    requires forall i :: 0 <= i < |flags| ==> IsLetter(flags[i])
    requires k + 1 + |flags| < |src| ==> !IsLetter(src[k + 1 + |flags|])
    ensures Runs(src, k, k + 1 + |flags|, State(Code, "0", "", "0"), "0")
  {
    hide StateAt, Written, CodeStep, BlockStep, IsLetter, OccursAt;
    OccursInParts(src, "/", flags, k);
    OccursChar(src, '/', k);
    FirstOf(src, flags, k + 1);
    Moves(src, k);
    if flags != "" { FlagsLeft(src, k + 1, flags); }
  }

  /** The parts of a printed regular expression, and where they are. */
  lemma RegexPlaces(src: string, p: nat, text: string, flags: string)
    requires OccursAt(src, "/" + (text + ("/" + flags)), p) && text != ""
    ensures var k := p + 1 + |text|;
            && k + 1 + |flags| <= |src| && src[p] == '/' && src[k] == '/' && src[p + 1] == text[0]
            && OccursAt(src, text, p + 1) && OccursAt(src, "/" + flags, k)
  {
    hide OccursAt;
    var k := p + 1 + |text|;
    OccursInParts(src, "/", text + ("/" + flags), p);
    OccursInParts(src, text, "/" + flags, p + 1);
    FirstOf(src, "/" + (text + ("/" + flags)), p);
    FirstOf(src, text, p + 1);
    FirstOf(src, "/" + flags, k);
  }

  lemma RegexParts(src: string, p: nat, body: seq<JsTokens.Piece>, flags: string)
    requires var t := Rx(body, flags);
             OccursAt(src, TokText(t), p) && Fits(t, Ahead(src, p + |TokText(t)|))
    ensures var text := JsTokens.PrintText(body); var k := p + 1 + |text|;
            && k < |src| && src[p] == '/' && src[k] == '/'
            && src[p + 1] != '/' && src[p + 1] != '*' && src[p + 1] != '\n'
            && OccursAt(src, text, p + 1) && OccursAt(src, "/" + flags, k) && JsTokens.RegexText(body, false)
            && (forall i :: 0 <= i < |flags| ==> IsLetter(flags[i]))
            && (k + 1 + |flags| < |src| ==> !IsLetter(src[k + 1 + |flags|]))
  {
    hide IsLetter, OccursAt, JsTokens.PrintText, JsTokens.RegexText;
    JsTokens.RegexFirst(body);
    RegexPlaces(src, p, JsTokens.PrintText(body), flags);
  }

  lemma RegexLeft(src: string, p: nat, body: seq<JsTokens.Piece>, flags: string)
    requires var t := Rx(body, flags);
             OccursAt(src, TokText(t), p) && Fits(t, Ahead(src, p + |TokText(t)|))
    requires var st := StateAt(src, p); st.mode.Code? && RegexMayStart(st.prev, st.word)
    ensures Runs(src, p, p + |TokText(Rx(body, flags))|, State(Code, "0", "", "0"), "0")
  {
    hide StateAt, Written, Scrubber.Step, RegexMayStart, IsLetter, OccursAt, JsTokens.PrintText, JsTokens.RegexText,
         Runs, Reads, Fits;
    var k := p + 1 + |JsTokens.PrintText(body)|;
    RegexParts(src, p, body, flags);
    RegexOpens(src, p);
    ReadsTo(src, p, p + 1, Regex(false), "");
    RegexRuns(src, p + 1, body, false);
    ReadsTo(src, p + 1, k, Regex(false), "");
    RegexCloses(src, k, flags);
    ThreeParts(src, p, p + 1, k, k + 1 + |flags|, Regex(false), Regex(false), State(Code, "0", "", "0"), "", "0");
    assert "" + "0" == "0";
  }

  lemma FirstOf(src: string, s: string, k: nat)
    requires OccursAt(src, s, k)
    ensures k + |s| <= |src| && (s != "" ==> src[k] == s[0])
  {
    if s != "" { assert src[k] == src[k..k + |s|][0]; }
  }

  // --- the round trip ---

  lemma TokenLeft(src: string, p: nat, t: Tok, ctx: Context) returns (st: State)
    requires OccursAt(src, TokText(t), p) && Remembers(StateAt(src, p), ctx)
    requires Fits(t, Ahead(src, p + |TokText(t)|)) && Meant(t, ctx)
    ensures Runs(src, p, p + |TokText(t)|, st, Left(t)) && Remembers(st, After(t, ctx))
  {
    hide StateAt, Written, RegexMayStart, Runs, IsSpace, IsWord, IsLetter, RegexFollows,
         JsTokens.RegexText, NewlinesOnly,
         PlainNewlines, IndexOf, OccursAt;
    FirstOf(src, TokText(t), p);
    QuoteIsNoWord();
    SlashRule(StateAt(src, p), ctx);
    match t
    case Gap(c) => st := GapLeft(src, p, c, ctx);
    case Sign(c) => st := SignLeft(src, p, c, ctx);
    case Name(name) => st := NameTokenLeft(src, p, name, ctx);
    case LineNote(text) =>
      LineNoteLeft(src, p, text, StateAt(src, p));
      st := StateAt(src, p);
    case BlockNote(text) =>
      BlockNoteLeft(src, p, text, StateAt(src, p));
      st := StateAt(src, p);
    case Str(q, body) =>
      StringLeft(src, p, q, body);
      st := State(Code, "\"", "", "\"");
    case Rx(body, flags) =>
      RegexLeft(src, p, body, flags);
      st := State(Code, "0", "", "0");
  }

  lemma QuoteIsNoWord()
    ensures !IsWord('"') && IsWord('0')
  {
  }

  /** Only the first character of what follows matters to a token. */
  lemma FitsAhead(src: string, q: nat, t: Tok, rest: string)
    requires Fits(t, rest) && OccursAt(src, rest, q) && q + |rest| == |src|
    ensures Fits(t, Ahead(src, q))
  {
    hide JsTokens.RegexText, StringText, IndexOf, IsSpace, IsWord, IsLetter, OccursAt;
    FirstOf(src, rest, q);
  }

  lemma {:induction false} TokensLeft(src: string, p: nat, ts: seq<Tok>, ctx: Context) returns (st: State)
    requires OccursAt(src, ToksText(ts), p) && p + |ToksText(ts)| == |src| && Remembers(StateAt(src, p), ctx)
    requires AllFit(ts) && AllMeant(ts, ctx)
    ensures Runs(src, p, |src|, st, AllLeft(ts))
    decreases |ts|
  {
    hide StateAt, Written, TokText, Fits, Meant, After, Left, Remembers, Runs, OccursAt;
    if ts == [] {
      st := StateAt(src, p);
      Stands(src);
    } else {
      var first, rest := TokText(ts[0]), ToksText(ts[1..]);
      var q := p + |first|;
      OccursInParts(src, first, rest, p);
      FitsAhead(src, q, ts[0], rest);
      var mid := TokenLeft(src, p, ts[0], ctx);
      RunsTo(src, p, q, mid, Left(ts[0]));
      st := TokensLeft(src, q, ts[1..], After(ts[0], ctx));
      StepsOn(src, p, q, |src|, mid, st, Left(ts[0]), AllLeft(ts[1..]));
    }
  }

  lemma Stands(src: string)
    ensures Runs(src, |src|, |src|, StateAt(src, |src|), "")
  {
    hide StateAt, Written;
  }

  /** Scrubbing a printed source leaves its code as printed and in order, the newlines of its comments and
      literals but for escaped ones, two quotes for each string or template, and a zero for each regular
      expression. */
  lemma ScrubRoundTrip(ts: seq<Tok>)
    requires AllFit(ts) && AllMeant(ts, Context(None, "", false))
    ensures var src := ToksText(ts); Written(src, |src|) == AllLeft(ts)
  {
    hide StateAt, Written, AllFit, AllMeant, ToksText;
    var src := ToksText(ts);
    StartsInCode(src);
    assert src[0..|src|] == src;
    var st := TokensLeft(src, 0, ts, Context(None, "", false));
    WrittenAll(src, st, AllLeft(ts));
  }

  lemma WrittenAll(src: string, st: State, out: string)
    requires Runs(src, 0, |src|, st, out) && Written(src, 0) == ""
    ensures Written(src, |src|) == out
  {
    hide StateAt, Written;
  }

  // --- lines ---

  /** The character at `i` is code, and no comment, string or regular expression starts there. */
  ghost predicate IsCode(src: string, i: nat)
    requires i < |src|
  {
    var st, c := StateAt(src, i), src[i];
    && st.mode.Code? && c !in "'\"`"
    && (c == '/' ==>
          && !Next?(src, i, '/') && !Next?(src, i, '*')
          && st.prev != "" && st.prev[0] !in JsTokens.OPERAND_SIGNS && st.word !in JsTokens.OPERAND_WORDS)
  }

  /** Every character of code is written, as it is, and on its own line exactly when no escaped newline was
      dropped before it. */
  lemma KeptOnItsLine(src: string, i: nat)
    requires i < |src| && IsCode(src, i)
    ensures var at := |Written(src, i)|;
            && at < |Written(src, |src|)| && Written(src, |src|)[at] == src[i]
            && (Newlines(Written(src, |src|)[..at]) == Newlines(src[..i]) <==> Dropped(src, i) == 0)
  {
    hide StateAt, Newlines, Written, WordAfter, IsSpace, KEYWORDS, JsTokens.OPERAND_WORDS;
    NewlinesConserved(src, i);
    WordsAre(StateAt(src, i).word);
    CodeKept(src, i);
    WrittenGrows(src, i, |src|);
    WrittenGrows(src, i + 1, |src|);
    assert Written(src, |src|)[..|Written(src, i)|] == Written(src, i);
  }
}
