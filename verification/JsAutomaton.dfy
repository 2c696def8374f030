/**
 The reference reading of a JavaScript source: an automaton that consumes one
 character at a time and looks at most one character ahead. It keeps no index
 arithmetic and no inner loops; the scanner in JsScanner.dfy, which jumps over
 words and comments, is proved to find exactly the spans found here.
 */
module JsAutomaton {
  import opened Chars

  /** The text of a string, template piece or regular expression, without delimiters. */
  datatype Span = Span(start: nat, end: nat)

  datatype Comment = Comment(line: nat, text: string, start: nat, end: nat)

  /** What the next character is part of. `from` is where the open text began. */
  datatype Mode =
    | Code
    | Word
    | LineComment(from: nat)
    | BlockOpen(from: nat)
    | Block(from: nat)
    | BlockClose(from: nat)
    | Quoted(q: char, from: nat)
    | QuotedEscape(q: char, from: nat)
    | Template(from: nat)
    | TemplateEscape(from: nat)
    | Dollar
    | Regex(inClass: bool, from: nat)
    | RegexEscape(inClass: bool, from: nat)
    | Flags
  {
    predicate Comment?() {
      LineComment? || BlockOpen? || Block? || BlockClose?
    }

    /** Inside the text of a literal: the next character is blanked unless it delimits. */
    predicate Text?() {
      Quoted? || QuotedEscape? || Template? || TemplateEscape? || Regex? || RegexEscape?
    }

    predicate Escape?() {
      QuotedEscape? || TemplateEscape? || RegexEscape?
    }
  }

  /** The character taken for the last significant one after a literal. */
  function Delimiter(mode: Mode): char {
    if mode.Quoted? then mode.q else if mode.Regex? then '/' else '`'
  }

  /** `last` holds the last significant code character (empty at the start),
      `word` the name that ended there, `depth` the `{ }` nesting and `resume`
      the depth each open substitution returns to. */
  datatype State = State(mode: Mode, last: string, word: string, depth: int, resume: seq<int>)

  const START := State(Code, "", "", 0, [])

  datatype Kind = Kept | InComment | InText

  /** One transition: the next state, what the character was, and the spans that end with it. */
  datatype Move = Move(next: State, kind: Kind, comments: seq<Comment>, literals: seq<Span>)

  const REGEX_AFTER_WORDS: set<string> :=
    {"return", "typeof", "case", "in", "of", "new", "delete", "void",
     "throw", "else", "do", "yield", "await", "instanceof"}

  /** Whether a `/` in code starts a regular expression rather than a division. */
  predicate OperandExpected(last: string, word: string) {
    !((last != "" && (IsWord(last[0]) || last[0] == ')' || last[0] == ']')) && word !in REGEX_AFTER_WORDS)
  }

  /** The `}` that returns to the text of the innermost open template. */
  predicate Resumes(st: State) {
    st.resume != [] && st.resume[|st.resume| - 1] == st.depth - 1
  }

  /** The comment from `from` to `end` whose closing delimiter has `tail` characters. */
  function CommentAt(src: string, from: nat, end: nat, tail: nat): Comment {
    Comment(1 + Newlines(Slice(src, 0, from)), Slice(src, from + 2, end - tail), from, end)
  }

  function Silent(next: State, kind: Kind): Move {
    Move(next, kind, [], [])
  }

  function InMode(st: State, mode: Mode): State {
    st.(mode := mode)
  }

  /** Back in code after a literal whose last delimiter is `d`. */
  function After(st: State, mode: Mode, d: char): State {
    st.(mode := mode, last := [d], word := "")
  }

  function Step(src: string, i: nat, st: State): Move
    requires i < |src|
  {
    if st.mode.Code? then CodeStep(src, i, st)
    else if st.mode.Comment?() then CommentStep(src, i, st)
    else if st.mode.Quoted? || st.mode.QuotedEscape? then QuotedStep(src, i, st)
    else if st.mode.Template? || st.mode.TemplateEscape? then TemplateStep(src, i, st)
    else if st.mode.Regex? || st.mode.RegexEscape? then RegexStep(src, i, st)
    else TokenStep(src, i, st)
  }

  function CommentStep(src: string, i: nat, st: State): Move
    requires i < |src| && st.mode.Comment?()
  {
    var from := st.mode.from;
    if st.mode.BlockClose? then Move(InMode(st, Code), InComment, [CommentAt(src, from, i + 1, 2)], [])
    else if if st.mode.LineComment? then LineEnds(src, i) else AtEnd(src, i) then
      Move(InMode(st, Code), InComment, [CommentAt(src, from, i + 1, 0)], [])
    else if st.mode.BlockOpen? then Silent(InMode(st, Block(from)), InComment)
    else if st.mode.Block? && src[i] == '*' && src[i + 1] == '/' then Silent(InMode(st, BlockClose(from)), InComment)
    else Silent(st, InComment)
  }

  function QuotedStep(src: string, i: nat, st: State): Move
    requires i < |src| && (st.mode.Quoted? || st.mode.QuotedEscape?)
  {
    var c, q, from := src[i], st.mode.q, st.mode.from;
    if st.mode.Quoted? && (c == q || c == '\n') then Move(After(st, Code, q), Kept, [], [Span(from, i)])
    else if AtEnd(src, i) then Move(After(st, Code, q), InText, [], [Span(from, TextEnd(i, c, st.mode))])
    else Silent(InMode(st, if st.mode.Quoted? && c == '\\' then QuotedEscape(q, from) else Quoted(q, from)), InText)
  }

  function TemplateStep(src: string, i: nat, st: State): Move
    requires i < |src| && (st.mode.Template? || st.mode.TemplateEscape?)
  {
    var c, from := src[i], st.mode.from;
    if st.mode.Template? && c == '`' then Move(After(st, Code, '`'), Kept, [], [Span(from, i)])
    else if st.mode.Template? && c == '$' && Next?(src, i, '{') then
      Move(InMode(st, Dollar), Kept, [], [Span(from, i)])
    else if AtEnd(src, i) then Move(After(st, Code, '`'), InText, [], [Span(from, TextEnd(i, c, st.mode))])
    else Silent(InMode(st, if st.mode.Template? && c == '\\' then TemplateEscape(from) else Template(from)), InText)
  }

  function RegexStep(src: string, i: nat, st: State): Move
    requires i < |src| && (st.mode.Regex? || st.mode.RegexEscape?)
  {
    var c, inClass, from := src[i], st.mode.inClass, st.mode.from;
    if st.mode.Regex? && c == '/' && !inClass then
      Move(After(st, if NextIsLetter(src, i) then Flags else Code, '/'), Kept, [], [Span(from, i)])
    else if st.mode.Regex? && c == '\\' && !AtEnd(src, i) then Silent(InMode(st, RegexEscape(inClass, from)), InText)
    else if LineEnds(src, i) then Move(After(st, Code, '/'), InText, [], [Span(from, TextEnd(i, c, st.mode))])
    else Silent(InMode(st, Regex(if st.mode.Regex? then ClassAfter(inClass, c) else inClass, from)), InText)
  }

  /** Whether a regular expression is inside `[...]` after the character `c`. */
  predicate ClassAfter(inClass: bool, c: char) {
    c == '[' || (inClass && c != ']')
  }

  /** The rest of a word, the flags of a regular expression, the `{` of a `${`. */
  function TokenStep(src: string, i: nat, st: State): Move
    requires i < |src|
  {
    if st.mode.Word? then
      Silent(State(if NextIsWord(src, i) then Word else Code, [src[i]], st.word + [src[i]], st.depth, st.resume), Kept)
    else if st.mode.Dollar? then Silent(State(Code, "{", "", st.depth + 1, st.resume + [st.depth]), Kept)
    else Silent(InMode(st, if NextIsLetter(src, i) then Flags else Code), Kept)
  }

  /** The end of a text whose last character is `c` at `i`: a backslash escapes one further. */
  function TextEnd(i: nat, c: char, mode: Mode): nat {
    if c == '\\' && !mode.Escape?() then i + 2 else i + 1
  }

  function CodeStep(src: string, i: nat, st: State): Move
    requires i < |src|
  {
    var c := src[i];
    if c == '/' && Next?(src, i, '/') then Silent(InMode(st, LineComment(i)), InComment)
    else if c == '/' && Next?(src, i, '*') then Silent(InMode(st, BlockOpen(i)), InComment)
    else if c == '\'' || c == '"' then
      if AtEnd(src, i) then Move(After(st, Code, c), Kept, [], [Span(i + 1, i + 1)])
      else Silent(InMode(st, Quoted(c, i + 1)), Kept)
    else if c == '`' then OpenTemplate(src, i, st)
    else if c == '}' && Resumes(st) then
      OpenTemplate(src, i, st.(depth := st.depth - 1, resume := st.resume[..|st.resume| - 1]))
    else if c == '/' && OperandExpected(st.last, st.word) then OpenRegex(src, i, st)
    else if IsSpace(c) then Silent(st, Kept)
    else if IsWord(c) then
      Silent(State(if NextIsWord(src, i) then Word else Code, [c], [c], st.depth, st.resume), Kept)
    else
      Silent(State(Code, [c], "", st.depth + (if c == '{' then 1 else if c == '}' then -1 else 0), st.resume), Kept)
  }

  function OpenTemplate(src: string, i: nat, st: State): Move {
    if AtEnd(src, i) then Move(After(st, Code, '`'), Kept, [], [Span(i + 1, i + 1)])
    else Silent(InMode(st, Template(i + 1)), Kept)
  }

  function OpenRegex(src: string, i: nat, st: State): Move {
    if LineEnds(src, i) then Move(After(st, Code, '/'), Kept, [], [Span(i + 1, i + 1)])
    else Silent(InMode(st, Regex(false, i + 1)), Kept)
  }

  /** The state before position `i`. */
  function StateAt(src: string, i: nat): State
    requires i <= |src|
  {
    if i == 0 then START else Step(src, i - 1, StateAt(src, i - 1)).next
  }

  function MoveAt(src: string, i: nat): Move
    requires i < |src|
  {
    Step(src, i, StateAt(src, i))
  }

  function KindAt(src: string, i: nat): Kind
    requires i < |src|
  {
    MoveAt(src, i).kind
  }

  /** The comments and literals that end before position `i`, in order. */
  function CommentsTo(src: string, i: nat): seq<Comment>
    requires i <= |src|
  {
    if i == 0 then [] else CommentsTo(src, i - 1) + MoveAt(src, i - 1).comments
  }

  function LiteralsTo(src: string, i: nat): seq<Span>
    requires i <= |src|
  {
    if i == 0 then [] else LiteralsTo(src, i - 1) + MoveAt(src, i - 1).literals
  }

  function Comments(src: string): seq<Comment> {
    CommentsTo(src, |src|)
  }

  function Literals(src: string): seq<Span> {
    LiteralsTo(src, |src|)
  }

  /** One character further. */
  lemma Moves(src: string, i: nat)
    requires i < |src|
    ensures StateAt(src, i + 1) == MoveAt(src, i).next
    ensures CommentsTo(src, i + 1) ==
            if MoveAt(src, i).comments == [] then CommentsTo(src, i) else CommentsTo(src, i) + MoveAt(src, i).comments
    ensures LiteralsTo(src, i + 1) ==
            if MoveAt(src, i).literals == [] then LiteralsTo(src, i) else LiteralsTo(src, i) + MoveAt(src, i).literals
  {
    hide Step;
  }

  /** The automaton's mode at `k` inside the block comment that runs from `from` to `stop`. */
  ghost function BlockMode(src: string, from: nat, stop: nat, k: nat): Mode {
    if k == from then Code
    else if k == stop then Code
    else if k == from + 1 then BlockOpen(from)
    else if k == stop - 1 && IndexOf(src, "*/", from + 2) >= 0 then BlockClose(from)
    else Block(from)
  }

  /** A block comment runs to the first closing delimiter after its opening one. */
  lemma {:induction false} BlockCommentRun(src: string, from: nat, k: nat)
    requires from < |src| && StateAt(src, from).mode.Code? && OccursAt(src, "/*", from)
    requires from < k <= BlockEnd(src, from)
    ensures StateAt(src, k) == InMode(StateAt(src, from), BlockMode(src, from, BlockEnd(src, from), k))
    ensures LiteralsTo(src, k) == LiteralsTo(src, from)
    ensures CommentsTo(src, k) == CommentsTo(src, from) +
      if k < BlockEnd(src, from) then []
      else [CommentAt(src, from, k, if IndexOf(src, "*/", from + 2) < 0 then 0 else 2)]
    decreases k
  {
    hide StateAt, CommentsTo, LiteralsTo, CommentAt, IndexOf, OperandExpected, OccursAt;
    OccursPair(src, '/', '*', from);
    if k > from + 1 { BlockCommentRun(src, from, k - 1); }
    var end := IndexOf(src, "*/", from + 2);
    if end >= 0 { OccursPair(src, '*', '/', end); }
    OccursPair(src, '*', '/', k - 1);
    Moves(src, k - 1);
  }

  /** Where the block comment that opens at `from` ends. */
  function BlockEnd(src: string, from: nat): nat {
    var end := IndexOf(src, "*/", from + 2);
    if end < 0 then |src| else end + 2
  }
}
