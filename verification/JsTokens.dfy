/** Sources printed from token trees, and the spans the scanner must find in them. */
module JsTokens {
  import opened Chars
  import opened JsAutomaton
  import opened Wrappers

  /** A character of a literal's text, plain or behind a backslash. */
  datatype Piece = Plain(c: char) | Escaped(c: char)

  /** A token says what its characters are meant to be: `Sign('/')` is a division, `Rx` a regular
      expression. */
  datatype Token =
    | Gap(c: char)
    | Name(name: string)
    | Sign(c: char)
    | LineNote(text: string)
    | BlockNote(text: string)
    | Str(q: char, body: seq<Piece>)
    | Rx(body: seq<Piece>, flags: string)
    | Braces(inner: Tokens)
    | Tpl(head: seq<Piece>, subs: Subs)

  datatype Tokens = Nil | Cons(first: Token, rest: Tokens)

  /** The substitutions of a template, each with the text that follows it. */
  datatype Subs = Done | Sub(code: Tokens, text: seq<Piece>, more: Subs)

  // --- printing ---

  function PrintText(t: seq<Piece>): string {
    if t == [] then "" else (if t[0].Plain? then [t[0].c] else ['\\', t[0].c]) + PrintText(t[1..])
  }

  function Print(t: Token): string {
    match t
    case Gap(c) => [c]
    case Name(name) => name
    case Sign(c) => [c]
    case LineNote(text) => "//" + text
    case BlockNote(text) => "/*" + (text + "*/")
    case Str(q, body) => [q] + (PrintText(body) + [q])
    case Rx(body, flags) => "/" + (PrintText(body) + ("/" + flags))
    case Braces(inner) => "{" + (PrintAll(inner) + "}")
    case Tpl(head, subs) => "`" + (PrintText(head) + (PrintSubs(subs) + "`"))
  }

  function PrintAll(ts: Tokens): string {
    if ts.Nil? then "" else Print(ts.first) + PrintAll(ts.rest)
  }

  function PrintSubs(subs: Subs): string {
    if subs.Done? then "" else "${" + (PrintAll(subs.code) + ("}" + (PrintText(subs.text) + PrintSubs(subs.more))))
  }

  // --- which trees are sources: a token must not run into the one after it ---

  predicate QuotedText(q: char, t: seq<Piece>) {
    forall k :: 0 <= k < |t| && t[k].Plain? ==> t[k].c != q && t[k].c != '\\' && t[k].c != '\n'
  }

  predicate TemplateText(t: seq<Piece>) {
    && (forall k :: 0 <= k < |t| && t[k].Plain? ==> t[k].c != '`' && t[k].c != '\\')
    && (forall k :: 0 <= k < |t| - 1 ==> t[k] != Plain('$') || t[k + 1] != Plain('{'))
  }

  /** The text of a regular expression from inside or outside a `[...]` class to the end of it. */
  predicate RegexText(t: seq<Piece>, inClass: bool) {
    if t == [] then !inClass
    else if t[0].Escaped? then RegexText(t[1..], inClass)
    else
      && t[0].c != '\\' && t[0].c != '\n'
      && (t[0].c == '/' ==> inClass)
      && RegexText(t[1..], ClassAfter(inClass, t[0].c))
  }

  /** A regular expression's first character makes its opening `/` no comment. */
  lemma RegexFirst(t: seq<Piece>)
    requires t != [] && t[0] != Plain('*') && RegexText(t, false)
    ensures PrintText(t) != "" && PrintText(t)[0] != '*' && PrintText(t)[0] != '/' && PrintText(t)[0] != '\n'
  {
  }

  /** Whether `t` is a token as it stands, when the source goes on with `next` (empty at its end). */
  predicate Fits(t: Token, next: string) {
    match t
    case Gap(c) => IsSpace(c)
    case Name(name) =>
      name != "" && (forall k :: 0 <= k < |name| ==> IsWord(name[k])) && (next == "" || !IsWord(next[0]))
    case Sign(c) =>
      && !IsSpace(c) && !IsWord(c) && c !in "'\"`{}"
      && (c == '/' ==> next == "" || next[0] !in "/*")
    case LineNote(text) => '\n' !in text && (next == "" || next[0] == '\n')
    case BlockNote(text) => IndexOf(text, "*/", 0) < 0
    case Str(q, body) => q in "'\"" && QuotedText(q, body)
    case Rx(body, flags) =>
      && body != [] && body[0] != Plain('*') && RegexText(body, false)
      && (forall k :: 0 <= k < |flags| ==> IsLetter(flags[k])) && (next == "" || !IsLetter(next[0]))
    case Braces(inner) => FitAll(inner, "}")
    case Tpl(head, subs) => TemplateText(head) && FitSubs(subs)
  }

  predicate FitAll(ts: Tokens, next: string) {
    ts.Nil? || (Fits(ts.first, PrintAll(ts.rest) + next) && FitAll(ts.rest, next))
  }

  predicate FitSubs(subs: Subs) {
    subs.Done? || (FitAll(subs.code, "}") && TemplateText(subs.text) && FitSubs(subs.more))
  }

  // --- what a `/` is meant to be ---

  /** The words behind which an operand follows. */
  const OPERAND_WORDS: set<string> :=
    {"return", "typeof", "case", "in", "of", "new", "delete", "void", "throw", "else", "do", "yield", "await",
     "instanceof"}

  /** The signs behind which an operand follows, as the other two readers of `/` have them. */
  const OPERAND_SIGNS := "(,=:[!&|?{};+-*%<>~^"

  /** Behind the token `before` a `/` divides: behind a name or a number that is none of those words, and
      behind a closing parenthesis or square bracket; not behind any other token, nor at the start. */
  predicate DivisionFollows(before: Option<Token>) {
    match before
    case None => false
    case Some(t) =>
      match t
      case Name(name) => name !in OPERAND_WORDS
      case Sign(c) => c == ')' || c == ']'
      case _ => false
  }

  /** The last token that is neither space nor comment. */
  function Latest(t: Token, before: Option<Token>): Option<Token> {
    if t.Gap? || t.LineNote? || t.BlockNote? then before else Some(t)
  }

  /** Each division and each regular expression of `t` stands where the token before it has it. */
  predicate Meant(t: Token, before: Option<Token>) {
    match t
    case Sign(c) => c == '/' ==> DivisionFollows(before)
    case Rx(_, _) => !DivisionFollows(before)
    case Braces(inner) => AllMeant(inner, Some(Sign('{')))
    case Tpl(_, subs) => SubsMeant(subs)
    case _ => true
  }

  predicate AllMeant(ts: Tokens, before: Option<Token>) {
    ts.Nil? || (Meant(ts.first, before) && AllMeant(ts.rest, Latest(ts.first, before)))
  }

  predicate SubsMeant(subs: Subs) {
    subs.Done? || (AllMeant(subs.code, Some(Sign('{'))) && SubsMeant(subs.more))
  }

  // --- the spans of a tree printed at `p`, on `line` ---

  function TextSpan(p: nat, t: seq<Piece>): Span {
    Span(p, p + |PrintText(t)|)
  }

  function LiteralsOf(t: Token, p: nat): seq<Span> {
    match t
    case Str(_, body) => [TextSpan(p + 1, body)]
    case Rx(body, _) => [TextSpan(p + 1, body)]
    case Braces(inner) => LiteralsOfAll(inner, p + 1)
    case Tpl(head, subs) => [TextSpan(p + 1, head)] + LiteralsOfSubs(subs, p + 1 + |PrintText(head)|)
    case _ => []
  }

  function LiteralsOfAll(ts: Tokens, p: nat): seq<Span> {
    if ts.Nil? then [] else LiteralsOf(ts.first, p) + LiteralsOfAll(ts.rest, p + |Print(ts.first)|)
  }

  function LiteralsOfSubs(subs: Subs, p: nat): seq<Span> {
    if subs.Done? then []
    else
      var text := p + 2 + |PrintAll(subs.code)| + 1;
      LiteralsOfAll(subs.code, p + 2) + [TextSpan(text, subs.text)]
      + LiteralsOfSubs(subs.more, text + |PrintText(subs.text)|)
  }

  function CommentsOf(t: Token, p: nat, line: nat): seq<Comment> {
    match t
    case LineNote(text) => [Comment(line, text, p, p + 2 + |text|)]
    case BlockNote(text) => [Comment(line, text, p, p + 4 + |text|)]
    case Braces(inner) => CommentsOfAll(inner, p + 1, line)
    case Tpl(head, subs) => CommentsOfSubs(subs, p + 1 + |PrintText(head)|, line + Newlines(PrintText(head)))
    case _ => []
  }

  function CommentsOfAll(ts: Tokens, p: nat, line: nat): seq<Comment> {
    if ts.Nil? then []
    else
      CommentsOf(ts.first, p, line)
      + CommentsOfAll(ts.rest, p + |Print(ts.first)|, line + Newlines(Print(ts.first)))
  }

  function CommentsOfSubs(subs: Subs, p: nat, line: nat): seq<Comment> {
    if subs.Done? then []
    else
      var code, text := PrintAll(subs.code), PrintText(subs.text);
      CommentsOfAll(subs.code, p + 2, line)
      + CommentsOfSubs(subs.more, p + 3 + |code| + |text|, line + Newlines(code) + Newlines(text))
  }
}
