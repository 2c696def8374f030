/** The tokens of object literals, and what the walk of `readObjectKeys` makes of each of them. */
module ObjectTokens {
  import opened Chars
  import opened Wrappers
  import opened Brackets
  import opened ObjectKeys
  import JsTokens
  import JsAutomaton

  // --- the tokens of values ---

  /** What stands in a value; the token says what each of its characters is meant to be: `Ch('/')` is a
      division, `Rx` a regular expression, `Tpl` a template with the code of its substitutions. */
  datatype Tok =
    | Ch(c: char)
    | LineNote(text: string)
    | BlockNote(text: string)
    | Str(q: char, body: seq<JsTokens.Piece>)
    | Rx(body: seq<JsTokens.Piece>, flags: string)
    | Tpl(head: seq<JsTokens.Piece>, subs: JsTokens.Subs)
    | Group(open: char, inner: Toks)

  datatype Toks = Nil | Cons(first: Tok, rest: Toks)

  function TokText(t: Tok): string {
    match t
    case Ch(c) => [c]
    case LineNote(text) => "//" + (text + "\n")
    case BlockNote(text) => "/*" + (text + "*/")
    case Str(q, body) => [q] + (JsTokens.PrintText(body) + [q])
    case Rx(body, flags) => "/" + (JsTokens.PrintText(body) + ("/" + flags))
    case Tpl(head, subs) => "`" + (JsTokens.PrintText(head) + (JsTokens.PrintSubs(subs) + "`"))
    case Group(open, inner) => [open] + (ToksText(inner) + CloserOf(open))
  }

  function ToksText(ts: Toks): string {
    if ts.Nil? then "" else TokText(ts.first) + ToksText(ts.rest)
  }

  /** The last character that is no space after a token. */
  function PrevAfter(t: Tok, prev: string): string {
    match t
    case Ch(c) => if IsSpace(c) then prev else [c]
    case LineNote(_) => prev
    case BlockNote(_) => prev
    case Str(q, _) => [q]
    case Rx(_, _) => "/"
    case Tpl(_, _) => "`"
    case Group(open, _) => CloserOf(open)
  }

  function PrevAfterAll(ts: Toks, prev: string): string {
    if ts.Nil? then prev else PrevAfterAll(ts.rest, PrevAfter(ts.first, prev))
  }

  predicate StringFits(q: char, body: seq<JsTokens.Piece>) {
    q in "'\"`" && forall k :: 0 <= k < |body| && body[k].Plain? ==> body[k].c != q && body[k].c != '\\'
  }

  /** The texts of a template between its substitutions; their code may be anything. */
  predicate TextsFit(subs: JsTokens.Subs) {
    subs.Done? || (JsTokens.TemplateText(subs.text) && TextsFit(subs.more))
  }

  /** Whether `t` is a token as it stands, when `next` follows. */
  predicate Fits(t: Tok, next: string) {
    match t
    case Ch(c) => !Quote(c) && !Opens(c) && !Closes(c) && (c == '/' ==> next == "" || next[0] !in "/*")
    case LineNote(text) => '\n' !in text
    case BlockNote(text) => IndexOf(text, "*/", 0) < 0
    case Str(q, body) => q in "'\"" && StringFits(q, body)
    case Rx(body, flags) =>
      && body != [] && body[0] != JsTokens.Plain('*') && JsTokens.RegexText(body, false)
      && (forall k :: 0 <= k < |flags| ==> IsLetter(flags[k])) && (next == "" || !IsLetter(next[0]))
    case Tpl(head, subs) => JsTokens.TemplateText(head) && TextsFit(subs)
    case Group(open, inner) => Opens(open) && FitAll(inner, CloserOf(open))
  }

  predicate FitAll(ts: Toks, next: string) {
    ts.Nil? || (Fits(ts.first, ToksText(ts.rest) + next) && FitAll(ts.rest, next))
  }

  // --- what a `/` is meant to be ---

  /** Behind the token `before` a `/` starts a regular expression: behind one of those signs and behind a
      block; not behind a letter, a digit, another sign, a string, a template, a regular expression, or
      what stands in parentheses or square brackets. */
  predicate RegexFollows(before: Tok) {
    match before
    case Ch(c) => c in JsTokens.OPERAND_SIGNS
    case Group(open, _) => open == '{'
    case _ => false
  }

  /** The last token that is neither space nor comment. */
  function Latest(t: Tok, before: Tok): Tok {
    if t.LineNote? || t.BlockNote? || (t.Ch? && IsSpace(t.c)) then before else t
  }

  /** Each division and each regular expression of `t` stands where the token before it has it, and no
      template has an unescaped backtick in the code of its substitutions. */
  predicate Meant(t: Tok, before: Tok) {
    match t
    case Ch(c) => c == '/' ==> !RegexFollows(before)
    case Rx(_, _) => RegexFollows(before)
    case Tpl(_, subs) => !Holds(JsTokens.PrintSubs(subs), '`')
    case Group(open, inner) => AllMeant(inner, Ch(open))
    case _ => true
  }

  predicate AllMeant(ts: Toks, before: Tok) {
    ts.Nil? || (Meant(ts.first, before) && AllMeant(ts.rest, Latest(ts.first, before)))
  }

  /** What the reader takes `t` for when `prev` is the last character it remembers. */
  predicate Taken(t: Tok, prev: string) {
    match t
    case Ch(c) => c == '/' ==> !RegexMayFollow(prev)
    case Rx(_, _) => RegexMayFollow(prev)
    case Tpl(_, subs) => !Holds(JsTokens.PrintSubs(subs), '`')
    case Group(open, inner) => AllTaken(inner, [open])
    case _ => true
  }

  predicate AllTaken(ts: Toks, prev: string) {
    ts.Nil? || (Taken(ts.first, prev) && AllTaken(ts.rest, PrevAfter(ts.first, prev)))
  }

  predicate Significant(before: Tok) {
    match before
    case Ch(c) => !IsSpace(c)
    case Str(q, _) => q in "'\""
    case Group(open, _) => Opens(open)
    case _ => !before.LineNote? && !before.BlockNote?
  }

  /** The reader's rule is the one about tokens. */
  lemma SlashRule(before: Tok)
    requires Significant(before)
    ensures RegexMayFollow(PrevAfter(before, "")) <==> RegexFollows(before)
  {
  }

  lemma LatestPrev(t: Tok, before: Tok, next: string)
    requires Fits(t, next) && Significant(before)
    ensures Significant(Latest(t, before)) && PrevAfter(Latest(t, before), "") == PrevAfter(t, PrevAfter(before, ""))
  {
    hide IsSpace, FitAll, JsTokens.RegexText, JsTokens.TemplateText, TextsFit;
  }

  lemma {:induction false} TokenMeant(t: Tok, before: Tok, next: string)
    requires Fits(t, next) && Meant(t, before) && Significant(before)
    ensures Taken(t, PrevAfter(before, ""))
    decreases t
  {
    hide RegexMayFollow, RegexFollows, Holds, JsTokens.RegexText, JsTokens.TemplateText, TextsFit, IsSpace;
    SlashRule(before);
    if t.Group? {
      BracketIsNoSpace(t.open);
      TokensMeant(t.inner, Ch(t.open), CloserOf(t.open));
    }
  }

  lemma BracketIsNoSpace(open: char)
    requires Opens(open)
    ensures !IsSpace(open)
  {
  }

  /** Tokens whose slashes stand where the tokens have them are taken by the reader as they are meant. */
  lemma {:induction false} TokensMeant(ts: Toks, before: Tok, next: string)
    requires FitAll(ts, next) && AllMeant(ts, before) && Significant(before)
    ensures AllTaken(ts, PrevAfter(before, ""))
    decreases ts
  {
    hide Fits, Meant, Taken, Significant, PrevAfter, Latest;
    if ts.Cons? {
      TokenMeant(ts.first, before, ToksText(ts.rest) + next);
      LatestPrev(ts.first, before, ToksText(ts.rest) + next);
      TokensMeant(ts.rest, Latest(ts.first, before), next);
    }
  }

  /** `q` stands in `s` with no backslash escaping it. */
  predicate Holds(s: string, q: char) {
    s != "" && if s[0] == '\\' then |s| > 1 && Holds(s[2..], q) else s[0] == q || Holds(s[1..], q)
  }

  // --- the walk over one token ---

  /** Only the first character of what follows matters, and all separators are alike. */
  ghost predicate SameNext(a: string, b: string) {
    && (a == "" <==> b == "")
    && (a != "" && b != "" ==> a[0] == b[0] || (a[0] in ",)]}" && b[0] in ",)]}"))
  }

  /** Here a token is neither key nor separator: inside brackets, in a value, or in a spread. */
  ghost predicate Quiet(w: Walker) {
    w.str.None? && (w.depth >= 2 || (w.depth == 1 && (w.skipValue || (w.quoted.None? && SpreadBegun(w.tok)))))
  }

  /** `tok` is blank up to the three dots it begins with. */
  ghost predicate SpreadBegun(tok: string) {
    exists k :: 0 <= k <= |tok| && IsBlank(tok[..k]) && IsSpread(tok[k..])
  }

  /** Walking from `j` to `k` takes `w` to `w'`. */
  ghost predicate Goes(src: string, j: nat, w: Walker, k: nat, w': Walker) {
    k <= |src| && Walk(src, j, w) == Walk(src, k, w')
  }

  lemma CharGoes(src: string, j: nat, w: Walker)
    requires j < |src| && w.str.None?
    requires src[j] == '/' ==> !RegexMayFollow(w.prev) && !Next?(src, j, '/') && !Next?(src, j, '*')
    requires !Closes(src[j]) || w.depth != 1
    ensures var t := CodeTurn(src[j], j, if IsSpace(src[j]) then w else w.(prev := [src[j]]));
            !t.over && Goes(src, j, w, j + 1, t.w)
  {
    hide Walk, IsSpace, RegexMayFollow, CodeTurn, TakeTurn;
    WalkStep(src, j, w);
    CodeTaken(src, j, w);
    var w' := if IsSpace(src[j]) then w else w.(prev := [src[j]]);
    CodeGoesOn(src[j], j, w');
    var t := CodeTurn(src[j], j, w');
    assert Goes(src, j, w, j + 1, t.w);
  }

  lemma CodeTaken(src: string, j: nat, w: Walker)
    requires j < |src| && w.str.None?
    requires src[j] == '/' ==> !RegexMayFollow(w.prev) && !Next?(src, j, '/') && !Next?(src, j, '*')
    ensures TakeTurn(src, j, w) == CodeTurn(src[j], j, if IsSpace(src[j]) then w else w.(prev := [src[j]]))
  {
    hide IsSpace, RegexMayFollow, CodeTurn, TextTurn, EndOfRegex, IndexOf, OccursAt;
  }

  lemma CodeGoesOn(c: char, j: nat, w: Walker)
    requires !Closes(c) || w.depth != 1
    ensures var t := CodeTurn(c, j, w); !t.over && t.next == j + 1
  {
    hide PushKey, IsBlank;
  }

  // --- strings ---

  /** Where the text `s` of a string has been read, kept if it is a key. */
  ghost function TextRead(w: Walker, s: string): Walker {
    match w.str
    case None => w
    case Some(text) => if text.key then w.(str := Some(text.(text := text.text + s))) else w
  }

  lemma ReadsOn(w: Walker, a: string, b: string)
    ensures TextRead(TextRead(w, a), b) == TextRead(w, a + b)
  {
    if w.str.Some? {
      assert w.str.value.text + a + b == w.str.value.text + (a + b);
    }
  }

  lemma {:induction false} TextGoes(src: string, j: nat, w: Walker, body: seq<JsTokens.Piece>)
    requires OccursAt(src, JsTokens.PrintText(body), j) && w.str.Some? && w.str.value.q != '\\'
    requires forall k :: 0 <= k < |body| && body[k].Plain? ==> body[k].c != w.str.value.q && body[k].c != '\\'
    ensures Goes(src, j, w, j + |JsTokens.PrintText(body)|, TextRead(w, JsTokens.PrintText(body)))
    decreases |body|
  {
    hide Walk;
    if body == [] {
      assert w.str.value.text + JsTokens.PrintText(body) == w.str.value.text;
      assert TextRead(w, JsTokens.PrintText(body)) == w;
    } else {
      var head := if body[0].Plain? then [body[0].c] else ['\\', body[0].c];
      var rest := JsTokens.PrintText(body[1..]);
      OccursInParts(src, head, rest, j);
      assert src[j..j + |head|] == head;
      assert src[j] == head[0] && (|head| == 2 ==> src[j + 1] == head[1]);
      WalkStep(src, j, w);
      if |head| == 2 { assert w.str.value.text + head == w.str.value.text + [src[j]] + [src[j + 1]]; }
      assert TakeTurn(src, j, w) == Turn(TextRead(w, head), j + |head|, false);
      TextGoes(src, j + |head|, TextRead(w, head), body[1..]);
      ReadsOn(w, head, rest);
    }
  }

  /** A string: the key itself where a key starts and it is no template, skipped anywhere else. */
  lemma StringGoes(src: string, j: nat, w: Walker, q: char, body: seq<JsTokens.Piece>)
    requires OccursAt(src, TokText(Str(q, body)), j) && w.str.None? && StringFits(q, body)
    ensures var key := AtKey(w) && q != '`';
            Goes(src, j, w, j + |TokText(Str(q, body))|,
                 w.(prev := [q], quoted := if key then Some(JsTokens.PrintText(body)) else w.quoted))
  {
    hide Walk, PushKey, RegexMayFollow, TakeTurn, OccursAt, IsSpace;
    var text := JsTokens.PrintText(body);
    var k := j + 1 + |text|;
    OccursInParts(src, [q], text + [q], j);
    OccursInParts(src, text, [q], j + 1);
    OccursChar(src, q, j);
    OccursChar(src, q, k);
    CharGoes(src, j, w);
    QuoteIsNoSpace(q);
    var inside := w.(prev := [q], str := Some(Text(q, AtKey(w) && q != '`', "")));
    TextGoes(src, j + 1, inside, body);
    assert "" + text == text;
    TextEnds(src, k, TextRead(inside, text));
  }

  lemma QuoteIsNoSpace(q: char)
    requires Quote(q)
    ensures !IsSpace(q) && q != '/' && !Closes(q)
  {
  }

  lemma TextEnds(src: string, j: nat, w: Walker)
    requires j < |src| && w.str.Some? && src[j] == w.str.value.q != '\\'
    ensures Goes(src, j, w, j + 1,
                 w.(str := None, prev := [src[j]],
                    quoted := if w.str.value.key then Some(w.str.value.text) else w.quoted))
  {
    hide Walk;
    WalkStep(src, j, w);
  }

  // --- comments and regular expressions ---

  lemma NoteGoes(src: string, j: nat, w: Walker, t: Tok)
    requires (t.LineNote? || t.BlockNote?) && Fits(t, "") && w.str.None? && OccursAt(src, TokText(t), j)
    ensures Goes(src, j, w, j + |TokText(t)| - if t.LineNote? then 1 else 0, w)
    ensures j + |TokText(t)| <= |src| && (t.LineNote? ==> src[j + |TokText(t)| - 1] == '\n')
  {
    hide Walk, IndexOf, RegexMayFollow, CodeTurn;
    WalkStep(src, j, w);
    if t.LineNote? {
      OccursInParts(src, "//", t.text + "\n", j);
      OccursPair(src, '/', '/', j);
      LineNoteEnds(src, j, t.text);
    } else {
      OccursInParts(src, "/*", t.text + "*/", j);
      OccursPair(src, '/', '*', j);
      BlockNoteEnds(src, j, t.text);
    }
  }

  lemma LineNoteEnds(src: string, j: nat, text: string)
    requires OccursAt(src, "//" + (text + "\n"), j) && '\n' !in text
    ensures IndexOf(src, "\n", j) == j + 2 + |text| && src[j + 2 + |text|] == '\n'
  {
    hide IndexOf;
    var nl := j + 2 + |text|;
    var note := "//" + (text + "\n");
    assert src[j..nl + 1] == note;
    forall k: nat | j <= k < nl
      ensures !OccursAt(src, "\n", k)
    {
      OccursChar(src, '\n', k);
      assert src[k] == note[k - j];
    }
    assert src[nl] == note[nl - j];
    OccursChar(src, '\n', nl);
  }

  lemma {:induction false} RegexTextEnds(src: string, j: nat, body: seq<JsTokens.Piece>, inClass: bool)
    requires OccursAt(src, JsTokens.PrintText(body), j) && JsTokens.RegexText(body, inClass)
    requires var k := j + |JsTokens.PrintText(body)|; k < |src| && src[k] == '/'
    ensures EndOfRegexText(src, j, inClass) == j + |JsTokens.PrintText(body)|
    decreases |body|
  {
    if body != [] {
      var head := if body[0].Plain? then [body[0].c] else ['\\', body[0].c];
      OccursInParts(src, head, JsTokens.PrintText(body[1..]), j);
      assert src[j..j + |head|] == head && src[j] == head[0];
      RegexTextEnds(src, j + |head|, body[1..],
                    if body[0].Plain? then JsAutomaton.ClassAfter(inClass, body[0].c) else inClass);
    }
  }

  /** A regular expression never goes on behind a newline that no backslash stands before, closed or not. */
  lemma {:induction false} RegexOnLine(src: string, j: nat, inClass: bool, k: nat)
    requires j <= k < EndOfRegexText(src, j, inClass) && k < |src| && src[k] == '\n'
    ensures k > j && src[k - 1] == '\\'
    decreases |src| - j
  {
    var next := if src[j] == '\\' then j + 2 else j + 1;
    if k >= next {
      RegexOnLine(src, next,
                  if src[j] == '[' then true else if src[j] == ']' then false else inClass, k);
    }
  }

  /** A comment that is not closed takes the reader past the end of the source. */
  lemma UnclosedNoteRunsOff(src: string, j: nat, w: Walker)
    requires j + 1 < |src| && src[j] == '/' && w.str.None?
    requires if src[j + 1] == '/' then '\n' !in src[j..] else src[j + 1] == '*' && IndexOf(src, "*/", j + 2) < 0
    ensures Walk(src, j, w) == (w, |src| + 1)
  {
    hide Walk, IndexOf, CodeTurn, TextTurn;
    WalkStep(src, j, w);
    var nl := IndexOf(src, "\n", j);
    if nl >= 0 {
      OccursChar(src, '\n', nl);
      assert src[j..][nl - j] == '\n';
    }
    WalkOver(src, |src| + 1, w);
  }

  lemma {:induction false} FlagsEnd(src: string, j: nat, flags: string)
    requires OccursAt(src, flags, j + 1) && forall k :: 0 <= k < |flags| ==> IsLetter(flags[k])
    requires j + 1 + |flags| < |src| ==> !IsLetter(src[j + 1 + |flags|])
    ensures EndOfFlags(src, j) == j + |flags|
    decreases |flags|
  {
    hide IsLetter;
    if flags != "" {
      assert flags == [flags[0]] + flags[1..];
      OccursInParts(src, [flags[0]], flags[1..], j + 1);
      assert src[j + 1] == flags[0];
      FlagsEnd(src, j + 1, flags[1..]);
    }
  }

  /** A printed division behind the token `before` is taken for one, alone, if and only if no regular
      expression may stand there. */
  lemma DivisionTaken(src: string, j: nat, w: Walker, before: Tok)
    requires j < |src| && src[j] == '/' && w.str.None? && !Next?(src, j, '/') && !Next?(src, j, '*')
    requires Significant(before) && w.prev == PrevAfter(before, "")
    ensures TakeTurn(src, j, w).next == j + 1 <==> !RegexFollows(before)
  {
    hide RegexMayFollow, TakeTurn, RegexFollows, Significant;
    SlashRule(before);
    DivisionTurn(src, j, w);
  }

  lemma DivisionTurn(src: string, j: nat, w: Walker)
    requires j < |src| && src[j] == '/' && w.str.None? && !Next?(src, j, '/') && !Next?(src, j, '*')
    ensures TakeTurn(src, j, w).next == j + 1 <==> !RegexMayFollow(w.prev)
    ensures !RegexMayFollow(w.prev) ==> TakeTurn(src, j, w) == CodeTurn('/', j, w.(prev := "/"))
  {
    hide RegexMayFollow, EndOfRegexText, EndOfFlags, PushKey, IndexOf;
  }

  lemma SlashTurn(src: string, j: nat, w: Walker)
    requires j < |src| && src[j] == '/' && w.str.None? && !Next?(src, j, '/') && !Next?(src, j, '*')
    ensures RegexMayFollow(w.prev) ==> TakeTurn(src, j, w) == Turn(w.(prev := "/"), EndOfRegex(src, j) + 1, false)
  {
    hide RegexMayFollow, EndOfRegex, IndexOf, CodeTurn;
  }

  /** A printed regular expression ends where it was printed to. */
  lemma RegexEnds(src: string, j: nat, t: Tok)
    requires t.Rx? && OccursAt(src, TokText(t), j) && Fits(t, Ahead(src, j + |TokText(t)|))
    ensures EndOfRegex(src, j) + 1 == j + |TokText(t)| > j + 1
    ensures j < |src| && src[j] == '/' && !Next?(src, j, '/') && !Next?(src, j, '*')
  {
    hide IsLetter, JsTokens.PrintText, JsTokens.RegexText, EndOfRegexText, EndOfFlags, OccursAt;
    var text := JsTokens.PrintText(t.body);
    var k := j + 1 + |text|;
    OccursInParts(src, "/", text + ("/" + t.flags), j);
    OccursInParts(src, text, "/" + t.flags, j + 1);
    OccursInParts(src, "/", t.flags, k);
    OccursChar(src, '/', j);
    OccursChar(src, '/', k);
    JsTokens.RegexFirst(t.body);
    OccursFits(src, text, j + 1);
    OccursFits(src, t.flags, k + 1);
    RegexTextEnds(src, j + 1, t.body, false);
    FlagsEnd(src, k, t.flags);
  }

  /** A printed regular expression behind the token `before` is taken for one, whole, if and only if one
      may stand there. */
  lemma RegexTaken(src: string, j: nat, w: Walker, t: Tok, before: Tok)
    requires t.Rx? && w.str.None? && OccursAt(src, TokText(t), j) && Fits(t, Ahead(src, j + |TokText(t)|))
    requires Significant(before) && w.prev == PrevAfter(before, "")
    ensures j < |src|
    ensures TakeTurn(src, j, w).next == j + |TokText(t)| <==> RegexFollows(before)
  {
    hide RegexMayFollow, TakeTurn, RegexFollows, Significant, Fits, OccursAt, TokText;
    SlashRule(before);
    RegexTurn(src, j, w, t);
  }

  lemma RegexTurn(src: string, j: nat, w: Walker, t: Tok)
    requires t.Rx? && w.str.None? && OccursAt(src, TokText(t), j) && Fits(t, Ahead(src, j + |TokText(t)|))
    ensures j < |src|
    ensures TakeTurn(src, j, w).next == j + |TokText(t)| <==> RegexMayFollow(w.prev)
    ensures RegexMayFollow(w.prev) ==> TakeTurn(src, j, w) == Turn(w.(prev := "/"), j + |TokText(t)|, false)
  {
    hide RegexMayFollow, TakeTurn, EndOfRegex, Fits, OccursAt, TokText;
    RegexEnds(src, j, t);
    SlashTurn(src, j, w);
    DivisionTurn(src, j, w);
  }

  lemma RegexGoes(src: string, j: nat, w: Walker, t: Tok)
    requires t.Rx? && w.str.None? && OccursAt(src, TokText(t), j) && Fits(t, Ahead(src, j + |TokText(t)|))
    requires RegexMayFollow(w.prev)
    ensures Goes(src, j, w, j + |TokText(t)|, w.(prev := "/"))
  {
    hide Walk, RegexMayFollow, TakeTurn, Fits, TokText;
    RegexTurn(src, j, w, t);
    WalkStep(src, j, w);
    OccursFits(src, TokText(t), j);
  }

  // --- templates ---

  /** Where the string whose text begins at `k` is taken to end. */
  function StringEnd(src: string, k: nat, q: char): (end: nat)
    ensures k <= end
    decreases |src| - k
  {
    if k >= |src| then k
    else if src[k] == '\\' then StringEnd(src, k + 2, q)
    else if src[k] == q then k
    else StringEnd(src, k + 1, q)
  }

  /** A string that is no key is skipped to that end. */
  lemma {:induction false} SkipsString(src: string, k: nat, w: Walker)
    requires w.str.Some? && !w.str.value.key && w.str.value.q != '\\' && StringEnd(src, k, w.str.value.q) < |src|
    ensures Goes(src, k, w, StringEnd(src, k, w.str.value.q) + 1, w.(str := None, prev := [w.str.value.q]))
    decreases |src| - k
  {
    hide Walk;
    WalkStep(src, k, w);
    if src[k] == '\\' {
      SkipsString(src, k + 2, w);
    } else if src[k] != w.str.value.q {
      SkipsString(src, k + 1, w);
    }
  }

  /** A backslash at the very end of `s` escapes what follows. */
  predicate Dangling(s: string) {
    s != "" && if s[0] == '\\' then |s| == 1 || Dangling(s[2..]) else Dangling(s[1..])
  }

  /** A string ends inside the text `s` if that holds its quote, and else goes on behind it. */
  lemma {:induction false} TextRuns(src: string, k: nat, s: string, q: char)
    requires OccursAt(src, s, k) && q != '\\'
    ensures Holds(s, q) ==> StringEnd(src, k, q) < k + |s|
    ensures !Holds(s, q) && !Dangling(s) ==> StringEnd(src, k, q) == StringEnd(src, k + |s|, q)
    decreases |s|
  {
    if s != "" {
      var n := if s[0] == '\\' && |s| > 1 then 2 else 1;
      assert s == s[..n] + s[n..];
      OccursInParts(src, s[..n], s[n..], k);
      assert src[k] == src[k..k + n][0] == s[0];
      TextRuns(src, k + n, s[n..], q);
    }
  }

  lemma {:induction false} PiecesRun(t: seq<JsTokens.Piece>, s: string)
    requires JsTokens.TemplateText(t)
    ensures !Holds(JsTokens.PrintText(t), '`') && !Dangling(JsTokens.PrintText(t))
    ensures Dangling(JsTokens.PrintText(t) + s) <==> Dangling(s)
    decreases |t|
  {
    var text := JsTokens.PrintText(t);
    if t == [] {
      assert text + s == s;
    } else {
      var head := if t[0].Plain? then [t[0].c] else ['\\', t[0].c];
      var rest := JsTokens.PrintText(t[1..]);
      assert (text + s)[|head|..] == rest + s && text[|head|..] == rest;
      forall k | 0 <= k < |t| - 1
        ensures t[1..][k] == t[k + 1]
      {
      }
      TextTail(t);
      PiecesRun(t[1..], s);
    }
  }

  lemma TextTail(t: seq<JsTokens.Piece>)
    requires t != [] && JsTokens.TemplateText(t)
    ensures JsTokens.TemplateText(t[1..])
  {
    forall k | 0 <= k < |t[1..]| - 1
      ensures t[1..][k] != JsTokens.Plain('$') || t[1..][k + 1] != JsTokens.Plain('{')
    {
      assert t[1..][k] == t[k + 1] && t[1..][k + 1] == t[k + 1 + 1];
    }
  }

  /** Behind a brace, whatever came before it, nothing before it is left to escape. */
  lemma {:induction false} BraceSettles(s: string, t: string)
    ensures Dangling(s + ("}" + t)) <==> Dangling(t)
    decreases |s|
  {
    var all := s + ("}" + t);
    if s == "" {
      assert all == "}" + t && all[1..] == t;
    } else if s[0] == '\\' && |s| == 1 {
      assert all[2..] == t;
    } else {
      var n := if s[0] == '\\' then 2 else 1;
      assert all[n..] == s[n..] + ("}" + t);
      BraceSettles(s[n..], t);
    }
  }

  lemma {:induction false} SubsSettle(subs: JsTokens.Subs)
    requires TextsFit(subs)
    ensures !Dangling(JsTokens.PrintSubs(subs))
    decreases subs
  {
    hide JsTokens.PrintAll, JsTokens.PrintText, Dangling;
    if subs.Sub? {
      var code, text := JsTokens.PrintAll(subs.code), JsTokens.PrintText(subs.text);
      var more := JsTokens.PrintSubs(subs.more);
      SubsSettle(subs.more);
      PiecesRun(subs.text, more);
      BraceSettles("${" + code, text + more);
      assert "${" + (code + ("}" + (text + more))) == "${" + code + ("}" + (text + more));
    } else {
      NothingDangles();
    }
  }

  lemma NothingDangles()
    ensures !Dangling("")
  {
  }

  /** A template is taken to end at its own closing backtick if and only if no unescaped backtick stands
      in its substitutions, be it a template's, in a string or in a comment; wherever it is taken to end,
      the reader goes on behind it. */
  lemma TemplateIsWhole(src: string, j: nat, w: Walker, t: Tok)
    requires t.Tpl? && OccursAt(src, TokText(t), j) && Fits(t, "") && w.str.None?
    ensures var end := StringEnd(src, j + 1, '`');
            && (end == j + |TokText(t)| - 1 <==> !Holds(JsTokens.PrintSubs(t.subs), '`'))
            && end < j + |TokText(t)| <= |src| && Goes(src, j, w, end + 1, w.(prev := "`"))
  {
    hide Walk, JsTokens.PrintText, JsTokens.PrintSubs, JsTokens.TemplateText, TextsFit, Holds, Dangling,
         StringEnd, OccursAt,
         Goes;
    var head, subs := JsTokens.PrintText(t.head), JsTokens.PrintSubs(t.subs);
    var k := j + 1 + |head|;
    OccursInParts(src, "`", head + (subs + "`"), j);
    OccursInParts(src, head, subs + "`", j + 1);
    OccursInParts(src, subs, "`", k);
    OccursChar(src, '`', j);
    OccursChar(src, '`', k + |subs|);
    PiecesRun(t.head, "");
    TextRuns(src, j + 1, head, '`');
    SubsSettle(t.subs);
    TextRuns(src, k, subs, '`');
    EndsHere(src, k + |subs|, '`');
    TemplateOpens(src, j, w);
    var inside := w.(prev := "`", str := Some(Text('`', false, "")));
    SkipsString(src, j + 1, inside);
    assert inside.(str := None, prev := "`") == w.(prev := "`");
    GoesOn(src, j, w, j + 1, inside, StringEnd(src, j + 1, '`') + 1, w.(prev := "`"));
  }

  lemma EndsHere(src: string, k: nat, q: char)
    requires k < |src| && src[k] == q != '\\'
    ensures StringEnd(src, k, q) == k
  {
  }

  lemma TemplateOpens(src: string, j: nat, w: Walker)
    requires j < |src| && src[j] == '`' && w.str.None?
    ensures Goes(src, j, w, j + 1, w.(prev := "`", str := Some(Text('`', false, ""))))
  {
    hide Walk, RegexMayFollow;
    QuoteIsNoSpace('`');
    CharGoes(src, j, w);
  }

  lemma GoesOn(src: string, j: nat, w: Walker, k: nat, w': Walker, l: nat, w'': Walker)
    requires Goes(src, j, w, k, w') && Goes(src, k, w', l, w'')
    ensures Goes(src, j, w, l, w'')
  {
    hide Walk;
  }

  // --- quiet tokens ---

  /** The effect of a quiet token: what is known of the keys stays as it was. */
  ghost predicate StillQuiet(w: Walker, w': Walker, prev: string) {
    && Quiet(w') && w'.depth == w.depth && w'.keys == w.keys && w'.unreadable == w.unreadable && w'.prev == prev
    && (w.depth >= 2 || w.skipValue ==> w' == w.(prev := prev))
  }

  lemma SpreadGrows(tok: string, c: char)
    requires SpreadBegun(tok)
    ensures SpreadBegun(tok + [c])
  {
    var k :| 0 <= k <= |tok| && IsBlank(tok[..k]) && IsSpread(tok[k..]);
    var grown := tok + [c];
    assert grown[..k] == tok[..k] && grown[k..] == tok[k..] + [c];
    assert grown[k..][..3] == tok[k..][..3];
  }

  lemma {:induction false} TrimEndKeeps(s: string, k: nat)
    requires 0 < k <= |s| && !IsSpace(s[k - 1])
    ensures TrimEnd(s) <= s && |TrimEnd(s)| >= k
    decreases |s|
  {
    hide IsSpace;
    if IsSpace(s[|s| - 1]) { TrimEndKeeps(s[..|s| - 1], k); }
  }

  lemma SpreadTrimmed(blank: string, rest: string)
    requires IsBlank(blank) && IsSpread(rest)
    ensures IsSpread(Trim(blank + rest)) && !IsBlank(blank + rest)
  {
    assert rest[0] == rest[..3][0] && rest[2] == rest[..3][2];
    TrimStartSkips(blank, rest);
    TrimEndKeeps(rest, 3);
    assert TrimEnd(rest)[..3] == rest[..3];
    assert (blank + rest)[|blank|] == '.';
  }

  /** A spread is never pushed as a key. */
  lemma SpreadIsNoKey(tok: string)
    requires SpreadBegun(tok)
    ensures IsSpread(Trim(tok)) && !IsPlainName(Trim(tok)) && Trim(tok) != "" && !IsBlank(tok)
  {
    hide Trim, IsBlank;
    var k :| 0 <= k <= |tok| && IsBlank(tok[..k]) && IsSpread(tok[k..]);
    assert tok == tok[..k] + tok[k..];
    SpreadTrimmed(tok[..k], tok[k..]);
    assert Trim(tok)[0] == Trim(tok)[..3][0];
  }

  /** A character that is no top-level comma. */
  lemma QuietChar(src: string, j: nat, w: Walker) returns (w': Walker)
    requires j < |src| && Quiet(w) && Fits(Ch(src[j]), Ahead(src, j + 1)) && (src[j] == ',' ==> w.depth >= 2)
    requires Taken(Ch(src[j]), w.prev)
    ensures Goes(src, j, w, j + 1, w') && StillQuiet(w, w', PrevAfter(Ch(src[j]), w.prev))
  {
    hide Walk, IsSpace, RegexMayFollow, SpreadBegun, Trim, IsPlainName, IsSpread, IsBlank;
    CharGoes(src, j, w);
    w' := CodeTurn(src[j], j, if IsSpace(src[j]) then w else w.(prev := [src[j]])).w;
    if w.depth == 1 && !w.skipValue {
      SpreadGrows(w.tok, src[j]);
      SpreadIsNoKey(w.tok);
    }
  }

  /** A bracket pair leaves everything as it was, wherever no computed key can start. */
  lemma GroupGoes(src: string, j: nat, w: Walker, t: Tok)
    requires t.Group? && OccursAt(src, TokText(t), j) && Fits(t, "") && Taken(t, "")
    requires w.str.None? && w.depth >= 1 && !(AtKey(w) && t.open == '[')
    ensures Goes(src, j, w, j + |TokText(t)|, w.(prev := CloserOf(t.open)))
    decreases t, 0
  {
    hide Walk, IsSpace, RegexMayFollow, PushKey, ToksText, FitAll, OccursAt, SpreadBegun, IsBlank, CodeTurn;
    var inner, closer := ToksText(t.inner), CloserOf(t.open);
    var k := j + 1 + |inner|;
    BracketChars(t.open);
    OccursInParts(src, [t.open], inner + closer, j);
    OccursInParts(src, inner, closer, j + 1);
    OccursChar(src, t.open, j);
    OccursChar(src, closer[0], k);
    OpenGoes(src, j, w);
    var inside := w.(prev := [t.open], depth := w.depth + 1);
    var w' := QuietToks(src, j + 1, t.inner, inside, closer);
    CloseGoes(src, k, w');
  }

  lemma OpenGoes(src: string, j: nat, w: Walker)
    requires j < |src| && Opens(src[j]) && w.str.None? && w.depth >= 1 && !(AtKey(w) && src[j] == '[')
    ensures Goes(src, j, w, j + 1, w.(prev := [src[j]], depth := w.depth + 1))
  {
    hide Walk, RegexMayFollow, PushKey;
    BracketChars(src[j]);
    CharGoes(src, j, w);
  }

  lemma CloseGoes(src: string, k: nat, w: Walker)
    requires k < |src| && Closes(src[k]) && w.str.None? && w.depth >= 2
    ensures Goes(src, k, w, k + 1, w.(prev := [src[k]], depth := w.depth - 1))
  {
    hide Walk, RegexMayFollow, PushKey;
    CharGoes(src, k, w);
  }

  lemma BracketChars(open: char)
    requires Opens(open)
    ensures |CloserOf(open)| == 1 && Closes(CloserOf(open)[0]) && !Opens(CloserOf(open)[0])
    ensures !IsSpace(open) && !IsSpace(CloserOf(open)[0]) && !Quote(open) && !Quote(CloserOf(open)[0])
    ensures open != '/' && CloserOf(open) != "/" && !Closes(open)
    ensures CloserOf(open)[0] != '[' && CloserOf(open)[0] in ",)]}"
  {
  }

  predicate NoComma(ts: Toks) {
    ts.Nil? || (ts.first != Ch(',') && NoComma(ts.rest))
  }

  lemma QuietTok(src: string, j: nat, t: Tok, w: Walker) returns (w': Walker)
    requires OccursAt(src, TokText(t), j) && Quiet(w) && Fits(t, Ahead(src, j + |TokText(t)|))
    requires Taken(t, w.prev)
    requires w.depth == 1 ==> t != Ch(',')
    ensures Goes(src, j, w, j + |TokText(t)|, w') && StillQuiet(w, w', PrevAfter(t, w.prev))
    decreases t, 1
  {
    hide Walk, IsSpace, RegexMayFollow, ToksText, FitAll, SpreadBegun, IsBlank, OccursAt, StringEnd,
         Holds, AllTaken,
         JsTokens.PrintSubs, JsTokens.PrintText, JsTokens.RegexText, JsTokens.TemplateText, TextsFit, IsLetter;
    if w.depth == 1 && !w.skipValue { SpreadIsNoKey(w.tok); }
    match t
    case Ch(c) =>
      OccursChar(src, c, j);
      w' := QuietChar(src, j, w);
    case LineNote(_) =>
      NoteGoes(src, j, w, t);
      NewlineFits();
      w' := QuietChar(src, j + |TokText(t)| - 1, w);
    case BlockNote(_) =>
      NoteGoes(src, j, w, t);
      w' := w;
    case Str(q, body) =>
      StringGoes(src, j, w, q, body);
      w' := w.(prev := [q]);
    case Rx(_, _) =>
      RegexGoes(src, j, w, t);
      w' := w.(prev := "/");
    case Tpl(_, _) =>
      TemplateIsWhole(src, j, w, t);
      w' := w.(prev := "`");
    case Group(open, _) =>
      GroupGoes(src, j, w, t);
      w' := w.(prev := CloserOf(open));
  }

  lemma NewlineFits()
    ensures IsSpace('\n') && forall next: string :: Fits(Ch('\n'), next)
    ensures forall prev: string :: Taken(Ch('\n'), prev)
  {
  }

  lemma OccursFits(src: string, s: string, k: nat)
    requires OccursAt(src, s, k)
    ensures k + |s| <= |src| && (s != "" ==> src[k] == s[0])
  {
    if s != "" { assert src[k] == src[k..k + |s|][0]; }
  }

  lemma {:induction false} QuietToks(src: string, j: nat, ts: Toks, w: Walker, next: string) returns (w': Walker)
    requires OccursAt(src, ToksText(ts), j) && Quiet(w) && FitAll(ts, next) && AllTaken(ts, w.prev)
    requires SameNext(next, Ahead(src, j + |ToksText(ts)|)) && (w.depth == 1 ==> NoComma(ts))
    ensures Goes(src, j, w, j + |ToksText(ts)|, w') && StillQuiet(w, w', PrevAfterAll(ts, w.prev))
    decreases ts, 2
  {
    hide Walk, Goes, TokText, Fits, Taken, PrevAfter, Quiet, StillQuiet, OccursAt, SameNext;
    if ts.Nil? {
      StandsStill(src, j, w);
      StaysQuiet(w);
      w' := w;
    } else {
      var first, rest := TokText(ts.first), ToksText(ts.rest);
      var k := j + |first|;
      OccursInParts(src, first, rest, j);
      OccursFits(src, rest, k);
      NextAhead(src, k, rest, next);
      FitsNext(ts.first, rest + next, Ahead(src, k));
      var mid := QuietTok(src, j, ts.first, w);
      QuietThen(w, mid, PrevAfter(ts.first, w.prev));
      w' := QuietToks(src, k, ts.rest, mid, next);
      GoesOn(src, j, w, k, mid, j + |ToksText(ts)|, w');
      QuietBoth(w, mid, PrevAfter(ts.first, w.prev), w', PrevAfterAll(ts, w.prev));
    }
  }

  lemma StaysQuiet(w: Walker)
    requires Quiet(w)
    ensures StillQuiet(w, w, w.prev)
  {
  }

  lemma QuietThen(w: Walker, w': Walker, prev: string)
    requires StillQuiet(w, w', prev)
    ensures Quiet(w') && w'.prev == prev && w'.depth == w.depth
  {
  }

  lemma QuietBoth(w: Walker, w': Walker, prev: string, w'': Walker, prev': string)
    requires Quiet(w) && StillQuiet(w, w', prev) && StillQuiet(w', w'', prev')
    ensures StillQuiet(w, w'', prev')
  {
  }

  lemma StandsStill(src: string, j: nat, w: Walker)
    requires OccursAt(src, "", j)
    ensures Goes(src, j, w, j, w)
  {
    hide Walk;
  }

  lemma NextAhead(src: string, k: nat, rest: string, next: string)
    requires k + |rest| <= |src| && (rest != "" ==> src[k] == rest[0]) && SameNext(next, Ahead(src, k + |rest|))
    ensures SameNext(rest + next, Ahead(src, k))
  {
  }

  lemma FitsNext(t: Tok, a: string, b: string)
    requires Fits(t, a) && SameNext(a, b)
    ensures Fits(t, b)
  {
    hide FitAll;
  }
}
