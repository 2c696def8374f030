/** Object literals printed from their entries, and the keys that must be read from them. */
module ObjectKeysRoundTrip {
  import opened Chars
  import opened Wrappers
  import opened Brackets
  import opened ObjectKeys
  import opened ObjectTokens
  import JsTokens

  // --- entries ---

  /** A key as it stands in the source: one name or number, or several words with gaps between them. */
  datatype Words = One(word: string) | Then(word: string, gap: Toks, more: Words)

  /** After a key: nothing, a value, or the name, parameters and body of a method or an accessor. */
  datatype Rest = Bare | Value(value: Toks) | Call(tail: Toks)

  datatype Entry =
    | Empty(gap: Toks)
    | Keyed(before: Toks, words: Words, after: Toks, rest: Rest)
    | QuotedKey(before: Toks, q: char, body: seq<JsTokens.Piece>, after: Toks, rest: Rest)
    | Computed(before: Toks, name: Toks, after: Toks, rest: Rest)
    | Spread(before: Toks, expr: Toks)

  function WordsText(ws: Words): string {
    match ws
    case One(word) => word
    case Then(word, gap, more) => word + (ToksText(gap) + WordsText(more))
  }

  function RestText(rest: Rest): string {
    match rest
    case Bare => ""
    case Value(value) => ":" + ToksText(value)
    case Call(tail) => ToksText(tail)
  }

  function EntryText(e: Entry): string {
    match e
    case Empty(gap) => ToksText(gap)
    case Keyed(before, words, after, rest) =>
      ToksText(before) + (WordsText(words) + (ToksText(after) + RestText(rest)))
    case QuotedKey(before, q, body, after, rest) =>
      ToksText(before) + (TokText(Str(q, body)) + (ToksText(after) + RestText(rest)))
    case Computed(before, name, after, rest) =>
      ToksText(before) + (TokText(Group('[', name)) + (ToksText(after) + RestText(rest)))
    case Spread(before, expr) => ToksText(before) + ("..." + ToksText(expr))
  }

  function EntriesText(es: seq<Entry>): string {
    if es == [] then ""
    else if |es| == 1 then EntryText(es[0])
    else EntryText(es[0]) + ("," + EntriesText(es[1..]))
  }

  /** Spaces and comments. */
  predicate IsGap(ts: Toks) {
    ts.Nil? || (IsGapTok(ts.first) && IsGap(ts.rest))
  }

  predicate IsGapTok(t: Tok) {
    match t
    case Ch(c) => IsSpace(c)
    case LineNote(text) => '\n' !in text
    case BlockNote(text) => IndexOf(text, "*/", 0) < 0
    case _ => false
  }

  /** Names in brackets or quotes, parameter lists, bodies, spaces and comments. */
  predicate IsCallTail(ts: Toks) {
    ts.Nil? || (IsTailTok(ts.first) && IsCallTail(ts.rest))
  }

  predicate IsTailTok(t: Tok) {
    ((t.Group? || t.Str?) && Fits(t, "")) || IsGapTok(t)
  }

  /** A computed or quoted name stands in the tail: what came before it was no name. */
  predicate NamedLater(ts: Toks) {
    ts.Cons? && (ts.first.Str? || (ts.first.Group? && ts.first.open == '[') || NamedLater(ts.rest))
  }

  predicate IsWordText(word: string) {
    word != "" && forall k :: 0 <= k < |word| ==> !IsSpace(word[k]) && word[k] !in "'\"`([{)]}/:,"
  }

  predicate WordsFit(ws: Words) {
    IsWordText(ws.word) && (ws.Then? ==> IsGap(ws.gap) && WordsFit(ws.more))
  }

  predicate ValueFits(value: Toks) {
    FitAll(value, ",") && NoComma(value)
  }

  predicate RestFits(rest: Rest) {
    match rest
    case Bare => true
    case Value(value) => ValueFits(value)
    case Call(tail) => IsCallTail(tail)
  }

  predicate EntryFits(e: Entry) {
    match e
    case Empty(gap) => IsGap(gap)
    case Keyed(before, words, after, rest) =>
      IsGap(before) && WordsFit(words) && !IsSpread(KeyText(words)) && IsGap(after) && RestFits(rest)
    case QuotedKey(before, q, body, after, rest) =>
      && IsGap(before) && q in "'\"" && Fits(Str(q, body), "") && IsGap(after)
      && RestFits(rest) && !RestNames(rest)
    case Computed(before, name, after, rest) =>
      IsGap(before) && FitAll(name, "]") && IsGap(after) && RestFits(rest) && !RestNames(rest)
    case Spread(before, expr) => IsGap(before) && FitAll(expr, ",") && NoComma(expr)
  }

  // --- which entries are read as they are meant ---

  predicate TailMeant(ts: Toks) {
    ts.Nil? || (Meant(ts.first, Ch(')')) && TailMeant(ts.rest))
  }

  predicate RestMeant(rest: Rest) {
    match rest
    case Bare => true
    case Value(value) => AllMeant(value, Ch(':'))
    case Call(tail) => TailMeant(tail)
  }

  predicate EntryMeant(e: Entry) {
    match e
    case Empty(_) => true
    case Keyed(_, _, _, rest) => RestMeant(rest)
    case QuotedKey(_, _, _, _, rest) => RestMeant(rest)
    case Computed(_, name, _, rest) => AllMeant(name, Ch('[')) && RestMeant(rest)
    case Spread(_, expr) => AllMeant(expr, Ch('.'))
  }

  /** The name of the entry stands after its words: `get [x]() {}`, `async 'k'() {}`. */
  predicate RestNames(rest: Rest) {
    rest.Call? && NamedLater(rest.tail)
  }

  predicate NoEscape(body: seq<JsTokens.Piece>) {
    forall k :: 0 <= k < |body| ==> body[k].Plain?
  }

  // --- what an entry's key is, and what the reader takes it for ---

  /** An entry whose key cannot be read: not a plain name, quoted with an escape, computed, or that of
      an accessor or of a method behind a modifier. */
  predicate Unreadable(e: Entry) {
    match e
    case Keyed(_, words, _, rest) => words.Then? || RestNames(rest) || !IsPlainName(words.word)
    case QuotedKey(_, _, body, _, _) => !NoEscape(body)
    case Computed(_, _, _, _) => true
    case _ => false
  }

  /** The key an entry names, when it can be read. */
  function NamesOf(e: Entry): seq<string> {
    match e
    case Keyed(_, words, _, _) => if Unreadable(e) then [] else [words.word]
    case QuotedKey(_, _, body, _, _) => if NoEscape(body) then [JsTokens.PrintText(body)] else []
    case _ => []
  }

  /** The text the reader collects for a key: comments leave no space behind. */
  function KeyText(ws: Words): string {
    match ws
    case One(word) => word
    case Then(word, gap, more) => word + (GapBlanks(gap) + KeyText(more))
  }

  /** An accessor or a method behind a modifier whose collected text happens to be a plain name. */
  predicate Misread(e: Entry) {
    e.Keyed? && (e.words.Then? || RestNames(e.rest)) && IsPlainName(KeyText(e.words))
  }

  /** The keys the reader finds in an entry. */
  function KeysOf(e: Entry): seq<string> {
    match e
    case Keyed(_, words, _, _) => if IsPlainName(KeyText(words)) then [KeyText(words)] else []
    case QuotedKey(_, _, body, _, _) => if NoEscape(body) then [JsTokens.PrintText(body)] else []
    case _ => []
  }

  /** The reason it gives for a key it cannot read. */
  function WhyOf(e: Entry): Option<Why> {
    match e
    case Keyed(_, words, _, _) => if IsPlainName(KeyText(words)) then None else Some(NotPlain(KeyText(words)))
    case QuotedKey(_, _, body, _, _) => if NoEscape(body) then None else Some(EscapeInQuoted(JsTokens.PrintText(body)))
    case Computed(_, _, _, _) => Some(ComputedKey)
    case _ => None
  }

  function AllNames(es: seq<Entry>): seq<string> {
    if es == [] then [] else NamesOf(es[0]) + AllNames(es[1..])
  }

  function AllKeys(es: seq<Entry>): seq<string> {
    if es == [] then [] else KeysOf(es[0]) + AllKeys(es[1..])
  }

  function FirstWhy(es: seq<Entry>): Option<Why> {
    if es == [] then None else if WhyOf(es[0]).Some? then WhyOf(es[0]) else FirstWhy(es[1..])
  }

  function OrElse(a: Option<Why>, b: Option<Why>): Option<Why> {
    if a.Some? then a else b
  }

  // --- the walk over a key ---

  /** Reading a key: at the top level, before its value. */
  ghost predicate InKey(w: Walker) {
    w.depth == 1 && w.str.None? && !w.skipValue
  }

  /** What a gap adds to the key's text. */
  function GapBlanks(ts: Toks): string {
    if ts.Nil? then "" else TokBlank(ts.first) + GapBlanks(ts.rest)
  }

  function TokBlank(t: Tok): string {
    if t.Ch? then [t.c] else if t.LineNote? then "\n" else ""
  }

  lemma {:induction false} GapIsBlank(ts: Toks)
    requires IsGap(ts)
    ensures IsBlank(GapBlanks(ts))
    decreases ts
  {
    if ts.Cons? { GapIsBlank(ts.rest); }
  }

  lemma SpaceGoes(src: string, j: nat, w: Walker)
    requires j < |src| && IsSpace(src[j]) && InKey(w)
    ensures Goes(src, j, w, j + 1, w.(tok := w.tok + [src[j]]))
  {
    hide Walk, RegexMayFollow, PushKey;
    SpaceIsNoMark(src[j]);
    CharGoes(src, j, w);
  }

  lemma SpaceIsNoMark(c: char)
    requires IsSpace(c)
    ensures c != '/' && !Quote(c) && !Opens(c) && !Closes(c) && c != ':' && c != ','
  {
  }

  lemma {:induction false} GapGoes(src: string, j: nat, ts: Toks, w: Walker)
    requires OccursAt(src, ToksText(ts), j) && IsGap(ts) && InKey(w)
    ensures Goes(src, j, w, j + |ToksText(ts)|, w.(tok := w.tok + GapBlanks(ts)))
    decreases ts
  {
    hide Walk, IsSpace, Goes, TokText;
    if ts.Nil? {
      StandsStill(src, j, w);
      assert w.tok + "" == w.tok;
    } else {
      var first, rest := TokText(ts.first), ToksText(ts.rest);
      OccursInParts(src, first, rest, j);
      var w' := GapTokGoes(src, j, ts.first, w);
      GapGoes(src, j + |first|, ts.rest, w');
      GoesOn(src, j, w, j + |first|, w', j + |ToksText(ts)|, w'.(tok := w'.tok + GapBlanks(ts.rest)));
      assert w'.tok + GapBlanks(ts.rest) == w.tok + (TokBlank(ts.first) + GapBlanks(ts.rest));
    }
  }

  lemma GapTokGoes(src: string, j: nat, t: Tok, w: Walker) returns (w': Walker)
    requires OccursAt(src, TokText(t), j) && IsGapTok(t) && InKey(w)
    ensures Goes(src, j, w, j + |TokText(t)|, w') && w' == w.(tok := w.tok + TokBlank(t))
  {
    hide Walk, IsSpace, RegexMayFollow;
    match t
    case Ch(c) =>
      OccursChar(src, c, j);
      SpaceGoes(src, j, w);
      w' := w.(tok := w.tok + [c]);
    case LineNote(_) =>
      NoteGoes(src, j, w, t);
      NewlineFits();
      SpaceGoes(src, j + |TokText(t)| - 1, w);
      w' := w.(tok := w.tok + "\n");
    case BlockNote(_) =>
      NoteGoes(src, j, w, t);
      w' := w;
      assert w.tok + "" == w.tok;
  }

  /** The characters of a key, one by one. */
  lemma {:induction false} WordsGo(src: string, j: nat, words: string, w: Walker) returns (w': Walker)
    requires OccursAt(src, words, j) && InKey(w) && forall k :: 0 <= k < |words| ==> words[k] !in "'\"`([{)]}/:,"
    ensures Goes(src, j, w, j + |words|, w') && w' == w.(tok := w.tok + words, prev := w'.prev)
    ensures words == "" ==> w' == w
    ensures words != "" && !IsSpace(words[|words| - 1]) ==> w'.prev == [words[|words| - 1]]
    decreases |words|
  {
    hide Walk, IsSpace, RegexMayFollow, PushKey, Goes, AtKey;
    if words == "" {
      StandsStill(src, j, w);
      w' := w;
      assert w.tok + words == w.tok;
    } else {
      assert words == [words[0]] + words[1..];
      OccursInParts(src, [words[0]], words[1..], j);
      OccursChar(src, words[0], j);
      CharGoes(src, j, w);
      var mid := w.(tok := w.tok + [words[0]], prev := if IsSpace(words[0]) then w.prev else [words[0]]);
      assert CodeTurn(words[0], j, w.(prev := mid.prev)).w == mid;
      w' := WordsGo(src, j + 1, words[1..], mid);
      GoesOn(src, j, w, j + 1, mid, j + |words|, w');
      assert mid.tok + words[1..] == w.tok + words;
    }
  }

  // --- the walk over an entry ---

  /** Where an entry begins. */
  ghost function Begin(prev: string, keys: seq<string>, why: Option<Why>): Walker {
    Walker(1, None, "", None, false, prev, keys, why)
  }

  /** The walker once the entry it is in is closed by a comma or a brace. */
  ghost function ClosedOff(w: Walker): Walker {
    if w.skipValue then w else PushKey(w)
  }

  /** At the end of an entry: closing it adds these keys and, if nothing was unreadable so far, this reason. */
  ghost predicate Adds(w: Walker, keys: seq<string>, why: Option<Why>) {
    w.depth == 1 && w.str.None? && ClosedOff(w).keys == keys && ClosedOff(w).unreadable == why
  }

  lemma {:induction false} TrimBlank(t: string)
    requires IsBlank(t)
    ensures Trim(t) == ""
  {
    TrimWord(t, "", "");
    assert t + ("" + "") == t;
  }

  /** What trimming leaves as it is and the reader does not take for a spread. */
  predicate IsKeyText(text: string) {
    text != "" && !IsSpace(text[0]) && !IsSpace(text[|text| - 1]) && !IsSpread(text)
  }

  lemma {:induction false} KeyTextEnds(ws: Words)
    requires WordsFit(ws)
    ensures var text := KeyText(ws); text != "" && !IsSpace(text[0]) && !IsSpace(text[|text| - 1])
    decreases ws
  {
    hide IsSpace;
    if ws.Then? {
      KeyTextEnds(ws.more);
      assert KeyText(ws)[0] == ws.word[0];
    }
  }

  lemma TrimKey(before: string, words: string, after: string)
    requires IsBlank(before) && IsBlank(after) && IsKeyText(words)
    ensures Trim(before + words + after) == words
  {
    TrimWord(before, words, after);
    assert before + (words + after) == before + words + after;
  }

  /** A colon or the entry's end turns the key read so far into a key, or into the reason it is none. */
  lemma PushesKey(w: Walker, before: string, words: string, after: string)
    requires w.tok == before + words + after && w.quoted.None? && IsBlank(before) && IsBlank(after) && IsKeyText(words)
    ensures var p := PushKey(w);
            && p.keys == w.keys + (if IsPlainName(words) then [words] else [])
            && p.unreadable == OrElse(w.unreadable, if IsPlainName(words) then None else Some(NotPlain(words)))
            && p == w.(tok := "", quoted := None, keys := p.keys, unreadable := p.unreadable)
  {
    hide Trim, IsPlainName, IsBlank;
    TrimKey(before, words, after);
  }

  lemma PushesQuoted(w: Walker, body: seq<JsTokens.Piece>)
    requires IsBlank(w.tok) && w.quoted == Some(JsTokens.PrintText(body))
    requires forall k :: 0 <= k < |body| && body[k].Plain? ==> body[k].c != '\\'
    ensures var p := PushKey(w);
            var readable := forall k :: 0 <= k < |body| ==> body[k].Plain?;
            && p.keys == w.keys + (if readable then [JsTokens.PrintText(body)] else [])
            && p.unreadable == OrElse(w.unreadable,
                   if readable then None else Some(EscapeInQuoted(JsTokens.PrintText(body))))
            && p == w.(tok := "", quoted := None, keys := p.keys, unreadable := p.unreadable)
  {
    hide Trim, IsPlainName, IsBlank;
    TrimBlank(w.tok);
    BackslashMeansEscape(body);
  }

  lemma {:induction false} BackslashMeansEscape(body: seq<JsTokens.Piece>)
    requires forall k :: 0 <= k < |body| && body[k].Plain? ==> body[k].c != '\\'
    ensures '\\' in JsTokens.PrintText(body) <==> exists k :: 0 <= k < |body| && body[k].Escaped?
    decreases |body|
  {
    if body != [] {
      BackslashMeansEscape(body[1..]);
      assert body == [body[0]] + body[1..];
    }
  }

  /** Words behind a quoted key make it no key, and are the reason with it. */
  lemma PushesMixed(w: Walker, before: string, words: string, after: string)
    requires w.tok == before + words + after && w.quoted.Some? && IsBlank(before) && IsBlank(after) && IsKeyText(words)
    ensures var p := PushKey(w);
            p.keys == w.keys && p.unreadable == OrElse(w.unreadable, Some(AfterQuoted(w.quoted.value, words)))
  {
    hide Trim, IsPlainName, IsBlank;
    TrimKey(before, words, after);
  }

  lemma PushesNothing(w: Walker)
    requires IsBlank(w.tok) && w.quoted.None?
    ensures PushKey(w) == w.(tok := "", quoted := None)
  {
    hide Trim, IsBlank;
    TrimBlank(w.tok);
  }

  lemma PushesNoSpread(w: Walker)
    requires SpreadBegun(w.tok) && w.quoted.None?
    ensures PushKey(w) == w.(tok := "", quoted := None)
  {
    hide Trim, IsBlank, IsPlainName, SpreadBegun;
    SpreadIsNoKey(w.tok);
  }

  /** From the colon after a key to the end of its value. */
  lemma ColonAndValue(src: string, j: nat, w: Walker, value: Toks) returns (w': Walker)
    requires OccursAt(src, ":" + ToksText(value), j) && InKey(w) && ValueFits(value) && AllMeant(value, Ch(':'))
    requires SameNext(",", Ahead(src, j + 1 + |ToksText(value)|))
    ensures Goes(src, j, w, j + 1 + |ToksText(value)|, w') && Adds(w', PushKey(w).keys, PushKey(w).unreadable)
  {
    hide Walk, PushKey, ToksText, FitAll, NoComma, OccursAt, RegexMayFollow;
    OccursInParts(src, ":", ToksText(value), j);
    OccursChar(src, ':', j);
    CharGoes(src, j, w);
    ColonIsNoSpace();
    PushKeepsPlace(w.(prev := ":"));
    PushIgnoresPrev(w, ":");
    var inValue := PushKey(w.(prev := ":")).(skipValue := true);
    ValueMeant(value, ':', ",");
    w' := QuietToks(src, j + 1, value, inValue, ",");
  }

  lemma ColonIsNoSpace()
    ensures !IsSpace(':') && !IsSpace(',') && !IsSpace('{') && !IsSpace('}') && !IsSpace('.') && !IsSpace('[')
  {
  }

  lemma PushKeepsPlace(w: Walker)
    ensures var p := PushKey(w);
            p.depth == w.depth && p.str == w.str && p.skipValue == w.skipValue && p.prev == w.prev
              && p.quoted.None? && p.tok == ""
  {
    hide Trim, IsPlainName, IsSpread;
  }

  lemma PushIgnoresPrev(w: Walker, prev: string)
    ensures var p, q := PushKey(w), PushKey(w.(prev := prev)); p.keys == q.keys && p.unreadable == q.unreadable
  {
    hide Trim, IsPlainName, IsSpread;
  }

  /** What stands between a key and the end of its entry, when there is no colon: it leaves the key's
      text as it is but for blanks, unless a computed or quoted name could start there. */
  lemma {:induction false} TailGoes(src: string, j: nat, w: Walker, ts: Toks) returns (w': Walker, blank: string)
    requires OccursAt(src, ToksText(ts), j) && InKey(w) && IsCallTail(ts) && (AtKey(w) ==> !NamedLater(ts))
    requires TailMeant(ts)
    ensures Goes(src, j, w, j + |ToksText(ts)|, w') && IsBlank(blank)
    ensures w' == w.(tok := w.tok + blank, prev := w'.prev)
    decreases ts
  {
    hide Walk, Goes, IsSpace, RegexMayFollow, TokText, FitAll, ToksText, OccursAt, AtKey, Fits, Meant;
    if ts.Nil? {
      TailEmpty(src, j, ts);
      StandsStill(src, j, w);
      w', blank := w, "";
      assert w.tok + blank == w.tok;
    } else {
      var first, rest := TokText(ts.first), ToksText(ts.rest);
      TailSplit(src, j, ts);
      var mid, before := TailTokGoes(src, j, w, ts.first);
      StillAtKey(w, mid, before);
      var more;
      w', more := TailGoes(src, j + |first|, mid, ts.rest);
      GoesOn(src, j, w, j + |first|, mid, j + |ToksText(ts)|, w');
      blank := before + more;
      assert w.tok + before + more == w.tok + blank;
    }
  }

  lemma StillAtKey(w: Walker, w': Walker, blank: string)
    requires IsBlank(blank) && w' == w.(tok := w.tok + blank, prev := w'.prev)
    ensures AtKey(w') <==> AtKey(w)
  {
    hide IsSpace;
    if IsBlank(w.tok) {
      BlanksJoin(w.tok, blank);
    } else {
      var k :| 0 <= k < |w.tok| && !IsSpace(w.tok[k]);
      assert w'.tok[k] == w.tok[k];
    }
  }

  lemma TailTokGoes(src: string, j: nat, w: Walker, t: Tok) returns (w': Walker, blank: string)
    requires OccursAt(src, TokText(t), j) && InKey(w) && IsTailTok(t) && Meant(t, Ch(')'))
    requires AtKey(w) ==> !t.Str? && !(t.Group? && t.open == '[')
    ensures Goes(src, j, w, j + |TokText(t)|, w') && IsBlank(blank)
    ensures w' == w.(tok := w.tok + blank, prev := w'.prev)
  {
    hide Walk, Goes, IsSpace, RegexMayFollow, TokText, FitAll, OccursAt, AtKey;
    blank := "";
    assert w.tok + "" == w.tok;
    if t.Group? {
      GroupMeant(t);
      GroupGoes(src, j, w, t);
      w' := w.(prev := CloserOf(t.open));
    } else if t.Str? {
      StringGoes(src, j, w, t.q, t.body);
      w' := w.(prev := [t.q]);
    } else {
      w' := GapTokGoes(src, j, t, w);
      blank := TokBlank(t);
      GapTokIsBlank(t);
    }
  }

  lemma GroupMeant(t: Tok)
    requires t.Group? && Fits(t, "") && Meant(t, Ch(')'))
    ensures Taken(t, "")
  {
    hide FitAll, AllMeant, AllTaken, IsSpace;
    BracketIsNoSpace(t.open);
    TokensMeant(t.inner, Ch(t.open), CloserOf(t.open));
  }

  lemma ValueMeant(value: Toks, c: char, next: string)
    requires FitAll(value, next) && AllMeant(value, Ch(c)) && c in ":.["
    ensures AllTaken(value, [c])
  {
    hide FitAll, AllMeant, AllTaken;
    TokensMeant(value, Ch(c), next);
  }

  lemma GapTokIsBlank(t: Tok)
    requires IsGapTok(t)
    ensures IsBlank(TokBlank(t))
  {
  }

  lemma TailEmpty(src: string, j: nat, ts: Toks)
    requires ts.Nil? && OccursAt(src, ToksText(ts), j)
    ensures j <= |src| && ToksText(ts) == ""
  {
  }

  lemma TailSplit(src: string, j: nat, ts: Toks)
    requires ts.Cons? && IsCallTail(ts) && OccursAt(src, ToksText(ts), j)
    ensures OccursAt(src, TokText(ts.first), j) && OccursAt(src, ToksText(ts.rest), j + |TokText(ts.first)|)
    ensures |ToksText(ts)| == |TokText(ts.first)| + |ToksText(ts.rest)|
  {
    hide OccursAt, TokText, IsTailTok;
    OccursInParts(src, TokText(ts.first), ToksText(ts.rest), j);
  }

  lemma KeyIsNotBlank(before: string, words: string, after: string)
    requires IsKeyText(words)
    ensures !IsBlank(before + words + after)
  {
    assert (before + words + after)[|before|] == words[0];
  }

  lemma EmptyGoes(src: string, j: nat, gap: Toks, w: Walker) returns (w': Walker)
    requires OccursAt(src, ToksText(gap), j) && IsGap(gap) && w == Begin(w.prev, w.keys, w.unreadable)
    ensures Goes(src, j, w, j + |ToksText(gap)|, w') && Adds(w', w.keys, w.unreadable)
  {
    hide Walk, ToksText, PushKey;
    GapGoes(src, j, gap, w);
    w' := w.(tok := w.tok + GapBlanks(gap));
    assert "" + GapBlanks(gap) == GapBlanks(gap);
    GapIsBlank(gap);
    PushesNothing(w');
  }

  lemma SpreadGoes(src: string, j: nat, e: Entry, w: Walker) returns (w': Walker)
    requires e.Spread? && EntryFits(e) && EntryMeant(e) && OccursAt(src, EntryText(e), j)
    requires w == Begin(w.prev, w.keys, w.unreadable)
    requires SameNext(",", Ahead(src, j + |EntryText(e)|))
    ensures Goes(src, j, w, j + |EntryText(e)|, w') && Adds(w', w.keys, w.unreadable)
  {
    hide Walk, Goes, ToksText, PushKey, FitAll, NoComma, IsBlank, OccursAt, GapBlanks, SpreadBegun, SameNext;
    var gap, expr := ToksText(e.before), ToksText(e.expr);
    var k := j + |gap|;
    OccursInParts(src, gap, "..." + expr, j);
    OccursInParts(src, "...", expr, k);
    GapOpens(src, j, e.before, w);
    var blank := GapBlanks(e.before);
    var start := w.(tok := blank);
    var mid := DotsGo(src, k, start);
    ValueMeant(e.expr, '.', ",");
    w' := QuietToks(src, k + 3, e.expr, mid, ",");
    if !w'.skipValue { PushesNoSpread(w'); }
    ThreeSteps(src, j, w, k, start, k + 3, mid, j + |EntryText(e)|, w');
  }

  lemma DotsGo(src: string, j: nat, w: Walker) returns (w': Walker)
    requires OccursAt(src, "...", j) && InKey(w) && IsBlank(w.tok)
    ensures Goes(src, j, w, j + 3, w') && w' == w.(tok := w.tok + "...", prev := ".") && SpreadBegun(w'.tok)
  {
    hide Walk, Goes, IsBlank, SpreadBegun, OccursAt;
    ColonIsNoSpace();
    SpreadBegins(w.tok);
    w' := WordsGo(src, j, "...", w);
  }

  lemma SpreadBegins(blank: string)
    requires IsBlank(blank)
    ensures SpreadBegun(blank + "...")
  {
    var tok := blank + "...";
    assert tok[..|blank|] == blank && tok[|blank|..] == "..." && "..."[..3] == "...";
  }

  /** A key read to its end: closing the entry here, or after some more blanks, adds these keys and this
      reason. */
  ghost predicate Settled(w: Walker, keys: seq<string>, why: Option<Why>) {
    InKey(w) && forall blank :: IsBlank(blank) ==>
      var p := PushKey(w.(tok := w.tok + blank)); p.keys == keys && p.unreadable == why
  }

  lemma SettledCloses(w: Walker, keys: seq<string>, why: Option<Why>, blank: string)
    requires Settled(w, keys, why) && IsBlank(blank)
    ensures var p := PushKey(w.(tok := w.tok + blank)); p.keys == keys && p.unreadable == why
    ensures PushKey(w).keys == keys && PushKey(w).unreadable == why
  {
    hide PushKey;
    assert IsBlank("") && w.tok + "" == w.tok;
  }

  /** From the end of a key to the end of its entry. */
  lemma RestGoes(src: string, j: nat, w: Walker, rest: Rest, keys: seq<string>, why: Option<Why>) returns (w': Walker)
    requires OccursAt(src, RestText(rest), j) && RestFits(rest) && (AtKey(w) ==> !RestNames(rest)) && RestMeant(rest)
    requires Settled(w, keys, why) && SameNext(",", Ahead(src, j + |RestText(rest)|))
    ensures Goes(src, j, w, j + |RestText(rest)|, w') && Adds(w', keys, why)
  {
    hide Walk, Goes, PushKey, ToksText, FitAll, NoComma, IsCallTail, AtKey, OccursAt, SameNext;
    SettledCloses(w, keys, why, "");
    match rest
    case Bare =>
      StandsStill(src, j, w);
      w' := w;
    case Value(value) => w' := ColonAndValue(src, j, w, value);
    case Call(tail) =>
      var blank;
      w', blank := TailGoes(src, j, w, tail);
      SettledCloses(w, keys, why, blank);
      PushIgnoresPrev(w.(tok := w.tok + blank), w'.prev);
  }

  /** A printed entry in three parts: the gap before its key, the key, and what follows. */
  lemma EntryParts(src: string, j: nat, gap: string, key: string, after: string, rest: string)
    requires OccursAt(src, gap + (key + (after + rest)), j)
    ensures var k := j + |gap|; var l := k + |key|;
            OccursAt(src, gap, j) && OccursAt(src, key, k) && OccursAt(src, after, l)
              && OccursAt(src, rest, l + |after|)
  {
    hide OccursAt;
    OccursInParts(src, gap, key + (after + rest), j);
    OccursInParts(src, key, after + rest, j + |gap|);
    OccursInParts(src, after, rest, j + |gap| + |key|);
  }

  /** The gap before a key, from where an entry begins. */
  lemma GapOpens(src: string, j: nat, gap: Toks, w: Walker)
    requires OccursAt(src, ToksText(gap), j) && IsGap(gap) && InKey(w) && w.tok == ""
    ensures Goes(src, j, w, j + |ToksText(gap)|, w.(tok := GapBlanks(gap))) && IsBlank(GapBlanks(gap))
  {
    hide Walk, ToksText, GapBlanks;
    GapGoes(src, j, gap, w);
    GapIsBlank(gap);
    assert "" + GapBlanks(gap) == GapBlanks(gap);
  }

  lemma ComputedGoes(src: string, j: nat, e: Entry, w: Walker) returns (w': Walker)
    requires e.Computed? && EntryFits(e) && EntryMeant(e) && OccursAt(src, EntryText(e), j)
    requires w == Begin(w.prev, w.keys, w.unreadable)
    requires SameNext(",", Ahead(src, j + |EntryText(e)|))
    ensures Goes(src, j, w, j + |EntryText(e)|, w') && Adds(w', w.keys, OrElse(w.unreadable, Some(ComputedKey)))
  {
    hide Walk, ToksText, TokText, RestText, RestFits, RestNames, RestMeant, PushKey, FitAll, IsBlank,
         OccursAt,
         AtKey, GapBlanks,
         SameNext, Goes;
    var gap, name, after := ToksText(e.before), TokText(Group('[', e.name)), ToksText(e.after);
    var rest := RestText(e.rest);
    var k := j + |gap|;
    var l := k + |name|;
    EntryParts(src, j, gap, name, after, rest);
    GapOpens(src, j, e.before, w);
    var blank, blank' := GapBlanks(e.before), GapBlanks(e.after);
    var named := ComputedNameGoes(src, k, e.name, w.(tok := blank));
    GapGoes(src, l, e.after, named);
    GapIsBlank(e.after);
    var keyed := named.(tok := blank + blank');
    NoKeySettles(keyed, blank, blank');
    w' := RestGoes(src, l + |after|, keyed, e.rest, w.keys, keyed.unreadable);
    ThreeSteps(src, j, w, k, w.(tok := blank), l, named, l + |after|, keyed);
    GoesOn(src, j, w, l + |after|, keyed, j + |EntryText(e)|, w');
  }

  lemma ThreeSteps(src: string, j: nat, w: Walker, k: nat, w': Walker, l: nat, w'': Walker, m: nat, v: Walker)
    requires Goes(src, j, w, k, w') && Goes(src, k, w', l, w'') && Goes(src, l, w'', m, v)
    ensures Goes(src, j, w, m, v)
  {
    hide Walk;
  }

  lemma NoKeySettles(w: Walker, blank: string, blank': string)
    requires w.tok == blank + blank' && IsBlank(blank) && IsBlank(blank') && InKey(w) && w.quoted.None?
    ensures Settled(w, w.keys, w.unreadable)
  {
    hide PushKey, IsBlank;
    forall more | IsBlank(more)
      ensures PushKey(w.(tok := w.tok + more)) == w.(tok := "")
    {
      BlanksJoin(blank, blank');
      BlanksJoin(w.tok, more);
      PushesNothing(w.(tok := w.tok + more));
    }
  }

  lemma BlanksJoin(a: string, b: string)
    requires IsBlank(a) && IsBlank(b)
    ensures IsBlank(a + b)
  {
  }

  /** A bracket where a key starts is a computed key. */
  lemma ComputedNameGoes(src: string, j: nat, name: Toks, w: Walker) returns (w': Walker)
    requires OccursAt(src, TokText(Group('[', name)), j) && FitAll(name, "]") && AllMeant(name, Ch('['))
    requires InKey(w) && w.quoted.None?
    requires IsBlank(w.tok)
    ensures Goes(src, j, w, j + |TokText(Group('[', name))|, w')
    ensures w' == w.(prev := "]", unreadable := CannotRead(w.unreadable, ComputedKey))
  {
    hide Walk, IsSpace, RegexMayFollow, PushKey, ToksText, FitAll, OccursAt, IsBlank;
    var inner := ToksText(name);
    var k := j + 1 + |inner|;
    BracketChars('[');
    OccursInParts(src, "[", inner + "]", j);
    OccursInParts(src, inner, "]", j + 1);
    OccursChar(src, '[', j);
    OccursChar(src, ']', k);
    CharGoes(src, j, w);
    var inside := w.(prev := "[", depth := 2, unreadable := CannotRead(w.unreadable, ComputedKey));
    ValueMeant(name, '[', "]");
    var through := QuietToks(src, j + 1, name, inside, "]");
    CharGoes(src, k, through);
    w' := through.(prev := "]", depth := 1);
  }

  lemma QuotedGoes(src: string, j: nat, e: Entry, w: Walker) returns (w': Walker)
    requires e.QuotedKey? && EntryFits(e) && EntryMeant(e) && OccursAt(src, EntryText(e), j)
    requires w == Begin(w.prev, w.keys, w.unreadable)
    requires SameNext(",", Ahead(src, j + |EntryText(e)|))
    ensures Goes(src, j, w, j + |EntryText(e)|, w') && Adds(w', w.keys + KeysOf(e), OrElse(w.unreadable, WhyOf(e)))
  {
    hide Walk, ToksText, TokText, RestText, RestFits, RestNames, RestMeant, PushKey, FitAll, IsBlank,
         OccursAt,
         AtKey, GapBlanks,
         SameNext, Goes;
    var gap, key, after := ToksText(e.before), TokText(Str(e.q, e.body)), ToksText(e.after);
    var rest := RestText(e.rest);
    var k := j + |gap|;
    var l := k + |key|;
    EntryParts(src, j, gap, key, after, rest);
    GapOpens(src, j, e.before, w);
    var blank, blank' := GapBlanks(e.before), GapBlanks(e.after);
    var quoted := w.(tok := blank, prev := [e.q], quoted := Some(JsTokens.PrintText(e.body)));
    QuotedNameGoes(src, k, w.(tok := blank), e.q, e.body);
    GapGoes(src, l, e.after, quoted);
    GapIsBlank(e.after);
    var keyed := quoted.(tok := blank + blank');
    QuotedSettles(keyed, blank, blank', e.body);
    QuotedIsNoStart(keyed);
    w' := RestGoes(src, l + |after|, keyed, e.rest, w.keys + KeysOf(e), OrElse(w.unreadable, WhyOf(e)));
    ThreeSteps(src, j, w, k, w.(tok := blank), l, quoted, l + |after|, keyed);
    GoesOn(src, j, w, l + |after|, keyed, j + |EntryText(e)|, w');
  }

  lemma QuotedNameGoes(src: string, j: nat, w: Walker, q: char, body: seq<JsTokens.Piece>)
    requires OccursAt(src, TokText(Str(q, body)), j) && q in "'\"" && Fits(Str(q, body), "")
    requires InKey(w) && IsBlank(w.tok) && w.quoted.None?
    ensures Goes(src, j, w, j + |TokText(Str(q, body))|, w.(prev := [q], quoted := Some(JsTokens.PrintText(body))))
  {
    hide Walk, TokText;
    StringGoes(src, j, w, q, body);
  }

  lemma QuotedIsNoStart(w: Walker)
    requires w.quoted.Some?
    ensures !AtKey(w)
  {
  }

  lemma QuotedSettles(w: Walker, blank: string, blank': string, body: seq<JsTokens.Piece>)
    requires w.tok == blank + blank' && IsBlank(blank) && IsBlank(blank') && InKey(w)
    requires w.quoted == Some(JsTokens.PrintText(body))
    requires forall k :: 0 <= k < |body| && body[k].Plain? ==> body[k].c != '\\'
    ensures var e := QuotedKey(Nil, '"', body, Nil, Bare);
            Settled(w, w.keys + KeysOf(e), OrElse(w.unreadable, WhyOf(e)))
  {
    hide PushKey, IsBlank;
    forall more | IsBlank(more)
      ensures var p := PushKey(w.(tok := w.tok + more)); var e := QuotedKey(Nil, '"', body, Nil, Bare);
              p.keys == w.keys + KeysOf(e) && p.unreadable == OrElse(w.unreadable, WhyOf(e))
    {
      BlanksJoin(blank, blank');
      BlanksJoin(w.tok, more);
      PushesQuoted(w.(tok := w.tok + more), body);
    }
  }

  lemma {:induction false} WordsTextGoes(src: string, j: nat, ws: Words, w: Walker) returns (w': Walker)
    requires OccursAt(src, WordsText(ws), j) && WordsFit(ws) && InKey(w)
    ensures Goes(src, j, w, j + |WordsText(ws)|, w') && w' == w.(tok := w.tok + KeyText(ws), prev := w'.prev)
    decreases ws
  {
    hide Walk, Goes, IsSpace, ToksText, GapBlanks, OccursAt;
    match ws
    case One(word) => w' := WordsGo(src, j, word, w);
    case Then(word, gap, more) =>
      var between, rest := ToksText(gap), WordsText(more);
      var k := j + |word|;
      var l := k + |between|;
      OccursInParts(src, word, between + rest, j);
      OccursInParts(src, between, rest, k);
      var first := WordsGo(src, j, word, w);
      GapGoes(src, k, gap, first);
      var second := first.(tok := first.tok + GapBlanks(gap));
      w' := WordsTextGoes(src, l, more, second);
      ThreeSteps(src, j, w, k, first, l, second, l + |rest|, w');
      JoinsOn(w.tok, word, GapBlanks(gap), KeyText(more));
  }

  lemma JoinsOn(a: string, b: string, c: string, d: string)
    ensures a + b + c + d == a + (b + (c + d))
  {
  }

  lemma KeyedGoes(src: string, j: nat, e: Entry, w: Walker) returns (w': Walker)
    requires e.Keyed? && EntryFits(e) && EntryMeant(e) && OccursAt(src, EntryText(e), j)
    requires w == Begin(w.prev, w.keys, w.unreadable)
    requires SameNext(",", Ahead(src, j + |EntryText(e)|))
    ensures Goes(src, j, w, j + |EntryText(e)|, w') && Adds(w', w.keys + KeysOf(e), OrElse(w.unreadable, WhyOf(e)))
  {
    hide Walk, ToksText, WordsText, WordsFit, KeyText, RestText, RestFits, RestNames, RestMeant,
         PushKey, IsBlank,
         OccursAt, AtKey,
         GapBlanks, SameNext, Goes, IsSpread, IsPlainName;
    var gap, words, after := ToksText(e.before), WordsText(e.words), ToksText(e.after);
    var rest := RestText(e.rest);
    var k := j + |gap|;
    var l := k + |words|;
    EntryParts(src, j, gap, words, after, rest);
    GapOpens(src, j, e.before, w);
    var blank, blank' := GapBlanks(e.before), GapBlanks(e.after);
    var named := WordsTextGoes(src, k, e.words, w.(tok := blank));
    GapGoes(src, l, e.after, named);
    GapIsBlank(e.after);
    var keyed := named.(tok := blank + KeyText(e.words) + blank');
    KeyTextEnds(e.words);
    KeySettles(keyed, blank, e.words, blank');
    w' := RestGoes(src, l + |after|, keyed, e.rest, w.keys + KeysOf(e), OrElse(w.unreadable, WhyOf(e)));
    ThreeSteps(src, j, w, k, w.(tok := blank), l, named, l + |after|, keyed);
    GoesOn(src, j, w, l + |after|, keyed, j + |EntryText(e)|, w');
  }

  lemma KeySettles(w: Walker, before: string, words: Words, after: string)
    requires w.tok == before + KeyText(words) + after && w.quoted.None? && InKey(w)
    requires IsBlank(before) && IsBlank(after) && IsKeyText(KeyText(words))
    ensures !AtKey(w)
    ensures var e := Keyed(Nil, words, Nil, Bare);
            Settled(w, w.keys + KeysOf(e), OrElse(w.unreadable, WhyOf(e)))
  {
    hide PushKey, IsBlank, IsKeyText, IsPlainName, KeyText, AtKey;
    var text := KeyText(words);
    KeyIsNoStart(w, before, text, after);
    forall more | IsBlank(more)
      ensures var p := PushKey(w.(tok := w.tok + more)); var e := Keyed(Nil, words, Nil, Bare);
              p.keys == w.keys + KeysOf(e) && p.unreadable == OrElse(w.unreadable, WhyOf(e))
    {
      BlanksJoin(after, more);
      assert before + text + after + more == before + text + (after + more);
      PushesKey(w.(tok := w.tok + more), before, text, after + more);
    }
  }

  lemma KeyIsNoStart(w: Walker, before: string, text: string, after: string)
    requires w.tok == before + text + after && IsKeyText(text)
    ensures !AtKey(w)
  {
    KeyIsNotBlank(before, text, after);
  }

  lemma EntryGoes(src: string, j: nat, e: Entry, w: Walker) returns (w': Walker)
    requires EntryFits(e) && EntryMeant(e) && OccursAt(src, EntryText(e), j)
    requires w == Begin(w.prev, w.keys, w.unreadable)
    requires SameNext(",", Ahead(src, j + |EntryText(e)|))
    ensures Goes(src, j, w, j + |EntryText(e)|, w') && Adds(w', w.keys + KeysOf(e), OrElse(w.unreadable, WhyOf(e)))
  {
    hide Walk, PushKey, OccursAt, Goes, ToksText, IsGap, FitAll, NoComma, SameNext;
    assert w.keys + [] == w.keys;
    match e
    case Empty(gap) => w' := EmptyGoes(src, j, gap, w);
    case Keyed(_, _, _, _) => w' := KeyedGoes(src, j, e, w);
    case QuotedKey(_, _, _, _, _) => w' := QuotedGoes(src, j, e, w);
    case Computed(_, _, _, _) => w' := ComputedGoes(src, j, e, w);
    case Spread(_, _) => w' := SpreadGoes(src, j, e, w);
  }

  // --- the round trip ---

  predicate EntriesFit(es: seq<Entry>) {
    forall k :: 0 <= k < |es| ==> EntryFits(es[k])
  }

  /** The reader takes every division, regular expression and template in the entries for what it is. */
  predicate ReadAsMeant(es: seq<Entry>) {
    forall k :: 0 <= k < |es| ==> EntryMeant(es[k])
  }

  lemma CommaGoes(src: string, j: nat, w: Walker, keys: seq<string>, why: Option<Why>)
    requires j < |src| && src[j] == ',' && Adds(w, keys, why)
    ensures Goes(src, j, w, j + 1, Begin(",", keys, why))
  {
    hide Walk, PushKey, RegexMayFollow;
    ColonIsNoSpace();
    CharGoes(src, j, w);
    PushIgnoresPrev(w, ",");
    PushKeepsPlace(w.(prev := ","));
  }

  lemma BraceEnds(src: string, j: nat, w: Walker, keys: seq<string>, why: Option<Why>)
    requires j < |src| && src[j] == '}' && Adds(w, keys, why)
    ensures var (w', end) := Walk(src, j, w); end == j && w'.keys == keys && w'.unreadable == why
  {
    hide PushKey, RegexMayFollow;
    ColonIsNoSpace();
    PushIgnoresPlace(w, "}");
  }

  lemma PushIgnoresPlace(w: Walker, prev: string)
    ensures var p, q := PushKey(w), PushKey(w.(prev := prev).(depth := 0));
            p.keys == q.keys && p.unreadable == q.unreadable
  {
    hide Trim, IsPlainName, IsSpread;
  }

  lemma {:induction false} EntriesGo(src: string, j: nat, es: seq<Entry>, w: Walker)
    requires es != [] && EntriesFit(es) && ReadAsMeant(es) && OccursAt(src, EntriesText(es), j)
    requires w == Begin(w.prev, w.keys, w.unreadable)
    requires var end := j + |EntriesText(es)|; end < |src| && src[end] == '}'
    ensures var (w', end) := Walk(src, j, w);
            && end == j + |EntriesText(es)|
            && w'.keys == w.keys + AllKeys(es) && w'.unreadable == OrElse(w.unreadable, FirstWhy(es))
    decreases |es|
  {
    hide Walk, PushKey, OccursAt, EntryText, EntryFits, EntryMeant, Adds, KeysOf, WhyOf;
    if |es| == 1 {
      assert AllKeys(es[1..]) == [] && FirstWhy(es[1..]) == None;
      assert w.keys + (KeysOf(es[0]) + []) == w.keys + KeysOf(es[0]);
      var w' := EntryGoes(src, j, es[0], w);
      BraceEnds(src, j + |EntryText(es[0])|, w', w.keys + KeysOf(es[0]), OrElse(w.unreadable, WhyOf(es[0])));
    } else {
      var k := FirstEntryGoes(src, j, es, w);
      var keys, why := w.keys + KeysOf(es[0]), OrElse(w.unreadable, WhyOf(es[0]));
      EntriesGo(src, k, es[1..], Begin(",", keys, why));
      assert keys + AllKeys(es[1..]) == w.keys + AllKeys(es);
    }
  }

  /** An entry and the comma after it. */
  lemma FirstEntryGoes(src: string, j: nat, es: seq<Entry>, w: Walker) returns (k: nat)
    requires |es| > 1 && EntryFits(es[0]) && EntryMeant(es[0]) && OccursAt(src, EntriesText(es), j)
    requires w == Begin(w.prev, w.keys, w.unreadable)
    ensures Goes(src, j, w, k, Begin(",", w.keys + KeysOf(es[0]), OrElse(w.unreadable, WhyOf(es[0]))))
    ensures OccursAt(src, EntriesText(es[1..]), k) && k + |EntriesText(es[1..])| == j + |EntriesText(es)|
  {
    hide Walk, PushKey, OccursAt, EntryText, EntryFits, EntryMeant, Adds, KeysOf, WhyOf;
    var first, rest := EntryText(es[0]), EntriesText(es[1..]);
    k := j + |first| + 1;
    OccursInParts(src, first, "," + rest, j);
    OccursInParts(src, ",", rest, k - 1);
    OccursChar(src, ',', k - 1);
    var w' := EntryGoes(src, j, es[0], w);
    CommaGoes(src, k - 1, w', w.keys + KeysOf(es[0]), OrElse(w.unreadable, WhyOf(es[0])));
  }

  lemma {:induction false} FirstWhyFinds(es: seq<Entry>)
    ensures FirstWhy(es).Some? <==> exists e <- es :: WhyOf(e).Some?
    decreases |es|
  {
    hide WhyOf;
    if es != [] {
      FirstWhyFinds(es[1..]);
      assert es == [es[0]] + es[1..];
    }
  }

  /** A printed spread leaves its three dots in the text. */
  lemma {:induction false} SpreadShows(es: seq<Entry>, k: nat) returns (at: nat)
    requires k < |es| && es[k].Spread?
    ensures OccursAt(EntriesText(es), "...", at)
    decreases |es|
  {
    hide ToksText, OccursAt, EntryText;
    var text, first := EntriesText(es), EntryText(es[0]);
    ItselfOccurs(text);
    if |es| > 1 { OccursInParts(text, first, "," + EntriesText(es[1..]), 0); }
    if k == 0 {
      at := DotsShow(text, es[0]);
    } else {
      var rest := EntriesText(es[1..]);
      OccursInParts(text, ",", rest, |first|);
      var at' := SpreadShows(es[1..], k - 1);
      at := |first| + 1 + at';
      DotsWithin(text, rest, |first| + 1, at');
    }
  }

  lemma ItselfOccurs(text: string)
    ensures OccursAt(text, text, 0)
  {
    assert text[0..|text|] == text;
  }

  lemma DotsShow(text: string, e: Entry) returns (at: nat)
    requires e.Spread? && OccursAt(text, EntryText(e), 0)
    ensures OccursAt(text, "...", at)
  {
    hide ToksText, OccursAt;
    at := |ToksText(e.before)|;
    OccursInParts(text, ToksText(e.before), "..." + ToksText(e.expr), 0);
    OccursInParts(text, "...", ToksText(e.expr), at);
  }

  lemma DotsWithin(text: string, rest: string, q: nat, at: nat)
    requires OccursAt(text, rest, q) && OccursAt(rest, "...", at)
    ensures OccursAt(text, "...", q + at)
  {
    OccursWithin(text, rest, q, "...", q + at);
  }

  predicate AnyUnreadable(es: seq<Entry>) {
    exists e <- es :: Unreadable(e)
  }

  predicate AnyMisread(es: seq<Entry>) {
    exists e <- es :: Misread(e)
  }

  /** The reader has a reason for every key that cannot be read, but for the ones it misreads. */
  lemma ReasonsAre(e: Entry)
    ensures WhyOf(e).Some? <==> Unreadable(e) && !Misread(e)
    ensures KeysOf(e) == if Misread(e) then [KeyText(e.words)] else NamesOf(e)
    ensures Misread(e) ==> Unreadable(e) && NamesOf(e) == []
  {
    hide IsPlainName, RestNames;
  }

  /** A misread entry adds a key that is none. */
  lemma {:induction false} KeysAreNames(es: seq<Entry>)
    ensures |AllKeys(es)| >= |AllNames(es)|
    ensures |AllKeys(es)| == |AllNames(es)| <==> !AnyMisread(es)
    ensures AllKeys(es) == AllNames(es) <==> !AnyMisread(es)
    decreases |es|
  {
    hide KeysOf, NamesOf, Misread, Unreadable, WhyOf;
    if es != [] {
      ReasonsAre(es[0]);
      KeysAreNames(es[1..]);
      assert es == [es[0]] + es[1..];
      assert AnyMisread(es) <==> Misread(es[0]) || AnyMisread(es[1..]);
    }
  }

  /** A printed literal is read to its closing brace: the keys the reader finds in each entry, in order;
      the first reason, which is there if and only if some unreadable key is not misread; and a spread
      never goes unnoticed. */
  lemma ObjectKeysRoundTrip(src: string, open: nat, es: seq<Entry>)
    requires es != [] && EntriesFit(es) && ReadAsMeant(es) && OccursAt(src, "{" + (EntriesText(es) + "}"), open)
    ensures var r := Read(src, open);
            && r.keys == AllKeys(es)
            && r.end == open + 1 + |EntriesText(es)| && r.end < |src| && src[r.end] == '}'
            && r.unreadable == FirstWhy(es)
            && (r.unreadable.Some? <==> exists e <- es :: Unreadable(e) && !Misread(e))
            && ((exists e <- es :: e.Spread?) ==> r.spread)
  {
    hide Walk, OccursAt, EntriesText, EntriesFit, ReadAsMeant, WhyOf, KeysOf, PushKey, RegexMayFollow,
         IndexOf,
         IsSpace, AllKeys,
         FirstWhy, AtKey, Slice, Unreadable, Misread;
    var text := EntriesText(es);
    var end := open + 1 + |text|;
    OccursInParts(src, "{", text + "}", open);
    OccursInParts(src, text, "}", open + 1);
    OccursChar(src, '{', open);
    OccursChar(src, '}', end);
    ColonIsNoSpace();
    CharGoes(src, open, FRESH);
    EntriesGo(src, open + 1, es, Begin("{", [], None));
    assert [] + AllKeys(es) == AllKeys(es);
    FirstWhyFinds(es);
    forall e <- es { ReasonsAre(e); }
    if e :| e in es && e.Spread? {
      var k :| 0 <= k < |es| && es[k] == e;
      var at := SpreadShows(es, k);
      SpreadInSlice(src, open, text, at);
    }
  }

  /** No key is dropped quietly - the readable ones are found, and no others, and an unreadable one is
      reported - if and only if no accessor or method behind a modifier is misread. */
  lemma NothingDroppedQuietly(src: string, open: nat, es: seq<Entry>)
    requires es != [] && EntriesFit(es) && ReadAsMeant(es) && OccursAt(src, "{" + (EntriesText(es) + "}"), open)
    ensures var r := Read(src, open);
            (r.keys == AllNames(es) && (r.unreadable.Some? <==> AnyUnreadable(es))) <==> !AnyMisread(es)
  {
    hide EntriesFit, ReadAsMeant, OccursAt, EntriesText, Unreadable, Misread, Read, AllKeys, AllNames,
         FirstWhy;
    ObjectKeysRoundTrip(src, open, es);
    KeysAreNames(es);
  }

  /** A value that is, or holds, a regular expression right behind its colon, a `(`, `[`, `,` or `=`. */
  function RegexValue(c: char, rx: Tok): Toks {
    match c
    case '(' => Cons(Group('(', Cons(rx, Nil)), Nil)
    case '[' => Cons(Group('[', Cons(rx, Nil)), Nil)
    case ',' => Cons(Group('(', Cons(Ch('x'), Cons(Ch(','), Cons(rx, Nil)))), Nil)
    case '=' => Cons(Ch('x'), Cons(Ch('='), Cons(rx, Nil)))
    case _ => Cons(rx, Nil)
  }

  /** Such a value is skipped whole, whatever quotes, commas and brackets the regular expression holds, and
      the keys after it are found. */
  lemma RegexValueSkipped(src: string, open: nat, name: string, c: char, rx: Tok, es: seq<Entry>)
    requires IsWordText(name) && IsPlainName(name) && rx.Rx? && Fits(rx, "")
    requires es != [] && EntriesFit(es) && ReadAsMeant(es)
    requires var e := Keyed(Nil, One(name), Nil, Value(RegexValue(c, rx)));
             OccursAt(src, "{" + (EntriesText([e] + es) + "}"), open)
    ensures var r := Read(src, open);
            r.keys == [name] + AllKeys(es) && r.end < |src| && src[r.end] == '}' && r.unreadable == FirstWhy(es)
  {
    hide Read, OccursAt, EntriesText, AllKeys, FirstWhy, EntryFits, EntryMeant;
    var e := Keyed(Nil, One(name), Nil, Value(RegexValue(c, rx)));
    RegexEntryFits(name, c, rx);
    ObjectKeysRoundTrip(src, open, [e] + es);
    FirstKeys(e, es);
  }

  lemma FirstKeys(e: Entry, es: seq<Entry>)
    ensures AllKeys([e] + es) == KeysOf(e) + AllKeys(es)
    ensures FirstWhy([e] + es) == if WhyOf(e).Some? then WhyOf(e) else FirstWhy(es)
  {
    hide KeysOf, WhyOf;
    assert ([e] + es)[1..] == es;
  }

  lemma RegexEntryFits(name: string, c: char, rx: Tok)
    requires IsWordText(name) && IsPlainName(name) && rx.Rx? && Fits(rx, "")
    ensures var e := Keyed(Nil, One(name), Nil, Value(RegexValue(c, rx)));
            EntryFits(e) && EntryMeant(e) && KeysOf(e) == [name] && WhyOf(e) == None
  {
    hide IsWordText, IsPlainName;
    NameIsNoSpread(name);
    RegexValueFits(c, rx);
  }

  lemma NameIsNoSpread(name: string)
    requires IsPlainName(name)
    ensures !IsSpread(name)
  {
    assert name[0] != '.';
    if |name| >= 3 { assert name[..3][0] == name[0]; }
  }

  lemma RegexValueFits(c: char, rx: Tok)
    requires rx.Rx? && Fits(rx, "")
    ensures ValueFits(RegexValue(c, rx)) && AllMeant(RegexValue(c, rx), Ch(':'))
  {
    hide Fits, FitAll, AllMeant, ToksText, IsSpace;
    SignsAreNoSpace();
    RegexAlone(rx);
    RegexBehind(rx, ',', ")");
    RegexBehind(rx, '=', ",");
    GroupedRegex(Cons(rx, Nil), '(');
    GroupedRegex(Cons(rx, Nil), '[');
    GroupedRegex(Cons(Ch('x'), Cons(Ch(','), Cons(rx, Nil))), '(');
  }

  lemma RegexAlone(rx: Tok)
    requires rx.Rx? && Fits(rx, "")
    ensures var one := Cons(rx, Nil);
            && FitAll(one, ",") && FitAll(one, ")") && FitAll(one, "]") && NoComma(one)
            && AllMeant(one, Ch(':')) && AllMeant(one, Ch('(')) && AllMeant(one, Ch('['))
            && AllMeant(one, Ch(',')) && AllMeant(one, Ch('='))
  {
    hide JsTokens.RegexText, Fits;
    var signs := JsTokens.OPERAND_SIGNS;
    assert signs[0] == '(' && signs[1] == ',' && signs[2] == '=' && signs[3] == ':' && signs[4] == '[';
    EndsAlike(rx);
    assert ToksText(Nil) == "" && "" + "," == "," && "" + ")" == ")" && "" + "]" == "]";
  }

  /** A name, a sign and the regular expression. */
  lemma RegexBehind(rx: Tok, c: char, next: string)
    requires rx.Rx? && Fits(rx, "") && c in ",=" && next in {",", ")"}
    ensures var ts := Cons(Ch('x'), Cons(Ch(c), Cons(rx, Nil)));
            FitAll(ts, next) && AllMeant(ts, Ch(':')) && AllMeant(ts, Ch('(')) && (c == '=' ==> NoComma(ts))
  {
    hide Fits, FitAll, AllMeant, Meant;
    RegexAlone(rx);
    var one := Cons(rx, Nil);
    var two := Cons(Ch(c), one);
    SignFits(c, one, next, Ch('x'));
    SignFits('x', two, next, Ch(':'));
    SignFits('x', two, next, Ch('('));
    assert NoComma(one) && (c == '=' ==> NoComma(two));
  }

  lemma SignFits(c: char, ts: Toks, next: string, before: Tok)
    requires c in "x,=" && FitAll(ts, next) && AllMeant(ts, Ch(c))
    ensures FitAll(Cons(Ch(c), ts), next) && AllMeant(Cons(Ch(c), ts), before)
  {
    hide IsSpace;
    SignsAreNoSpace();
    assert Fits(Ch(c), ToksText(ts) + next) && Meant(Ch(c), before) && Latest(Ch(c), before) == Ch(c);
  }

  lemma GroupedRegex(inner: Toks, open: char)
    requires open in "([" && FitAll(inner, CloserOf(open)) && AllMeant(inner, Ch(open))
    ensures var ts := Cons(Group(open, inner), Nil); ValueFits(ts) && AllMeant(ts, Ch(':'))
  {
    hide FitAll, AllMeant;
    var t := Group(open, inner);
    assert forall s: string :: Fits(t, s);
    OneTokenFits(t, ",");
    assert NoComma(Nil) && NoComma(Cons(t, Nil));
  }

  lemma OneTokenFits(t: Tok, next: string)
    requires (forall s: string :: Fits(t, s)) && Meant(t, Ch(':'))
    ensures FitAll(Cons(t, Nil), next) && AllMeant(Cons(t, Nil), Ch(':'))
  {
    hide Fits, Meant;
  }

  lemma EndsAlike(rx: Tok)
    requires rx.Rx? && Fits(rx, "")
    ensures Fits(rx, ",") && Fits(rx, ")") && Fits(rx, "]")
  {
  }

  lemma SignsAreNoSpace()
    ensures !IsSpace('x') && !IsSpace(',') && !IsSpace('=')
  {
  }

  lemma SpreadInSlice(src: string, open: nat, text: string, at: nat)
    requires OccursAt(src, text, open + 1) && OccursAt(text, "...", at) && open + 1 + |text| < |src|
    ensures IndexOf(Slice(src, open, open + 1 + |text| + 1), "...", 0) >= 0
  {
    hide IndexOf;
    var slice := Slice(src, open, open + 1 + |text| + 1);
    var inside := slice[1..1 + |text|];
    assert forall k :: 0 <= k < |text| ==> inside[k] == src[open + 1 + k] == src[open + 1..open + 1 + |text|][k];
    assert inside == text;
    OccursWithin(slice, text, 1, "...", 1 + at);
  }
}
