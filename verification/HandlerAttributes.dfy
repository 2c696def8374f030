/** Attributes in a handler list: their comments are blanked, and they are passed and stripped whole
    exactly when their brackets balance as the code counts them. */
module HandlerAttributes {
  import opened Chars
  import opened RustBlanker
  import opened HandlerList
  import JsTokens

  /** What the inside of an attribute is made of; brackets are characters like any other. */
  datatype Part = Ch(c: char) | Lit(body: seq<JsTokens.Piece>) | LineNote(text: string) | BlockNote(text: string)

  /** The list as written, with its comments blanked, and without its attributes as well. */
  datatype Level = Source | NoComments | NoAttributes

  function LineNoteText(text: string, level: Level): string {
    (if level.Source? then "//" + text else Blanks("//" + text)) + "\n"
  }

  function BlockNoteText(text: string, level: Level): string {
    if level.Source? then "/*" + (text + "*/") else Blanks("/*" + (text + "*/"))
  }

  function LitText(body: seq<JsTokens.Piece>): string {
    "\"" + (JsTokens.PrintText(body) + "\"")
  }

  function PartText(part: Part, level: Level): string {
    match part
    case Ch(c) => [c]
    case Lit(body) => LitText(body)
    case LineNote(text) => LineNoteText(text, level)
    case BlockNote(text) => BlockNoteText(text, level)
  }

  function PartsText(ps: seq<Part>, level: Level): string {
    if ps == [] then "" else PartText(ps[0], level) + PartsText(ps[1..], level)
  }

  function AttributeText(ps: seq<Part>, level: Level): string {
    "#[" + (PartsText(ps, level) + "]")
  }

  /** Whether a part reads as itself before `next`. */
  predicate PartFits(part: Part, next: string) {
    match part
    case Ch(c) => c != '"' && (c == '/' ==> next == "" || next[0] !in "/*")
    case Lit(body) => forall k :: 0 <= k < |body| && body[k].Plain? ==> body[k].c != '"' && body[k].c != '\\'
    case LineNote(text) => '\n' !in text
    case BlockNote(text) => IndexOf(text, "*/", 0) < 0
  }

  predicate PartsFit(ps: seq<Part>) {
    ps == [] || (PartFits(ps[0], PartsText(ps[1..], Source) + "]") && PartsFit(ps[1..]))
  }

  /** The bracket depth after a text that is read at depth `d`; once it is zero it stays so. */
  function DepthAfter(s: string, d: nat): nat {
    if s == "" || d == 0 then d
    else DepthAfter(s[1..], if s[0] == '[' then d + 1 else if s[0] == ']' then d - 1 else d)
  }

  /** No bracket in the attribute's inside, strings included, closes it, and none is left open. */
  predicate Closed(ps: seq<Part>) {
    DepthAfter(PartsText(ps, NoComments), 1) == 1
  }

  // --- comments are blanked, and nothing else ---

  /** `s` at `p` is read from code to code and blanked to `b`. */
  ghost predicate BlanksTo(src: string, p: nat, s: string, b: string) {
    && p + |s| <= |src| && |b| == |s|
    && StateAt(src, p).Code? && StateAt(src, p + |s|).Code?
    && OccursAt(Blanked(src), b, p)
  }

  lemma BlanksInTwo(src: string, p: nat, s: string, b: string, t: string, c: string)
    requires BlanksTo(src, p, s, b) && BlanksTo(src, p + |s|, t, c)
    ensures BlanksTo(src, p, s + t, b + c)
  {
    hide StateAt, Blanked;
    var out := Blanked(src);
    assert out[p..p + |s + t|] == out[p..p + |s|] + out[p + |s|..p + |s| + |t|];
  }

  /** Text without quotes and slashes is code, and stays. */
  lemma {:induction false} PlainStays(src: string, p: nat, s: string)
    requires OccursAt(src, s, p) && StateAt(src, p).Code?
    requires forall k :: 0 <= k < |s| ==> s[k] != '"' && s[k] != '/'
    ensures BlanksTo(src, p, s, s)
    decreases |s|
  {
    hide StateAt;
    if s != "" {
      assert s == [s[0]] + s[1..];
      OccursInParts(src, [s[0]], s[1..], p);
      assert src[p] == s[0];
      Moves(src, p);
      PlainStays(src, p + 1, s[1..]);
      OccursChar(Blanked(src), s[0], p);
      BlanksInTwo(src, p, [s[0]], [s[0]], s[1..], s[1..]);
    } else {
      assert Blanked(src)[p..p] == "";
    }
  }

  /** A character that opens neither a string nor a comment. */
  lemma CharStays(src: string, p: nat)
    requires p < |src| && StateAt(src, p).Code? && src[p] != '"' && !OpensComment(src, p)
    ensures BlanksTo(src, p, [src[p]], [src[p]])
  {
    hide StateAt;
    Moves(src, p);
  }

  lemma {:induction false} LiteralReads(src: string, p: nat, body: seq<JsTokens.Piece>)
    requires OccursAt(src, JsTokens.PrintText(body), p) && StateAt(src, p).Str?
    requires PartFits(Lit(body), "")
    ensures StateAt(src, p + |JsTokens.PrintText(body)|).Str?
    ensures forall k :: p <= k < p + |JsTokens.PrintText(body)| ==> !InComment(src, k)
    decreases |body|
  {
    hide StateAt;
    if body != [] {
      var head := if body[0].Plain? then [body[0].c] else ['\\', body[0].c];
      OccursInParts(src, head, JsTokens.PrintText(body[1..]), p);
      assert src[p..p + |head|][0] == head[0];
      Moves(src, p);
      if body[0].Escaped? { Moves(src, p + 1); }
      LiteralReads(src, p + |head|, body[1..]);
    }
  }

  lemma LiteralStays(src: string, p: nat, body: seq<JsTokens.Piece>)
    requires OccursAt(src, LitText(body), p) && StateAt(src, p).Code? && PartFits(Lit(body), "")
    ensures BlanksTo(src, p, LitText(body), LitText(body))
  {
    hide StateAt, JsTokens.PrintText;
    var s, text := LitText(body), JsTokens.PrintText(body);
    OccursInParts(src, "\"", text + "\"", p);
    OccursInParts(src, text, "\"", p + 1);
    OccursChar(src, '"', p);
    OccursChar(src, '"', p + 1 + |text|);
    Moves(src, p);
    LiteralReads(src, p + 1, body);
    Moves(src, p + 1 + |text|);
    assert Blanked(src)[p..p + |s|] == src[p..p + |s|];
  }

  lemma {:induction false} LineReads(src: string, p: nat, text: string)
    requires OccursAt(src, text + "\n", p) && '\n' !in text
    requires StateAt(src, p) == if text == "" then Code else Line
    ensures StateAt(src, p + |text|).Code?
    ensures forall k :: p <= k < p + |text| ==> InComment(src, k)
    decreases |text|
  {
    hide StateAt;
    if text != "" {
      assert text + "\n" == [text[0]] + (text[1..] + "\n");
      OccursInParts(src, [text[0]], text[1..] + "\n", p);
      assert src[p + 1] == (text[1..] + "\n")[0];
      Moves(src, p);
      LineReads(src, p + 1, text[1..]);
    }
  }

  lemma LineNoteBlanks(src: string, p: nat, text: string)
    requires '\n' !in text && OccursAt(src, "//" + text + "\n", p) && StateAt(src, p).Code?
    ensures BlanksTo(src, p, "//" + text + "\n", Blanks("//" + text) + "\n")
  {
    hide StateAt, Blanked;
    var note, q := "//" + text, p + 2 + |text|;
    OccursInParts(src, note, "\n", p);
    assert note + "\n" == "//" + (text + "\n");
    OccursInParts(src, "//", text + "\n", p);
    assert src[p..p + 2][0] == '/' && src[p..p + 2][1] == '/';
    assert src[p + 2] == (text + "\n")[0];
    Moves(src, p);
    Moves(src, p + 1);
    LineReads(src, p + 2, text);
    AllBlanked(src, p, note);
    PlainStays(src, q, "\n");
    BlanksInTwo(src, p, note, Blanks(note), "\n", "\n");
  }

  lemma BlockNoteBlanks(src: string, p: nat, text: string)
    requires IndexOf(text, "*/", 0) < 0 && OccursAt(src, "/*" + (text + "*/"), p) && StateAt(src, p).Code?
    ensures BlanksTo(src, p, "/*" + (text + "*/"), Blanks("/*" + (text + "*/")))
  {
    hide StateAt, Blanked, IndexOf;
    var note := "/*" + (text + "*/");
    OccursInParts(src, "/*", text + "*/", p);
    assert src[p..p + 2][0] == '/' && src[p..p + 2][1] == '*';
    BlockNoteEnds(src, p, text);
    BlockRuns(src, p, p + |note|);
    AllBlanked(src, p, note);
  }

  lemma AllBlanked(src: string, p: nat, s: string)
    requires OccursAt(src, s, p) && StateAt(src, p).Code? && StateAt(src, p + |s|).Code?
    requires forall k :: p <= k < p + |s| ==> InComment(src, k)
    ensures BlanksTo(src, p, s, Blanks(s))
  {
    hide StateAt;
    assert forall k :: 0 <= k < |s| ==> s[k] == src[p..p + |s|][k] == src[p + k];
    assert Blanked(src)[p..p + |s|] == Blanks(s);
  }

  lemma PartBlanks(src: string, p: nat, part: Part, next: string)
    requires OccursAt(src, PartText(part, Source), p) && StateAt(src, p).Code? && PartFits(part, next) && next != ""
    requires var q := p + |PartText(part, Source)|; q < |src| && src[q] == next[0]
    ensures BlanksTo(src, p, PartText(part, Source), PartText(part, NoComments))
  {
    hide StateAt, Blanked, OccursAt;
    match part
    case Ch(c) =>
      OccursChar(src, c, p);
      CharStays(src, p);
    case Lit(body) => LiteralStays(src, p, body);
    case LineNote(text) => LineNoteBlanks(src, p, text);
    case BlockNote(text) => BlockNoteBlanks(src, p, text);
  }

  lemma {:induction false} PartsBlank(src: string, p: nat, ps: seq<Part>)
    requires OccursAt(src, PartsText(ps, Source) + "]", p) && StateAt(src, p).Code? && PartsFit(ps)
    ensures BlanksTo(src, p, PartsText(ps, Source), PartsText(ps, NoComments))
    decreases |ps|
  {
    hide StateAt, Blanked, OccursAt, PartText, PartFits;
    if ps == [] {
      OccursInParts(src, "", "]", p);
      PlainStays(src, p, "");
    } else {
      var s, rest := PartText(ps[0], Source), PartsText(ps[1..], Source);
      assert PartsText(ps, Source) + "]" == s + (rest + "]");
      OccursInParts(src, s, rest + "]", p);
      StartsWith(src, rest + "]", p + |s|);
      PartBlanks(src, p, ps[0], rest + "]");
      PartsBlank(src, p + |s|, ps[1..]);
      BlanksInTwo(src, p, s, PartText(ps[0], NoComments), rest, PartsText(ps[1..], NoComments));
    }
  }

  lemma StartsWith(src: string, s: string, p: nat)
    requires OccursAt(src, s, p) && s != ""
    ensures p < |src| && src[p] == s[0]
  {
    assert src[p] == src[p..p + |s|][0];
  }

  /** The comments of an attribute are blanked, its strings and brackets stay. */
  lemma AttributeBlanks(src: string, p: nat, ps: seq<Part>)
    requires OccursAt(src, AttributeText(ps, Source), p) && StateAt(src, p).Code? && PartsFit(ps)
    ensures BlanksTo(src, p, AttributeText(ps, Source), AttributeText(ps, NoComments))
  {
    hide StateAt, Blanked, OccursAt, PartsText, PartsFit;
    var s, t := PartsText(ps, Source), PartsText(ps, NoComments);
    OccursInParts(src, "#[", s + "]", p);
    OccursInParts(src, s, "]", p + 2);
    PlainStays(src, p, "#[");
    PartsBlank(src, p + 2, ps);
    PlainStays(src, p + 2 + |s|, "]");
    BlanksInTwo(src, p + 2, s, t, "]", "]");
    BlanksInTwo(src, p, "#[", "#[", s + "]", t + "]");
  }

  // --- brackets are counted ---

  /** A text read from inside the list that leaves the bracket depth where it was. */
  ghost predicate PassedAt(code: string, i: nat, s: string) {
    i + |s| <= |code| && forall depth: nat :: ListEnd(code, i, depth) == ListEnd(code, i + |s|, depth)
  }

  lemma {:induction false} FlatPasses(code: string, i: nat, s: string)
    requires OccursAt(code, s, i) && forall k :: 0 <= k < |s| ==> s[k] != '[' && s[k] != ']'
    ensures PassedAt(code, i, s)
    decreases |s|
  {
    if s != "" {
      assert s == [s[0]] + s[1..];
      OccursInParts(code, [s[0]], s[1..], i);
      assert code[i] == s[0];
      FlatPasses(code, i + 1, s[1..]);
    }
  }

  /** Reading a text inside an attribute: to its end, unless the depth comes down to zero in it. */
  lemma {:induction false} AttributeReads(code: string, j: nat, s: string, d: nat)
    requires OccursAt(code, s, j) && d > 0
    ensures var d' := DepthAfter(s, d);
            if d' > 0 then AttributeEnd(code, j, d) == AttributeEnd(code, j + |s|, d')
            else AttributeEnd(code, j, d) < j + |s|
    decreases |s|
  {
    if s != "" {
      assert s == [s[0]] + s[1..];
      OccursInParts(code, [s[0]], s[1..], j);
      OccursChar(code, s[0], j);
      var next := if s[0] == '[' then d + 1 else if s[0] == ']' then d - 1 else d;
      if next > 0 { AttributeReads(code, j + 1, s[1..], next); }
    }
  }

  /** The list's own depth follows the attribute's as long as that is not zero. */
  lemma {:induction false} ListReads(code: string, j: nat, s: string, d: nat, base: nat)
    requires OccursAt(code, s, j) && d > 0 && DepthAfter(s, d) > 0
    ensures ListEnd(code, j, base + d) == ListEnd(code, j + |s|, base + DepthAfter(s, d))
    decreases |s|
  {
    if s != "" {
      assert s == [s[0]] + s[1..];
      OccursInParts(code, [s[0]], s[1..], j);
      OccursChar(code, s[0], j);
      ListReads(code, j + 1, s[1..], if s[0] == '[' then d + 1 else if s[0] == ']' then d - 1 else d, base);
    }
  }

  /** An attribute ends at its own `]`, and is stripped whole, if and only if its brackets, those in its
      strings included, first balance there; and then the list goes on behind it. */
  lemma AttributeIsWhole(code: string, i: nat, ps: seq<Part>)
    requires OccursAt(code, AttributeText(ps, NoComments), i)
    ensures AttributeAt(code, i)
    ensures AttributeEnd(code, i + 1, 0) == i + |AttributeText(ps, NoComments)| - 1 <==> Closed(ps)
    ensures Closed(ps) ==> PassedAt(code, i, AttributeText(ps, NoComments))
  {
    hide OccursAt, ListEnd, AttributeEnd, DepthAfter, PartsText;
    var text := PartsText(ps, NoComments);
    var q := i + 2 + |text|;
    OccursInParts(code, "#[", text + "]", i);
    OccursInParts(code, text, "]", i + 2);
    OccursPair(code, '#', '[', i);
    OccursChar(code, ']', q);
    AttributeStep(code, i + 1, 0);
    AttributeReads(code, i + 2, text, 1);
    AttributeStep(code, q, DepthAfter(text, 1));
    if Closed(ps) {
      forall depth: nat
        ensures ListEnd(code, i, depth) == ListEnd(code, q + 1, depth)
      {
        ListEndStep(code, i, depth);
        ListEndStep(code, i + 1, depth);
        ListReads(code, i + 2, text, 1, depth);
        ListEndStep(code, q, depth + 1);
      }
    }
  }

  lemma AttributeStep(code: string, j: nat, depth: nat)
    requires j < |code|
    ensures code[j] == '[' ==> AttributeEnd(code, j, depth) == AttributeEnd(code, j + 1, depth + 1)
    ensures code[j] == ']' && depth == 1 ==> AttributeEnd(code, j, depth) == j
    ensures code[j] == ']' && depth != 1 ==> AttributeEnd(code, j, depth) == AttributeEnd(code, j + 1, depth - 1)
  {
  }
}
