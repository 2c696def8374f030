/** Code printed from trees of brackets: each matcher finds the bracket the tree has there. */
module BracketTrees {
  import opened Chars
  import opened Brackets

  datatype Kind = Round | Square | Curly | Angle

  /** Code whose brackets nest. */
  datatype Nest = Nothing | Plain(c: char, more: Nest) | Pair(kind: Kind, inner: Nest, more: Nest)

  function OpenOf(kind: Kind): char {
    match kind
    case Round => '('
    case Square => '['
    case Curly => '{'
    case Angle => '<'
  }

  function CloseOf(kind: Kind): char {
    match kind
    case Round => ')'
    case Square => ']'
    case Curly => '}'
    case Angle => '>'
  }

  function Print(t: Nest): string {
    match t
    case Nothing => ""
    case Plain(c, more) => [c] + Print(more)
    case Pair(kind, inner, more) => [OpenOf(kind)] + (Print(inner) + ([CloseOf(kind)] + Print(more)))
  }

  /** The brackets of the matchers; angles are none of them. */
  predicate Fits(t: Nest) {
    match t
    case Nothing => true
    case Plain(c, more) => c !in "()[]{}" && Fits(more)
    case Pair(kind, inner, more) => kind != Angle && Fits(inner) && Fits(more)
  }

  /** Where the pairs of a tree printed at `p` open and close. */
  function PairsOf(t: Nest, p: nat): set<(nat, nat)> {
    match t
    case Nothing => {}
    case Plain(_, more) => PairsOf(more, p + 1)
    case Pair(_, inner, more) =>
      var c := p + 1 + |Print(inner)|;
      {(p, c)} + PairsOf(inner, p + 1) + PairsOf(more, c + 1)
  }

  lemma KindsAre(kind: Kind)
    requires kind != Angle
    ensures Opens(OpenOf(kind)) && !Opens(CloseOf(kind)) && Closes(CloseOf(kind)) && !Closes(OpenOf(kind))
    ensures CloserOf(OpenOf(kind)) == [CloseOf(kind)]
  {
  }

  lemma PlainIsNoBracket(c: char)
    requires c !in "()[]{}"
    ensures !Opens(c) && !Closes(c)
  {
  }

  /** Reading a printed tree leaves the open brackets as they were and closes each of its pairs. */
  lemma {:induction false} TreeNests(code: string, p: nat, t: Nest, open: seq<nat>)
    requires OccursAt(code, Print(t), p) && StackAt(code, p) == Open(open) && Fits(t)
    ensures StackAt(code, p + |Print(t)|) == Open(open)
    ensures forall pair <- PairsOf(t, p) :: Partners(code, pair.0, pair.1)
    decreases t
  {
    hide StackAt, OccursAt, Partners, Opens, Closes, CloserOf;
    match t
    case Nothing =>
    case Plain(c, more) =>
      OccursInParts(code, [c], Print(more), p);
      OccursChar(code, c, p);
      PlainIsNoBracket(c);
      PlainSteps(code, p);
      TreeNests(code, p + 1, more, open);
    case Pair(kind, inner, more) =>
      var q := p + 1 + |Print(inner)|;
      PairParts(code, p, kind, inner, more);
      KindsAre(kind);
      OpenSteps(code, p, open);
      TreeNests(code, p + 1, inner, open + [p]);
      CloseSteps(code, q, open, p);
      TreeNests(code, q + 1, more, open);
  }

  lemma PairParts(code: string, p: nat, kind: Kind, inner: Nest, more: Nest)
    requires OccursAt(code, Print(Pair(kind, inner, more)), p)
    ensures var q := p + 1 + |Print(inner)|;
            && q < |code| && code[p] == OpenOf(kind) && code[q] == CloseOf(kind)
            && OccursAt(code, Print(inner), p + 1) && OccursAt(code, Print(more), q + 1)
            && q + 1 + |Print(more)| == p + |Print(Pair(kind, inner, more))|
  {
    hide OccursAt;
    var o, c := [OpenOf(kind)], [CloseOf(kind)];
    var q := p + 1 + |Print(inner)|;
    OccursInParts(code, o, Print(inner) + (c + Print(more)), p);
    OccursInParts(code, Print(inner), c + Print(more), p + 1);
    OccursInParts(code, c, Print(more), q);
    OccursChar(code, OpenOf(kind), p);
    OccursChar(code, CloseOf(kind), q);
  }

  lemma PlainSteps(code: string, p: nat)
    requires p < |code| && !Opens(code[p]) && !Closes(code[p])
    ensures StackAt(code, p + 1) == StackAt(code, p)
  {
  }

  lemma OpenSteps(code: string, p: nat, open: seq<nat>)
    requires p < |code| && Opens(code[p]) && StackAt(code, p) == Open(open)
    ensures StackAt(code, p + 1) == Open(open + [p])
  {
  }

  lemma CloseSteps(code: string, q: nat, open: seq<nat>, o: nat)
    requires o < q < |code| && Closes(code[q]) && !Opens(code[q]) && CloserOf(code[o]) == [code[q]]
    requires StackAt(code, q) == Open(open + [o])
    ensures StackAt(code, q + 1) == Open(open) && Partners(code, o, q)
  {
    assert (open + [o])[..|open|] == open;
  }

  /** On printed code `matchingClose` finds the closing bracket of every pair, and from there
      `enclosingOpen` finds the opening one. */
  lemma MatchersFindPairs(t: Nest, o: nat, c: nat, r: int)
    requires Fits(t) && (o, c) in PairsOf(t, 0)
    ensures o < c < |Print(t)| && Opens(Print(t)[o])
    ensures IsMatchingClose(Print(t), o, r) <==> r == c
    ensures IsEnclosingOpen(Print(t), c, r) ==> r == o
  {
    hide StackAt, PairsOf, Print, Opens, Closes, CloserOf, IsMatchingClose, IsEnclosingOpen;
    var code := Print(t);
    StackStart(code);
    assert code[0..|code|] == code;
    TreeNests(code, 0, t, []);
    StackHolds(code, c);
    MatchingCloseIsPartner(code, o, r);
    MatchingCloseIsPartner(code, o, c);
    if r >= 0 && Partners(code, o, r) { OnePartner(code, o, c, r); }
    if IsEnclosingOpen(code, c, r) { EnclosingOpenIsInnermost(code, c, r); }
  }
}
