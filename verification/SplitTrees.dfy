/** Texts printed from trees of brackets are split between the trees and nowhere inside them. */
module SplitTrees {
  import opened Chars
  import opened TopLevelSplit
  import opened BracketTrees

  /** All four kinds of bracket nest. */
  predicate Even(t: Nest) {
    match t
    case Nothing => true
    case Plain(c, more) => c !in "()[]{}<>" && Even(more)
    case Pair(_, inner, more) => Even(inner) && Even(more)
  }

  /** No separator stands outside its brackets. */
  predicate NoneOutside(t: Nest, sep: char) {
    match t
    case Nothing => true
    case Plain(c, more) => c != sep && NoneOutside(more, sep)
    case Pair(_, _, more) => NoneOutside(more, sep)
  }

  lemma KindsAre(kind: Kind)
    ensures Change(OpenOf(kind)) == 1 && Change(CloseOf(kind)) == -1
  {
  }

  lemma PlainIsFlat(c: char)
    requires c !in "()[]{}<>"
    ensures Change(c) == 0
  {
  }

  lemma {:induction false} DepthAdds(a: string, b: string)
    ensures Depth(a + b) == Depth(a) + Depth(b)
    decreases |b|
  {
    if b == "" {
      assert a + b == a;
    } else {
      var front, c := b[..|b| - 1], b[|b| - 1];
      assert b == front + [c] && a + b == a + front + [c];
      DepthLast(a + front, c);
      DepthLast(front, c);
      DepthAdds(a, front);
    }
  }

  lemma DepthOne(c: char, s: string)
    ensures Depth([c] + s) == Change(c) + Depth(s)
  {
    DepthAdds([c], s);
    assert "" + [c] == [c];
    DepthLast("", c);
  }

  /** A printed tree leaves the depth as it was and never goes below it; a separator outside no bracket
      stands deeper. */
  lemma {:induction false} TreeDepth(t: Nest, sep: char, k: nat)
    requires Even(t) && k <= |Print(t)|
    ensures Depth(Print(t)) == 0 && Depth(Print(t)[..k]) >= 0
    ensures NoneOutside(t, sep) && Change(sep) == 0 && k < |Print(t)| && Print(t)[k] == sep ==> Depth(Print(t)[..k]) > 0
    decreases t
  {
    hide Depth, Change;
    var text := Print(t);
    match t
    case Nothing => NothingDeep();
    case Plain(c, more) =>
      PlainIsFlat(c);
      NothingDeep();
      DepthOne(c, Print(more));
      TreeDepth(more, sep, if k == 0 then 0 else k - 1);
      if k > 0 {
        DepthOne(c, Print(more)[..k - 1]);
        assert text[..k] == [c] + Print(more)[..k - 1];
      }
    case Pair(kind, inner, more) => PairDepth(kind, inner, more, sep, k);
  }

  lemma NothingDeep()
    ensures Depth("") == 0
    ensures forall s: string :: s[..0] == ""
  {
  }

  lemma {:induction false} PairDepth(kind: Kind, inner: Nest, more: Nest, sep: char, k: nat)
    requires Even(Pair(kind, inner, more)) && k <= |Print(Pair(kind, inner, more))|
    ensures var t := Pair(kind, inner, more); var text := Print(t);
            && Depth(text) == 0 && Depth(text[..k]) >= 0
            && (NoneOutside(t, sep) && Change(sep) == 0 && k < |text| && text[k] == sep ==> Depth(text[..k]) > 0)
    decreases Pair(kind, inner, more), 0
  {
    hide Depth, Change, Print;
    var o, c, a, b := OpenOf(kind), CloseOf(kind), Print(inner), Print(more);
    var text := [o] + (a + ([c] + b));
    assert Print(Pair(kind, inner, more)) == text by { PairText(kind, inner, more); }
    KindsAre(kind);
    NothingDeep();
    TreeDepth(inner, sep, if k == 0 then 0 else if k - 1 <= |a| then k - 1 else |a|);
    TreeDepth(more, sep, if k < |a| + 2 then 0 else k - |a| - 2);
    DepthOne(c, b);
    DepthAdds(a, [c] + b);
    DepthOne(o, a + ([c] + b));
    if 0 < k <= |a| + 1 {
      assert text[..k] == [o] + a[..k - 1];
      DepthOne(o, a[..k - 1]);
    } else if k > |a| + 1 {
      assert text[..k] == [o] + (a + ([c] + b[..k - |a| - 2]));
      DepthOne(c, b[..k - |a| - 2]);
      DepthAdds(a, [c] + b[..k - |a| - 2]);
      DepthOne(o, a + ([c] + b[..k - |a| - 2]));
    }
  }

  lemma PairText(kind: Kind, inner: Nest, more: Nest)
    ensures Print(Pair(kind, inner, more)) == [OpenOf(kind)] + (Print(inner) + ([CloseOf(kind)] + Print(more)))
  {
  }

  lemma PartIsBalanced(t: Nest, sep: char)
    requires Even(t) && NoneOutside(t, sep) && Change(sep) == 0
    ensures Balanced(Print(t), sep)
  {
    hide Depth, Change, Print;
    var text := Print(t);
    forall k | 0 <= k < |text| && text[k] == sep
      ensures Depth(text[..k + 1]) != 0
    {
      TreeDepth(t, sep, k);
      assert text[..k + 1] == text[..k] + [sep];
      DepthLast(text[..k], sep);
    }
    TreeDepth(t, sep, 0);
  }

  function Texts(ts: seq<Nest>): seq<string> {
    seq(|ts|, i requires 0 <= i < |ts| => Print(ts[i]))
  }

  /** Printed trees joined by a separator that stands in none of them outside brackets are split into the
      same texts; a separator inside `<...>`, `(...)`, `[...]` or `{...}` splits nothing. */
  lemma TreesAreSplit(ts: seq<Nest>, sep: char)
    requires ts != [] && sep !in "()[]{}<>" && forall t <- ts :: Even(t) && NoneOutside(t, sep)
    requires !IsBlank(Print(ts[|ts| - 1]))
    ensures WithoutBlankTail(Pieces(Join(Texts(ts), sep), sep)) == Texts(ts)
  {
    hide Print, Balanced, Whole;
    PlainIsFlat(sep);
    forall k | 0 <= k < |ts|
      ensures Balanced(Print(ts[k]), sep) && Whole(Print(ts[k]), sep)
    {
      PartIsBalanced(ts[k], sep);
      BalancedIsWhole(Print(ts[k]), sep);
    }
    JoinThenSplit(Texts(ts), sep);
  }

  lemma BalancedIsWhole(part: string, sep: char)
    requires Balanced(part, sep)
    ensures Whole(part, sep)
  {
  }
}
