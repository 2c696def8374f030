/** Splitting a parameter list at its top-level separators. */
module TopLevelSplit {
  import opened Chars

  predicate Opens(c: char) { c in "<([{" }

  predicate Closes(c: char) { c in ">)]}" }

  function Change(c: char): int {
    if Opens(c) then 1 else if Closes(c) then -1 else 0
  }

  /** The bracket depth after `s`; a `>` without a `<`, as in `->`, counts down too. */
  function Depth(s: string): int {
    if s == "" then 0 else Depth(s[..|s| - 1]) + Change(s[|s| - 1])
  }

  function Join(parts: seq<string>, sep: char): string {
    if parts == [] then ""
    else if |parts| == 1 then parts[0]
    else Join(parts[..|parts| - 1], sep) + [sep] + parts[|parts| - 1]
  }

  /** No separator in it brings the depth back to zero. */
  ghost predicate Whole(part: string, sep: char) {
    forall k :: 0 <= k < |part| && part[k] == sep ==> Depth(part[..k + 1]) != 0
  }

  /** Whole, and the separator after it stands at depth zero. */
  ghost predicate Balanced(part: string, sep: char) {
    Whole(part, sep) && Depth(part) + Change(sep) == 0
  }

  /** Whole pieces, all but the last balanced, that joined give `text`. */
  ghost predicate PiecesOf(pieces: seq<string>, text: string, sep: char) {
    && pieces != [] && Join(pieces, sep) == text
    && (forall k :: 0 <= k < |pieces| - 1 ==> Balanced(pieces[k], sep))
    && Whole(pieces[|pieces| - 1], sep)
  }

  /** The text cut at each separator that stands at depth zero. */
  ghost function Pieces(text: string, sep: char): (pieces: seq<string>)
    ensures pieces != []
  {
    if text == "" then [""]
    else Grown(Pieces(text[..|text| - 1], sep), text[|text| - 1], sep)
  }

  ghost function Grown(pieces: seq<string>, c: char, sep: char): (grown: seq<string>)
    requires pieces != []
    ensures grown != []
  {
    var cur := pieces[|pieces| - 1];
    if c == sep && Depth(cur) + Change(c) == 0 then pieces + [""] else pieces[..|pieces| - 1] + [cur + [c]]
  }

  /** A blank last piece is dropped. */
  function WithoutBlankTail(pieces: seq<string>): seq<string>
    requires pieces != []
  {
    if IsBlank(pieces[|pieces| - 1]) then pieces[..|pieces| - 1] else pieces
  }

  method SplitTopLevel(text: string, sep: char) returns (parts: seq<string>)
    ensures parts == WithoutBlankTail(Pieces(text, sep))
  {
    parts := [];
    var depth, cur := 0, "";
    for k := 0 to |text|
      invariant depth == Depth(cur) && parts + [cur] == Pieces(text[..k], sep)
    {
      var ch := text[k];
      assert text[..k + 1][..k] == text[..k];
      DepthLast(cur, ch);
      if Opens(ch) { depth := depth + 1; }
      if Closes(ch) { depth := depth - 1; }
      if ch == sep && depth == 0 {
        parts := parts + [cur];
        cur := "";
      } else {
        cur := cur + [ch];
      }
    }
    assert text[..|text|] == text;
    if !IsBlank(cur) { parts := parts + [cur]; }
  }

  lemma DepthLast(s: string, c: char)
    ensures Depth(s + [c]) == Depth(s) + Change(c)
  {
    assert (s + [c])[..|s|] == s;
  }

  lemma JoinLast(parts: seq<string>, last: string, sep: char)
    requires parts != []
    ensures Join(parts + [last], sep) == Join(parts, sep) + [sep] + last
  {
    assert (parts + [last])[..|parts|] == parts;
  }

  /** One character more on the last piece, or a cut after it. */
  lemma JoinGrows(parts: seq<string>, cur: string, c: char, sep: char)
    ensures Join(parts + [cur + [c]], sep) == Join(parts + [cur], sep) + [c]
    ensures Join(parts + [cur] + [""], sep) == Join(parts + [cur], sep) + [sep]
  {
    if parts != [] {
      JoinLast(parts, cur, sep);
      JoinLast(parts, cur + [c], sep);
    }
    JoinLast(parts + [cur], "", sep);
  }

  lemma WholeLast(cur: string, c: char, sep: char)
    ensures Whole(cur + [c], sep) <==> Whole(cur, sep) && (c == sep ==> Depth(cur) + Change(c) != 0)
  {
    hide Depth, Whole;
    var grown := cur + [c];
    DepthLast(cur, c);
    assert grown[..|cur|] == cur;
    if Whole(grown, sep) {
      WholeShrinks(grown, |cur|, sep);
    } else if Whole(cur, sep) && (c == sep ==> Depth(cur) + Change(c) != 0) {
      WholeGrows(grown, |cur|, sep);
    }
  }

  lemma WholeShrinks(part: string, n: nat, sep: char)
    requires |part| == n + 1 && Whole(part, sep)
    ensures Whole(part[..n], sep) && (part[n] == sep ==> Depth(part) != 0)
  {
    hide Depth;
    forall k | 0 <= k < n && part[..n][k] == sep
      ensures Depth(part[..n][..k + 1]) != 0
    {
      PrefixOfFront(part, n, k);
    }
    assert part[..n + 1] == part;
  }

  lemma WholeGrows(part: string, n: nat, sep: char)
    requires |part| == n + 1 && Whole(part[..n], sep) && (part[n] == sep ==> Depth(part) != 0)
    ensures Whole(part, sep)
  {
    hide Depth;
    forall k | 0 <= k < |part| && part[k] == sep
      ensures Depth(part[..k + 1]) != 0
    {
      if k < n { PrefixOfFront(part, n, k); } else { assert part[..n + 1] == part; }
    }
  }

  lemma PrefixOfFront(part: string, n: nat, k: nat)
    requires k < n < |part|
    ensures part[..n][k] == part[k] && part[..n][..k + 1] == part[..k + 1]
  {
  }

  lemma GrownPieces(pieces: seq<string>, text: string, c: char, sep: char)
    requires PiecesOf(pieces, text, sep)
    ensures PiecesOf(Grown(pieces, c, sep), text + [c], sep)
  {
    hide Join, Depth;
    var parts, cur := pieces[..|pieces| - 1], pieces[|pieces| - 1];
    assert pieces == parts + [cur];
    JoinGrows(parts, cur, c, sep);
    WholeLast(cur, c, sep);
    assert Grown(pieces, c, sep) == parts + [cur + [c]] || Grown(pieces, c, sep) == parts + [cur] + [""];
  }

  /** Splitting and joining: the pieces are a cut of the text, and the only one there is. */
  lemma {:induction false} PiecesAreTheCut(pieces: seq<string>, text: string, sep: char)
    ensures pieces == Pieces(text, sep) <==> PiecesOf(pieces, text, sep)
    decreases |text|
  {
    hide Join, Depth;
    if text == "" {
      EmptyCut(pieces, sep);
    } else {
      var front, c := text[..|text| - 1], text[|text| - 1];
      assert text == front + [c];
      PiecesAreTheCut(Pieces(front, sep), front, sep);
      GrownPieces(Pieces(front, sep), front, c, sep);
      if PiecesOf(pieces, text, sep) {
        var before := Shrunk(pieces, front, c, sep);
        PiecesAreTheCut(before, front, sep);
      }
    }
  }

  lemma EmptyCut(pieces: seq<string>, sep: char)
    ensures pieces == [""] <==> PiecesOf(pieces, "", sep)
  {
    if |pieces| > 1 { JoinLast(pieces[..|pieces| - 1], pieces[|pieces| - 1], sep); }
    assert |pieces| > 1 ==> pieces == pieces[..|pieces| - 1] + [pieces[|pieces| - 1]];
  }

  /** The cut of a text without its last character. */
  lemma Shrunk(pieces: seq<string>, front: string, c: char, sep: char) returns (before: seq<string>)
    requires PiecesOf(pieces, front + [c], sep)
    ensures PiecesOf(before, front, sep) && Grown(before, c, sep) == pieces
  {
    hide Depth;
    var parts, cur := pieces[..|pieces| - 1], pieces[|pieces| - 1];
    assert pieces == parts + [cur];
    if cur == "" {
      before := parts;
      if parts != [] {
        JoinLast(parts, cur, sep);
        assert front + [c] == Join(parts, sep) + [sep];
        assert front == (front + [c])[..|front|] && Join(parts, sep) == (Join(parts, sep) + [sep])[..|front|];
        assert c == (front + [c])[|front|] == sep;
      }
    } else {
      var less, last := cur[..|cur| - 1], cur[|cur| - 1];
      assert cur == less + [last];
      before := parts + [less];
      JoinGrows(parts, less, last, sep);
      assert front == (front + [c])[..|front|] && Join(before, sep) == (Join(before, sep) + [last])[..|front|];
      assert c == (front + [c])[|front|] == last;
      WholeLast(less, c, sep);
    }
  }

  /** Joined again with the separator, the parts give the text back, but for a blank last piece. */
  lemma SplitThenJoin(text: string, sep: char)
    ensures var pieces := Pieces(text, sep);
            var parts, last := WithoutBlankTail(pieces), pieces[|pieces| - 1];
            text == if !IsBlank(last) then Join(parts, sep)
                    else if parts == [] then last
                    else Join(parts, sep) + [sep] + last
  {
    var pieces := Pieces(text, sep);
    PiecesAreTheCut(pieces, text, sep);
    var last := pieces[|pieces| - 1];
    assert pieces == pieces[..|pieces| - 1] + [last];
    if |pieces| > 1 { JoinLast(pieces[..|pieces| - 1], last, sep); }
  }

  /** Parts that are balanced and hold no top-level separator come back from their join. */
  lemma JoinThenSplit(parts: seq<string>, sep: char)
    requires parts != [] && !IsBlank(parts[|parts| - 1])
    requires (forall k :: 0 <= k < |parts| - 1 ==> Balanced(parts[k], sep)) && Whole(parts[|parts| - 1], sep)
    ensures WithoutBlankTail(Pieces(Join(parts, sep), sep)) == parts
  {
    PiecesAreTheCut(parts, Join(parts, sep), sep);
  }
}
