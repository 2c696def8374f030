/** The two bracket matchers over masked code: one counts one kind forwards, one counts all kinds backwards. */
module Brackets {

  predicate Opens(c: char) { c in "([{" }

  predicate Closes(c: char) { c in ")]}" }

  /** The closing bracket of `o`; nothing when `o` is not an opening one. */
  function CloserOf(o: char): string {
    match o
    case '(' => ")"
    case '[' => "]"
    case '{' => "}"
    case _ => ""
  }

  // --- what the matchers count ---

  /** The brackets of the kind of `o` opened, less those closed, from `from` up to `end`. */
  function KindDepth(code: string, o: char, from: nat, end: nat): int
    requires from <= end <= |code|
    decreases end
  {
    if from == end then 0
    else KindDepth(code, o, from, end - 1)
         + if code[end - 1] == o then 1 else if [code[end - 1]] == CloserOf(o) then -1 else 0
  }

  /** The brackets of any kind closed, less those opened, from `from` up to `end`. */
  function Unopened(code: string, from: nat, end: nat): int
    requires from <= end <= |code|
    decreases end - from
  {
    if from == end then 0
    else Unopened(code, from + 1, end) + if Closes(code[from]) then 1 else if Opens(code[from]) then -1 else 0
  }

  /** The first closer of the kind of `open` at which as many of the kind are closed as opened. */
  ghost predicate IsMatchingClose(code: string, open: nat, r: int)
    requires open < |code|
  {
    && (r == -1 || open < r < |code|)
    && (r >= 0 ==> [code[r]] == CloserOf(code[open]) && KindDepth(code, code[open], open, r + 1) == 0)
    && forall k :: open <= k < (if r < 0 then |code| else r) && [code[k]] == CloserOf(code[open]) ==>
         KindDepth(code, code[open], open, k + 1) != 0
  }

  /** The last opener before `at` that nothing in between closes, whatever the kinds. */
  ghost predicate IsEnclosingOpen(code: string, at: nat, r: int)
    requires at <= |code|
  {
    && -1 <= r < at
    && (r >= 0 ==> Opens(code[r]) && Unopened(code, r, at) == -1)
    && forall k :: r < k <= at ==> Unopened(code, k, at) >= 0
  }

  /** The index of the bracket that closes the one at `open`, or -1. */
  method MatchingClose(code: string, open: nat) returns (r: int)
    requires open < |code|
    ensures IsMatchingClose(code, open, r)
  {
    var o := code[open];
    var c := CloserOf(o);
    var depth := 0;
    for i := open to |code|
      invariant depth == KindDepth(code, o, open, i)
      invariant forall k :: open <= k < i && [code[k]] == c ==> KindDepth(code, o, open, k + 1) != 0
    {
      if code[i] == o {
        depth := depth + 1;
      } else if [code[i]] == c {
        depth := depth - 1;
        if depth == 0 { return i; }
      }
    }
    return -1;
  }

  /** The index of the bracket that holds `at`, or -1. */
  method EnclosingOpen(code: string, at: nat) returns (r: int)
    requires at <= |code|
    ensures IsEnclosingOpen(code, at, r)
  {
    var depth := 0;
    for i := at downto 0
      invariant depth == Unopened(code, i, at) >= 0
      invariant forall k :: i <= k <= at ==> Unopened(code, k, at) >= 0
    {
      var c := code[i];
      if Closes(c) {
        depth := depth + 1;
      } else if Opens(c) {
        if depth == 0 { return i; }
        depth := depth - 1;
      }
    }
    return -1;
  }

  // --- the true partners: a matcher with a stack of open brackets ---

  datatype Stack = Broken | Open(at: seq<nat>)

  /** The positions of the brackets open before `i`; broken by a closer without its own opener. */
  ghost function StackAt(code: string, i: nat): Stack
    requires i <= |code|
  {
    if i == 0 then Open([])
    else
      var before, c := StackAt(code, i - 1), code[i - 1];
      if before.Broken? then Broken
      else if Opens(c) then Open(before.at + [i - 1])
      else if !Closes(c) then before
      else if before.at == [] || before.at[|before.at| - 1] >= |code| then Broken
      else if CloserOf(code[before.at[|before.at| - 1]]) != [c] then Broken
      else Open(before.at[..|before.at| - 1])
  }

  ghost predicate ProperlyNested(code: string) {
    StackAt(code, |code|) == Open([])
  }

  /** The closer at `c` takes the opener at `o` off the stack. */
  ghost predicate Partners(code: string, o: nat, c: nat) {
    && o < c < |code|
    && Closes(code[c])
    && StackAt(code, c).Open? && StackAt(code, c + 1).Open?
    && StackAt(code, c).at != [] && StackAt(code, c).at[|StackAt(code, c).at| - 1] == o
  }

  /** The stack holds openers, in order. */
  lemma {:induction false} StackHolds(code: string, i: nat)
    requires i <= |code| && StackAt(code, i).Open?
    ensures forall k <- StackAt(code, i).at :: k < i && Opens(code[k])
    ensures var at := StackAt(code, i).at; forall a, b :: 0 <= a < b < |at| ==> at[a] < at[b]
  {
    if i > 0 { StackHolds(code, i - 1); }
  }

  /** Once broken, always broken. */
  lemma {:induction false} StaysBroken(code: string, i: nat, j: nat)
    requires i <= j <= |code| && StackAt(code, j).Open?
    ensures StackAt(code, i).Open?
    decreases j
  {
    if i < j { StaysBroken(code, i, j - 1); }
  }

  /** How many of the brackets in `at` are of the kind of `o`. */
  ghost function OfKind(code: string, o: char, at: seq<nat>): nat {
    if at == [] then 0
    else OfKind(code, o, at[..|at| - 1]) + if at[|at| - 1] < |code| && code[at[|at| - 1]] == o then 1 else 0
  }

  lemma StackStep(code: string, i: nat)
    requires i < |code| && StackAt(code, i + 1).Open?
    ensures StackAt(code, i).Open?
    ensures var before, at, c := StackAt(code, i).at, StackAt(code, i + 1).at, code[i];
            && (Opens(c) ==> at == before + [i])
            && (Closes(c) ==> before != [] && at == before[..|before| - 1]
                              && CloserOf(code[before[|before| - 1]]) == [c])
            && (!Opens(c) && !Closes(c) ==> at == before)
  {
    if StackAt(code, i).Open? { StackHolds(code, i); }
  }

  /** While the bracket at `o` is open, the one-kind depth counts the open brackets of its kind from it on. */
  lemma {:induction false} DepthCountsStack(code: string, o: nat, i: nat, level: nat)
    requires o < i <= |code| && Opens(code[o]) && StackAt(code, o).Open? && level == |StackAt(code, o).at|
    requires forall j :: o < j <= i ==> StackAt(code, j).Open? && |StackAt(code, j).at| > level
    ensures StackAt(code, i).at[..level + 1] == StackAt(code, o).at + [o]
    ensures KindDepth(code, code[o], o, i) == OfKind(code, code[o], StackAt(code, i).at[level..])
    decreases i
  {
    hide StackAt, KindDepth, OfKind;
    StackStep(code, i - 1);
    KindStep(code, code[o], o, i - 1);
    if i == o + 1 {
      assert StackAt(code, i).at[level..] == [] + [o];
      KindPush(code, code[o], [], o);
    } else {
      DepthCountsStack(code, o, i - 1, level);
      KindCounted(code, code[o], i - 1, level);
    }
  }

  /** One character changes the depth of a kind as it changes the open brackets of that kind. */
  lemma KindCounted(code: string, o: char, i: nat, level: nat)
    requires i < |code| && Opens(o) && StackAt(code, i).Open? && StackAt(code, i + 1).Open?
    requires level < |StackAt(code, i).at| && level < |StackAt(code, i + 1).at|
    ensures StackAt(code, i + 1).at[..level + 1] == StackAt(code, i).at[..level + 1]
    ensures OfKind(code, o, StackAt(code, i + 1).at[level..]) ==
            OfKind(code, o, StackAt(code, i).at[level..])
            + if code[i] == o then 1 else if [code[i]] == CloserOf(o) then -1 else 0
  {
    hide StackAt, OfKind;
    StackStep(code, i);
    StackHolds(code, i);
    var before, at := StackAt(code, i).at, StackAt(code, i + 1).at;
    if Opens(code[i]) {
      assert at[level..] == before[level..] + [i];
      KindPush(code, o, before[level..], i);
    } else if Closes(code[i]) {
      assert before[level..] == at[level..] + [before[|before| - 1]];
      KindPush(code, o, at[level..], before[|before| - 1]);
    }
  }

  lemma KindPush(code: string, o: char, at: seq<nat>, p: nat)
    ensures OfKind(code, o, at + [p]) == OfKind(code, o, at) + if p < |code| && code[p] == o then 1 else 0
    ensures OfKind(code, o, []) == 0
  {
    assert (at + [p])[..|at|] == at;
  }

  lemma KindStep(code: string, o: char, from: nat, i: nat)
    requires from <= i < |code|
    ensures KindDepth(code, o, from, i + 1) ==
            KindDepth(code, o, from, i) + if code[i] == o then 1 else if [code[i]] == CloserOf(o) then -1 else 0
    ensures KindDepth(code, o, from, from) == 0
  {
  }

  lemma {:induction false} KindAtLeast(code: string, o: char, at: seq<nat>)
    requires at != [] && at[0] < |code| && code[at[0]] == o
    ensures OfKind(code, o, at) >= 1
  {
    if |at| > 1 { KindAtLeast(code, o, at[..|at| - 1]); }
  }

  /** Where the bracket at `o` closes: the first place at which the stack is back below it. */
  lemma {:induction false} OpenUntil(code: string, o: nat, i: nat)
    requires ProperlyNested(code) && o < i <= |code| && Opens(code[o])
    requires forall c :: o < c < i ==> !Partners(code, o, c)
    ensures StackAt(code, o).Open? && StackAt(code, i).Open?
    ensures StackAt(code, o).at + [o] <= StackAt(code, i).at
    decreases i
  {
    hide StackAt;
    StaysBroken(code, o, |code|);
    StaysBroken(code, i, |code|);
    StackStep(code, i - 1);
    if i > o + 1 {
      OpenUntil(code, o, i - 1);
      assert !Partners(code, o, i - 1);
      var level := |StackAt(code, o).at|;
      var before := StackAt(code, i - 1).at;
      assert before[level] == o;
    }
  }

  /** Every bracket of properly nested code has a partner. */
  lemma PartnerExists(code: string, o: nat)
    requires ProperlyNested(code) && o < |code| && Opens(code[o])
    ensures exists c :: Partners(code, o, c)
  {
    if forall c :: o < c < |code| ==> !Partners(code, o, c) {
      OpenUntil(code, o, |code|);
      assert false;
    }
  }

  /** A bracket that is off the stack never comes back. */
  lemma {:induction false} StaysClosed(code: string, o: nat, i: nat, j: nat)
    requires o < i <= j <= |code| && StackAt(code, i).Open? && StackAt(code, j).Open?
    requires o !in StackAt(code, i).at
    ensures o !in StackAt(code, j).at
    decreases j
  {
    hide StackAt;
    if i < j {
      StackStep(code, j - 1);
      StaysClosed(code, o, i, j - 1);
    }
  }

  lemma PartnerClosed(code: string, o: nat, c: nat)
    requires Partners(code, o, c)
    ensures StackAt(code, c + 1).Open? && o !in StackAt(code, c + 1).at
    ensures StackAt(code, c + 1).at + [o] == StackAt(code, c).at && CloserOf(code[o]) == [code[c]]
  {
    hide StackAt;
    StackStep(code, c);
    StackHolds(code, c);
    var at := StackAt(code, c).at;
    assert at == at[..|at| - 1] + [o];
  }

  lemma OnePartner(code: string, o: nat, c: nat, d: nat)
    requires Partners(code, o, c) && Partners(code, o, d)
    ensures c == d
  {
    hide StackAt;
    PartnerClosed(code, o, c);
    PartnerClosed(code, o, d);
    if c < d { StaysClosed(code, o, c + 1, d); }
    if d < c { StaysClosed(code, o, d + 1, c); }
  }

  lemma PartnerMatches(code: string, o: nat, c: nat)
    requires ProperlyNested(code) && Partners(code, o, c) && Opens(code[o])
    ensures IsMatchingClose(code, o, c)
  {
    hide StackAt, KindDepth, OfKind, ProperlyNested;
    OpenUntilPartner(code, o, c);
    var at := StackAt(code, o).at;
    forall i | o < i <= c
      ensures KindDepth(code, code[o], o, i) == OfKind(code, code[o], StackAt(code, i).at[|at|..]) >= 1
    {
      DepthCountsStack(code, o, i, |at|);
      assert (at + [o])[|at|] == StackAt(code, i).at[|at|] == StackAt(code, i).at[|at|..][0];
      KindAtLeast(code, code[o], StackAt(code, i).at[|at|..]);
    }
    PartnerClosed(code, o, c);
    TopAlone(code, o, c, |at|);
    KindPush(code, code[o], [], o);
    KindStep(code, code[o], o, c);
    KindStep(code, code[o], o, o);
  }

  lemma OpenUntilPartner(code: string, o: nat, c: nat)
    requires ProperlyNested(code) && Partners(code, o, c) && Opens(code[o])
    ensures StackAt(code, o).Open?
    ensures forall i :: o < i <= c ==> StackAt(code, i).Open? && StackAt(code, o).at + [o] <= StackAt(code, i).at
  {
    hide StackAt, ProperlyNested;
    OpenUntil(code, o, o + 1);
    forall i | o < i <= c
      ensures StackAt(code, i).Open? && StackAt(code, o).at + [o] <= StackAt(code, i).at
    {
      forall d | o < d < i
        ensures !Partners(code, o, d)
      {
        if Partners(code, o, d) { OnePartner(code, o, d, c); }
      }
      OpenUntil(code, o, i);
    }
  }

  lemma TopAlone(code: string, o: nat, c: nat, level: nat)
    requires Partners(code, o, c) && level < |StackAt(code, c).at| && StackAt(code, c).at[level] == o
    ensures StackAt(code, c).at[level..] == [] + [o]
  {
    hide StackAt;
    StackHolds(code, c);
  }

  /** On properly nested code, counting one kind of bracket finds the true partner, and nothing else. */
  lemma MatchingCloseIsPartner(code: string, o: nat, r: int)
    requires ProperlyNested(code) && o < |code| && Opens(code[o])
    ensures IsMatchingClose(code, o, r) <==> r >= 0 && Partners(code, o, r)
  {
    hide StackAt, KindDepth, ProperlyNested;
    PartnerExists(code, o);
    var c :| Partners(code, o, c);
    PartnerMatches(code, o, c);
    PartnerClosed(code, o, c);
    if r > c && Partners(code, o, r) { OnePartner(code, o, c, r); }
    if 0 <= r < c && Partners(code, o, r) { OnePartner(code, o, r, c); }
  }

  /** Going back from `at`, the brackets still open at `at` are those open there, less the unopened ones. */
  lemma {:induction false} StackBehind(code: string, k: nat, at: nat)
    requires k <= at <= |code| && StackAt(code, at).Open?
    requires forall j :: k <= j <= at ==> Unopened(code, j, at) >= 0
    ensures StackAt(code, k).Open? && Unopened(code, k, at) <= |StackAt(code, k).at|
    ensures StackAt(code, at).at == StackAt(code, k).at[..|StackAt(code, k).at| - Unopened(code, k, at)]
    decreases at - k
  {
    hide StackAt;
    if k < at {
      StackBehind(code, k + 1, at);
      StackStep(code, k);
    }
  }

  /** Wherever the brackets before `at` nest, counting all kinds backwards finds the innermost open one. */
  lemma EnclosingOpenIsInnermost(code: string, at: nat, r: int)
    requires at <= |code| && StackAt(code, at).Open? && IsEnclosingOpen(code, at, r)
    ensures var open := StackAt(code, at).at; r == if open == [] then -1 else open[|open| - 1]
  {
    hide StackAt;
    StackBehind(code, r + 1, at);
    if r >= 0 {
      StackStep(code, r);
    } else {
      StackStart(code);
    }
  }

  lemma StackStart(code: string)
    ensures StackAt(code, 0) == Open([])
  {
  }

  /** The two matchers are inverse: the bracket that holds a closer is the one it closes. */
  lemma MatchersInverse(code: string, o: nat, c: nat, r: int)
    requires ProperlyNested(code) && o < |code| && Opens(code[o])
    requires IsMatchingClose(code, o, c) && IsEnclosingOpen(code, c, r)
    ensures r == o
  {
    hide StackAt, ProperlyNested;
    MatchingCloseIsPartner(code, o, c);
    EnclosingOpenIsInnermost(code, c, r);
  }

  /** The bracket that holds a position closes at or after it. */
  lemma EnclosureCloses(code: string, at: nat, r: nat, c: int)
    requires ProperlyNested(code) && at <= |code|
    requires IsEnclosingOpen(code, at, r) && IsMatchingClose(code, r, c)
    ensures r < at <= c
  {
    hide StackAt;
    StaysBroken(code, at, |code|);
    EnclosingOpenIsInnermost(code, at, r);
    MatchingCloseIsPartner(code, r, c);
    if c < at {
      PartnerClosed(code, r, c);
      StaysClosed(code, r, c + 1, at);
    }
  }
}
