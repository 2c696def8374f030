/** When a move closes a loop of parent links, and why a run of landing moves never does. */
module CategoryLoops {
  import opened Wrappers
  import opened Categories

  /** A category that is one of its own ancestors. */
  ghost predicate InLoop(m: Tree, x: string) {
    StrictlyBelow(m, x, x)
  }

  ghost predicate NewLoop(m: Tree, m': Tree) {
    exists x <- m :: InLoop(m', x) && !InLoop(m, x)
  }

  /** The new parent exists, hangs below the moved category and is in no loop yet. */
  ghost predicate ClosesLoop(m: Tree, id: string, parent: Option<string>) {
    Given(parent) && parent.value in m && Below(m, parent.value, id) && !InLoop(m, parent.value)
  }

  // --- loops ---

  /** Once around, any number of times. */
  lemma {:induction false} Around(m: Tree, x: string, n: nat, c: nat)
    requires Ancestor(m, x, n) == Some(x)
    ensures Ancestor(m, x, n * c) == Some(x)
    decreases c
  {
    if c == 0 {
      assert x in m;
    } else {
      Around(m, x, n, c - 1);
      AncestorTwice(m, x, n * (c - 1), n);
      assert n * (c - 1) + n == n * c;
    }
  }

  /** From anything that a category in a loop reaches, the loop leads back to it. */
  lemma LoopLeadsBack(m: Tree, x: string, i: nat, y: string) returns (back: nat)
    requires InLoop(m, x) && Ancestor(m, x, i) == Some(y)
    ensures back > 0 && Ancestor(m, y, back) == Some(x)
  {
    var n: nat :| n > 0 && Ancestor(m, x, n) == Some(x);
    Around(m, x, n, i + 1);
    assert n * (i + 1) >= i + 1;
    back := n * (i + 1) - i;
    AncestorTwice(m, x, i, back);
  }

  /** What a category in a loop reaches is in the loop too. */
  lemma ReachedIsInLoop(m: Tree, x: string, y: string)
    requires InLoop(m, x) && Below(m, x, y)
    ensures InLoop(m, y)
  {
    var i: nat :| Ancestor(m, x, i) == Some(y);
    var back := LoopLeadsBack(m, x, i, y);
    AncestorTwice(m, y, back, i);
    assert Ancestor(m, y, back + i) == Some(y);
  }

  /** Moving any category of a loop to the top level roots everything that reaches that loop. */
  lemma LoopTopRepairs(m: Tree, m': Tree, id: string, parent: Option<string>, y: string, x: string)
    requires Moved(m, m', id, parent) && id in m && (!Given(parent) || parent.value !in m)
    requires InLoop(m, id) && Below(m, id, y) && Below(m, x, y) && x in m
    ensures !Rooted(m, x) && Rooted(m', x)
  {
    var i: nat :| Ancestor(m, id, i) == Some(y);
    var back := LoopLeadsBack(m, id, i, y);
    var j: nat :| Ancestor(m, x, j) == Some(y);
    AncestorTwice(m, x, j, back);
    assert Ancestor(m, x, j + back) == Some(id);
    MoveToTopRepairs(m, m', id, parent, x);
    var n: nat :| n > 0 && Ancestor(m, id, n) == Some(id);
    if Rooted(m, x) {
      var k: nat :| EndsWithin(m, x, k);
      AncestorEnds(m, x, j + back, k);
      LoopNeverEnds(m, id, n, k - (j + back));
    }
  }

  // --- one move ---

  /** A chain that does not pass the moved category is what it was. */
  lemma {:induction false} SameAncestors(m: Tree, m': Tree, id: string, parent: Option<string>, x: string, j: nat)
    requires Moved(m, m', id, parent) && !Below(m, x, id)
    ensures Ancestor(m', x, j) == Ancestor(m, x, j)
    decreases j
  {
    if x in m {
      assert Ancestor(m, x, 0) == Some(x);
      if !Detached(m, m[x]) && j > 0 {
        BelowParent(m, x, id);
        SameAncestors(m, m', id, parent, m[x].parent.value, j - 1);
      }
    }
  }

  /** After the move, whatever the new parent reaches it reached before. */
  lemma {:induction false} ReachedBefore(m: Tree, m': Tree, id: string, p: string, y: string, r: nat, x: string)
    requires Moved(m, m', id, Some(p)) && p in m && Below(m, p, y) && Ancestor(m', y, r) == Some(x)
    ensures Below(m, p, x)
    decreases r
  {
    if r > 0 {
      if y == id {
        assert Ancestor(m, p, 0) == Some(p);
        ReachedBefore(m, m', id, p, p, r - 1, x);
      } else {
        var j: nat :| Ancestor(m, p, j) == Some(y);
        AncestorTwice(m, p, j, 1);
        assert Ancestor(m, y, 1) == Some(m[y].parent.value);
        assert Ancestor(m, p, j + 1) == Some(m[y].parent.value);
        ReachedBefore(m, m', id, p, m[y].parent.value, r - 1, x);
      }
    }
  }

  /** A move that closes a loop puts the new parent in one. */
  lemma ParentLoops(m: Tree, m': Tree, id: string, parent: Option<string>)
    requires Moved(m, m', id, parent) && id in m && Given(parent) && parent.value in m && Below(m, parent.value, id)
    ensures InLoop(m', parent.value) && InLoop(m', id)
  {
    var p := parent.value;
    var j: nat :| Ancestor(m, p, j) == Some(id);
    var j' := StillBelow(m, m', id, parent, p, j);
    assert Ancestor(m', id, 1) == Some(p);
    AncestorTwice(m', p, j', 1);
    assert Ancestor(m', p, j' + 1) == Some(p);
    AncestorTwice(m', id, 1, j');
    assert Ancestor(m', id, 1 + j') == Some(id);
  }

  /** Whatever hangs below the moved category and is in a loop afterwards is reached from the new parent,
      which hangs below the moved category itself. */
  lemma LoopPassesMove(m: Tree, m': Tree, id: string, parent: Option<string>, x: string)
    requires Moved(m, m', id, parent) && id in m && Below(m, x, id) && InLoop(m', x)
    ensures Given(parent) && parent.value in m && Below(m, parent.value, id) && Below(m, parent.value, x)
  {
    var j: nat :| Ancestor(m, x, j) == Some(id);
    var j' := StillBelow(m, m', id, parent, x, j);
    var back := LoopLeadsBack(m', x, j', id);
    var p := parent.value;
    assert Ancestor(m', p, back - 1) == Some(x);
    AncestorTwice(m', p, back - 1, j');
    assert Ancestor(m', p, back - 1 + j') == Some(id);
    if !Below(m, p, id) { SameAncestors(m, m', id, parent, p, back - 1 + j'); }
    assert Ancestor(m, p, 0) == Some(p);
    ReachedBefore(m, m', id, p, p, back - 1, x);
  }

  /** The moved category is in a loop afterwards if and only if its new parent exists and hangs below it. */
  lemma MovedInLoop(m: Tree, m': Tree, id: string, parent: Option<string>)
    requires Moved(m, m', id, parent) && id in m
    ensures InLoop(m', id) <==> Given(parent) && parent.value in m && Below(m, parent.value, id)
  {
    assert Ancestor(m, id, 0) == Some(id);
    if InLoop(m', id) {
      LoopPassesMove(m, m', id, parent, id);
    } else if Given(parent) && parent.value in m && Below(m, parent.value, id) {
      ParentLoops(m, m', id, parent);
    }
  }

  /** A move puts a category in a loop that was in none if and only if the new parent exists, hangs below
      the moved category and is in no loop itself. */
  lemma MoveClosesLoop(m: Tree, m': Tree, id: string, parent: Option<string>)
    requires Moved(m, m', id, parent) && id in m
    ensures NewLoop(m, m') <==> ClosesLoop(m, id, parent)
  {
    if ClosesLoop(m, id, parent) {
      ParentLoops(m, m', id, parent);
    }
    forall x <- m | InLoop(m', x) && !InLoop(m, x)
      ensures ClosesLoop(m, id, parent)
    {
      var n: nat :| n > 0 && Ancestor(m', x, n) == Some(x);
      if !Below(m, x, id) {
        SameAncestors(m, m', id, parent, x, n);
      } else {
        LoopPassesMove(m, m', id, parent, x);
        if InLoop(m, parent.value) { ReachedIsInLoop(m, parent.value, x); }
      }
    }
  }

  // --- runs ---

  /** The same parents: the same ancestors. */
  lemma {:induction false} SameLinks(m: Tree, m': Tree, x: string, j: nat)
    requires m.Keys == m'.Keys && forall y <- m :: m'[y].parent == m[y].parent
    ensures Ancestor(m', x, j) == Ancestor(m, x, j)
    decreases j
  {
    if x in m && !Detached(m, m[x]) && j > 0 { SameLinks(m, m', m[x].parent.value, j - 1); }
  }

  ghost predicate ActionCloses(m: Tree, action: Action) {
    action.Move? && action.id in m && ClosesLoop(m, action.id, action.to)
  }

  /** A command closes a loop if and only if it is a move of an existing category that does. */
  lemma ApplyClosesLoop(all: seq<Category>, action: Action)
    ensures NewLoop(ById(all), ById(Apply(all, action))) <==> ActionCloses(ById(all), action)
  {
    var m, m' := ById(all), ById(Apply(all, action));
    ApplyKeepsRooted(all, action);
    if action.Move? && action.id in m {
      ReparentedMoves(all, action.id, action.to, action.at);
      MoveClosesLoop(m, m', action.id, action.to);
    } else {
      if action.Move? {
        ReparentedMoves(all, action.id, action.to, action.at);
      } else {
        NumberedKeeps(all, action.ids);
      }
      forall x, j: nat { SameLinks(m, m', x, j); }
    }
  }

  ghost predicate NoneCloses(all: seq<Category>, actions: seq<Action>)
    decreases |actions|
  {
    actions == [] || (!ActionCloses(ById(all), actions[0]) && NoneCloses(Apply(all, actions[0]), actions[1..]))
  }

  /** A run none of whose moves closes a loop puts nothing in a loop that was in none. */
  lemma {:induction false} RunClosesNoLoop(all: seq<Category>, actions: seq<Action>)
    requires NoneCloses(all, actions)
    ensures ById(Run(all, actions)).Keys == ById(all).Keys
    ensures !NewLoop(ById(all), ById(Run(all, actions)))
    decreases |actions|
  {
    if actions != [] {
      ApplyKeepsRooted(all, actions[0]);
      ApplyClosesLoop(all, actions[0]);
      RunClosesNoLoop(Apply(all, actions[0]), actions[1..]);
    }
  }

  /** Each move puts an existing category at the top level, or under a rooted one that is neither the
      moved category nor below it. */
  ghost predicate AllLand(all: seq<Category>, actions: seq<Action>)
    decreases |actions|
  {
    actions == [] ||
    var m, action := ById(all), actions[0];
    && (action.Move? && action.id in m ==> Lands(m, action.id, action.to))
    && AllLand(Apply(all, action), actions[1..])
  }

  /** No loop is ever created: a run of reorders and landing moves, of any length, puts nothing in a loop
      that was in none and leaves nothing unrooted that was rooted. */
  lemma {:induction false} LandingRun(all: seq<Category>, actions: seq<Action>)
    requires AllLand(all, actions)
    ensures !NewLoop(ById(all), ById(Run(all, actions)))
    ensures KeepsRooted(ById(all), ById(Run(all, actions)))
  {
    LandingIsSafe(all, actions);
    RunClosesNoLoop(all, actions);
    RunKeepsRooted(all, actions);
  }

  lemma {:induction false} LandingIsSafe(all: seq<Category>, actions: seq<Action>)
    requires AllLand(all, actions)
    ensures NoneCloses(all, actions) && NoneUproots(all, actions)
    decreases |actions|
  {
    if actions != [] { LandingIsSafe(Apply(all, actions[0]), actions[1..]); }
  }

  /** A loop of `a` and `b`, with `c` under `a` and `d` under `c`. */
  function LoopWithTail(): seq<Category> {
    [Category("a", "A", Some("b"), None, 0), Category("b", "B", Some("a"), None, 1),
     Category("c", "C", Some("a"), None, 2), Category("d", "D", Some("c"), None, 3)]
  }

  /** Moving what was not rooted uproots nothing but can close a loop: here `c` moves under `d`. */
  lemma UnrootedMoveClosesLoop()
    ensures var all, actions := LoopWithTail(), [Move("c", Some("d"), None)];
            NoneUproots(all, actions) && NewLoop(ById(all), ById(Run(all, actions)))
  {
    var all, action := LoopWithTail(), Move("c", Some("d"), None);
    var m := ById(all);
    LinksOfTail();
    hide LoopWithTail;
    assert Ancestor(m, "a", 1) == Ancestor(m, "b", 0) == Some("b");
    assert Ancestor(m, "a", 2) == Ancestor(m, "b", 1) == Ancestor(m, "a", 0) == Some("a");
    forall k: nat { LoopNeverEnds(m, "a", 2, k); }
    ParentRooted(m, "c");
    assert Ancestor(m, "d", 1) == Ancestor(m, "c", 0) == Some("c");
    assert Below(m, "d", "c");
    if InLoop(m, "d") {
      var j: nat :| j > 0 && Ancestor(m, "d", j) == Some("d");
      NeverBack(m, "c", j - 1);
    }
    ApplyClosesLoop(all, action);
    assert [action][1..] == [];
  }

  lemma LinksOfTail()
    ensures var m := ById(LoopWithTail());
            && m.Keys == {"a", "b", "c", "d"}
            && m["a"].parent == Some("b") && m["b"].parent == Some("a")
            && m["c"].parent == Some("a") && m["d"].parent == Some("c")
  {
    var all := LoopWithTail();
    ByIdFinds(all);
    assert all[..3][..2] == all[..2] && all[..2][..1] == all[..1] && all[..1][..0] == [];
    assert ById(all[..1]).Keys == {"a"} && ById(all[..2]).Keys == {"a", "b"} && ById(all[..3]).Keys == {"a", "b", "c"};
  }

  lemma {:induction false} NeverBack(m: Tree, x: string, j: nat)
    requires m.Keys == {"a", "b", "c", "d"} && x in {"a", "b", "c"}
    requires m["a"].parent == Some("b") && m["b"].parent == Some("a") && m["c"].parent == Some("a")
    ensures Ancestor(m, x, j) != Some("d")
    decreases j
  {
    if j > 0 { NeverBack(m, m[x].parent.value, j - 1); }
  }
}
