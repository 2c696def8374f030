/** The reference model of the category tree: parent links that may form loops, moves and reorders. */
module Categories {
  import opened Wrappers

  /** `scope` and `parent` are null when absent; an empty parent or scope counts as none. */
  datatype Category = Category(id: string, name: string, parent: Option<string>, scope: Option<string>, sortIndex: int)

  predicate Given(o: Option<string>) {
    o.Some? && o.value != ""
  }

  type Tree = map<string, Category>

  /** Each id with its category; the last one counts if an id occurs twice. */
  function ById(all: seq<Category>): Tree {
    if all == [] then map[] else ById(all[..|all| - 1])[all[|all| - 1].id := all[|all| - 1]]
  }

  ghost predicate UniqueIds(all: seq<Category>) {
    forall i, j :: 0 <= i < j < |all| ==> all[i].id != all[j].id
  }

  lemma {:induction false} ByIdFinds(all: seq<Category>)
    requires UniqueIds(all)
    ensures forall i :: 0 <= i < |all| ==> all[i].id in ById(all) && ById(all)[all[i].id] == all[i]
    ensures forall id <- ById(all) :: ById(all)[id] in all && ById(all)[id].id == id
  {
    if all != [] { ByIdFinds(all[..|all| - 1]); }
  }

  // --- chains of parents ---

  /** No parent, or one that is missing. */
  predicate Detached(m: Tree, c: Category) {
    !Given(c.parent) || c.parent.value !in m
  }

  /** The category `j` parents up from `id`, if the chain gets that far. */
  ghost function Ancestor(m: Tree, id: string, j: nat): Option<string>
    decreases j
  {
    if id !in m then None
    else if j == 0 then Some(id)
    else if Detached(m, m[id]) then None
    else Ancestor(m, m[id].parent.value, j - 1)
  }

  /** The chain of parents from `id` ends within `k` steps. */
  ghost predicate EndsWithin(m: Tree, id: string, k: nat)
    decreases k
  {
    id in m && (Detached(m, m[id]) || (k > 0 && EndsWithin(m, m[id].parent.value, k - 1)))
  }

  /** The chain of parents reaches a category whose parent does not exist. */
  ghost predicate Rooted(m: Tree, id: string) {
    exists k: nat :: EndsWithin(m, id, k)
  }

  /** `top` is `id` or one of its ancestors. */
  ghost predicate Below(m: Tree, id: string, top: string) {
    exists j: nat :: Ancestor(m, id, j) == Some(top)
  }

  ghost predicate StrictlyBelow(m: Tree, id: string, top: string) {
    exists j: nat :: j > 0 && Ancestor(m, id, j) == Some(top)
  }

  lemma {:induction false} AncestorEnds(m: Tree, id: string, j: nat, k: nat)
    requires EndsWithin(m, id, k) && Ancestor(m, id, j).Some?
    ensures j <= k && EndsWithin(m, Ancestor(m, id, j).value, k - j)
    decreases j
  {
    if j > 0 { AncestorEnds(m, m[id].parent.value, j - 1, k - 1); }
  }

  lemma {:induction false} AncestorRooted(m: Tree, id: string, j: nat, k: nat)
    requires Ancestor(m, id, j).Some? && EndsWithin(m, Ancestor(m, id, j).value, k)
    ensures EndsWithin(m, id, j + k)
    decreases j
  {
    if j > 0 { AncestorRooted(m, m[id].parent.value, j - 1, k); }
  }

  lemma {:induction false} AncestorTwice(m: Tree, id: string, i: nat, j: nat)
    requires Ancestor(m, id, i).Some?
    ensures Ancestor(m, id, i + j) == Ancestor(m, Ancestor(m, id, i).value, j)
    decreases i
  {
    if i > 0 { AncestorTwice(m, m[id].parent.value, i - 1, j); }
  }

  /** A category that is its own ancestor is not rooted. */
  lemma {:induction false} LoopNeverEnds(m: Tree, id: string, j: nat, k: nat)
    requires j > 0 && Ancestor(m, id, j) == Some(id)
    ensures !EndsWithin(m, id, k)
    decreases k
  {
    if EndsWithin(m, id, k) {
      AncestorEnds(m, id, j, k);
      LoopNeverEnds(m, id, j, k - j);
    }
  }

  /** The visited-set walk upwards. It ends on every list of categories, with loops or without, and
      says whether the chain reaches a category whose parent does not exist. */
  method IsRooted(m: Tree, c: Category) returns (rooted: bool)
    requires c.id in m && m[c.id] == c && forall id <- m :: m[id].id == id
    ensures rooted <==> Rooted(m, c.id)
  {
    var seen: set<string> := {};
    var cur := c;
    while true
      invariant cur.id in m && m[cur.id] == cur && seen <= m.Keys
      invariant forall s <- seen :: StrictlyBelow(m, s, cur.id)
      invariant Rooted(m, c.id) <==> Rooted(m, cur.id)
      decreases m.Keys - seen
    {
      if cur.id in seen {
        ghost var j: nat :| j > 0 && Ancestor(m, cur.id, j) == Some(cur.id);
        forall k: nat { LoopNeverEnds(m, cur.id, j, k); }
        return false;
      }
      ghost var before := seen;
      seen := seen + {cur.id};
      if Detached(m, cur) {
        assert EndsWithin(m, cur.id, 0);
        return true;
      }
      ghost var child := cur.id;
      cur := m[cur.parent.value];
      ParentRooted(m, child);
      forall s | s in seen
        ensures StrictlyBelow(m, s, cur.id)
      {
        assert Ancestor(m, cur.id, 0) == Some(cur.id);
        assert Ancestor(m, child, 1) == Some(cur.id);
        if s in before {
          var j: nat :| j > 0 && Ancestor(m, s, j) == Some(child);
          AncestorTwice(m, s, j, 1);
          assert Ancestor(m, s, j + 1) == Some(cur.id);
        } else {
          assert s == child;
        }
      }
    }
  }

  lemma ParentRooted(m: Tree, id: string)
    requires id in m && !Detached(m, m[id])
    ensures Rooted(m, id) <==> Rooted(m, m[id].parent.value)
  {
    var parent := m[id].parent.value;
    if Rooted(m, id) {
      var k: nat :| EndsWithin(m, id, k);
      assert EndsWithin(m, parent, k - 1);
    }
    if Rooted(m, parent) {
      var k: nat :| EndsWithin(m, parent, k);
      assert EndsWithin(m, id, k + 1);
    }
  }

  // --- moves ---

  /** The categories after `id` got the parent `parent`, and a sort index if one is given. */
  function Reparented(all: seq<Category>, id: string, parent: Option<string>, sortIndex: Option<int>)
      : (r: seq<Category>)
    ensures |r| == |all|
    ensures forall i :: 0 <= i < |all| ==>
              r[i] == if all[i].id != id then all[i]
                      else Category(id, all[i].name, parent, all[i].scope,
                                    if sortIndex.None? then all[i].sortIndex else sortIndex.value)
  {
    seq(|all|, i requires 0 <= i < |all| =>
      var c := all[i];
      if c.id != id then c
      else c.(parent := parent, sortIndex := if sortIndex.None? then c.sortIndex else sortIndex.value))
  }

  /** A tree in which only the parent of `id` differs. */
  ghost predicate Moved(m: Tree, m': Tree, id: string, parent: Option<string>) {
    && m.Keys == m'.Keys
    && (forall x <- m :: x != id ==> m'[x].parent == m[x].parent)
    && (id in m ==> m'[id].parent == parent)
  }

  lemma {:induction false} ReparentedMoves(all: seq<Category>, id: string, parent: Option<string>,
      sortIndex: Option<int>)
    ensures Moved(ById(all), ById(Reparented(all, id, parent, sortIndex)), id, parent)
  {
    if all != [] {
      var r := Reparented(all, id, parent, sortIndex);
      assert r[..|all| - 1] == Reparented(all[..|all| - 1], id, parent, sortIndex);
      ReparentedMoves(all[..|all| - 1], id, parent, sortIndex);
    }
  }

  /** The moved category lands at the top level, or under a rooted category outside its own subtree. */
  ghost predicate Lands(m: Tree, id: string, parent: Option<string>) {
    || !Given(parent) || parent.value !in m
    || (Rooted(m, parent.value) && !Below(m, parent.value, id))
  }

  /** A chain that does not pass the moved category is what it was. */
  lemma {:induction false} ElsewhereSame(m: Tree, m': Tree, id: string, parent: Option<string>, x: string, k: nat)
    requires Moved(m, m', id, parent) && !Below(m, x, id)
    ensures EndsWithin(m', x, k) <==> EndsWithin(m, x, k)
    decreases k
  {
    if x in m {
      assert Ancestor(m, x, 0) == Some(x);
      if !Detached(m, m[x]) {
        BelowParent(m, x, id);
        if k > 0 { ElsewhereSame(m, m', id, parent, m[x].parent.value, k - 1); }
      }
    }
  }

  lemma BelowParent(m: Tree, x: string, id: string)
    requires x in m && !Detached(m, m[x])
    ensures Below(m, m[x].parent.value, id) ==> Below(m, x, id)
  {
    if Below(m, m[x].parent.value, id) {
      var j: nat :| Ancestor(m, m[x].parent.value, j) == Some(id);
      assert Ancestor(m, x, j + 1) == Some(id);
    }
  }

  /** What hung below the moved category still does. */
  lemma {:induction false} StillBelow(m: Tree, m': Tree, id: string, parent: Option<string>, x: string, j: nat)
      returns (j': nat)
    requires Moved(m, m', id, parent) && Ancestor(m, x, j) == Some(id)
    ensures Ancestor(m', x, j') == Some(id)
    decreases j
  {
    if x == id {
      j' := 0;
    } else {
      j' := StillBelow(m, m', id, parent, m[x].parent.value, j - 1);
      j' := j' + 1;
    }
  }

  /** A move that lands makes the moved category rooted. */
  lemma LandedIsRooted(m: Tree, m': Tree, id: string, parent: Option<string>)
    requires Moved(m, m', id, parent) && id in m && Lands(m, id, parent)
    ensures Rooted(m', id)
  {
    if Detached(m', m'[id]) {
      assert EndsWithin(m', id, 0);
    } else {
      var k: nat :| EndsWithin(m, parent.value, k);
      ElsewhereSame(m, m', id, parent, parent.value, k);
      assert EndsWithin(m', id, k + 1);
    }
  }

  /** A move that does not land leaves the moved category unrooted. */
  lemma AdriftIsUnrooted(m: Tree, m': Tree, id: string, parent: Option<string>)
    requires Moved(m, m', id, parent) && id in m && !Lands(m, id, parent)
    ensures !Rooted(m', id)
  {
    var p := parent.value;
    if Below(m, p, id) {
      var j: nat :| Ancestor(m, p, j) == Some(id);
      var j' := StillBelow(m, m', id, parent, p, j);
      assert Ancestor(m', id, j' + 1) == Some(id);
      forall k: nat { LoopNeverEnds(m', id, j' + 1, k); }
    } else if Rooted(m', id) {
      var k: nat :| EndsWithin(m', id, k);
      ElsewhereSame(m, m', id, parent, p, k - 1);
    }
  }

  /** Exactly what a move does to rootedness: a category below the moved one is rooted afterwards if
      and only if the move lands, and every other category is as it was. */
  lemma MoveRoots(m: Tree, m': Tree, id: string, parent: Option<string>, x: string)
    requires Moved(m, m', id, parent) && id in m && x in m
    ensures Rooted(m', x) <==> if Below(m, x, id) then Lands(m, id, parent) else Rooted(m, x)
  {
    if Below(m, x, id) {
      var j: nat :| Ancestor(m, x, j) == Some(id);
      var j' := StillBelow(m, m', id, parent, x, j);
      if Lands(m, id, parent) {
        LandedIsRooted(m, m', id, parent);
        var k: nat :| EndsWithin(m', id, k);
        AncestorRooted(m', x, j', k);
      } else {
        AdriftIsUnrooted(m, m', id, parent);
        if Rooted(m', x) {
          var k: nat :| EndsWithin(m', x, k);
          AncestorEnds(m', x, j', k);
        }
      }
    } else {
      forall k: nat { ElsewhereSame(m, m', id, parent, x, k); }
    }
  }

  ghost predicate KeepsRooted(m: Tree, m': Tree) {
    forall x <- m :: Rooted(m, x) ==> Rooted(m', x)
  }

  /** A move unroots no rooted category if and only if it lands, or what moves was not rooted itself. */
  lemma MoveKeepsRooted(m: Tree, m': Tree, id: string, parent: Option<string>)
    requires Moved(m, m', id, parent) && id in m
    ensures KeepsRooted(m, m') <==> Lands(m, id, parent) || !Rooted(m, id)
  {
    forall x <- m { MoveRoots(m, m', id, parent, x); }
    assert Ancestor(m, id, 0) == Some(id);
    if !Rooted(m, id) {
      forall x <- m | Rooted(m, x)
        ensures !Below(m, x, id)
      {
        if Below(m, x, id) {
          var j: nat :| Ancestor(m, x, j) == Some(id);
          var k: nat :| EndsWithin(m, x, k);
          AncestorEnds(m, x, j, k);
        }
      }
    }
  }

  /** Moving a category to the top level repairs whatever hung on its loop, and unroots nothing. */
  lemma MoveToTopRepairs(m: Tree, m': Tree, id: string, parent: Option<string>, x: string)
    requires Moved(m, m', id, parent) && id in m && x in m && (!Given(parent) || parent.value !in m)
    ensures Rooted(m', x) <==> Rooted(m, x) || Below(m, x, id)
  {
    MoveRoots(m, m', id, parent, x);
  }

  /** Every category of a loop, and all below it, is below each category of the loop. */
  lemma LoopMembersHang(m: Tree, id: string, n: nat, x: string, i: nat, j: nat)
    requires n > 0 && Ancestor(m, id, n) == Some(id) && i <= n
    requires Ancestor(m, x, j).Some? && Ancestor(m, x, j) == Ancestor(m, id, i)
    ensures Below(m, x, id)
  {
    hide Ancestor, Rooted;
    AncestorTwice(m, x, j, n - i);
    AncestorTwice(m, id, i, n - i);
    assert i + (n - i) == n;
    assert Ancestor(m, x, j + (n - i)) == Some(id);
  }

  // --- the list of one parent, and its order ---

  /** Shown at the top level: no existing parent, or a chain of parents that never reaches one without. */
  ghost predicate AtTop(m: Tree, c: Category) {
    Detached(m, c) || !Rooted(m, c.id)
  }

  ghost predicate InList(m: Tree, c: Category, parent: Option<string>) {
    if parent.None? then AtTop(m, c) else c.parent == parent
  }

  /** Following parents from any category leads to one at the top. */
  lemma ReachesAtTop(m: Tree, id: string)
    requires id in m && forall x <- m :: m[x].id == x
    ensures exists top <- m :: Below(m, id, top) && AtTop(m, m[top])
  {
    if Rooted(m, id) {
      var k: nat :| EndsWithin(m, id, k);
      var j := StepsToTop(m, id, k);
      assert Below(m, id, Ancestor(m, id, j).value);
    } else {
      assert Ancestor(m, id, 0) == Some(id);
      assert Below(m, id, id);
    }
  }

  lemma {:induction false} StepsToTop(m: Tree, id: string, k: nat) returns (j: nat)
    requires EndsWithin(m, id, k)
    ensures Ancestor(m, id, j).Some? && Ancestor(m, id, j).value in m && Detached(m, m[Ancestor(m, id, j).value])
    decreases k
  {
    if Detached(m, m[id]) {
      j := 0;
    } else {
      j := StepsToTop(m, m[id].parent.value, k - 1);
      j := j + 1;
    }
  }

  datatype Reply = Done | NoLongerExists | NamedTwice | NotOneParent | NotWholeList

  predicate Distinct(ids: seq<string>) {
    forall i, j :: 0 <= i < j < |ids| ==> ids[i] != ids[j]
  }

  /** The scope an order is about: that of the first category it names. */
  function OrderScope(m: Tree, ids: seq<string>): Option<string> {
    if ids != [] && ids[0] in m then m[ids[0]].scope else None
  }

  /** What becomes of an order: the first rule it breaks, if any. */
  ghost function Verdict(all: seq<Category>, parent: Option<string>, ids: seq<string>): Reply {
    var m := ById(all);
    var scope := OrderScope(m, ids);
    if exists id <- ids :: id !in m then NoLongerExists
    else if !Distinct(ids) then NamedTwice
    else if exists id <- ids :: id in m && !(m[id].scope == scope && InList(m, m[id], parent)) then NotOneParent
    else if Given(scope) && exists c <- all :: c.scope == scope && InList(m, c, parent) && c.id !in ids then
      NotWholeList
    else Done
  }

  /** The string-array method `indexOf` for an element that occurs. */
  function IndexIn(ids: seq<string>, id: string): (k: nat)
    requires id in ids
    ensures k < |ids| && ids[k] == id && id !in ids[..k]
  {
    if ids[0] == id then 0 else
      var k := IndexIn(ids[1..], id) + 1;
      assert ids[..k] == [ids[0]] + ids[1..][..k - 1];
      k
  }

  /** Each named category numbered by its place in the order. */
  function Numbered(all: seq<Category>, ids: seq<string>): (r: seq<Category>)
    ensures |r| == |all|
    ensures forall i :: 0 <= i < |all| ==>
              && r[i].id == all[i].id && r[i].name == all[i].name && r[i].parent == all[i].parent
              && r[i].scope == all[i].scope
              && (all[i].id !in ids ==> r[i] == all[i])
              && forall k :: 0 <= k < |ids| && Distinct(ids) && ids[k] == all[i].id ==> r[i].sortIndex == k
  {
    seq(|all|, i requires 0 <= i < |all| =>
      var c := all[i];
      if c.id in ids then c.(sortIndex := IndexIn(ids, c.id)) else c)
  }

  /** The ids of one parent's list in one scope. */
  ghost function ListIds(all: seq<Category>, parent: Option<string>, scope: Option<string>): set<string> {
    set c | c in all && c.scope == scope && InList(ById(all), c, parent) :: c.id
  }

  /** An order is accepted exactly when it names the whole list, and with an empty scope some of it. */
  lemma OrderIsDone(all: seq<Category>, parent: Option<string>, ids: seq<string>)
    requires UniqueIds(all)
    ensures var scope := OrderScope(ById(all), ids);
            var named := set id | id in ids;
            Verdict(all, parent, ids) == Done <==>
              && Distinct(ids)
              && if Given(scope) then named == ListIds(all, parent, scope)
                 else named <= ListIds(all, parent, scope)
  {
    var m := ById(all);
    ByIdFinds(all);
    var scope := OrderScope(m, ids);
    var list := ListIds(all, parent, scope);
    forall id
      ensures id in list <==> id in m && m[id].scope == scope && InList(m, m[id], parent)
    {
      if id in list {
        var c :| c in all && c.scope == scope && InList(m, c, parent) && c.id == id;
        assert m[id] == c;
      }
    }
    assert forall c <- all :: m[c.id] == c;
  }

  /** With an empty scope a partial order is accepted: the whole-list rule does not look at it. */
  lemma PartialOrderWithoutScope()
    ensures var all := [Category("a", "A", None, None, 7), Category("b", "B", None, None, 8)];
            Verdict(all, None, ["a"]) == Done && ListIds(all, None, None) == {"a", "b"}
  {
    var all := [Category("a", "A", None, None, 7), Category("b", "B", None, None, 8)];
    ByIdFinds(all);
    assert all[0] in all && all[1] in all;
    OrderIsDone(all, None, ["a"]);
    var list := ListIds(all, None, None);
    assert "a" in list && "b" in list;
  }

  /** The same parents: the same chains. */
  lemma {:induction false} SameChains(m: Tree, m': Tree, id: string, k: nat)
    requires m.Keys == m'.Keys && forall x <- m :: m'[x].parent == m[x].parent
    ensures EndsWithin(m', id, k) <==> EndsWithin(m, id, k)
    decreases k
  {
    if id in m && !Detached(m, m[id]) && k > 0 { SameChains(m, m', m[id].parent.value, k - 1); }
  }

  lemma {:induction false} NumberedKeeps(all: seq<Category>, ids: seq<string>)
    ensures var m, m' := ById(all), ById(Numbered(all, ids));
            && m.Keys == m'.Keys
            && (forall x <- m :: m'[x].parent == m[x].parent && m'[x].scope == m[x].scope && m'[x].id == m[x].id)
  {
    if all != [] {
      assert Numbered(all, ids)[..|all| - 1] == Numbered(all[..|all| - 1], ids);
      NumberedKeeps(all[..|all| - 1], ids);
    }
  }

  lemma NumberedSameLists(all: seq<Category>, ids: seq<string>, c: Category, c': Category, parent: Option<string>)
    requires c.id == c'.id && c.parent == c'.parent
    ensures InList(ById(Numbered(all, ids)), c', parent) <==> InList(ById(all), c, parent)
  {
    var m, m' := ById(all), ById(Numbered(all, ids));
    NumberedKeeps(all, ids);
    forall k: nat { SameChains(m, m', c.id, k); }
  }

  /** Sending an accepted order again changes nothing and is accepted again. */
  lemma OrderIdempotent(all: seq<Category>, parent: Option<string>, ids: seq<string>)
    requires Verdict(all, parent, ids) == Done
    ensures Verdict(Numbered(all, ids), parent, ids) == Done
    ensures Numbered(Numbered(all, ids), ids) == Numbered(all, ids)
  {
    var m, m' := ById(all), ById(Numbered(all, ids));
    NumberedKeeps(all, ids);
    forall id <- ids { NumberedSameLists(all, ids, m[id], m'[id], parent); }
    forall i | 0 <= i < |all| { NumberedSameLists(all, ids, all[i], Numbered(all, ids)[i], parent); }
  }

  // --- runs ---

  datatype Action =
    | Move(id: string, to: Option<string>, at: Option<int>)
    | Order(under: Option<string>, ids: seq<string>)

  ghost function Apply(all: seq<Category>, action: Action): seq<Category> {
    match action
    case Move(id, to, at) => Reparented(all, id, to, at)
    case Order(under, ids) => if Verdict(all, under, ids) == Done then Numbered(all, ids) else all
  }

  ghost function Run(all: seq<Category>, actions: seq<Action>): seq<Category>
    decreases |actions|
  {
    if actions == [] then all else Run(Apply(all, actions[0]), actions[1..])
  }

  /** Each move lands, moves something unrooted, or names no category. */
  ghost predicate NoneUproots(all: seq<Category>, actions: seq<Action>)
    decreases |actions|
  {
    actions == [] ||
    var m, action := ById(all), actions[0];
    && (action.Move? && action.id in m ==> Lands(m, action.id, action.to) || !Rooted(m, action.id))
    && NoneUproots(Apply(all, action), actions[1..])
  }

  lemma ApplyKeepsRooted(all: seq<Category>, action: Action)
    ensures ById(Apply(all, action)).Keys == ById(all).Keys
    ensures var m := ById(all);
            KeepsRooted(m, ById(Apply(all, action))) <==>
            (action.Move? && action.id in m ==> Lands(m, action.id, action.to) || !Rooted(m, action.id))
  {
    var m, m' := ById(all), ById(Apply(all, action));
    if action.Move? {
      ReparentedMoves(all, action.id, action.to, action.at);
      if action.id in m { MoveKeepsRooted(m, m', action.id, action.to); }
    } else {
      NumberedKeeps(all, action.ids);
    }
    if action.Order? || action.id !in m {
      forall x, k: nat { SameChains(m, m', x, k); }
    }
  }

  /** A run of reorders, of moves that land and of moves of what was not rooted leaves nothing unrooted
      that was rooted. (Such a run may still close a new loop among unrooted categories.) */
  lemma {:induction false} RunKeepsRooted(all: seq<Category>, actions: seq<Action>)
    requires NoneUproots(all, actions)
    ensures KeepsRooted(ById(all), ById(Run(all, actions)))
    decreases |actions|
  {
    if actions != [] {
      ApplyKeepsRooted(all, actions[0]);
      RunKeepsRooted(Apply(all, actions[0]), actions[1..]);
    }
  }

  // --- the store the two commands replace ---

  class Store {
    var categories: seq<Category>

    ghost predicate Valid()
      reads this
    {
      UniqueIds(categories)
    }

    constructor (all: seq<Category>)
      requires UniqueIds(all)
      ensures Valid() && categories == all
    {
      categories := all;
    }

    method CategoryReparent(id: string, newParent: Option<string>, sortIndex: Option<int>)
      requires Valid()
      modifies this
      ensures Valid() && categories == Apply(old(categories), Move(id, newParent, sortIndex))
    {
      categories := Reparented(categories, id, newParent, sortIndex);
    }

    /** Whether `c` belongs to the list of `parent`. */
    method InListOf(m: Tree, c: Category, parent: Option<string>) returns (inList: bool)
      requires c.id in m && m[c.id] == c && forall id <- m :: m[id].id == id
      ensures inList <==> InList(m, c, parent)
    {
      if parent.Some? { return c.parent == parent; }
      if Detached(m, c) { return true; }
      var rooted := IsRooted(m, c);
      return !rooted;
    }

    method CategorySetOrder(parent: Option<string>, ids: seq<string>) returns (reply: Reply)
      requires Valid()
      modifies this
      ensures Valid() && reply == Verdict(old(categories), parent, ids)
      ensures categories == Apply(old(categories), Order(parent, ids))
    {
      reply := Judge(parent, ids);
      if reply == Done { categories := Numbered(categories, ids); }
    }

    /** The checks of an order, in their order. */
    method Judge(parent: Option<string>, ids: seq<string>) returns (reply: Reply)
      requires Valid()
      ensures reply == Verdict(categories, parent, ids)
    {
      hide InList, UniqueIds;
      var all := categories;
      var m := ById(all);
      ByIdFinds(all);
      for k := 0 to |ids|
        invariant forall i :: 0 <= i < k ==> ids[i] in m
      {
        if ids[k] !in m { return NoLongerExists; }
      }
      var named := set id | id in ids;
      DistinctCount(ids);
      if |named| != |ids| { return NamedTwice; }
      var scope := OrderScope(m, ids);
      for k := 0 to |ids|
        invariant forall i :: 0 <= i < k ==> m[ids[i]].scope == scope && InList(m, m[ids[i]], parent)
      {
        var inList := InListOf(m, m[ids[k]], parent);
        if m[ids[k]].scope != scope || !inList { return NotOneParent; }
      }
      if Given(scope) {
        for k := 0 to |all|
          invariant forall i :: 0 <= i < k ==>
                      !(all[i].scope == scope && InList(m, all[i], parent) && all[i].id !in ids)
        {
          var inList := InListOf(m, all[k], parent);
          if all[k].scope == scope && inList && all[k].id !in ids { return NotWholeList; }
        }
      }
      return Done;
    }
  }

  /** A list names nothing twice exactly when it has as many elements as names. */
  lemma {:induction false} DistinctCount(ids: seq<string>)
    ensures |set id | id in ids| == |ids| <==> Distinct(ids)
    ensures |set id | id in ids| <= |ids|
  {
    if ids != [] {
      var last, front := ids[|ids| - 1], ids[..|ids| - 1];
      DistinctCount(front);
      var all, before := set id | id in ids, set id | id in front;
      assert all == before + {last};
      assert ids == front + [last];
    }
  }
}
