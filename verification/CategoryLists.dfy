/** Which list a category is in, said of the parent links alone, and what becomes of an order. */
module CategoryLists {
  import opened Wrappers
  import opened Categories
  import opened CategoryLoops

  /** The chain of parents runs into a loop. */
  ghost predicate ReachesLoop(m: Tree, id: string) {
    exists y :: Below(m, id, y) && StrictlyBelow(m, y, y)
  }

  /** No parent, an empty one or one that does not exist. */
  ghost predicate Parentless(m: Tree, c: Category) {
    c.parent == None || c.parent == Some("") || c.parent.value !in m
  }

  ghost predicate OnTop(m: Tree, c: Category) {
    Parentless(m, c) || ReachesLoop(m, c.id)
  }

  /** In the top-level list, or in that of its parent. */
  ghost predicate Listed(m: Tree, c: Category, parent: Option<string>) {
    if parent == None then OnTop(m, c) else c.parent == parent
  }

  // --- loops are all that keeps a chain from ending ---

  /** Going up from an unrooted category some category comes back. */
  lemma {:induction false} UnrootedReachesLoop(m: Tree, cur: string, seen: set<string>) returns (y: string)
    requires cur in m && !Rooted(m, cur) && seen <= m.Keys && forall s <- seen :: StrictlyBelow(m, s, cur)
    ensures Below(m, cur, y) && StrictlyBelow(m, y, y)
    decreases m.Keys - seen
  {
    assert Ancestor(m, cur, 0) == Some(cur);
    if cur in seen {
      y := cur;
    } else {
      DetachedIsRooted(m, cur);
      var parent := m[cur].parent.value;
      ParentRooted(m, cur);
      assert Ancestor(m, parent, 0) == Some(parent);
      assert Ancestor(m, cur, 1) == Some(parent);
      forall s <- seen + {cur}
        ensures StrictlyBelow(m, s, parent)
      {
        OneFurther(m, s, cur);
      }
      y := UnrootedReachesLoop(m, parent, seen + {cur});
      BelowParent(m, cur, y);
    }
  }

  lemma DetachedIsRooted(m: Tree, id: string)
    requires id in m
    ensures Detached(m, m[id]) ==> Rooted(m, id)
  {
    if Detached(m, m[id]) { assert EndsWithin(m, id, 0); }
  }

  lemma OneFurther(m: Tree, s: string, cur: string)
    requires cur in m && !Detached(m, m[cur]) && m[cur].parent.value in m && (s == cur || StrictlyBelow(m, s, cur))
    ensures StrictlyBelow(m, s, m[cur].parent.value)
  {
    var parent := m[cur].parent.value;
    assert Ancestor(m, parent, 0) == Some(parent);
    assert Ancestor(m, cur, 1) == Some(parent);
    if s != cur {
      var j: nat :| j > 0 && Ancestor(m, s, j) == Some(cur);
      AncestorTwice(m, s, j, 1);
      assert Ancestor(m, s, j + 1) == Some(parent);
    }
  }

  lemma LoopIsUnrooted(m: Tree, id: string)
    requires ReachesLoop(m, id)
    ensures !Rooted(m, id)
  {
    var y :| Below(m, id, y) && StrictlyBelow(m, y, y);
    var i: nat :| Ancestor(m, id, i) == Some(y);
    var n: nat :| n > 0 && Ancestor(m, y, n) == Some(y);
    if Rooted(m, id) {
      var k: nat :| EndsWithin(m, id, k);
      AncestorEnds(m, id, i, k);
      LoopNeverEnds(m, y, n, k - i);
    }
  }

  /** A category is rooted if and only if its chain of parents runs into no loop. */
  lemma RootedIs(m: Tree, id: string)
    requires id in m
    ensures Rooted(m, id) <==> !ReachesLoop(m, id)
  {
    if ReachesLoop(m, id) {
      LoopIsUnrooted(m, id);
    } else if !Rooted(m, id) {
      var y := UnrootedReachesLoop(m, id, {});
    }
  }

  // --- the lists ---

  /** A category is in the top-level list if and only if it has no existing parent or its chain of parents
      runs into a loop; and in the list of another if and only if that is its parent. */
  lemma ListIs(m: Tree, c: Category, parent: Option<string>)
    requires c.id in m
    ensures InList(m, c, parent) <==> Listed(m, c, parent)
  {
    hide Rooted;
    RootedIs(m, c.id);
  }

  /** The lists there are: the top level and one for each category. */
  ghost predicate IsList(m: Tree, parent: Option<string>) {
    parent == None || (parent != Some("") && parent.value in m)
  }

  /** A rooted category is in exactly one list; one whose chain runs into a loop is in the top-level list,
      and in its parent's as well. */
  lemma InOneList(m: Tree, c: Category, a: Option<string>, b: Option<string>)
    requires c.id in m && IsList(m, a) && IsList(m, b)
    ensures var own := if Parentless(m, c) then None else c.parent;
            && IsList(m, own) && InList(m, c, own)
            && (InList(m, c, a) && InList(m, c, b) && a != b ==>
                  ReachesLoop(m, c.id) && !Parentless(m, c) && (a == None || b == None))
            && (ReachesLoop(m, c.id) ==> InList(m, c, None))
  {
    hide ReachesLoop, InList;
    ListIs(m, c, a);
    ListIs(m, c, b);
    ListIs(m, c, None);
    ListIs(m, c, c.parent);
  }

  /** No category is lost: each reaches, by following parents, one that is in the top-level list. */
  lemma ReachesTopList(m: Tree, id: string)
    requires id in m && forall x <- m :: m[x].id == x
    ensures exists top <- m :: Below(m, id, top) && OnTop(m, m[top])
  {
    hide OnTop, AtTop;
    ReachesAtTop(m, id);
    var top :| top in m && Below(m, id, top) && AtTop(m, m[top]);
    ListIs(m, m[top], None);
    TopIs(m, m[top]);
  }

  lemma TopIs(m: Tree, c: Category)
    requires InList(m, c, None) <==> Listed(m, c, None)
    ensures AtTop(m, c) <==> OnTop(m, c)
  {
    hide ReachesLoop, Rooted;
  }

  // --- orders ---

  ghost predicate Known(all: seq<Category>, id: string) {
    exists c <- all :: c.id == id
  }

  /** The ids of one parent's list in one scope. */
  ghost function WholeList(all: seq<Category>, parent: Option<string>, scope: Option<string>): set<string> {
    set c | c in all && c.scope == scope && Listed(ById(all), c, parent) :: c.id
  }

  /** One category is in the scope and in the list an order is about. */
  ghost predicate Belongs(all: seq<Category>, parent: Option<string>, scope: Option<string>, id: string) {
    exists c <- all :: c.id == id && c.scope == scope && Listed(ById(all), c, parent)
  }

  /** Every order gets the reply its first fault calls for: an unknown id, an id named twice, one that does
      not belong, one left out of a list with a scope; and is accepted without any. */
  lemma RepliesAre(all: seq<Category>, parent: Option<string>, ids: seq<string>)
    requires UniqueIds(all)
    ensures var reply := Verdict(all, parent, ids);
            var known := forall id <- ids :: Known(all, id);
            var scope := if ids != [] && ids[0] in ById(all) then ById(all)[ids[0]].scope else None;
            var belong := forall id <- ids :: Belongs(all, parent, scope, id);
            var whole := scope == None || scope == Some("") || forall id <- WholeList(all, parent, scope) :: id in ids;
            && (reply == NoLongerExists <==> !known)
            && (reply == NamedTwice <==> known && !Distinct(ids))
            && (reply == NotOneParent <==> known && Distinct(ids) && !belong)
            && (reply == NotWholeList <==> known && Distinct(ids) && belong && !whole)
            && (reply == Done <==> known && Distinct(ids) && belong && whole)
  {
    hide InList, Listed, UniqueIds, Distinct;
    var m := ById(all);
    ByIdFinds(all);
    forall c <- all { ListIs(m, c, parent); }
    var scope := OrderScope(m, ids);
    forall id <- ids
      ensures Known(all, id) <==> id in m
      ensures Belongs(all, parent, scope, id) <==> id in m && m[id].scope == scope && InList(m, m[id], parent)
    {
      KnownIs(all, id);
      BelongsIs(all, parent, scope, id);
    }
    WholeIs(all, parent, scope, ids);
  }

  lemma KnownIs(all: seq<Category>, id: string)
    requires UniqueIds(all)
    ensures Known(all, id) <==> id in ById(all)
  {
    ByIdFinds(all);
  }

  lemma BelongsIs(all: seq<Category>, parent: Option<string>, scope: Option<string>, id: string)
    requires UniqueIds(all)
    ensures var m := ById(all);
            Belongs(all, parent, scope, id) <==> id in m && m[id].scope == scope && InList(m, m[id], parent)
  {
    hide InList, Listed;
    ByIdFinds(all);
    var m := ById(all);
    if id in m { ListIs(m, m[id], parent); }
    if Belongs(all, parent, scope, id) {
      var c :| c in all && c.id == id && c.scope == scope && Listed(m, c, parent);
      assert m[id] == c;
    }
  }

  lemma WholeIs(all: seq<Category>, parent: Option<string>, scope: Option<string>, ids: seq<string>)
    requires UniqueIds(all)
    ensures (forall id <- WholeList(all, parent, scope) :: id in ids) <==>
            !exists c <- all :: c.scope == scope && InList(ById(all), c, parent) && c.id !in ids
  {
    hide InList, Listed;
    ByIdFinds(all);
    forall c <- all { ListIs(ById(all), c, parent); }
    var list := WholeList(all, parent, scope);
    forall c <- all
      ensures c.scope == scope && Listed(ById(all), c, parent) ==> c.id in list
    {
    }
  }

  /** An order is accepted exactly when it names each category of one parent's list in its scope once.
      Only when the scope is empty may it leave some out. */
  lemma AcceptedOrders(all: seq<Category>, parent: Option<string>, ids: seq<string>)
    requires UniqueIds(all)
    ensures var scope := if ids != [] && ids[0] in ById(all) then ById(all)[ids[0]].scope else None;
            var list := WholeList(all, parent, scope);
            var named := set id | id in ids;
            Verdict(all, parent, ids) == Done <==>
              Distinct(ids) && if scope == None || scope == Some("") then named <= list else named == list
  {
    hide Listed, Distinct, UniqueIds, Verdict;
    RepliesAre(all, parent, ids);
    var scope := if ids != [] && ids[0] in ById(all) then ById(all)[ids[0]].scope else None;
    forall id
      ensures Belongs(all, parent, scope, id) <==> id in WholeList(all, parent, scope)
      ensures Belongs(all, parent, scope, id) ==> Known(all, id)
    {
    }
  }
}
