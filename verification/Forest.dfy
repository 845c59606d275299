/** Object trees as threaded records: each object's children form a list whose last link leads back to the object. */
module Forest {
  import opened Geometry
  import opened Links

  const ROOT := 0

  /** One object, without its link: its first and last child, the HIDETREE flag, and its place in its parent. */
  datatype Item = Item(head: int, tail: int, hidden: bool, x: Word, y: Word, w: Word, h: Word)

  type Node = Linked<Item>

  /** `list` is the children of p, in order. */
  ghost predicate Family(nodes: seq<Node>, p: int, list: seq<int>)
    requires 0 <= p < |nodes|
  {
    && nodes[p].data.head == First(list) && nodes[p].data.tail == Last(list)
    && (list != [] ==> Run(nodes, list[0], list, p)) && p !in list
  }

  /** No object is on this list of children. */
  ghost predicate Loose(kids: seq<seq<int>>, c: int) {
    forall p | 0 <= p < |kids| :: c !in kids[p]
  }

  /** The links say exactly what `kids` says. An object is a child of one parent at most; the root is nobody's child,
      and the other objects without a parent have the link NIL. */
  ghost predicate Threaded(nodes: seq<Node>, kids: seq<seq<int>>) {
    && |kids| == |nodes| > 0
    && (forall p | 0 <= p < |nodes| :: Family(nodes, p, kids[p]))
    && (forall p, q | 0 <= p < q < |nodes| :: Apart(kids[p], kids[q]))
    && Loose(kids, ROOT)
    && (forall c | 0 < c < |nodes| && Loose(kids, c) :: nodes[c].next == NIL)
  }

  /** Children lie deeper than their parents. */
  ghost predicate Layered(kids: seq<seq<int>>, level: seq<nat>) {
    && |level| == |kids|
    && forall p, c | 0 <= p < |kids| && c in kids[p] :: Deeper(level, p, c)
  }

  predicate Deeper(level: seq<nat>, p: int, c: int) {
    0 <= p < |level| && 0 <= c < |level| && level[p] < level[c]
  }

  /** No object is its own ancestor. */
  ghost predicate Acyclic(kids: seq<seq<int>>) {
    exists level :: Layered(kids, level)
  }

  /** A set that holds the children of all its members. */
  ghost predicate Closed(kids: seq<seq<int>>, s: set<int>) {
    forall p, c | 0 <= p < |kids| && p in s && c in kids[p] :: c in s
  }

  /** Object p is not in the subtree of object c. */
  ghost predicate Outside(kids: seq<seq<int>>, c: int, p: int) {
    exists s :: Closed(kids, s) && c in s && p !in s
  }

  ghost predicate WellFormed(nodes: seq<Node>, kids: seq<seq<int>>) {
    Threaded(nodes, kids) && Acyclic(kids)
  }

  /** The parent of c, NIL for none. */
  ghost function ParentOf(kids: seq<seq<int>>, c: int): int {
    if Loose(kids, c) then NIL else var p :| 0 <= p < |kids| && c in kids[p]; p
  }

  lemma FamilyOf(nodes: seq<Node>, kids: seq<seq<int>>, p: int)
    requires Threaded(nodes, kids) && 0 <= p < |nodes|
    ensures |kids| == |nodes| && Family(nodes, p, kids[p]) && Distinct(kids[p])
    ensures forall i | 0 <= i < |kids[p]| :: 0 < kids[p][i] < |nodes|
    ensures forall c | c in kids[p] :: ParentOf(kids, c) == p && 0 < c < |nodes| && nodes[c].next >= 0
    ensures forall q | 0 <= q < |nodes| && q != p :: Apart(kids[p], kids[q])
  {
    if kids[p] != [] {
      RunDistinct(nodes, kids[p][0], kids[p], p);
    }
    forall q | 0 <= q < |nodes| && q != p
      ensures Apart(kids[p], kids[q])
    {
      assert Apart(kids[if p < q then p else q], kids[if p < q then q else p]);
    }
    forall i | 0 <= i < |kids[p]|
      ensures 0 < kids[p][i] < |nodes| && nodes[kids[p][i]].next >= 0
    {
      assert ROOT !in kids[p] && kids[p][i] in kids[p];
    }
    forall c | c in kids[p]
      ensures ParentOf(kids, c) == p
    {
      assert !Loose(kids, c);
    }
  }

  lemma ParentIs(nodes: seq<Node>, kids: seq<seq<int>>, c: int)
    requires Threaded(nodes, kids)
    ensures |kids| == |nodes|
    ensures var p := ParentOf(kids, c); if Loose(kids, c) then p == NIL else 0 <= p < |kids| && c in kids[p]
  {
  }

  /** What a link says about where its object stands. */
  lemma LinkIs(nodes: seq<Node>, kids: seq<seq<int>>, c: int)
    requires Threaded(nodes, kids) && 0 < c < |nodes|
    ensures Loose(kids, c) <==> nodes[c].next == NIL
  {
    if !Loose(kids, c) {
      FamilyOf(nodes, kids, ParentOf(kids, c));
    }
  }

  // Changing the forest

  /** Work on the links of one family, and on loose objects, leaves the others as they are. */
  lemma ThreadedChange(nodes: seq<Node>, kids: seq<seq<int>>, p: int, nodes': seq<Node>, list: seq<int>)
    requires Threaded(nodes, kids) && 0 <= p < |nodes| == |nodes'| && Family(nodes', p, list) && ROOT !in list
    requires forall q | 0 <= q < |nodes| && q != p ::
               nodes'[q].data.head == nodes[q].data.head && nodes'[q].data.tail == nodes[q].data.tail
    requires forall c | c in list && c !in kids[p] :: Loose(kids, c)
    requires forall c | 0 <= c < |nodes| && c !in kids[p] && !Loose(kids, c) :: nodes'[c].next == nodes[c].next
    requires forall c | 0 < c < |nodes| && c !in list && (c in kids[p] || Loose(kids, c)) :: nodes'[c].next == NIL
    ensures Threaded(nodes', kids[p := list])
  {
    var kids' := kids[p := list];
    forall q | 0 <= q < |nodes| && q != p
      ensures Family(nodes', q, kids[q]) && Apart(kids[q], list) && Apart(list, kids[q])
    {
      FamilyOf(nodes, kids, q);
      FamilyOf(nodes, kids, p);
      forall c | c in kids[q]
        ensures c !in list && nodes'[c].next == nodes[c].next
      {
        assert !Loose(kids, c) && c !in kids[p];
      }
      if kids[q] != [] {
        RunFrame(nodes, nodes', kids[q][0], kids[q], q);
      }
    }
    forall c | 0 < c < |nodes| && Loose(kids', c)
      ensures nodes'[c].next == NIL
    {
      assert c !in kids'[p];
      assert forall q | 0 <= q < |kids| && q != p :: kids'[q] == kids[q];
    }
  }

  /** Taking objects out of lists of children cannot make a cycle. */
  lemma FewerAcyclic(kids: seq<seq<int>>, kids': seq<seq<int>>)
    requires Acyclic(kids) && |kids'| == |kids| && forall p, c | 0 <= p < |kids| && c in kids'[p] :: c in kids[p]
    ensures Acyclic(kids')
  {
    var level :| Layered(kids, level);
    forall p, c | 0 <= p < |kids| && c in kids'[p]
      ensures Deeper(level, p, c)
    {
      assert c in kids[p];
    }
    assert Layered(kids', level);
  }

  /** Adding a child makes no cycle exactly when the new parent is outside the child's subtree. */
  lemma AddAcyclic(kids: seq<seq<int>>, p: int, c: int)
    requires Acyclic(kids) && 0 <= p < |kids| && 0 <= c < |kids|
    ensures Acyclic(kids[p := kids[p] + [c]]) <==> Outside(kids, c, p)
  {
    var kids' := kids[p := kids[p] + [c]];
    if Outside(kids, c, p) {
      var s :| Closed(kids, s) && c in s && p !in s;
      var level :| Layered(kids, level);
      var level' := seq(|kids|, i requires 0 <= i < |kids| => if i in s then level[i] + level[p] + 1 else level[i]);
      forall q, d | 0 <= q < |kids| && d in kids'[q]
        ensures Deeper(level', q, d)
      {
        assert q != p || d != c ==> d in kids[q] && Deeper(level, q, d);
      }
      assert Layered(kids', level');
    }
    if Acyclic(kids') {
      var level' :| Layered(kids', level');
      var s := set i | 0 <= i < |kids| && level'[i] >= level'[c];
      forall q, d | 0 <= q < |kids| && q in s && d in kids[q]
        ensures d in s
      {
        assert kids'[q] == if q == p then kids[q] + [c] else kids[q];
        assert d in kids'[q] && Deeper(level', q, d);
      }
      assert c in kids'[p] && Deeper(level', p, c);
      assert Closed(kids, s) && c in s && p !in s;
    }
  }
}
