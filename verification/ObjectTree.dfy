/** The object tree manager in place: OBJC_ADD, DELETE, ORDER and OFFSET. */
module ObjectTree {
  import opened Forest
  import opened Links

  /** The siblings with `c` put in at a position, NIL meaning the end. */
  ghost function Inserted(list: seq<int>, c: int, position: int): seq<int> {
    if 0 <= position <= |list| then list[..position] + ([c] + list[position..]) else list + [c]
  }

  /** Deleting an object just added, and moving one back to where it was, restore the order of the siblings. */
  lemma UndoOrder(list: seq<int>, c: int, k: nat)
    requires Distinct(list)
    ensures c !in list ==> Minus(list + [c], c) == list
    ensures k < |list| && list[k] == c ==> Inserted(Minus(list, c), c, k) == list
  {
    if c !in list {
      MinusLast(list, c);
    }
    if k < |list| && list[k] == c {
      MinusAt(list, k);
      assert (list[..k] + list[k + 1..])[..k] == list[..k];
      assert (list[..k] + list[k + 1..])[k..] == list[k + 1..];
    }
  }

  lemma NextIs(nodes: seq<Node>, kids: seq<seq<int>>, p: int, k: nat)
    requires Threaded(nodes, kids) && 0 <= p < |nodes| && k < |kids[p]|
    ensures var (c, list) := (kids[p][k], kids[p]);
            && 0 < c < |nodes| && !Loose(kids, c) && c in list
            && nodes[c].next == (if k + 1 < |list| then list[k + 1] else p)
            && nodes[p].data.tail == list[|list| - 1] && nodes[p].data.head == list[0]
            && (k + 1 < |list| ==> 0 < list[k + 1] < |nodes| && nodes[list[k + 1]].data.tail != c && list[k + 1] != p)
            && |list| < |nodes|
  {
    FamilyOf(nodes, kids, p);
    var (c, list) := (kids[p][k], kids[p]);
    assert c in list;
    DistinctBound(list, 1, |nodes|);
    if k + 1 < |list| {
      var d := list[k + 1];
      assert d in list;
      FamilyOf(nodes, kids, d);
    }
  }

  lemma NoKids(nodes: seq<Node>, kids: seq<seq<int>>, p: int)
    requires Threaded(nodes, kids) && 0 <= p < |nodes|
    ensures |kids| == |nodes| && (nodes[p].data.head == NIL <==> kids[p] == [])
    ensures nodes[p].data.tail == NIL <==> kids[p] == []
    ensures kids[p] != [] ==> nodes[p].data.head == kids[p][0]
  {
    FamilyOf(nodes, kids, p);
    if kids[p] != [] {
      NextIs(nodes, kids, p, 0);
    }
  }

  class Objects {
    const objects: array<Node>
    ghost var kids: seq<seq<int>>

    ghost predicate Threads()
      reads this, objects
    {
      Threaded(objects[..], kids)
    }

    ghost predicate Valid()
      reads this, objects
    {
      WellFormed(objects[..], kids)
    }

    /** The parent of an object and the link to what follows it; `valid` is false for a number that is no object. */
    method Parent(c: int) returns (parent: int, next: int, valid: bool)
      requires Threads()
      ensures valid == (0 <= c < objects.Length)
      ensures valid ==> parent == ParentOf(kids, c)
      ensures valid && c != ROOT ==> next == objects[c].next
      ensures c == ROOT ==> next == NIL
    {
      hide Threaded;
      ParentIs(objects[..], kids, c);
      if c == ROOT {
        RootFree();
        return NIL, NIL, true;
      }
      if !(0 <= c < objects.Length) {
        return NIL, NIL, false;
      }
      LinkIs(objects[..], kids, c);
      ghost var p := ParentOf(kids, c);
      ghost var list := if p == NIL then [] else kids[p];
      ghost var k := 0;
      if p != NIL {
        k :| 0 <= k < |list| && list[k] == c;
        NextIs(objects[..], kids, p, k);
      }
      var index, steps := c, objects.Length;
      parent := objects[index].next;
      next := parent;
      while parent >= ROOT && objects[parent].data.tail != index
        invariant p == NIL ==> parent == NIL
        invariant p != NIL ==> 0 <= k < |list| && index == list[k]
                               && parent == (if k + 1 < |list| then list[k + 1] else p) && 0 <= parent < objects.Length
        invariant p != NIL ==> steps >= |list| - k
        decreases |list| - k
      {
        NextIs(objects[..], kids, p, k);
        steps := steps - 1;
        index := parent;
        k := k + 1;
        NextIs(objects[..], kids, p, k);
        parent := objects[index].next;
      }
      if p != NIL {
        NextIs(objects[..], kids, p, k);
      }
      valid := true;
    }

    lemma RootFree()
      requires Threads()
      ensures |kids| == objects.Length > 0 && Loose(kids, ROOT) && ParentOf(kids, ROOT) == NIL
    {
    }

    /** How many children an object has. */
    method Children(p: int) returns (ok: bool, count: nat)
      requires Threads()
      ensures |kids| == objects.Length
      ensures ok == (0 <= p < objects.Length) && (ok ==> count == |kids[p]|)
    {
      hide Threaded;
      RootFree();
      if !(0 <= p < objects.Length) {
        return false, 0;
      }
      NoKids(objects[..], kids, p);
      if objects[p].data.head == NIL {
        return true, 0;
      }
      ghost var list := kids[p];
      NextIs(objects[..], kids, p, 0);
      var current, steps := objects[p].data.head, objects.Length;
      count := 0;
      while current != p
        invariant 0 <= count <= |list| && current == (if count < |list| then list[count] else p)
        invariant steps >= |list| - count
        decreases |list| - count
      {
        NextIs(objects[..], kids, p, count);
        steps := steps - 1;
        current := objects[current].next;
        count := count + 1;
      }
      KidsNotSelf(p);
      ok := true;
    }

    lemma KidsNotSelf(p: int)
      requires Threads() && 0 <= p < objects.Length
      ensures |kids| == objects.Length && p !in kids[p]
    {
    }

    /** The sibling before c among the children of p; NIL when c is the first, or none of them. */
    method Previous(p: int, c: int) returns (previous: int)
      requires Threads() && 0 <= p < objects.Length
      ensures |kids| == objects.Length
      ensures forall k | 0 <= k < |kids[p]| && kids[p][k] == c :: previous == if k == 0 then NIL else kids[p][k - 1]
    {
      hide Threaded;
      NoKids(objects[..], kids, p);
      FamilyOf(objects[..], kids, p);
      ghost var list := kids[p];
      previous := objects[p].data.head;
      if previous == c {
        return NIL;
      }
      ghost var j := 0;
      var steps := objects.Length;
      assert list != [] ==> |list| < steps by {
        if list != [] {
          NextIs(objects[..], kids, p, 0);
        }
      }
      while previous != NIL
        invariant list == [] ==> previous == NIL
        invariant list != [] ==> 0 <= j < |list| && previous == list[j] && steps >= |list| - j
        invariant forall i | 0 <= i <= j && i < |list| :: list[i] != c
        decreases |list| - j
      {
        NextIs(objects[..], kids, p, j);
        steps := steps - 1;
        var next := objects[previous].next;
        if next == c {
          return;
        }
        if next == p {
          break;
        }
        previous := next;
        j := j + 1;
      }
      previous := NIL;
    }

    /** OBJC_ADD. The tree stays well formed exactly when the new parent is not inside the child's own subtree, which
        the call does not check. */
    method AddChild(p: int, c: int) returns (ok: bool)
      requires Threads()
      modifies this, objects
      ensures Threads() && |old(kids)| == |kids|
      ensures ok == old(0 <= p < objects.Length && 0 < c < objects.Length && p != c && Loose(kids, c))
      ensures !ok ==> kids == old(kids) && objects[..] == old(objects[..])
      ensures ok ==> kids == old(kids)[p := old(kids)[p] + [c]] && SameItems(old(objects[..]), objects[..])
      ensures ok && old(Valid()) ==> (Valid() <==> Outside(old(kids), c, p))
    {
      hide Threaded, Family, Run, Acyclic;
      RootFree();
      if p < ROOT || c <= ROOT || p == c || p >= objects.Length || c >= objects.Length {
        return false;
      }
      LinkIs(objects[..], kids, c);
      if objects[c].next != NIL {
        return false;
      }
      ghost var (nodes, was) := (objects[..], kids);
      var _, count := Children(p);
      NoKids(nodes, kids, p);
      FamilyOf(nodes, kids, p);
      if count > 0 {
        NextIs(nodes, kids, p, |kids[p]| - 1);
      }
      objects[c] := objects[c].(next := p);
      var last := objects[p].data.tail;
      if count == 0 {
        objects[p] := objects[p].(data := objects[p].data.(head := c));
      } else {
        objects[last] := objects[last].(next := c);
      }
      objects[p] := objects[p].(data := objects[p].data.(tail := c));
      AddThreads(nodes, kids, p, c, objects[..]);
      SameAfter(nodes, objects[..], p, if kids[p] == [] then c else nodes[p].data.head, c);
      kids := kids[p := kids[p] + [c]];
      if Acyclic(was) {
        AddAcyclic(was, p, c);
      }
      ok := true;
    }

    /** OBJC_DELETE. */
    method Delete(c: int) returns (ok: bool)
      requires Threads()
      modifies this, objects
      ensures Threads() && |old(kids)| == |kids|
      ensures ok == old(0 < c < objects.Length && !Loose(kids, c))
      ensures !ok ==> kids == old(kids) && objects[..] == old(objects[..])
      ensures ok ==> var p := ParentOf(old(kids), c);
                     && 0 <= p < |kids| && kids == old(kids)[p := Minus(old(kids)[p], c)]
                     && SameItems(old(objects[..]), objects[..])
      ensures ok && old(Valid()) ==> Valid()
    {
      hide Threaded, Family, Run, Acyclic, Minus, Last, Distinct;
      RootFree();
      if c <= ROOT || c >= objects.Length {
        return false;
      }
      ParentIs(objects[..], kids, c);
      var p, next, _ := Parent(c);
      if p < ROOT {
        return false;
      }
      ghost var k :| 0 <= k < |kids[p]| && kids[p][k] == c;
      ghost var list := kids[p];
      DistinctBefore(list, k);
      Place(p, k);
      var previous := NIL;
      if objects[p].data.head != c {
        previous := Previous(p, c);
      }
      Middle(list, k);
      ghost var a, b :| Parts(list, c, a, b) && Last(a) == previous;
      Unhook(p, c, previous, next, a, b);
      ok := true;
    }

    /** Takes a child of p out of its list; `previous` is NIL for the first child. */
    method Unhook(p: int, c: int, previous: int, next: int, ghost a: seq<int>, ghost b: seq<int>)
      requires Threads() && 0 <= p < objects.Length == |kids| && kids[p] == a + ([c] + b) && 0 < c < objects.Length
      requires next == objects[c].next && previous == Last(a)
      modifies this, objects
      ensures Threads() && kids == old(kids)[p := a + b] && SameItems(old(objects[..]), objects[..])
      ensures old(Valid()) ==> Valid()
    {
      hide Threaded, Family, Run, Acyclic, SameItems, FamilyChanged, First, Last, Distinct;
      ghost var (nodes, was) := (objects[..], kids);
      PlaceIs(p, a, c, b);
      Bypass(p, c, previous, next);
      DeleteThreads(nodes, kids, p, a, c, b, objects[..]);
      SameAfter(nodes, objects[..], p, First(a + b), Last(a + b));
      kids := kids[p := a + b];
      if Acyclic(was) {
        FewerKids(was, p, a, c, b);
      }
    }

    /** The ends of the list a child is in, and of what is left of it without the child. */
    lemma PlaceIs(p: int, a: seq<int>, c: int, b: seq<int>)
      requires Threads() && 0 <= p < objects.Length == |kids| && kids[p] == a + ([c] + b) && 0 < c < objects.Length
      ensures objects[p].data.head == (if a == [] then c else First(a + b))
      ensures (objects[p].data.tail == c <==> b == []) && objects[p].data.tail == (if b == [] then c else Last(a + b))
      ensures objects[c].next == (if b == [] then p else b[0])
      ensures a == [] && b != [] ==> First(a + b) == b[0]
      ensures b == [] ==> Last(a + b) == Last(a)
      ensures a == [] && b == [] ==> First(a + b) == NIL
      ensures p != c
      ensures if a == [] then Last(a) == NIL else 0 < Last(a) < objects.Length && Last(a) != c && Last(a) != p
    {
      var list := a + ([c] + b);
      Place(p, |a|);
      assert list[|a|] == c;
      assert a != [] ==> Last(a) == list[|a| - 1];
      assert b == [] ==> a + b == a;
      assert b != [] ==> b[0] == list[|a| + 1] && list[|list| - 1] == b[|b| - 1];
      assert list[0] == if a == [] then c else a[0];
    }

    /** The link changes of an unhooking; `previous` is NIL for the first child. */
    method Bypass(p: int, c: int, previous: int, next: int)
      requires 0 <= p < objects.Length && 0 < c < objects.Length && p != c
      requires previous == NIL || (0 <= previous < objects.Length && previous != c && previous != p)
      modifies objects
      ensures var (nodes, tail) := (old(objects[..]), old(objects[p].data.tail));
              && FamilyChanged(nodes, objects[..], p,
                               if previous != NIL then nodes[p].data.head else if tail == c then NIL else next,
                               if tail == c then previous else tail)
              && objects[c].next == NIL && (previous != NIL ==> objects[previous].next == next)
              && forall i | 0 <= i < objects.Length && i != c && i != previous :: objects[i].next == nodes[i].next
    {
      var after := next;
      if previous == NIL {
        if objects[p].data.tail == c {
          after := NIL;
          objects[p] := objects[p].(data := objects[p].data.(tail := NIL));
        }
        objects[p] := objects[p].(data := objects[p].data.(head := after));
      } else {
        objects[previous] := objects[previous].(next := after);
        if objects[p].data.tail == c {
          objects[p] := objects[p].(data := objects[p].data.(tail := previous));
        }
      }
      objects[c] := objects[c].(next := NIL);
    }

    /** OBJC_ORDER: moves a child to a position among its siblings, 0 the first and NIL the last. */
    method Order(c: int, position: int) returns (ok: bool)
      requires Threads()
      modifies this, objects
      ensures Threads() && |old(kids)| == |kids|
      ensures ok == old(0 < c < objects.Length && !Loose(kids, c)
                        && (position == NIL || 0 <= position < |kids[ParentOf(kids, c)]|))
      ensures !ok ==> kids == old(kids) && objects[..] == old(objects[..])
      ensures ok ==> var p := ParentOf(old(kids), c);
                     && 0 <= p < |kids| && kids == old(kids)[p := Inserted(Minus(old(kids)[p], c), c, position)]
                     && SameItems(old(objects[..]), objects[..])
      ensures ok && old(Valid()) ==> Valid()
    {
      hide Threaded, Family, Run, Acyclic, Minus, Last, Distinct, Inserted;
      RootFree();
      if c <= ROOT || c >= objects.Length {
        return false;
      }
      ParentIs(objects[..], kids, c);
      var p, next, _ := Parent(c);
      if p < ROOT {
        return false;
      }
      var _, count := Children(p);
      if position != NIL && (position < 0 || position >= count) {
        return false;
      }
      ghost var k :| 0 <= k < |kids[p]| && kids[p][k] == c;
      ghost var (was, list) := (kids, kids[p]);
      DistinctBefore(list, k);
      Place(p, k);
      if count == 1 {
        objects[c] := objects[c].(next := p);
        Alone(list, c, position);
        assert objects[..] == old(objects[..]);
        return true;
      }
      var previous := NIL;
      if objects[p].data.head != c {
        previous := Previous(p, c);
      }
      Middle(list, k);
      ghost var a, b :| Parts(list, c, a, b) && Last(a) == previous;
      Unhook(p, c, previous, next, a, b);
      Siblings(old(objects[..]), was, p);
      UnhookedLoose(was, p, c, a, b);
      InsertAt(p, c, position);
      if Acyclic(was) {
        MovedAcyclic(was, p, c, a + b, position);
      }
      ok := true;
    }

    /** Puts an object without a parent among the children of p. */
    method InsertAt(p: int, c: int, position: int)
      requires Threads() && 0 <= p < objects.Length == |kids| && 0 < c < objects.Length && p != c && Loose(kids, c)
      requires kids[p] != [] && (position == NIL || 0 <= position <= |kids[p]|)
      modifies this, objects
      ensures Threads() && kids == old(kids)[p := Inserted(old(kids)[p], c, position)]
      ensures SameItems(old(objects[..]), objects[..])
    {
      hide Threaded, Family, Run, SameItems, Distinct, FamilyChanged, First, Last, Inserted;
      ghost var (nodes, list) := (objects[..], kids[p]);
      var before := NIL;
      if position != 0 {
        before := Sibling(p, position);
      }
      InsertedParts(list, c, position, before);
      ghost var a, b :| list == a + b && Inserted(list, c, position) == a + ([c] + b) && before == Last(a);
      HookPlace(p, a, c, b);
      Hook(p, c, before);
      InsertThreads(nodes, kids, p, a, c, b, objects[..]);
      SameAfter(nodes, objects[..], p, First(a + ([c] + b)), Last(a + ([c] + b)));
      kids := kids[p := a + ([c] + b)];
    }

    /** The child before a position, NIL meaning the end. */
    method Sibling(p: int, position: int) returns (before: int)
      requires Threads() && 0 <= p < objects.Length == |kids| && kids[p] != [] && position != 0
      requires position == NIL || 0 < position <= |kids[p]|
      ensures before == kids[p][(if position == NIL then |kids[p]| else position) - 1]
    {
      hide Threaded, Family, Run, Distinct;
      Place(p, 0);
      if position == NIL {
        return objects[p].data.tail;
      }
      before := objects[p].data.head;
      var place := 1;
      while place < position
        invariant 1 <= place <= position && before == kids[p][place - 1]
      {
        Place(p, place - 1);
        before := objects[before].next;
        place := place + 1;
      }
    }

    /** The ends and links around the gap between `a` and `b`. */
    lemma HookPlace(p: int, a: seq<int>, c: int, b: seq<int>)
      requires Threads() && 0 <= p < objects.Length == |kids| && kids[p] == a + b && a + b != []
      ensures First(a + ([c] + b)) == (if a == [] then c else objects[p].data.head)
      ensures Last(a + ([c] + b)) == (if b == [] then c else objects[p].data.tail)
      ensures if a == [] then Last(a) == NIL && b != [] && objects[p].data.head == b[0]
              else 0 < Last(a) < objects.Length && Last(a) != p && Last(a) in kids[p]
                   && objects[Last(a)].next == if b == [] then p else b[0]
      ensures b != [] ==> b[0] != p
    {
      hide Threaded, Family, Run, Distinct;
      Place(p, if a == [] then 0 else |a| - 1);
      GapEnds(a, c, b);
    }

    /** The link changes of putting c behind `before`, which is NIL for the front. */
    method Hook(p: int, c: int, before: int)
      requires 0 <= p < objects.Length && 0 < c < objects.Length && p != c
      requires before == NIL || (0 <= before < objects.Length && before != c && before != p)
      modifies objects
      ensures var nodes := old(objects[..]);
              var link := if before == NIL then nodes[p].data.head else nodes[before].next;
              && FamilyChanged(nodes, objects[..], p, if before == NIL then c else nodes[p].data.head,
                               if before != NIL && link == p then c else nodes[p].data.tail)
              && objects[c].next == link && (before != NIL ==> objects[before].next == c)
              && forall i | 0 <= i < objects.Length && i != c && i != before :: objects[i].next == nodes[i].next
    {
      if before == NIL {
        objects[c] := objects[c].(next := objects[p].data.head);
        objects[p] := objects[p].(data := objects[p].data.(head := c));
      } else {
        objects[c] := objects[c].(next := objects[before].next);
        objects[before] := objects[before].(next := c);
        if objects[c].next == p {
          objects[p] := objects[p].(data := objects[p].data.(tail := c));
        }
      }
    }

    /** Where child k of p stands, by its links. */
    lemma Place(p: int, k: nat)
      requires Threads() && 0 <= p < objects.Length && |kids| == objects.Length && k < |kids[p]|
      ensures var (c, list) := (kids[p][k], kids[p]);
              && 0 < c < objects.Length && Distinct(list) && p !in list
              && objects[p].data.head == list[0] && objects[p].data.tail == list[|list| - 1]
              && (objects[p].data.head == c <==> k == 0) && (objects[p].data.tail == c <==> k == |list| - 1)
              && objects[c].next == (if k + 1 < |list| then list[k + 1] else p)
              && (k > 0 ==> 0 < list[k - 1] < objects.Length && list[k - 1] != c)
              && forall i | 0 <= i < |list| :: 0 < list[i] < objects.Length && list[i] != p
    {
      NextIs(objects[..], kids, p, k);
      FamilyOf(objects[..], kids, p);
      KidsNotSelf(p);
    }
  }

  /** Only links and ends of lists differ. */
  ghost predicate SameItems(nodes: seq<Node>, nodes': seq<Node>) {
    |nodes'| == |nodes| && forall i | 0 <= i < |nodes| ::
      nodes'[i].data == nodes[i].data.(head := nodes'[i].data.head, tail := nodes'[i].data.tail)
  }

  /** Links and ends of one family changed, nothing else. */
  ghost predicate FamilyChanged(nodes: seq<Node>, nodes': seq<Node>, p: int, head: int, tail: int) {
    && |nodes'| == |nodes| && 0 <= p < |nodes|
    && nodes'[p].data == nodes[p].data.(head := head, tail := tail)
    && forall i | 0 <= i < |nodes| && i != p :: nodes'[i].data == nodes[i].data
  }

  lemma SameAfter(nodes: seq<Node>, nodes': seq<Node>, p: int, head: int, tail: int)
    requires FamilyChanged(nodes, nodes', p, head, tail)
    ensures SameItems(nodes, nodes')
    ensures forall q | 0 <= q < |nodes| && q != p ::
              nodes'[q].data.head == nodes[q].data.head && nodes'[q].data.tail == nodes[q].data.tail
    ensures nodes'[p].data.head == head && nodes'[p].data.tail == tail
  {
  }

  /** The links a family has after a child was appended. */
  lemma AddThreads(nodes: seq<Node>, kids: seq<seq<int>>, p: int, c: int, nodes': seq<Node>)
    requires Threaded(nodes, kids) && 0 <= p < |nodes| == |kids| && 0 < c < |nodes| && p != c && Loose(kids, c)
    requires FamilyChanged(nodes, nodes', p, if kids[p] == [] then c else nodes[p].data.head, c)
    requires nodes'[c].next == p && (kids[p] != [] ==> 0 <= Last(kids[p]) < |nodes| && nodes'[Last(kids[p])].next == c)
    requires forall i | 0 <= i < |nodes| && i != c && i != Last(kids[p]) :: nodes'[i].next == nodes[i].next
    ensures Threaded(nodes', kids[p := kids[p] + [c]])
  {
    hide Run, Threaded;
    var list := kids[p];
    SameAfter(nodes, nodes', p, if list == [] then c else nodes[p].data.head, c);
    FamilyOf(nodes, kids, p);
    RootLoose(nodes, kids);
    assert c !in list && (list != [] ==> Last(list) in list);
    if list == [] {
      RunOfOne(nodes', c, p);
      assert [] + [c] == [c];
    } else {
      assert list + [] == list && list + ([c] + []) == list + [c];
      RunInsert(nodes, nodes', list[0], list, c, [], p);
    }
    ThreadedChange(nodes, kids, p, nodes', list + [c]);
  }

  lemma RootLoose(nodes: seq<Node>, kids: seq<seq<int>>)
    requires Threaded(nodes, kids)
    ensures |nodes| == |kids| > 0 && Loose(kids, ROOT)
    ensures forall c | 0 < c < |nodes| && Loose(kids, c) :: nodes[c].next == NIL
  {
  }

  /** The links a family has after the child between `a` and `b` was taken out. */
  lemma DeleteThreads(nodes: seq<Node>, kids: seq<seq<int>>, p: int, a: seq<int>, c: int, b: seq<int>,
                      nodes': seq<Node>)
    requires Threaded(nodes, kids) && 0 <= p < |nodes| == |kids| && kids[p] == a + ([c] + b) && 0 < c < |nodes|
    requires FamilyChanged(nodes, nodes', p, First(a + b), Last(a + b))
    requires nodes'[c].next == NIL && (a != [] ==> 0 <= Last(a) < |nodes| && nodes'[Last(a)].next == nodes[c].next)
    requires forall i | 0 <= i < |nodes| && i != c && i != Last(a) :: nodes'[i].next == nodes[i].next
    ensures Threaded(nodes', kids[p := a + b]) && c !in a + b
  {
    hide Run, Threaded;
    SameAfter(nodes, nodes', p, First(a + b), Last(a + b));
    FamilyOf(nodes, kids, p);
    RootLoose(nodes, kids);
    DistinctMiddle(a, c, b);
    assert a != [] ==> Last(a) in a;
    RunRemove(nodes, nodes', (a + ([c] + b))[0], a, c, b, p);
    assert forall m | m in a + b :: m in a + ([c] + b);
    assert a + b != [] ==> (a + b)[0] == if a == [] then b[0] else a[0];
    ThreadedChange(nodes, kids, p, nodes', a + b);
  }

  /** The links a family has after a child was put in between `a` and `b`. */
  lemma InsertThreads(nodes: seq<Node>, kids: seq<seq<int>>, p: int, a: seq<int>, c: int, b: seq<int>,
                      nodes': seq<Node>)
    requires Threaded(nodes, kids) && 0 <= p < |nodes| == |kids| && kids[p] == a + b && 0 < c < |nodes| && p != c
    requires Loose(kids, c) && a + b != []
    requires FamilyChanged(nodes, nodes', p, First(a + ([c] + b)), Last(a + ([c] + b)))
    requires nodes'[c].next == (if b == [] then p else b[0])
    requires a != [] ==> 0 <= Last(a) < |nodes| && nodes'[Last(a)].next == c
    requires forall i | 0 <= i < |nodes| && i != c && i != Last(a) :: nodes'[i].next == nodes[i].next
    ensures Threaded(nodes', kids[p := a + ([c] + b)])
  {
    hide Run, Threaded;
    SameAfter(nodes, nodes', p, First(a + ([c] + b)), Last(a + ([c] + b)));
    FamilyOf(nodes, kids, p);
    RootLoose(nodes, kids);
    assert c !in kids[p];
    assert forall m | m in b || m in a :: m in a + b;
    assert a != [] ==> Last(a) in a;
    DistinctParts(a, b);
    RunInsert(nodes, nodes', (a + b)[0], a, c, b, p);
    assert (a + ([c] + b))[0] == if a == [] then c else a[0];
    assert a != [] ==> (a + b)[0] == a[0];
    ThreadedChange(nodes, kids, p, nodes', a + ([c] + b));
  }

  lemma GapEnds(a: seq<int>, c: int, b: seq<int>)
    requires a + b != []
    ensures First(a + ([c] + b)) == if a == [] then c else (a + b)[0]
    ensures Last(a + ([c] + b)) == if b == [] then c else (a + b)[|a + b| - 1]
    ensures a == [] ==> Last(a) == NIL && b != [] && (a + b)[0] == b[0]
    ensures a != [] ==> Last(a) == (a + b)[|a| - 1] && Last(a) in a + b
    ensures b != [] ==> b[0] == (a + b)[|a|] && |a| < |a + b|
    ensures b == [] ==> |a + b| == |a|
  {
    var (list, all) := (a + b, a + ([c] + b));
    assert all[|all| - 1] == if b == [] then c else b[|b| - 1];
  }

  lemma InsertedParts(list: seq<int>, c: int, position: int, before: int)
    requires list != [] && (position == NIL || 0 <= position <= |list|)
    requires var k := if position == NIL then |list| else position; before == if k == 0 then NIL else list[k - 1]
    ensures exists a, b :: list == a + b && Inserted(list, c, position) == a + ([c] + b) && before == Last(a)
  {
    var k := if position == NIL then |list| else position;
    var (a, b) := (list[..k], list[k..]);
    assert list == a + b;
    if position == NIL {
      assert a == list && b == [] && [c] + b == [c];
    }
    assert Inserted(list, c, position) == a + ([c] + b);
    assert before == Last(a);
  }

  lemma Siblings(nodes: seq<Node>, kids: seq<seq<int>>, p: int)
    requires Threaded(nodes, kids) && 0 <= p < |nodes|
    ensures |kids| == |nodes| && Distinct(kids[p]) && p !in kids[p]
    ensures forall q | 0 <= q < |kids| && q != p :: Apart(kids[p], kids[q])
  {
    FamilyOf(nodes, kids, p);
  }

  /** A child on its own stays where it is. */
  lemma Alone(list: seq<int>, c: int, position: int)
    requires list == [c] && (position == NIL || position == 0)
    ensures Inserted(Minus(list, c), c, position) == list
  {
    assert Minus(list, c) == [];
  }

  lemma UnhookedLoose(kids: seq<seq<int>>, p: int, c: int, a: seq<int>, b: seq<int>)
    requires 0 <= p < |kids| && kids[p] == a + ([c] + b) && Distinct(kids[p])
    requires forall q | 0 <= q < |kids| && q != p :: Apart(kids[p], kids[q])
    ensures Loose(kids[p := a + b], c) && |a + b| == |kids[p]| - 1
  {
    DistinctMiddle(a, c, b);
    assert c in kids[p];
  }

  lemma MovedAcyclic(kids: seq<seq<int>>, p: int, c: int, rest: seq<int>, position: int)
    requires Acyclic(kids) && 0 <= p < |kids| && c in kids[p] && forall d | d in rest :: d in kids[p]
    ensures Acyclic(kids[p := Inserted(rest, c, position)])
  {
    forall q, d | 0 <= q < |kids| && d in kids[p := Inserted(rest, c, position)][q]
      ensures d in kids[q]
    {
    }
    FewerAcyclic(kids, kids[p := Inserted(rest, c, position)]);
  }

  lemma DistinctBefore(list: seq<int>, k: nat)
    ensures Distinct(list) && k < |list| ==> forall i | 0 <= i < k :: list[i] != list[k]
  {
  }

  lemma Middle(list: seq<int>, k: nat)
    requires k < |list| && Distinct(list)
    ensures exists a, b :: Parts(list, list[k], a, b) && Last(a) == if k == 0 then NIL else list[k - 1]
  {
    hide Minus, Last, Distinct;
    Halves(list, k);
    DistinctBefore(list, k);
    MinusAt(list, k);
    LastBefore(list, k);
    assert Parts(list, list[k], list[..k], list[k + 1..]);
  }

  /** A list is `a`, then c, then `b`. */
  ghost predicate Parts(list: seq<int>, c: int, a: seq<int>, b: seq<int>) {
    list == a + ([c] + b) && Minus(list, c) == a + b
  }

  lemma Halves(list: seq<int>, k: nat)
    requires k < |list|
    ensures list == list[..k] + ([list[k]] + list[k + 1..])
  {
  }

  lemma LastBefore(list: seq<int>, k: nat)
    requires k < |list|
    ensures Last(list[..k]) == if k == 0 then NIL else list[k - 1]
  {
  }

  lemma FewerKids(kids: seq<seq<int>>, p: int, a: seq<int>, c: int, b: seq<int>)
    requires Acyclic(kids) && 0 <= p < |kids| && kids[p] == a + ([c] + b)
    ensures Acyclic(kids[p := a + b])
  {
    forall q, d | 0 <= q < |kids| && d in kids[p := a + b][q]
      ensures d in kids[q]
    {
    }
    FewerAcyclic(kids, kids[p := a + b]);
  }

  /** Inserted at a position the object is there, at the end for NIL, and the others keep their order. */
  lemma InsertedIs(list: seq<int>, c: int, k: int)
    requires c !in list && (k == NIL || 0 <= k <= |list|)
    ensures var (l, at) := (Inserted(list, c, k), if k == NIL then |list| else k);
            |l| == |list| + 1 && l[at] == c && l[..at] == list[..at] && l[at + 1..] == list[at..]
  {
  }
}
