/** The window tree as the manager uses it: one list of siblings below the root, in z-order. */
module ZOrder {
  import opened Geometry
  import opened Links
  import opened Scene

  const WINDOW_COUNT := 12
  const OPEN_MIN := 1

  /** The z-order node of a window. The root node heads the sibling list, whose last node links back to ROOT. */
  datatype Frame = Frame(head: int, tail: int, rect: Rect)

  type Tree = seq<Linked<Frame>>

  /** The sibling list below the root is `order`, bottom to top, and `top` names its last window. */
  ghost predicate Ordered(tree: Tree, order: seq<int>, top: int) {
    && |tree| == WINDOW_COUNT
    && Distinct(order)
    && (forall i | 0 <= i < |order| :: OPEN_MIN <= order[i] < WINDOW_COUNT)
    && tree[ROOT].data.head == First(order) && tree[ROOT].data.tail == Last(order)
    && Run(tree, if order == [] then ROOT else order[0], order, ROOT)
    && top == (if order == [] then ROOT else Last(order))
  }

  /** The link that leads to position k of the sibling list; behind its last window that is the root again. */
  ghost function SiblingAt(order: seq<int>, k: nat): int {
    if k < |order| then order[k] else if order == [] then NIL else ROOT
  }

  ghost predicate SameLinks(tree: Tree, tree': Tree) {
    |tree| == |tree'| && forall h | 0 <= h < |tree| ::
      tree'[h].next == tree[h].next && tree'[h].data.head == tree[h].data.head
          && tree'[h].data.tail == tree[h].data.tail
  }

  lemma OrderedSame(tree: Tree, tree': Tree, order: seq<int>, top: int)
    requires Ordered(tree, order, top) && SameLinks(tree, tree')
    ensures Ordered(tree', order, top)
  {
    RunFrame(tree, tree', if order == [] then ROOT else order[0], order, ROOT);
  }

  lemma OrderedKeep(tree: Tree, tree': Tree, order: seq<int>, top: int)
    requires Ordered(tree, order, top) && |tree'| == |tree| && tree'[ROOT] == tree[ROOT]
    requires forall h | h in order :: tree'[h].next == tree[h].next
    ensures Ordered(tree', order, top)
  {
    RunFrame(tree, tree', if order == [] then ROOT else order[0], order, ROOT);
  }

  lemma OrderedAppend(tree: Tree, tree': Tree, order: seq<int>, top: int, handle: int)
    requires Ordered(tree, order, top) && handle !in order && OPEN_MIN <= handle < WINDOW_COUNT == |tree'|
    requires tree'[handle].next == ROOT && tree'[ROOT].data.tail == handle
    requires tree'[ROOT].data.head == if order == [] then handle else tree[ROOT].data.head
    requires order != [] ==> tree'[Last(order)].next == handle
    requires forall h | h in order && h != Last(order) :: tree'[h].next == tree[h].next
    ensures Ordered(tree', order + [handle], handle)
  {
    if order != [] {
      RunRelink(tree, tree', order[0], order, ROOT, handle);
      RunJoin(tree', order[0], order, handle, [handle], ROOT);
    }
  }

  lemma OrderedRemove(tree: Tree, tree': Tree, order: seq<int>, top: int, a: seq<int>, handle: int, b: seq<int>)
    requires Ordered(tree, order, top) && order == a + ([handle] + b) && |tree'| == WINDOW_COUNT
    requires tree'[ROOT].data.head == First(a + b) && tree'[ROOT].data.tail == Last(a + b)
    requires a != [] ==> OPEN_MIN <= Last(a) < WINDOW_COUNT && tree'[Last(a)].next == if b == [] then ROOT else b[0]
    requires forall n | n in order && n != handle && n != Last(a) :: tree'[n].next == tree[n].next
    ensures Ordered(tree', a + b, if a + b == [] then ROOT else Last(a + b))
  {
    assert Run(tree', if a + b == [] then ROOT else (a + b)[0], a + b, ROOT) by {
      var after := if b == [] then ROOT else b[0];
      DistinctMiddle(a, handle, b);
      RunSplit(tree, order[0], a, [handle] + b, ROOT);
      RunSplit(tree, handle, [handle], b, ROOT);
      assert forall n | n in b :: n in order && n != handle && n !in a;
      RunFrame(tree, tree', after, b, ROOT);
      if a != [] {
        assert forall n | n in a :: n in order && n != handle;
        RunRelink(tree, tree', order[0], a, handle, after);
        RunJoin(tree', order[0], a, after, b, ROOT);
      } else {
        assert a + b == b;
      }
    }
    assert Distinct(a + b) by { DistinctMiddle(a, handle, b); }
    assert forall i | 0 <= i < |a + b| :: (a + b)[i] in order;
  }

  /** The tree with `handle` unhooked from behind `prior` (NIL: from the head of the list). */
  ghost function Unlinked(tree: Tree, prior: int, handle: int): (tree': Tree)
    requires |tree| == WINDOW_COUNT && OPEN_MIN <= handle < WINDOW_COUNT
    requires prior == NIL || OPEN_MIN <= prior < WINDOW_COUNT
    ensures |tree'| == WINDOW_COUNT && OutersAll(tree') == OutersAll(tree)
  {
    var next := tree[handle].next;
    var t := if prior == NIL
             then tree[ROOT := tree[ROOT].(data := tree[ROOT].data.(head := if next == ROOT then NIL else next))]
             else tree[prior := tree[prior].(next := next)];
    var t' := if t[ROOT].data.tail == handle then t[ROOT := t[ROOT].(data := t[ROOT].data.(tail := prior))] else t;
    t'[handle := t'[handle].(next := NIL)]
  }

  lemma UnlinkPlaces(tree: Tree, order: seq<int>, top: int, a: seq<int>, handle: int, b: seq<int>)
    requires Ordered(tree, order, top) && order == a + ([handle] + b)
    ensures |tree| == WINDOW_COUNT && OPEN_MIN <= handle < WINDOW_COUNT
    ensures if a == [] then Last(a) == NIL else OPEN_MIN <= Last(a) < WINDOW_COUNT
    ensures forall n | n in order :: OPEN_MIN <= n < WINDOW_COUNT
    ensures tree[handle].next == if b == [] then ROOT else b[0]
    ensures tree[ROOT].data.head == (if a == [] then handle else a[0])
    ensures tree[ROOT].data.tail == (if b == [] then handle else b[|b| - 1])
    ensures handle !in a && handle !in b
  {
    assert order[|a|] == handle && (a != [] ==> order[|a| - 1] == Last(a) && order[0] == a[0]);
    assert b != [] ==> order[|order| - 1] == b[|b| - 1] && order[|a| + 1] == b[0];
    assert tree[order[|a|]].next == if b == [] then ROOT else b[0];
    assert forall i | 0 <= i < |b| :: b[i] == order[|a| + 1 + i];
    DistinctMiddle(a, handle, b);
  }

  lemma UnlinkOrdered(tree: Tree, order: seq<int>, top: int, a: seq<int>, handle: int, b: seq<int>)
    requires Ordered(tree, order, top) && order == a + ([handle] + b)
    requires |tree| == WINDOW_COUNT && OPEN_MIN <= handle < WINDOW_COUNT
    requires Last(a) == NIL || OPEN_MIN <= Last(a) < WINDOW_COUNT
    ensures var tree' := Unlinked(tree, Last(a), handle); var tail := tree'[ROOT].data.tail;
            Ordered(tree', a + b, if tail == NIL then ROOT else tail)
  {
    hide Ordered, Run, Distinct;
    UnlinkPlaces(tree, order, top, a, handle, b);
    assert b != [] ==> b[0] in order && b[|b| - 1] in order;
    assert First(a + b) == if a == [] then First(b) else a[0];
    OrderedRemove(tree, Unlinked(tree, Last(a), handle), order, top, a, handle, b);
  }

  const CLEAR_FRAME: Linked<Frame> := Linked(NIL, Frame(NIL, NIL, ZERO))

  lemma DistinctStack(order: seq<int>)
    requires Distinct(order) && forall i | 0 <= i < |order| :: order[i] != ROOT
    ensures Distinct([ROOT] + order)
  {
    DistinctJoin([ROOT], order);
  }

  ghost function OuterOf(tree: Tree, h: int): Rect {
    if 0 <= h < |tree| then tree[h].data.rect else ZERO
  }

  /** The frame rectangles of a list of windows. */
  ghost function OutersOf(tree: Tree, hs: seq<int>): (os: seq<Rect>)
    ensures |os| == |hs|
  {
    seq(|hs|, i requires 0 <= i < |hs| => OuterOf(tree, hs[i]))
  }

  /** The frame rectangle of every handle, open or not. */
  ghost function OutersAll(tree: Tree): (os: seq<Rect>)
    ensures |os| == |tree|
  {
    seq(|tree|, h requires 0 <= h < |tree| => tree[h].data.rect)
  }

  lemma OutersStep(tree: Tree, order: seq<int>, j: nat)
    requires j < |order|
    ensures OutersOf(tree, order[j..]) == [OuterOf(tree, order[j])] + OutersOf(tree, order[j + 1..])
  {
  }
}
