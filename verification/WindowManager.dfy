/** The resident window manager: open windows in z-order, each with a list of visible pieces from the shared pool. */
module WindowManager {
  import opened Books
  import opened Geometry
  import opened Links
  import opened Pieces
  import opened RectPool
  import opened Scene
  import opened WorkAreas
  import opened Wrappers
  import opened ZOrder

  /** The rest of a slot, the part a rebuild writes: the head of the list of visible pieces, where a client's walk
      of that list stands, and the BROKEN bit. */
  datatype View = View(first: int, iter: int, broken: bool)

  const CLEAR_VIEW := View(NIL, NIL, false)

  /** Dirty area and messages that one call leaves for the outer layers. */
  class Effects {
    var dirty: Option<Rect>
    var background: bool
    var messages: seq<Message>

    constructor ()
      ensures dirty == None && !background && messages == []
    {
      dirty, background, messages := None, false, [];
    }

    /** Whatever is dirty gets its background redrawn too. */
    predicate Backed()
      reads this`dirty, this`background
    {
      dirty.Some? ==> background
    }

    lemma NoneBacked()
      requires dirty == None
      ensures Backed()
    {
    }

    method Dirty(r: Rect)
      modifies this`dirty
      ensures dirty == Dirtied(old(dirty), r)
    {
      if !r.Empty() {
        dirty := if dirty.None? then Some(r) else Some(Enclose(r, dirty.value));
      }
    }

    method BackgroundDirty(r: Rect)
      modifies this`dirty, this`background
      ensures dirty == Dirtied(old(dirty), r) && background == (old(background) || !r.Empty())
    {
      if !r.Empty() {
        background := true;
        Dirty(r);
      }
    }

    method FrameDirty(screen: Screen, frame: Rect)
      modifies this`dirty, this`background
      ensures dirty == FrameDirtied(screen, old(dirty), frame) && (old(Backed()) ==> Backed())
    {
      if !frame.Empty() {
        BackgroundDirty(Grown(screen, frame));
      }
    }

    method Append(m: Message)
      modifies this`messages
      ensures messages == if |old(messages)| < MESSAGE_COUNT then old(messages) + [m] else old(messages)
    {
      if |messages| < MESSAGE_COUNT {
        messages := messages + [m];
      }
    }
  }

  /** The array sizes, as numbers. */
  lemma Sizes()
    ensures ROOT == 0 && OPEN_MIN == 1 && WINDOW_COUNT == 12 && RECT_COUNT == 120 && NIL == -1
  {
  }

  class Windows {
    const slots: array<Slot>
    const views: array<View>
    const tree: array<Linked<Frame>>
    const pool: Pool
    var top: int
    var screen: Screen
    var ready: bool
    var overflow: bool
    ghost var order: seq<int>
    ghost var pieces: seq<seq<int>>

    constructor ()
      ensures Valid() && !ready && Unused(State())
    {
      slots := new Slot[WINDOW_COUNT](_ => CLEAR_SLOT);
      views := new View[WINDOW_COUNT](_ => CLEAR_VIEW);
      tree := new Linked<Frame>[WINDOW_COUNT](_ => CLEAR_FRAME);
      pool := new Pool();
      top := ROOT;
      screen := Screen(NOBODY, 0, 0, 0, 0);
      ready, overflow := false, false;
      order := [];
      pieces := seq(WINDOW_COUNT, _ => []);
      new;
      Start();
    }

    /** Puts every record in its first state, then starts up. */
    method Start()
      requires slots.Length == views.Length == tree.Length == WINDOW_COUNT && pool.nodes.Length == RECT_COUNT
      modifies this, slots, views, tree, pool, pool.nodes
      ensures Valid() && !ready && Unused(State())
    {
      hide *;
      Sizes();
      ready := false;
      Clear();
      ClearUnused();
      UnusedLaid(State(), screen);
      BooksValid();
    }

    /** Everything as before the first configuration. */
    ghost predicate Cleared()
      reads this`order, this`top, this`pieces, this`overflow, slots, views, tree, pool, pool.nodes
    {
      && slots.Length == views.Length == tree.Length == WINDOW_COUNT && pool.nodes.Length == RECT_COUNT
      && (forall h | 0 <= h < WINDOW_COUNT ::
            slots[h] == CLEAR_SLOT && views[h] == CLEAR_VIEW && tree[h] == CLEAR_FRAME)
      && top == ROOT && !overflow && order == [] && pieces == seq(WINDOW_COUNT, _ => [])
      && pool.Valid() && pool.free == seq(RECT_COUNT, i => i)
    }

    method Clear()
      requires slots.Length == views.Length == tree.Length == WINDOW_COUNT && pool.nodes.Length == RECT_COUNT
      modifies this`order, this`top, this`pieces, this`overflow, slots, views, tree, pool, pool.nodes
      ensures Cleared()
    {
      for h := 0 to WINDOW_COUNT
        invariant forall g | 0 <= g < h :: slots[g] == CLEAR_SLOT && views[g] == CLEAR_VIEW && tree[g] == CLEAR_FRAME
      {
        slots[h], views[h], tree[h] := CLEAR_SLOT, CLEAR_VIEW, CLEAR_FRAME;
      }
      pool.Refill();
      top, overflow := ROOT, false;
      order, pieces := [], seq(WINDOW_COUNT, _ => []);
    }

    lemma ClearUnused()
      requires Cleared()
      ensures Sound() && Unused(State())
    {
      assert OutersAll(tree[..]) == seq(WINDOW_COUNT, _ => ZERO);
      assert Showing() == seq(WINDOW_COUNT, _ => []);
      PartitionStart(WINDOW_COUNT);
    }

    // The sibling list

    method TreeAdd(handle: int)
      requires Ordered(tree[..], order, top) && OPEN_MIN <= handle < WINDOW_COUNT && handle !in order
      modifies this`top, this`order, tree
      ensures order == old(order) + [handle] && Ordered(tree[..], order, top)
      ensures OutersAll(tree[..]) == old(OutersAll(tree[..]))
    {
      tree[handle] := tree[handle].(next := ROOT);
      var last := tree[ROOT].data.tail;
      if last == NIL {
        tree[ROOT] := tree[ROOT].(data := tree[ROOT].data.(head := handle));
      } else {
        tree[last] := tree[last].(next := handle);
      }
      tree[ROOT] := tree[ROOT].(data := tree[ROOT].data.(tail := handle));
      top := handle;
      OrderedAppend(old(tree[..]), tree[..], order, old(top), handle);
      order := order + [handle];
    }

    /** Unhooks a window found behind `prior` (NIL: at the head of the list). */
    method TreeUnlink(prior: int, handle: int, ghost a: seq<int>, ghost b: seq<int>)
      requires Ordered(tree[..], order, top) && order == a + ([handle] + b) && prior == Last(a)
      modifies this`top, this`order, tree
      ensures order == a + b && Ordered(tree[..], order, top)
      ensures OutersAll(tree[..]) == old(OutersAll(tree[..]))
    {
      hide Ordered, OutersAll;
      UnlinkPlaces(tree[..], order, top, a, handle, b);
      var next := tree[handle].next;
      if prior == NIL {
        tree[ROOT] := tree[ROOT].(data := tree[ROOT].data.(head := if next == ROOT then NIL else next));
      } else {
        tree[prior] := tree[prior].(next := next);
      }
      if tree[ROOT].data.tail == handle {
        tree[ROOT] := tree[ROOT].(data := tree[ROOT].data.(tail := prior));
      }
      tree[handle] := tree[handle].(next := NIL);
      assert tree[..] == Unlinked(old(tree[..]), prior, handle);
      UnlinkOrdered(old(tree[..]), order, top, a, handle, b);
      order := a + b;
      top := if tree[ROOT].data.tail == NIL then ROOT else tree[ROOT].data.tail;
    }

    method TreeDelete(handle: int) returns (found: bool)
      requires Ordered(tree[..], order, top)
      modifies this`top, this`order, tree
      ensures found == (handle in old(order))
      ensures order == Minus(old(order), handle) && Ordered(tree[..], order, top)
      ensures !found ==> tree[..] == old(tree[..]) && top == old(top)
      ensures OutersAll(tree[..]) == old(OutersAll(tree[..]))
    {
      var current, prior := tree[ROOT].data.head, NIL;
      ghost var k := 0;
      while current != NIL && current != ROOT
        invariant 0 <= k <= |order|
        invariant current == SiblingAt(order, k)
        invariant prior == Last(order[..k])
        invariant handle !in order[..k]
        decreases |order| - k
      {
        if current == handle {
          assert order == order[..k] + ([handle] + order[k + 1..]);
          MinusAt(order, k);
          TreeUnlink(prior, handle, order[..k], order[k + 1..]);
          return true;
        }
        prior, current := current, tree[current].next;
        assert order[..k + 1] == order[..k] + [order[k]];
        k := k + 1;
      }
      assert order[..k] == order;
      MinusAbsent(order, handle);
      found := false;
    }

    method TreeTop(handle: int) returns (found: bool)
      requires Ordered(tree[..], order, top) && OPEN_MIN <= handle < WINDOW_COUNT
      modifies this`top, this`order, tree
      ensures found == (handle in old(order))
      ensures found ==> order == Minus(old(order), handle) + [handle]
      ensures !found ==> order == old(order) && tree[..] == old(tree[..]) && top == old(top)
      ensures Ordered(tree[..], order, top)
      ensures OutersAll(tree[..]) == old(OutersAll(tree[..]))
    {
      if top == handle {
        var k := |order| - 1;
        MinusAt(order, k);
        assert order == order[..k] + [handle];
        return true;
      }
      found := TreeDelete(handle);
      if found {
        MinusGone(old(order), handle);
        TreeAdd(handle);
      } else {
        MinusAbsent(old(order), handle);
      }
    }

    // The piece lists

    ghost predicate Pooled()
      reads this`pieces, views, pool, pool.nodes
    {
      && views.Length == WINDOW_COUNT && |pieces| == WINDOW_COUNT
      && pool.Valid() && Partition(pieces, pool.free)
      && (forall h | 0 <= h < WINDOW_COUNT :: Run(pool.nodes[..], views[h].first, pieces[h], NIL))
      && (forall h | 0 <= h < WINDOW_COUNT :: views[h].iter == NIL || views[h].iter in pieces[h])
    }

    /** Returns a window's pieces to the pool. */
    method ReleaseSlot(handle: int)
      requires Pooled() && 0 <= handle < WINDOW_COUNT
      modifies this`pieces, views, pool, pool.nodes
      ensures Pooled() && pieces == old(pieces)[handle := []]
      ensures forall h | 0 <= h < WINDOW_COUNT && h != handle :: views[h] == old(views[h])
      ensures views[handle] == View(NIL, NIL, old(views[handle].broken))
    {
      pool.ReleaseList(views[handle].first, pieces[handle]);
      views[handle] := views[handle].(first := NIL, iter := NIL);
      PartitionSwap(pieces, old(pool.free), handle, [], pool.free);
      OthersKept(old(pool.nodes[..]), pool.nodes[..], old(pool.free), handle, []);
      pieces := pieces[handle := []];
    }

    /** Work on one list and the free nodes leaves every other list as it was. */
    lemma OthersKept(nodes: seq<Node>, nodes': seq<Node>, free: seq<int>, handle: int, list: seq<int>)
      requires |pieces| == views.Length == WINDOW_COUNT && 0 <= handle < WINDOW_COUNT && Partition(pieces, free)
      requires forall h | 0 <= h < WINDOW_COUNT && h != handle :: Run(nodes, views[h].first, pieces[h], NIL)
      requires |nodes'| == |nodes|
      requires forall n | 0 <= n < |nodes| && n !in Elems(pieces[handle]) + Elems(free) :: nodes'[n] == nodes[n]
      ensures forall h | 0 <= h < WINDOW_COUNT && h != handle :: Run(nodes', views[h].first, pieces[h], NIL)
      ensures RectsOfAll(nodes', pieces[handle := list]) == RectsOfAll(nodes, pieces)[handle := Rects(nodes', list)]
    {
      forall h | 0 <= h < WINDOW_COUNT && h != handle
        ensures Run(nodes', views[h].first, pieces[h], NIL) && Rects(nodes', pieces[h]) == Rects(nodes, pieces[h])
      {
        assert Apart(if h < handle then pieces[h] else pieces[handle],
                     if h < handle then pieces[handle] else pieces[h]);
        forall n | n in pieces[h]
          ensures 0 <= n < |nodes| && nodes'[n] == nodes[n]
        {
        }
        RunFrame(nodes, nodes', views[h].first, pieces[h], NIL);
        RectsFrame(nodes, nodes', pieces[h]);
      }
    }

    /** The link from a window to the one right over it. */
    function Over(handle: int): int
      requires tree.Length == WINDOW_COUNT && 0 <= handle < WINDOW_COUNT
      reads tree
    {
      if handle == ROOT then tree[ROOT].data.head else tree[handle].next
    }

    lemma OrderRange()
      requires Ordered(tree[..], order, top)
      ensures tree.Length == WINDOW_COUNT && forall i | 0 <= i < |order| :: OPEN_MIN <= order[i] < WINDOW_COUNT
    {
    }

    lemma OverIs(handle: int, k: nat)
      requires Ordered(tree[..], order, top) && k <= |order| && handle == ([ROOT] + order)[k]
      ensures tree.Length == WINDOW_COUNT && 0 <= handle < WINDOW_COUNT && Over(handle) == SiblingAt(order, k)
    {
      assert k > 0 ==> handle == order[k - 1];
    }

    /** The rectangle a window's list is cut from: its frame, or for the root its work area. */
    ghost function BaseOf(handle: int): Rect
      reads slots, tree
    {
      if handle != ROOT then OuterOf(tree[..], handle) else if slots.Length == 0 then ZERO else slots[ROOT].work
    }

    /** Cuts `base` around the frames of `above` and all windows over it, on a list not yet given to a slot. */
    method CutBase(base: Rect, above: int, ghost k: nat) returns (ok: bool, first: int, ghost list: seq<int>)
      requires Ordered(tree[..], order, top) && pool.Valid() && !base.Empty() && k <= |order|
      requires above == SiblingAt(order, k)
      modifies pool, pool.nodes
      ensures pool.Making(first, list, old(pool.free), old(pool.nodes[..]))
      ensures pool.Outlook(ok, list, []) == Layer(base, OutersOf(tree[..], order[k..]), |old(pool.free)|)
    {
      hide *;
      Sizes();
      ghost var (t, free, nodes) := (tree[..], pool.free, pool.nodes[..]);
      ghost var goal := Layer(base, OutersOf(t, order[k..]), |free|);
      first, list := pool.Start(base, OutersOf(t, order[k..]));
      ok := first != NIL;
      var at := above;
      ghost var j := k;
      while ok && at != NIL && at != ROOT
        invariant k <= j <= |order| && (ok ==> at == SiblingAt(order, j)) && tree[..] == t
        invariant pool.Making(first, list, free, nodes)
        invariant pool.Outlook(ok, list, OutersOf(t, order[j..])) == goal
        decreases ok, |order| - j
      {
        SiblingIs(at, j);
        var occluder, next := tree[at].data.rect, Over(at);
        ghost var occs := OutersOf(t, order[j + 1..]);
        ok, first, list := pool.BreakMore(first, occluder, list, occs, free, nodes);
        at, j := next, j + 1;
      }
      if ok {
        SiblingsEnd(at, j);
      } else {
        pool.OutlookFailed(list, OutersOf(t, order[j..]), []);
      }
    }

    lemma SiblingIs(at: int, j: nat)
      requires Ordered(tree[..], order, top) && j <= |order| && at == SiblingAt(order, j) && at != NIL && at != ROOT
      ensures j < |order| && tree.Length == WINDOW_COUNT && OPEN_MIN <= at < WINDOW_COUNT
      ensures Over(at) == SiblingAt(order, j + 1)
      ensures OutersOf(tree[..], order[j..]) == [tree[at].data.rect] + OutersOf(tree[..], order[j + 1..])
    {
      OverIs(at, j + 1);
      OutersStep(tree[..], order, j);
    }

    lemma SiblingsEnd(at: int, j: nat)
      requires Ordered(tree[..], order, top) && j <= |order| && at == SiblingAt(order, j) && (at == NIL || at == ROOT)
      ensures OutersOf(tree[..], order[j..]) == []
    {
    }

    /** Gives a window the list just built for it; `nodes` and `free` are the pool before the building. */
    method StoreList(handle: int, first: int, broken: bool, ghost list: seq<int>, ghost nodes: seq<Node>,
                     ghost free: seq<int>)
      requires |pieces| == views.Length == WINDOW_COUNT && 0 <= handle < WINDOW_COUNT && Partition(pieces, free)
      requires forall h | 0 <= h < WINDOW_COUNT && h != handle :: Run(nodes, views[h].first, pieces[h], NIL)
      requires forall h | 0 <= h < WINDOW_COUNT :: views[h].iter == NIL || views[h].iter in pieces[h]
      requires pieces[handle] == []
      requires pool.Valid() && pool.Holds(first, list) && |nodes| == RECT_COUNT
      requires Elems(list) + Elems(pool.free) == Elems(free) && |list| + |pool.free| == |free|
      requires forall n | 0 <= n < RECT_COUNT && n !in free :: pool.nodes[n] == nodes[n]
      modifies this`pieces, views
      ensures Pooled() && pieces == old(pieces)[handle := list]
      ensures Showing() == RectsOfAll(nodes, old(pieces))[handle := Rects(pool.nodes[..], list)]
      ensures forall h | 0 <= h < WINDOW_COUNT && h != handle :: views[h] == old(views[h])
      ensures views[handle] == View(first, old(views[handle].iter), broken)
    {
      PartitionSwap(pieces, free, handle, list, pool.free);
      OthersKept(nodes, pool.nodes[..], free, handle, list);
      pieces := pieces[handle := list];
      views[handle] := views[handle].(first := first, broken := broken);
    }

    /** Builds the visible pieces of the window at position k of the stack (the root is at 0). */
    method BuildOneList(handle: int, ghost k: nat) returns (ok: bool)
      requires Ordered(tree[..], order, top) && Pooled() && k <= |order| && handle == ([ROOT] + order)[k]
      requires pieces[handle] == [] && slots.Length == WINDOW_COUNT
      modifies this`pieces, this`overflow, views, pool, pool.nodes
      ensures Pooled() && pieces == old(pieces)[handle := pieces[handle]]
      ensures Showing() == old(Showing())[handle := Showing()[handle]]
      ensures Built(ok, Showing()[handle], |pool.free|)
              == Layer(BaseOf(handle), OutersOf(tree[..], order[k..]), |old(pool.free)|)
      ensures overflow == (old(overflow) || !ok)
      ensures ok && |pieces[handle]| > 0 ==> views[handle].broken == (|pieces[handle]| > 1)
    {
      hide Ordered, OutersOf, Partition, Distinct;
      OverIs(handle, k);
      var base := if handle == ROOT then slots[ROOT].work else tree[handle].data.rect;
      var above := Over(handle);
      if base.Empty() {
        return true;
      }
      var first;
      ghost var list;
      ok, first, list := CutBase(base, above, k);
      var broken := views[handle].broken;
      if ok && first != NIL {
        broken := pool.nodes[first].next != NIL;
      }
      if !ok {
        overflow := true;
      }
      StoreList(handle, first, broken, list, old(pool.nodes[..]), old(pool.free));
    }

    method ReleaseLists()
      requires Pooled()
      modifies this`pieces, views, pool, pool.nodes
      ensures Pooled() && |pool.free| == RECT_COUNT && |pieces| == WINDOW_COUNT
              && Showing() == seq(WINDOW_COUNT, _ => [])
    {
      var handle := 0;
      while handle < WINDOW_COUNT
        invariant 0 <= handle <= WINDOW_COUNT && Pooled()
        invariant forall h | 0 <= h < handle :: pieces[h] == []
      {
        ReleaseSlot(handle);
        handle := handle + 1;
      }
      TotalEmpty(pieces);
    }

    /** Root first, then the open windows bottom to top. */
    ghost function Stack(): (stack: seq<int>)
      reads this`order
      ensures |stack| == |order| + 1
    {
      [ROOT] + order
    }

    ghost function BasesNow(): (bs: seq<Rect>)
      reads this`order, slots, tree
      ensures |bs| == |order| + 1
    {
      [BaseOf(ROOT)] + OutersOf(tree[..], order)
    }

    /** The visible pieces of every handle. */
    ghost function Showing(): (shown: seq<seq<Rect>>)
      reads this`pieces, pool.nodes
      ensures |shown| == |pieces|
    {
      RectsOfAll(pool.nodes[..], pieces)
    }

    /** The lists of the first k windows of the stack are as in `goal`, the others still empty, and carrying on with
        the nodes left leads to the rest of `goal`. */
    ghost predicate RebuiltTo(goal: Layout, k: nat)
      reads this`pieces, this`order, slots, tree, pool, pool.nodes
    {
      LeadsTo(BasesNow(), k, |pool.free|, goal) && ShownTo(Stack(), Showing(), goal.lists, k)
    }

    method RebuildStep(handle: int, ghost k: nat, ghost goal: Layout) returns (ok: bool)
      requires Ordered(tree[..], order, top) && Pooled() && slots.Length == WINDOW_COUNT && RebuiltTo(goal, k)
      requires k <= |order| && handle == Stack()[k] && !overflow
      modifies this`pieces, this`overflow, views, pool, pool.nodes
      ensures Pooled() && overflow == !ok
      ensures ok ==> RebuiltTo(goal, k + 1)
      ensures !ok || k == |order| ==> Rebuilt(goal)
    {
      assert BasesNow()[k] == BaseOf(handle);
      assert BasesNow()[k + 1..] == OutersOf(tree[..], order[k..]);
      LayersStep(BasesNow(), k, |pool.free|, goal);
      DistinctStack(order);
      assert |Showing()[handle]| == 0;
      ok := BuildOneList(handle, k);
      ShownStep(Stack(), old(Showing()), Showing(), goal.lists, k);
    }

    lemma NextInStack(handle: int, k: nat)
      requires Ordered(tree[..], order, top) && k <= |order| && handle == Stack()[k]
      ensures tree.Length == WINDOW_COUNT && 0 <= handle < WINDOW_COUNT
      ensures var next := Over(handle);
              if k < |order| then next == Stack()[k + 1] && next != NIL && next != ROOT else next == NIL || next == ROOT
    {
      OverIs(handle, k);
    }

    lemma StackStart()
      ensures Stack()[0] == ROOT
    {
    }

    lemma RebuiltStart()
      requires Ordered(tree[..], order, top) && |pool.free| == RECT_COUNT
      requires Showing() == seq(WINDOW_COUNT, _ => [])
      ensures RebuiltTo(Layers(BasesNow(), RECT_COUNT), 0)
    {
      LeadsToStart(BasesNow(), RECT_COUNT);
    }

    /** All pieces are as in the layout of the whole stack. */
    ghost predicate Rebuilt(goal: Layout)
      reads this`pieces, this`order, this`overflow, pool.nodes
    {
      overflow == !goal.ok && ShownTo(Stack(), Showing(), goal.lists, |order| + 1)
    }

    ghost function State(): (book: Book)
      reads this`order, this`pieces, this`overflow, slots, tree, pool.nodes
      ensures book.slots == slots[..] && book.outers == OutersAll(tree[..]) && book.order == order
      ensures book.overflow == overflow && |book.shown| == |pieces|
    {
      Book(slots[..], OutersAll(tree[..]), order, Showing(), overflow)
    }

    lemma RebuiltLaid(goal: Layout)
      requires slots.Length == tree.Length == WINDOW_COUNT && goal == Layers(BasesNow(), RECT_COUNT) && Rebuilt(goal)
      requires forall i | 0 <= i < |order| :: 0 <= order[i] < WINDOW_COUNT
      ensures Laid(State())
    {
      assert BasesNow() == BasesOf(slots[..], OutersAll(tree[..]), order);
    }

    /** Rebuilds every list after a change of frames or z-order; fails exactly when the pool does not suffice. */
    method Rebuild() returns (ok: bool)
      requires Ordered(tree[..], order, top) && Pooled() && slots.Length == WINDOW_COUNT
      modifies this`pieces, this`overflow, views, pool, pool.nodes
      ensures Pooled() && |pieces| == WINDOW_COUNT && overflow == !ok
      ensures Laid(State())
    {
      hide *;
      Sizes();
      OrderRange();
      ReleaseLists();
      overflow := false;
      RebuiltStart();
      ghost var goal := Layers(BasesNow(), RECT_COUNT);
      ok := true;
      var handle, more := ROOT, true;
      ghost var k := 0;
      StackStart();
      while more
        invariant Pooled()
        invariant overflow == !ok
        invariant 0 <= k <= |order| + 1
        invariant more ==> ok && RebuiltTo(goal, k) && k <= |order| && handle == Stack()[k]
        invariant !more ==> Rebuilt(goal)
        decreases |order| + 1 - k, more
      {
        NextInStack(handle, k);
        var next := Over(handle);
        ok := RebuildStep(handle, k, goal);
        handle := next;
        k := k + 1;
        more := ok && handle != NIL && handle != ROOT;
      }
      RebuiltLaid(goal);
      PooledSize();
    }

    lemma PooledSize()
      requires Pooled()
      ensures |pieces| == WINDOW_COUNT
    {
    }

    // The whole manager

    /** The lists are in order: z-order, piece lists and free list. */
    ghost predicate Sound()
      reads this`order, this`top, this`pieces, views, tree, pool, pool.nodes
    {
      slots.Length == WINDOW_COUNT && Ordered(tree[..], order, top) && Pooled()
    }

    ghost predicate Valid()
      reads this`order, this`top, this`pieces, this`overflow, this`screen, this`ready, slots, views, tree, pool,
            pool.nodes
    {
      Sound() && Laid(State()) && Registered(slots[..], OutersAll(tree[..]), order, screen, ready)
    }

    /** Gives a handle its slot and frame. */
    method Place(handle: int, slot: Slot, r: Rect)
      requires Ordered(tree[..], order, top) && slots.Length == WINDOW_COUNT && 0 <= handle < WINDOW_COUNT
      modifies slots, tree
      ensures Ordered(tree[..], order, top)
      ensures slots[..] == old(slots[..])[handle := slot]
      ensures OutersAll(tree[..]) == old(OutersAll(tree[..]))[handle := r]
    {
      tree[handle] := tree[handle].(data := tree[handle].data.(rect := r));
      slots[handle] := slot;
      OrderedSame(old(tree[..]), tree[..], order, top);
    }

    /** What a valid manager lets an operation on one handle start from. */
    lemma SoundOrdered()
      requires Sound()
      ensures Ordered(tree[..], order, top) && Pooled() && slots.Length == tree.Length == WINDOW_COUNT
    {
    }

    lemma SoundParts(handle: int)
      requires Sound() && 0 <= handle < WINDOW_COUNT
      ensures slots.Length == tree.Length == WINDOW_COUNT
      ensures OutersAll(tree[..])[handle] == tree[handle].data.rect && slots[..][handle] == slots[handle]
    {
    }

    lemma SlotParts(handle: int)
      requires Valid() && 0 <= handle < WINDOW_COUNT
      ensures slots.Length == tree.Length == |pieces| == WINDOW_COUNT && Distinct(order)
      ensures OutersAll(tree[..])[handle] == tree[handle].data.rect && slots[..][handle] == slots[handle]
      ensures OPEN_MIN <= handle ==> (slots[handle].inTree <==> handle in order)
    {
    }

    lemma OrderHandles()
      requires Valid()
      ensures slots.Length == tree.Length == views.Length == |pieces| == WINDOW_COUNT && Distinct(order)
      ensures |OutersAll(tree[..])| == WINDOW_COUNT
      ensures forall i | 0 <= i < |order| :: OPEN_MIN <= order[i] < WINDOW_COUNT
    {
    }

    lemma ValidOrdered()
      requires Valid()
      ensures Ordered(tree[..], order, top) && Pooled() && slots.Length == WINDOW_COUNT
    {
    }

    /** The rectangle around a window's visible pieces. */
    method VisibleUnion(handle: int, ghost list: seq<int>) returns (box: Rect)
      requires 0 <= handle < views.Length && Run(pool.nodes[..], views[handle].first, list, NIL)
      ensures box == Bounds(Rects(pool.nodes[..], list), ZERO)
    {
      box := ZERO;
      var at := views[handle].first;
      ghost var nodes := pool.nodes[..];
      ghost var k := 0;
      while at != NIL
        invariant 0 <= k <= |list| && at == First(list[k..])
        invariant Bounds(Rects(nodes, list), ZERO) == Bounds(Rects(nodes, list)[k..], box)
        decreases |list| - k
      {
        assert at == list[k] && Rects(nodes, list)[k..][0] == pool.nodes[at].data;
        if !CanEnclose(pool.nodes[at].data, box) {
          return ZERO;
        }
        box := Enclose(pool.nodes[at].data, box);
        assert Rects(nodes, list)[k..][1..] == Rects(nodes, list)[k + 1..];
        at := pool.nodes[at].next;
        k := k + 1;
      }
    }

    /** The stack of open windows as a value. */
    ghost function PanesNow(): (panes: seq<Pane>)
      reads this`order, slots, tree
      ensures |panes| == |order|
    {
      PanesOf(slots[..], OutersAll(tree[..]), order)
    }

    /** The redraw message of one window for a dirty area, if it has any to do. */
    method RedrawOne(handle: int, effects: Effects, dirty: Rect, ghost list: seq<int>)
      requires 0 <= handle < slots.Length == views.Length && Run(pool.nodes[..], views[handle].first, list, NIL)
      modifies effects`messages
      ensures var clip := Clip(slots[handle].work, Rects(pool.nodes[..], list), dirty);
              effects.messages == if clip.Solid() && |old(effects.messages)| < MESSAGE_COUNT
                                  then old(effects.messages) + [Message(slots[handle].client, handle, clip)]
                                  else old(effects.messages)
    {
      var clip := Intersect(slots[handle].work, dirty);
      if clip.Solid() {
        var visible := VisibleUnion(handle, list);
        clip := Intersect(visible, clip);
        if clip.Solid() {
          effects.Append(Message(slots[handle].client, handle, clip));
        }
      }
    }

    /** Window k of the stack is reached by links, and its pane and its list are what its slot says. */
    ghost predicate LinkedPane(k: nat, panes: seq<Pane>, lists: seq<seq<Rect>>)
      requires k < |panes| == |lists|
      reads this`order, this`pieces, slots, views, tree, pool.nodes
    {
      && k < |order| && tree.Length == slots.Length == views.Length == |pieces| == WINDOW_COUNT
      && var h := order[k];
      && OPEN_MIN <= h < WINDOW_COUNT
      && panes[k].handle == h && panes[k].client == slots[h].client && panes[k].work == slots[h].work
      && lists[k] == Rects(pool.nodes[..], pieces[h]) && Run(pool.nodes[..], views[h].first, pieces[h], NIL)
      && tree[h].next == SiblingAt(order, k + 1)
    }

    lemma PanesLinked()
      requires Valid()
      ensures tree.Length == WINDOW_COUNT && tree[ROOT].data.head == SiblingAt(order, 0)
      ensures forall k | 0 <= k < |order| :: LinkedPane(k, PanesNow(), ShownIn(order, Showing()))
    {
      StackStart();
      OverIs(ROOT, 0);
      forall k | 0 <= k < |order|
        ensures LinkedPane(k, PanesNow(), ShownIn(order, Showing()))
      {
        OverIs(order[k], k + 1);
      }
    }

    /** Sends every window its share of the dirty area. With room for one message a window none is lost. */
    method Redraw(effects: Effects)
      requires Valid()
      modifies effects`messages
      ensures effects.dirty == None ==> effects.messages == old(effects.messages)
      ensures effects.dirty.Some? && |old(effects.messages)| + |order| <= MESSAGE_COUNT ==>
                effects.messages == old(effects.messages)
                                    + Redraws(PanesNow(), ShownIn(order, Showing()), effects.dirty.value)
    {
      if effects.dirty.None? {
        return;
      }
      OrderRange();
      PanesLinked();
      hide Valid, Sound, Laid, Ordered, Pooled, Registered, Run, Rects, Sending;
      var dirty := effects.dirty.value;
      ghost var (panes, lists) := (PanesNow(), ShownIn(order, Showing()));
      var handle := tree[ROOT].data.head;
      SendingStart(effects.messages, panes, lists, dirty);
      ghost var k := 0;
      while handle != NIL && handle != ROOT
        invariant 0 <= k <= |order| && handle == SiblingAt(order, k)
        invariant Sending(old(effects.messages), effects.messages, panes, lists, dirty, k)
        decreases |order| - k
      {
        assert LinkedPane(k, panes, lists);
        hide LinkedPane;
        ghost var sent := effects.messages;
        RedrawOne(handle, effects, dirty, pieces[handle]);
        SendingStep(old(effects.messages), sent, panes, lists, dirty, k, effects.messages);
        handle := tree[handle].next;
        k := k + 1;
      }
      SendingEnd(old(effects.messages), effects.messages, panes, lists, dirty);
    }

    // Client operations

    /** Brings the visible pieces up to date with the frames and the z-order. */
    method Settle() returns (ok: bool)
      requires Sound()
      modifies this`pieces, this`overflow, views, pool, pool.nodes
      ensures Sound() && Laid(State()) && overflow == !ok && |pieces| == WINDOW_COUNT
      ensures ok == Fits(slots[..], OutersAll(tree[..]), order)
    {
      ok := Rebuild();
    }

    method Attach(handle: int, slot: Slot, r: Rect)
      requires Sound() && OPEN_MIN <= handle < WINDOW_COUNT && handle !in order
      modifies this`top, this`order, slots, tree
      ensures Sound()
      ensures slots[..] == old(slots[..])[handle := slot] && order == old(order) + [handle]
      ensures OutersAll(tree[..]) == old(OutersAll(tree[..]))[handle := r]
    {
      Place(handle, slot, r);
      TreeAdd(handle);
    }

    method Detach(handle: int, slot: Slot, r: Rect)
      requires Sound() && OPEN_MIN <= handle < WINDOW_COUNT
      modifies this`top, this`order, slots, tree
      ensures Sound()
      ensures slots[..] == old(slots[..])[handle := slot] && order == Minus(old(order), handle)
      ensures OutersAll(tree[..]) == old(OutersAll(tree[..]))[handle := r]
    {
      Place(handle, slot, r);
      var _ := TreeDelete(handle);
    }

    /** Undoes an opening that found no room, back to `book`. */
    method TakeBack(handle: int, slot: Slot, r: Rect, ghost book: Book)
      requires Sound() && OPEN_MIN <= handle < WINDOW_COUNT
      requires Laid(book) && |book.shown| == WINDOW_COUNT && book.slots == slots[..][handle := slot]
      requires book.outers == OutersAll(tree[..])[handle := r] && book.order == Minus(order, handle)
      modifies this`top, this`order, this`pieces, this`overflow, slots, views, tree, pool, pool.nodes
      ensures Sound() && State() == book
    {
      hide *;
      Sizes();
      Detach(handle, slot, r);
      var _ := Settle();
      LaidUnique(book, State());
    }

    /** Puts a window on top of the stack with the frame and slot given, or leaves everything as it was. */
    method OpenAt(handle: int, slot: Slot, r: Rect) returns (ok: bool)
      requires Sound() && Laid(State()) && |pieces| == WINDOW_COUNT
      requires OPEN_MIN <= handle < WINDOW_COUNT && handle !in order
      modifies this`top, this`order, this`pieces, this`overflow, slots, views, tree, pool, pool.nodes
      ensures Sound() && Laid(State()) && |pieces| == WINDOW_COUNT
      ensures !ok ==> State() == old(State())
      ensures ok ==> Topped(old(State()), State(), handle, slot, r)
      ensures ok == Fits(old(slots[..])[handle := slot], old(OutersAll(tree[..]))[handle := r], old(order) + [handle])
    {
      hide Sound, Laid, Fits, Minus, OutersAll, Ordered, Pooled, Run;
      SoundParts(handle);
      MinusLast(order, handle);
      var outer, before := tree[handle].data.rect, slots[handle];
      Attach(handle, slot, r);
      ok := Settle();
      if !ok {
        TakeBack(handle, before, outer, old(State()));
      }
    }

    lemma ValidBooks()
      requires Valid()
      ensures InOrder(State(), screen, ready) && Laid(State()) && State().shown == Showing()
      ensures |order| < MESSAGE_COUNT && |pieces| == WINDOW_COUNT && Sound()
    {
      DistinctBound(order, OPEN_MIN, WINDOW_COUNT);
    }

    lemma PanesAre()
      ensures Panes(State()) == PanesNow() && State().shown == Showing()
    {
    }

    lemma MessagesAre(dirty: Option<Rect>)
      ensures MessagesOf(State(), dirty)
           == if dirty.None? then [] else Redraws(PanesNow(), ShownIn(order, Showing()), dirty.value)
    {
      PanesAre();
    }

    lemma BooksValid()
      requires Sound() && Laid(State()) && InOrder(State(), screen, ready)
      ensures Valid()
    {
    }

    /** Sends the redraw messages a dirty area calls for. */
    method Expose(effects: Effects)
      requires Valid() && effects.messages == []
      modifies effects`messages
      ensures effects.messages == MessagesOf(State(), effects.dirty)
      ensures Thrifty(Panes(State()), effects.dirty, effects.messages)
    {
      hide *;
      Sizes();
      ValidBooks();
      Redraw(effects);
      ghost var all := MessagesOf(State(), effects.dirty);
      assert [] + all == all;
      MessagesAre(effects.dirty);
      MessagesThrifty(State(), screen, ready, effects.dirty);
    }

    /** Whose gains are told, when one window changed and `book` was the state before it. */
    lemma ExposedTold(handle: int, dirty: Option<Rect>, book: Book)
      requires Valid() && Covers(book, State(), screen, ready, handle, dirty)
      ensures !overflow ==> GainsTold(Panes(book), Panes(State()), MessagesOf(State(), dirty))
    {
      hide Covers, GainsTold, Panes, MessagesOf, Valid, Sound;
      ValidBooks();
      if !overflow {
        OperationTold(book, State(), screen, ready, handle, dirty);
      }
    }

    method OpenFitting(handle: int, client: Client, r: Rect, work: Rect) returns (ok: bool)
      requires Valid() && OPEN_MIN <= handle < |State().slots| && handle < slots.Length
      requires Openable(State().slots[handle], client, screen, ready, r) == Some(work)
      modifies this`top, this`order, this`pieces, this`overflow, slots, views, tree, pool, pool.nodes
      ensures Valid() && InOrder(State(), screen, ready)
      ensures ok == OpenSucceeds(old(State()), screen, ready, client, handle, r)
      ensures !ok ==> State() == old(State())
      ensures ok ==> Opened(old(State()), State(), screen, ready, client, handle, r)
                     && OnlyChanged(old(State()), State(), handle)
    {
      hide Valid, Sound, Laid, Registered, Ordered, Pooled, Run, Fits, OutersAll, PublicRect, InOrder, OnlyChanged,
           Panes;
      ValidBooks();
      SlotParts(handle);
      ok := OpenAt(handle, OpenSlot(slots[handle], r, work), r);
      if ok {
        OpenInOrder(old(State()), State(), screen, ready, client, handle, r);
      }
      BooksValid();
    }

    method AnnounceOpen(client: Client, handle: int, r: Rect, effects: Effects, ghost book: Book)
      requires Valid() && effects.dirty == None && effects.messages == []
      requires InOrder(book, screen, ready) && Opened(book, State(), screen, ready, client, handle, r)
      modifies effects
      ensures effects.Backed()
      ensures effects.dirty == FrameDirtied(screen, None, r)
      ensures Thrifty(Panes(State()), effects.dirty, effects.messages)
      ensures GainsTold(Panes(book), Panes(State()), effects.messages) <==>
              Shadowed(screen, r) || !Intersect(r, WorkOf(State(), handle)).Solid()
    {
      hide *;
      Sizes();
      ValidBooks();
      effects.NoneBacked();
      effects.FrameDirty(screen, r);
      Expose(effects);
      OpenedTold(client, handle, r, book);
    }

    /** With its frame shadowed all pixels of the new window are told, and without there is no message. */
    lemma OpenedTold(client: Client, handle: int, r: Rect, book: Book)
      requires Valid() && InOrder(book, screen, ready) && Opened(book, State(), screen, ready, client, handle, r)
      ensures GainsTold(Panes(book), Panes(State()), MessagesOf(State(), FrameDirtied(screen, None, r))) <==>
              Shadowed(screen, r) || !Intersect(r, WorkOf(State(), handle)).Solid()
    {
      hide Covers, Shadowed, FrameDirtied, GainsTold, Panes, Valid, Openable, Rect.Solid, Intersect;
      ValidBooks();
      OpenMarked(book, State(), screen, ready, client, handle, r);
      OpenGains(book, State(), screen, ready, client, handle, r);
      if Shadowed(screen, r) {
        ExposedTold(handle, FrameDirtied(screen, None, r), book);
      }
    }

    /** WIND_OPEN. Nothing changes when the call is refused or the pool runs out. */
    method Open(client: Client, handle: int, r: Rect, effects: Effects) returns (ok: bool)
      requires Valid() && effects.dirty == None && effects.messages == []
      modifies this`top, this`order, this`pieces, this`overflow, slots, views, tree, pool, pool.nodes, effects
      ensures Valid()
      ensures ok == OpenSucceeds(old(State()), screen, ready, client, handle, r)
      ensures !ok ==> State() == old(State()) && effects.dirty == None && effects.messages == []
      ensures ok ==> Opened(old(State()), State(), screen, ready, client, handle, r)
      ensures ok && screen.boxHeight <= 16384 ==> WorkPlaced(State(), screen, handle, r)
      ensures ok ==> effects.dirty == FrameDirtied(screen, None, r)
                     && Thrifty(Panes(State()), effects.dirty, effects.messages) && effects.Backed()
      ensures ok ==> (GainsTold(old(Panes(State())), Panes(State()), effects.messages) <==>
                      Shadowed(screen, r) || !Intersect(r, WorkOf(State(), handle)).Solid())
    {
      hide *;
      Sizes();
      OpenGuard(client, handle, r);
      var work := if OPEN_MIN <= handle < WINDOW_COUNT then Openable(slots[handle], client, screen, ready, r) else None;
      ok := false;
      if work.Some? {
        ok := OpenFitting(handle, client, r, work.value);
        if ok {
          PlacedAfterOpen(client, handle, r, old(State()));
          AnnounceOpen(client, handle, r, effects, old(State()));
        }
      }
    }

    lemma PlacedAfterOpen(client: Client, handle: int, r: Rect, book: Book)
      requires Valid() && InOrder(book, screen, ready) && Opened(book, State(), screen, ready, client, handle, r)
      ensures screen.boxHeight <= 16384 ==> WorkPlaced(State(), screen, handle, r)
    {
      hide Valid, WorkPlaced;
      ValidBooks();
      if screen.boxHeight <= 16384 {
        PlacedOpen(book, State(), screen, ready, client, handle, r);
      }
    }

    lemma PlacedAfterMove(client: Client, handle: int, r: Rect, toTop: bool, book: Book)
      requires Valid() && InOrder(book, screen, ready) && Moved(book, State(), screen, ready, client, handle, r, toTop)
      ensures screen.boxHeight <= 16384 ==> WorkPlaced(State(), screen, handle, r)
    {
      hide Valid, WorkPlaced;
      ValidBooks();
      if screen.boxHeight <= 16384 {
        PlacedMove(book, State(), screen, ready, client, handle, r, toTop);
      }
    }

    lemma OpenGuard(client: Client, handle: int, r: Rect)
      requires Valid()
      ensures slots.Length == |State().slots| == WINDOW_COUNT && InOrder(State(), screen, ready)
      ensures if OPEN_MIN <= handle < WINDOW_COUNT
              then State().slots[handle] == slots[handle]
                   && (Openable(slots[handle], client, screen, ready, r).None? ==>
                         !OpenSucceeds(State(), screen, ready, client, handle, r))
              else !OpenSucceeds(State(), screen, ready, client, handle, r)
    {
    }

    // Moving and restacking

    method SaveOrder() returns (next: array<int>, head: int, tail: int, wasTop: int)
      requires tree.Length == WINDOW_COUNT
      ensures fresh(next) && next.Length == WINDOW_COUNT
      ensures forall h | 0 <= h < WINDOW_COUNT :: next[h] == tree[h].next
      ensures head == tree[ROOT].data.head && tail == tree[ROOT].data.tail && wasTop == top
    {
      next := new int[WINDOW_COUNT];
      for h := 0 to WINDOW_COUNT
        invariant forall g | 0 <= g < h :: next[g] == tree[g].next
      {
        next[h] := tree[h].next;
      }
      head, tail, wasTop := tree[ROOT].data.head, tree[ROOT].data.tail, top;
    }

    /** Puts the saved links back; `t` and `wasOrder` are the tree and z-order they were saved from. */
    method RestoreOrder(next: array<int>, head: int, tail: int, wasTop: int, ghost t: Tree, ghost wasOrder: seq<int>)
      requires tree.Length == next.Length == WINDOW_COUNT && Ordered(t, wasOrder, wasTop)
      requires forall h | 0 <= h < WINDOW_COUNT :: next[h] == t[h].next
      requires head == t[ROOT].data.head && tail == t[ROOT].data.tail
      modifies this`top, this`order, tree
      ensures Ordered(tree[..], order, top) && order == wasOrder
      ensures OutersAll(tree[..]) == old(OutersAll(tree[..]))
    {
      for h := 0 to WINDOW_COUNT
        invariant forall g | 0 <= g < h :: tree[g].next == t[g].next
        invariant forall g | 0 <= g < WINDOW_COUNT :: tree[g].data == old(tree[g].data)
      {
        tree[h] := tree[h].(next := next[h]);
      }
      tree[ROOT] := tree[ROOT].(data := tree[ROOT].data.(head := head, tail := tail));
      top := wasTop;
      order := wasOrder;
      RunFrame(t, tree[..], if order == [] then ROOT else order[0], order, ROOT);
    }

    /** Raises a window when asked to, and settles; on failure the z-order is put back, the pieces not yet. */
    method Raise(handle: int, toTop: bool) returns (ok: bool)
      requires Sound() && OPEN_MIN <= handle < WINDOW_COUNT && handle in order
      modifies this`top, this`order, this`pieces, this`overflow, views, tree, pool, pool.nodes
      ensures Sound() && |pieces| == WINDOW_COUNT && OutersAll(tree[..]) == old(OutersAll(tree[..]))
      ensures ok ==> Laid(State()) && !overflow
      ensures order == if ok then Restacked(old(order), handle, toTop) else old(order)
      ensures ok == Fits(slots[..], OutersAll(tree[..]), Restacked(old(order), handle, toTop))
    {
      hide Laid, Fits, Ordered, Pooled, Run, OutersAll, Minus;
      ghost var t := tree[..];
      SoundOrdered();
      if toTop {
        var next, head, tail, wasTop := SaveOrder();
        var found := TreeTop(handle);
        ok := Settle();
        if !ok {
          RestoreOrder(next, head, tail, wasTop, t, old(order));
        }
      } else {
        ok := Settle();
      }
    }

    /** Gives an open window a new slot and frame, raised or in place, or leaves everything as it was. */
    method MoveAt(handle: int, slot: Slot, r: Rect, toTop: bool) returns (ok: bool)
      requires Sound() && Laid(State()) && |pieces| == WINDOW_COUNT
      requires OPEN_MIN <= handle < WINDOW_COUNT && handle in order
      modifies this`top, this`order, this`pieces, this`overflow, slots, views, tree, pool, pool.nodes
      ensures Sound() && Laid(State()) && |pieces| == WINDOW_COUNT
      ensures !ok ==> State() == old(State())
      ensures ok ==> Shifted(old(State()), State(), handle, slot, r, Restacked(old(order), handle, toTop))
      ensures ok == Fits(old(slots[..])[handle := slot], old(OutersAll(tree[..]))[handle := r],
                         Restacked(old(order), handle, toTop))
    {
      hide *;
      Sizes();
      SoundParts(handle);
      var outer, before := tree[handle].data.rect, slots[handle];
      Change(handle, slot, r);
      ok := Raise(handle, toTop);
      if ok {
        ShiftedNow(old(State()), handle, slot, r, Restacked(old(order), handle, toTop));
      } else {
        ChangeBack(handle, before, outer, old(State()));
      }
    }

    lemma ShiftedNow(book: Book, handle: int, slot: Slot, r: Rect, order': seq<int>)
      requires order == order' && !overflow && 0 <= handle < |book.slots| && handle < |book.outers|
      requires slots[..] == book.slots[handle := slot] && OutersAll(tree[..]) == book.outers[handle := r]
      ensures Shifted(book, State(), handle, slot, r, order')
    {
    }

    /** Undoes a move that found no room, back to `book`. */
    method ChangeBack(handle: int, slot: Slot, r: Rect, ghost book: Book)
      requires Sound() && OPEN_MIN <= handle < WINDOW_COUNT && Laid(book) && |book.shown| == WINDOW_COUNT
      requires book.slots == slots[..][handle := slot] && book.outers == OutersAll(tree[..])[handle := r]
      requires book.order == order
      modifies this`pieces, this`overflow, slots, views, tree, pool, pool.nodes
      ensures Sound() && State() == book
    {
      hide *;
      Sizes();
      Change(handle, slot, r);
      var _ := Settle();
      LaidUnique(book, State());
    }

    method Change(handle: int, slot: Slot, r: Rect)
      requires Sound() && OPEN_MIN <= handle < WINDOW_COUNT
      modifies slots, tree
      ensures Sound() && slots[..] == old(slots[..])[handle := slot]
      ensures OutersAll(tree[..]) == old(OutersAll(tree[..]))[handle := r]
    {
      Place(handle, slot, r);
    }

    method MoveFitting(handle: int, client: Client, r: Rect, work: Rect, toTop: bool) returns (ok: bool)
      requires Valid() && OPEN_MIN <= handle < |State().slots| && handle < slots.Length
      requires Movable(State().slots[handle], client, screen, ready, r) == Some(work)
      modifies this`top, this`order, this`pieces, this`overflow, slots, views, tree, pool, pool.nodes
      ensures Valid() && InOrder(State(), screen, ready)
      ensures ok == MoveSucceeds(old(State()), screen, ready, client, handle, r, toTop)
      ensures !ok ==> State() == old(State())
      ensures ok ==> Moved(old(State()), State(), screen, ready, client, handle, r, toTop)
                     && OnlyChanged(old(State()), State(), handle)
    {
      hide Valid, Sound, Laid, Registered, Ordered, Pooled, Run, Fits, OutersAll, PublicRect, InOrder, OnlyChanged,
           Panes;
      ValidBooks();
      SlotParts(handle);
      ok := MoveAt(handle, MoveSlot(slots[handle], tree[handle].data.rect, work), r, toTop);
      if ok {
        MoveInOrder(old(State()), State(), screen, ready, client, handle, r, toTop);
      }
      BooksValid();
    }

    lemma MoveGuard(client: Client, handle: int, r: Rect, toTop: bool)
      requires Valid()
      ensures slots.Length == tree.Length == |State().slots| == WINDOW_COUNT && InOrder(State(), screen, ready)
      ensures if OPEN_MIN <= handle < WINDOW_COUNT
              then State().slots[handle] == slots[handle] && FrameOf(State(), handle) == tree[handle].data.rect
                   && (Movable(slots[handle], client, screen, ready, r).None? ==>
                         !MoveSucceeds(State(), screen, ready, client, handle, r, toTop))
              else !MoveSucceeds(State(), screen, ready, client, handle, r, toTop)
    {
    }

    method AnnounceMove(client: Client, handle: int, from: Rect, r: Rect, toTop: bool, effects: Effects,
                        ghost book: Book)
      requires Valid() && effects.dirty == None && effects.messages == []
      requires InOrder(book, screen, ready) && Moved(book, State(), screen, ready, client, handle, r, toTop)
      requires from == FrameOf(book, handle)
      modifies effects
      ensures effects.Backed()
      ensures effects.dirty == MoveDirty(screen, from, r)
      ensures Thrifty(Panes(State()), effects.dirty, effects.messages)
      ensures Joinable(screen, from, r) ==> GainsTold(Panes(book), Panes(State()), effects.messages)
    {
      hide *;
      Sizes();
      ValidBooks();
      effects.NoneBacked();
      effects.FrameDirty(screen, from);
      effects.FrameDirty(screen, r);
      MoveDirtyIs(from, r);
      Expose(effects);
      MovedCovers(client, handle, from, r, toTop, book);
      if Joinable(screen, from, r) {
        ExposedTold(handle, effects.dirty, book);
      }
    }

    lemma MovedCovers(client: Client, handle: int, from: Rect, r: Rect, toTop: bool, book: Book)
      requires Valid() && InOrder(book, screen, ready) && Moved(book, State(), screen, ready, client, handle, r, toTop)
      requires from == FrameOf(book, handle)
      ensures Joinable(screen, from, r) ==> Covers(book, State(), screen, ready, handle, MoveDirty(screen, from, r))
      ensures !overflow
    {
      hide Covers, Joinable, MoveDirty, Valid, Movable;
      ValidBooks();
      MoveMarked(book, State(), screen, ready, client, handle, r, toTop);
    }

    lemma MoveDirtyIs(from: Rect, r: Rect)
      ensures MoveDirty(screen, from, r) == FrameDirtied(screen, FrameDirtied(screen, None, from), r)
    {
    }

    /** WF_CXYWH, and WF_SIZTOP when `toTop`. Nothing changes when the call is refused or the pool runs out. */
    method SetCurrent(client: Client, handle: int, r: Rect, toTop: bool, effects: Effects) returns (ok: bool)
      requires Valid() && effects.dirty == None && effects.messages == []
      modifies this`top, this`order, this`pieces, this`overflow, slots, views, tree, pool, pool.nodes, effects
      ensures Valid()
      ensures ok == MoveSucceeds(old(State()), screen, ready, client, handle, r, toTop)
      ensures !ok ==> State() == old(State()) && effects.dirty == None && effects.messages == []
      ensures ok ==> Moved(old(State()), State(), screen, ready, client, handle, r, toTop)
      ensures ok && screen.boxHeight <= 16384 ==> WorkPlaced(State(), screen, handle, r)
      ensures ok ==> effects.dirty == MoveDirty(screen, FrameOf(old(State()), handle), r)
                     && Thrifty(Panes(State()), effects.dirty, effects.messages) && effects.Backed()
      ensures ok && Joinable(screen, FrameOf(old(State()), handle), r) ==>
                GainsTold(old(Panes(State())), Panes(State()), effects.messages)
    {
      hide *;
      Sizes();
      MoveGuard(client, handle, r, toTop);
      var work := if OPEN_MIN <= handle < WINDOW_COUNT then Movable(slots[handle], client, screen, ready, r) else None;
      var from := if OPEN_MIN <= handle < WINDOW_COUNT then tree[handle].data.rect else ZERO;
      ok := false;
      if work.Some? {
        ok := MoveFitting(handle, client, r, work.value, toTop);
        if ok {
          PlacedAfterMove(client, handle, r, toTop, old(State()));
          AnnounceMove(client, handle, from, r, toTop, effects, old(State()));
        }
      }
    }

    /** WF_TOP. Its redraw is skipped for a window that was not broken into pieces. */
    method SetTop(client: Client, handle: int, effects: Effects) returns (ok: bool)
      requires Valid() && effects.dirty == None && effects.messages == []
      modifies this`top, this`order, this`pieces, this`overflow, views, tree, pool, pool.nodes, effects
      ensures Valid()
      ensures ok == TopSucceeds(old(State()), client, handle)
      ensures !ok ==> State() == old(State()) && effects.dirty == None && effects.messages == []
      ensures ok ==> Raised(old(State()), State(), handle)
      ensures ok ==> effects.dirty == FrameDirtied(screen, None, FrameOf(old(State()), handle))
                     && Thrifty(Panes(State()), effects.dirty, effects.messages) && effects.Backed()
      ensures ok ==> (GainsTold(old(Panes(State())), Panes(State()), effects.messages) <==>
                      (old(Broken(handle)) && Shadowed(screen, FrameOf(old(State()), handle)))
                      || !Hidden(old(State()), handle))
    {
      hide Valid, Sound, Laid, Fits, InOrder, Raised, Restacked, Panes, GainsTold, OutersAll, Shadowed, Hidden, Thrifty;
      TopGuard(client, handle);
      ok := false;
      if OPEN_MIN <= handle < WINDOW_COUNT && Raisable(slots[handle], client) {
        var whole, r := !views[handle].broken, tree[handle].data.rect;
        ok := TopFitting(handle);
        if ok {
          AnnounceTop(handle, r, whole, effects, old(State()));
        }
      }
    }

    /** The visible part of the window was in several pieces when it was last built. */
    predicate Broken(handle: int)
      reads views
    {
      0 <= handle < views.Length && views[handle].broken
    }

    lemma TopGuard(client: Client, handle: int)
      requires Valid()
      ensures slots.Length == tree.Length == views.Length == |State().slots| == WINDOW_COUNT
      ensures InOrder(State(), screen, ready)
      ensures if OPEN_MIN <= handle < WINDOW_COUNT
              then State().slots[handle] == slots[handle] && State().outers[handle] == tree[handle].data.rect
                   && TopSucceeds(State(), client, handle) == (Raisable(slots[handle], client)
                         && Fits(slots[..], OutersAll(tree[..]), Restacked(order, handle, true)))
              else !TopSucceeds(State(), client, handle)
    {
    }

    method TopFitting(handle: int) returns (ok: bool)
      requires Valid() && OPEN_MIN <= handle < |State().slots| && State().slots[handle].inTree
      modifies this`top, this`order, this`pieces, this`overflow, views, tree, pool, pool.nodes
      ensures Valid() && InOrder(State(), screen, ready)
      ensures ok == Fits(old(slots[..]), old(OutersAll(tree[..])), Restacked(old(order), handle, true))
      ensures !ok ==> State() == old(State())
      ensures ok ==> Raised(old(State()), State(), handle)
    {
      hide *;
      Sizes();
      ValidBooks();
      SlotParts(handle);
      ok := RaiseAt(handle);
      if ok {
        RaiseInOrder(old(State()), State(), screen, ready, handle);
      }
      BooksValid();
    }

    method RaiseAt(handle: int) returns (ok: bool)
      requires Sound() && Laid(State()) && |pieces| == WINDOW_COUNT
      requires OPEN_MIN <= handle < WINDOW_COUNT && handle in order
      modifies this`top, this`order, this`pieces, this`overflow, views, tree, pool, pool.nodes
      ensures Sound() && Laid(State()) && |pieces| == WINDOW_COUNT
      ensures !ok ==> State() == old(State())
      ensures ok ==> Raised(old(State()), State(), handle)
      ensures ok == Fits(slots[..], old(OutersAll(tree[..])), Restacked(old(order), handle, true))
    {
      hide *;
      Sizes();
      ok := Raise(handle, true);
      if ok {
        RaisedNow(old(State()), handle);
      } else {
        var _ := Settle();
        LaidUnique(old(State()), State());
      }
    }

    lemma RaisedNow(book: Book, handle: int)
      requires slots[..] == book.slots && OutersAll(tree[..]) == book.outers && !overflow
      requires order == Restacked(book.order, handle, true)
      ensures Raised(book, State(), handle)
    {
    }

    method AnnounceTop(handle: int, r: Rect, whole: bool, effects: Effects, ghost book: Book)
      requires Valid() && effects.dirty == None && effects.messages == []
      requires InOrder(book, screen, ready) && OPEN_MIN <= handle < |book.slots| && book.slots[handle].inTree
      requires Raised(book, State(), handle) && handle < |book.outers| && r == book.outers[handle]
      modifies effects
      ensures effects.Backed()
      ensures effects.dirty == FrameDirtied(screen, None, r)
      ensures Thrifty(Panes(State()), effects.dirty, effects.messages)
      ensures GainsTold(Panes(book), Panes(State()), effects.messages) <==>
              (!whole && Shadowed(screen, r)) || !Hidden(book, handle)
    {
      ValidBooks();
      assert OPEN_MIN <= handle < WINDOW_COUNT && |State().shown| == WINDOW_COUNT && !overflow;
      hide *;
      Sizes();
      effects.NoneBacked();
      effects.FrameDirty(screen, r);
      RaisedGainsHidden(book, State(), screen, ready, handle);
      if !whole {
        Expose(effects);
        RaisedTold(handle, r, book);
      } else {
        QuietThrifty(effects.dirty);
      }
    }

    lemma QuietThrifty(dirty: Option<Rect>)
      requires Valid()
      ensures Thrifty(Panes(State()), dirty, [])
    {
      hide Thrifty, Panes, Valid;
      ValidBooks();
      NoneThrifty(Panes(State()), dirty);
    }

    /** With its frame shadowed all gains of the raised window are told, and without there is no message. */
    lemma RaisedTold(handle: int, r: Rect, book: Book)
      requires Valid() && InOrder(book, screen, ready) && OPEN_MIN <= handle < |book.slots| && book.slots[handle].inTree
      requires Raised(book, State(), handle) && handle < |book.outers| && r == book.outers[handle]
      ensures var messages := MessagesOf(State(), FrameDirtied(screen, None, r));
              if Shadowed(screen, r) then GainsTold(Panes(book), Panes(State()), messages) else messages == []
    {
      hide Covers, Shadowed, FrameDirtied, GainsTold, Panes, Valid;
      ValidBooks();
      RaiseInOrder(book, State(), screen, ready, handle);
      if Shadowed(screen, r) {
        ExposedTold(handle, FrameDirtied(screen, None, r), book);
      }
    }

    // Closing, creating and deleting

    /** WIND_CLOSE. The result of the rebuild is ignored: the pool may fail to hold what the closed window hid. */
    method Close(client: Client, handle: int, effects: Effects) returns (ok: bool)
      requires Valid() && effects.dirty == None && effects.messages == []
      modifies this`top, this`order, this`pieces, this`overflow, slots, views, tree, pool, pool.nodes, effects
      ensures Valid()
      ensures ok == old(1 <= handle < slots.Length && slots[handle].inUse && slots[handle].client == client
                        && slots[handle].inTree)
      ensures !ok ==> State() == old(State()) && effects.dirty == None && effects.messages == []
      ensures ok ==> Closed(old(State()), State(), handle)
      ensures ok ==> effects.dirty == FrameDirtied(screen, None, FrameOf(old(State()), handle))
                     && Thrifty(Panes(State()), effects.dirty, effects.messages) && effects.Backed()
      ensures ok && Shadowed(screen, FrameOf(old(State()), handle)) && !overflow ==>
                GainsTold(old(Panes(State())), Panes(State()), effects.messages)
    {
      hide Valid, Sound, Laid, Fits, InOrder, Closed, Panes, GainsTold, OutersAll, Shadowed, Thrifty;
      TopGuard(client, handle);
      ok := false;
      if OPEN_MIN <= handle < WINDOW_COUNT && Raisable(slots[handle], client) {
        var from := tree[handle].data.rect;
        CloseOpen(handle);
        AnnounceClose(handle, from, effects, old(State()));
        ok := true;
      }
    }

    method CloseOpen(handle: int)
      requires Valid() && OPEN_MIN <= handle < |State().slots| && State().slots[handle].inTree
      modifies this`top, this`order, this`pieces, this`overflow, slots, views, tree, pool, pool.nodes
      ensures Valid() && InOrder(State(), screen, ready)
      ensures Closed(old(State()), State(), handle)
    {
      ValidBooks();
      SlotParts(handle);
      assert handle < WINDOW_COUNT && handle < |State().outers| && |State().slots| == slots.Length;
      hide *;
      Sizes();
      CloseAt(handle, CloseSlot(slots[handle], tree[handle].data.rect));
      ClosedNow(old(State()), handle);
      CloseInOrder(old(State()), State(), screen, ready, handle);
      BooksValid();
    }

    method CloseAt(handle: int, slot: Slot)
      requires Sound() && OPEN_MIN <= handle < WINDOW_COUNT
      modifies this`top, this`order, this`pieces, this`overflow, slots, views, tree, pool, pool.nodes
      ensures Sound() && Laid(State()) && |pieces| == WINDOW_COUNT
      ensures slots[..] == old(slots[..])[handle := slot] && order == Minus(old(order), handle)
      ensures OutersAll(tree[..]) == old(OutersAll(tree[..]))[handle := ZERO]
    {
      hide *;
      Sizes();
      Detach(handle, slot, ZERO);
      ClearBroken(handle);
      var _ := Settle();
    }

    method ClearBroken(handle: int)
      requires Sound() && 0 <= handle < WINDOW_COUNT
      modifies views
      ensures Sound()
    {
      views[handle] := views[handle].(broken := false);
    }

    lemma ClosedNow(book: Book, handle: int)
      requires OPEN_MIN <= handle < |book.slots| && handle < |book.outers|
      requires slots[..] == book.slots[handle := CloseSlot(book.slots[handle], book.outers[handle])]
      requires OutersAll(tree[..]) == book.outers[handle := ZERO] && order == Minus(book.order, handle)
      ensures Closed(book, State(), handle)
    {
    }

    method AnnounceClose(handle: int, from: Rect, effects: Effects, ghost book: Book)
      requires Valid() && effects.dirty == None && effects.messages == []
      requires InOrder(book, screen, ready) && OPEN_MIN <= handle < |book.slots| && book.slots[handle].inTree
      requires Closed(book, State(), handle) && handle < |book.outers| && from == book.outers[handle]
      modifies effects
      ensures effects.Backed()
      ensures effects.dirty == FrameDirtied(screen, None, from)
      ensures Thrifty(Panes(State()), effects.dirty, effects.messages)
      ensures Shadowed(screen, from) && !overflow ==> GainsTold(Panes(book), Panes(State()), effects.messages)
    {
      ValidBooks();
      assert OPEN_MIN <= handle < WINDOW_COUNT && |State().shown| == WINDOW_COUNT;
      hide *;
      Sizes();
      effects.NoneBacked();
      effects.FrameDirty(screen, from);
      Expose(effects);
      CloseInOrder(book, State(), screen, ready, handle);
      if Shadowed(screen, from) {
        ClosedCovers(handle, from, book);
        ExposedTold(handle, effects.dirty, book);
      }
    }

    lemma ClosedCovers(handle: int, from: Rect, book: Book)
      requires FrameCovers(book, State(), screen, ready, handle) && 0 <= handle < |book.outers|
      requires from == book.outers[handle] && Shadowed(screen, from)
      ensures Covers(book, State(), screen, ready, handle, FrameDirtied(screen, None, from))
    {
    }

    /** WIND_CREATE: the first unused handle. */
    method Create(client: Client, kind: set<Gadget>, full: Rect) returns (handle: int)
      requires Valid()
      modifies slots, views, tree
      ensures Valid()
      ensures handle == NIL ==> State() == old(State())
      ensures handle == NIL <==> !Creatable(screen, ready, kind, full) || Full(old(State()))
      ensures handle != NIL ==> Created(old(State()), State(), handle, client, kind, full)
    {
      handle := NIL;
      if !Creatable(screen, ready, kind, full) {
        return;
      }
      hide Valid, Created, Full;
      SlotParts(ROOT);
      var h := FirstUnused();
      CreateGuard(h);
      if h < WINDOW_COUNT {
        handle := h;
        UnusedUnlisted(handle);
        ghost var book := State();
        Reset(handle, NewSlot(client, kind, full));
        IsCreated(book, State(), handle, client, kind, full);
      }
    }

    method FirstUnused() returns (h: int)
      requires slots.Length == WINDOW_COUNT
      ensures OPEN_MIN <= h <= WINDOW_COUNT
      ensures (forall g | OPEN_MIN <= g < h :: slots[g].inUse) && (h < WINDOW_COUNT ==> !slots[h].inUse)
    {
      h := OPEN_MIN;
      while h < WINDOW_COUNT && slots[h].inUse
        invariant OPEN_MIN <= h <= WINDOW_COUNT
        invariant forall g | OPEN_MIN <= g < h :: slots[g].inUse
      {
        h := h + 1;
      }
    }

    lemma CreateGuard(h: int)
      requires Valid() && slots.Length == WINDOW_COUNT && OPEN_MIN <= h <= WINDOW_COUNT
      requires (forall g | OPEN_MIN <= g < h :: slots[g].inUse) && (h < WINDOW_COUNT ==> !slots[h].inUse)
      ensures Full(State()) <==> h == WINDOW_COUNT
      ensures |State().slots| == |State().outers| == WINDOW_COUNT
      ensures forall g | OPEN_MIN <= g < h :: State().slots[g].inUse
      ensures h < WINDOW_COUNT ==> !State().slots[h].inUse
    {
      SlotParts(ROOT);
      assert forall g | OPEN_MIN <= g < WINDOW_COUNT :: State().slots[g] == slots[g];
    }

    lemma UnusedUnlisted(handle: int)
      requires Valid() && OPEN_MIN <= handle < WINDOW_COUNT && slots.Length == WINDOW_COUNT
      requires !slots[handle].inTree || !slots[handle].inUse
      ensures handle !in order && !slots[handle].inTree
      ensures |State().slots| == |State().outers| == WINDOW_COUNT
    {
    }

    lemma UnlistedShows(handle: int)
      requires Valid() && OPEN_MIN <= handle < WINDOW_COUNT && handle !in order
      ensures |pieces| == WINDOW_COUNT && Showing()[handle] == []
    {
      assert ([ROOT] + order)[..|order| + 1] == [ROOT] + order;
    }

    /** Overwrites the record of a handle that is not in the z-order. */
    method Reset(handle: int, slot: Slot)
      requires Valid() && OPEN_MIN <= handle < WINDOW_COUNT && handle !in order && !slot.inTree
      modifies slots, views, tree
      ensures Valid()
      ensures State() == old(State()).(slots := old(State()).slots[handle := slot],
                                       outers := old(State()).outers[handle := ZERO])
    {
      hide Valid, Sound, Laid, InOrder, Registered, Ordered, Run;
      ValidBooks();
      SlotParts(handle);
      UnlistedShows(handle);
      UnlistedLaid(State(), handle, slot, ZERO);
      UnlistedInOrder(State(), screen, ready, handle, slot, ZERO);
      Wipe(handle, slot);
      BooksValid();
    }

    method Wipe(handle: int, slot: Slot)
      requires Sound() && OPEN_MIN <= handle < WINDOW_COUNT && handle !in order && Showing()[handle] == []
      modifies slots, views, tree
      ensures Sound() && slots[..] == old(slots[..])[handle := slot]
      ensures OutersAll(tree[..]) == old(OutersAll(tree[..]))[handle := ZERO]
    {
      tree[handle] := CLEAR_FRAME;
      slots[handle] := slot;
      views[handle] := CLEAR_VIEW;
      OrderedKeep(old(tree[..]), tree[..], order, top);
    }

    /** WIND_DELETE: forgets a closed window. */
    method Delete(client: Client, handle: int) returns (ok: bool)
      requires Valid()
      modifies slots, views, tree
      ensures Valid()
      ensures ok == old(1 <= handle < slots.Length && slots[handle].inUse && slots[handle].client == client
                        && !slots[handle].inTree)
      ensures State() == if ok then old(State()).(slots := old(State()).slots[handle := CLEAR_SLOT],
                                                  outers := old(State()).outers[handle := ZERO]) else old(State())
    {
      SlotParts(ROOT);
      ok := OPEN_MIN <= handle < WINDOW_COUNT && Belongs(slots[handle], client) && !slots[handle].inTree;
      if ok {
        UnusedUnlisted(handle);
        Reset(handle, CLEAR_SLOT);
      }
    }

    // Queries

    /** WIND_FIND: the topmost window at a pixel of the screen. */
    method Find(x: int, y: int) returns (found: int)
      requires Valid()
      ensures found == if !ready || x < 0 || y < 0 || x >= screen.width || y >= screen.height then NIL
                       else TopAt(PanesNow(), x, y)
    {
      if !ready || x < 0 || y < 0 || x >= screen.width || y >= screen.height {
        return NIL;
      }
      PanesLinked();
      OrderHandles();
      found := ROOT;
      var handle := tree[ROOT].data.head;
      ghost var panes := PanesNow();
      ghost var k := 0;
      while handle != NIL && handle != ROOT
        invariant 0 <= k <= |order| && handle == SiblingAt(order, k)
        invariant found == TopAt(panes[..k], x, y)
        decreases |order| - k
      {
        assert LinkedPane(k, panes, ShownIn(order, Showing())) && panes[k].outer == tree[handle].data.rect;
        assert panes[..k + 1][..k] == panes[..k];
        if tree[handle].data.rect.Has(x, y) {
          found := handle;
        }
        handle := tree[handle].next;
        k := k + 1;
      }
      assert panes[..k] == panes;
    }

    /** What the client's walk over a window's pieces still has to show. */
    ghost function Ahead(handle: int): seq<Rect>
      requires 0 <= handle < views.Length && handle < slots.Length && handle < |pieces|
      reads this`pieces, slots, views, pool.nodes
    {
      Walk(slots[handle].work, Rects(pool.nodes[..], From(pieces[handle], views[handle].iter)))
    }

    /** The next visible part of a window's work area, or the zero rectangle behind the last. */
    method NextOwned(handle: int) returns (r: Rect)
      requires Valid() && 0 <= handle < WINDOW_COUNT == views.Length == slots.Length == |pieces|
      modifies views
      ensures Valid() && State() == old(State())
      ensures old(Ahead(handle)) == if r == ZERO then [] else [r] + Ahead(handle)
      ensures r == ZERO ==> Ahead(handle) == []
    {
      hide *;
      Sizes();
      WalkStart(handle);
      ghost var goal := Ahead(handle);
      var at, iter := views[handle].iter, views[handle].iter;
      r := ZERO;
      ghost var found := false;
      while at != NIL
        modifies {}
        invariant iter == at && r == ZERO && !found && Walking(handle, at, goal)
        decreases Remaining(handle, at)
      {
        WalkOn(handle, at, goal);
        iter := pool.nodes[at].next;
        var clip := Intersect(slots[handle].work, pool.nodes[at].data);
        if clip.Solid() {
          r, found := clip, true;
          break;
        }
        at := iter;
      }
      WalkEnd(handle, iter, found, r, goal);
      SetIter(handle, iter);
      AheadIs(handle);
    }

    /** From node `at` on the pieces have `goal` to show. */
    ghost predicate Walking(handle: int, at: int, goal: seq<Rect>)
      reads this`pieces, slots, pool.nodes
    {
      && 0 <= handle < slots.Length && handle < |pieces| && (at == NIL || at in pieces[handle])
      && goal == Walk(slots[handle].work, Rects(pool.nodes[..], From(pieces[handle], at)))
    }

    ghost function Remaining(handle: int, at: int): nat
      reads this`pieces
    {
      if 0 <= handle < |pieces| then |From(pieces[handle], at)| else 0
    }

    lemma WalkStart(handle: int)
      requires Valid() && 0 <= handle < WINDOW_COUNT == views.Length == slots.Length == |pieces|
      ensures Walking(handle, views[handle].iter, Ahead(handle))
    {
      ValidOrdered();
    }

    lemma WalkOn(handle: int, at: int, goal: seq<Rect>)
      requires Valid() && Walking(handle, at, goal) && at != NIL
      ensures 0 <= handle < slots.Length && 0 <= at < pool.nodes.Length
      ensures var (clip, iter) := (Intersect(slots[handle].work, pool.nodes[at].data), pool.nodes[at].next);
              && Remaining(handle, iter) < Remaining(handle, at)
              && (clip.Solid() ==> goal != [] && goal[0] == clip && Walking(handle, iter, goal[1..]))
              && (!clip.Solid() ==> Walking(handle, iter, goal))
    {
      ValidOrdered();
      ghost var (nodes, list) := (pool.nodes[..], pieces[handle]);
      FromStep(nodes, views[handle].first, list, at);
      WalkStep(slots[handle].work, nodes, at, From(list, nodes[at].next));
    }

    lemma WalkEnd(handle: int, iter: int, found: bool, r: Rect, goal: seq<Rect>)
      requires Valid() && 0 <= handle < |pieces|
      requires if found then r.Solid() && goal != [] && goal[0] == r && Walking(handle, iter, goal[1..])
               else r == ZERO && iter == NIL && Walking(handle, iter, goal)
      ensures handle < slots.Length && (iter == NIL || iter in pieces[handle])
      ensures var rest := Walk(slots[handle].work, Rects(pool.nodes[..], From(pieces[handle], iter)));
              goal == (if r == ZERO then [] else [r] + rest) && (r == ZERO ==> rest == [])
    {
      ValidOrdered();
      RunDistinct(pool.nodes[..], views[handle].first, pieces[handle], NIL);
      FromNil(pieces[handle]);
    }

    lemma AheadIs(handle: int)
      requires 0 <= handle < views.Length && handle < slots.Length && handle < |pieces|
      ensures Ahead(handle) == Walk(slots[handle].work, Rects(pool.nodes[..], From(pieces[handle], views[handle].iter)))
    {
    }

    /** Moves a walk, to a node of the window's list or behind its end. */
    method SetIter(handle: int, iter: int)
      requires Valid() && 0 <= handle < views.Length && handle < |pieces| && (iter == NIL || iter in pieces[handle])
      modifies views
      ensures Valid() && State() == old(State()) && views.Length == WINDOW_COUNT
      ensures views[handle] == old(views[handle]).(iter := iter)
    {
      hide Laid, Registered, Ordered;
      views[handle] := views[handle].(iter := iter);
      assert forall h | 0 <= h < views.Length :: views[h].first == old(views[h].first);
    }

    /** WF_FIRSTXYWH starts the walk over; together with NextOwned it shows every part in turn. */
    method FirstOwned(handle: int) returns (r: Rect)
      requires Valid() && 0 <= handle < WINDOW_COUNT == views.Length == slots.Length == |pieces|
      modifies views
      ensures Valid() && State() == old(State())
      ensures Walk(slots[handle].work, Showing()[handle]) == if r == ZERO then [] else [r] + Ahead(handle)
      ensures r == ZERO ==> Ahead(handle) == []
    {
      FirstWhole(handle);
      SetIter(handle, views[handle].first);
      r := NextOwned(handle);
    }

    lemma FirstWhole(handle: int)
      requires Valid() && 0 <= handle < WINDOW_COUNT == views.Length == |pieces|
      ensures views[handle].first == NIL || views[handle].first in pieces[handle]
      ensures From(pieces[handle], views[handle].first) == pieces[handle]
    {
      ValidOrdered();
    }

    // The end of a client

    /** Removes one window of a client that is gone; the other lists are rebuilt later. */
    method DropOne(handle: int, effects: Effects)
      requires Sound() && OPEN_MIN <= handle < WINDOW_COUNT && slots.Length == tree.Length == WINDOW_COUNT
      requires slots[handle].inTree <==> handle in order
      modifies this`top, this`order, this`pieces, slots, views, tree, pool, pool.nodes, effects`dirty,
               effects`background
      ensures Sound() && Dropped(old(State()), State(), handle) && |State().shown| == WINDOW_COUNT
      ensures effects.dirty == DropDirty(old(State()), screen, handle, old(effects.dirty))
      ensures old(effects.Backed()) ==> effects.Backed()
    {
      hide Run, Partition, Rects;
      if slots[handle].inTree {
        effects.FrameDirty(screen, tree[handle].data.rect);
      }
      Unlist(handle);
      Wipe(handle, CLEAR_SLOT);
    }

    /** Takes a window out of the z-order, if it is there, and gives its pieces back. */
    method Unlist(handle: int)
      requires Sound() && OPEN_MIN <= handle < WINDOW_COUNT && slots.Length == WINDOW_COUNT
      requires slots[handle].inTree <==> handle in order
      modifies this`top, this`order, this`pieces, views, tree, pool, pool.nodes
      ensures Sound() && handle !in order && |pieces| == WINDOW_COUNT && Showing()[handle] == []
      ensures order == Minus(old(order), handle) && OutersAll(tree[..]) == old(OutersAll(tree[..]))
    {
      hide Run, Partition, Rects;
      SoundOrdered();
      OrderDistinct();
      MinusGone(order, handle);
      if slots[handle].inTree {
        var _ := TreeDelete(handle);
      } else {
        MinusAbsent(order, handle);
      }
      ReleaseSlot(handle);
    }

    lemma OrderDistinct()
      requires Ordered(tree[..], order, top)
      ensures Distinct(order)
    {
    }

    /** Removes every window of a client that is gone. */
    method DropAll(client: Client, effects: Effects)
      requires Valid() && effects.dirty == None
      modifies this`top, this`order, this`pieces, slots, views, tree, pool, pool.nodes, effects`dirty,
               effects`background
      ensures Sound() && Departing(old(State()), State(), screen, ready, client, WINDOW_COUNT, effects.dirty)
      ensures effects.Backed()
    {
      hide *;
      Sizes();
      ValidBooks();
      effects.NoneBacked();
      ghost var book := State();
      DepartingStart(book, screen, ready, client);
      for handle := OPEN_MIN to WINDOW_COUNT
        invariant Sound() && Departing(book, State(), screen, ready, client, handle, effects.dirty)
        invariant effects.Backed()
      {
        DropGuard(book, client, handle, effects.dirty);
        ghost var now := State();
        if Belongs(slots[handle], client) {
          ghost var dirty := effects.dirty;
          DropOne(handle, effects);
          DepartingStep(book, now, State(), screen, ready, client, handle, dirty);
        } else {
          DepartingSkip(book, now, screen, ready, client, handle, effects.dirty);
        }
      }
    }

    lemma DropGuard(book: Book, client: Client, handle: int, dirty: Option<Rect>)
      requires Sound() && Departing(book, State(), screen, ready, client, handle, dirty)
      requires OPEN_MIN <= handle < WINDOW_COUNT
      ensures slots.Length == tree.Length == |State().slots| == WINDOW_COUNT
      ensures State().slots[handle] == slots[handle] && (slots[handle].inTree <==> handle in order)
    {
    }

    /** A client's end: its windows go at once, then the lists are rebuilt and the others are told. As with
        WIND_CLOSE the result of the rebuild is ignored. */
    method DetachClient(client: Client, effects: Effects)
      requires Valid() && effects.dirty == None && effects.messages == []
      modifies this`top, this`order, this`pieces, this`overflow, slots, views, tree, pool, pool.nodes, effects
      ensures Valid() && Left(old(State()), State(), client, screen) && effects.Backed()
      ensures Thrifty(Panes(State()), effects.dirty, effects.messages)
      ensures Roomy(old(State()), screen) && !overflow ==>
                GainsTold(old(Panes(State())), Panes(State()), effects.messages)
    {
      hide *;
      Sizes();
      DropAll(client, effects);
      ghost var (book, now, dirty) := (old(State()), State(), effects.dirty);
      DisownRoot(client, effects);
      ghost var now' := State();
      DepartingEnd(book, now, now', screen, ready, client, dirty);
      var _ := Settle();
      LeftRebuilt(book, now', State(), screen, ready, client);
      BooksValid();
      Expose(effects);
      if Roomy(book, screen) && !overflow {
        DepartedTold(book, effects.dirty);
      }
    }

    /** Hands the root back to the system when its owner is gone. */
    method DisownRoot(client: Client, effects: Effects)
      requires Sound()
      modifies slots, effects`dirty, effects`background
      ensures Sound() && |old(State()).slots| > 0
      ensures State() == old(State()).(slots := old(State()).slots[ROOT := RootLeft(old(State()).slots[ROOT], client,
                                                                                    screen)])
      ensures effects.dirty == RootDirty(old(State()).slots[ROOT], client, old(effects.dirty))
      ensures old(effects.Backed()) ==> effects.Backed()
    {
      if slots[ROOT].client == client {
        slots[ROOT] := slots[ROOT].(client := Client(screen.system.channel, 0));
        effects.BackgroundDirty(slots[ROOT].work);
      }
    }

    lemma DepartedTold(book: Book, dirty: Option<Rect>)
      requires Valid() && !overflow && Tidy(Panes(book), Panes(State()), screen, dirty)
      ensures GainsTold(Panes(book), Panes(State()), MessagesOf(State(), dirty))
    {
      hide GainsTold, Panes, MessagesOf, Valid, Quiet;
      ValidBooks();
      DepartureTold(Panes(book), State(), screen, ready, dirty);
    }

    // Starting up

    /** Sets the manager up for a screen, forgetting all windows. Refused metrics change nothing. */
    method Configure(system: int, width: int, height: int, boxWidth: int, boxHeight: int) returns (ok: bool)
      requires Valid()
      modifies this, slots, views, tree, pool, pool.nodes
      ensures Valid()
      ensures ok == (0 < boxWidth < width <= 32767 && 0 < boxHeight < height <= 32767)
      ensures !ok ==> State() == old(State()) && screen == old(screen) && ready == old(ready)
      ensures ok ==> ready && screen == Screen(Client(system, 0), width, height, boxWidth, boxHeight)
                     && Configured(State(), screen)
    {
      ok := Configurable(width, height, boxWidth, boxHeight);
      if ok {
        SetUp(Screen(Client(system, 0), width, height, boxWidth, boxHeight));
      }
    }

    method SetUp(s: Screen)
      requires Valid() && Configurable(s.width, s.height, s.boxWidth, s.boxHeight)
      modifies this, slots, views, tree, pool, pool.nodes
      ensures Valid() && ready && screen == s && Configured(State(), s)
    {
      hide *;
      Sizes();
      AllocatedSizes();
      Start();
      UnusedSound();
      ready, screen := true, s;
      PlaceRoot(s);
      var ok := Settle(); // a single piece: this cannot fail
      RootConfigured(s, ok);
      ConfiguredInOrder(State(), s);
      BooksValid();
    }

    lemma AllocatedSizes()
      requires Valid()
      ensures slots.Length == views.Length == tree.Length == WINDOW_COUNT && pool.nodes.Length == RECT_COUNT
    {
    }

    lemma UnusedSound()
      requires Valid() && Unused(State())
      ensures Sound() && order == []
      ensures slots[..] == seq(WINDOW_COUNT, _ => CLEAR_SLOT) && OutersAll(tree[..]) == seq(WINDOW_COUNT, _ => ZERO)
    {
    }

    /** What the manager is to be once the root's pieces are built. */
    ghost predicate RootReady(s: Screen)
      reads this`order, slots, tree
    {
      && slots[..] == seq(WINDOW_COUNT, _ => CLEAR_SLOT)[ROOT := RootSlot(s)]
      && OutersAll(tree[..]) == seq(WINDOW_COUNT, _ => ZERO)[ROOT := Rect(0, 0, s.width, s.height)]
      && order == []
    }

    method PlaceRoot(s: Screen)
      requires Sound() && order == []
      requires slots[..] == seq(WINDOW_COUNT, _ => CLEAR_SLOT) && OutersAll(tree[..]) == seq(WINDOW_COUNT, _ => ZERO)
      modifies slots, tree
      ensures Sound() && RootReady(s)
    {
      Place(ROOT, RootSlot(s), Rect(0, 0, s.width, s.height));
    }

    lemma RootConfigured(s: Screen, ok: bool)
      requires RootReady(s) && overflow == !ok && ok == Fits(slots[..], OutersAll(tree[..]), order)
      ensures ok && Configured(State(), s)
    {
      RootFits(slots[..], OutersAll(tree[..]));
    }

    // Damage

    /** Repaints part of the screen after a menu or form went away: the background and what windows show there. */
    method Damage(r: Rect, effects: Effects) returns (ok: bool)
      requires Valid() && effects.dirty == None && effects.messages == []
      modifies effects
      ensures ok == (ready && Intersect(RootWork(screen, ready), r).Solid())
      ensures !ok ==> effects.dirty == None && effects.messages == []
      ensures ok ==> effects.background && effects.dirty == Some(Intersect(RootWork(screen, ready), r))
      ensures ok ==> Thrifty(Panes(State()), effects.dirty, effects.messages)
      ensures ok && !overflow ==>
                DamageTold(Panes(State()), Intersect(RootWork(screen, ready), r), effects.messages)
    {
      ok := false;
      if !ready {
        return;
      }
      RootIs();
      var clip := Intersect(slots[ROOT].work, r);
      if clip.Solid() {
        ok := true;
        effects.BackgroundDirty(clip);
        Repaint(effects, clip);
      }
    }

    lemma RootIs()
      requires Valid()
      ensures slots.Length == WINDOW_COUNT && slots[ROOT].work == RootWork(screen, ready)
    {
    }

    method Repaint(effects: Effects, damage: Rect)
      requires Valid() && effects.dirty == Some(damage) && effects.messages == []
      modifies effects`messages
      ensures Thrifty(Panes(State()), effects.dirty, effects.messages)
      ensures !overflow ==> DamageTold(Panes(State()), damage, effects.messages)
    {
      hide *;
      Sizes();
      Expose(effects);
      if !overflow {
        DamagedTold(damage);
      }
    }

    lemma DamagedTold(damage: Rect)
      requires Valid() && !overflow
      ensures DamageTold(Panes(State()), damage, MessagesOf(State(), Some(damage)))
    {
      hide DamageTold, Panes, MessagesOf, Valid;
      ValidBooks();
      DamageIsTold(State(), screen, ready, damage);
    }
  }
}
