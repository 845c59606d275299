/** The window manager's records as values: what makes them consistent, and what they say is visible. */
module Books {
  import opened Geometry
  import opened Links
  import opened Pieces
  import opened RectPool
  import opened Scene
  import opened Wrappers
  import opened ZOrder

  datatype Gadget = Name | Closer | Fuller | Mover | Info | Sizer | UpArrow | DnArrow | VSlide
                  | LfArrow | RtArrow | HSlide | HotClose

  /** What the manager keeps for one handle. */
  datatype Slot = Slot(inUse: bool, inTree: bool, kind: set<Gadget>, client: Client,
                       full: Rect, work: Rect, previous: Rect)

  /** The physical metrics the manager was configured with. */
  datatype Screen = Screen(system: Client, width: Word, height: Word, boxWidth: Word, boxHeight: Word)

  /** The work area inside a frame: one pixel of border, plus a box for each title, information line and slider bar.
      Border sums are machine words. */
  function WorkRect(screen: Screen, kind: set<Gadget>, outer: Rect): Option<Rect> {
    var title := if kind * {Name, Closer, Fuller} != {} then screen.boxHeight - 1 else 0;
    var info := if Info in kind then screen.boxHeight - 1 else 0;
    var vertical := if kind * {UpArrow, DnArrow, VSlide, Sizer} != {} then screen.boxWidth - 1 else 0;
    var horizontal := if kind * {LfArrow, RtArrow, HSlide, Sizer} != {} then screen.boxHeight - 1 else 0;
    var top := Wrap(1 + title + info);
    var bottom := Wrap(1 + horizontal);
    var right := Wrap(1 + vertical);
    if outer.w <= Wrap(1 + right) || outer.h <= Wrap(top + bottom) then None
    else if outer.x + 1 > WORD_MAX || !(WORD_MIN <= outer.y + top <= WORD_MAX) then None
    else Some(Rect(outer.x + 1, outer.y + top, Wrap(outer.w - 1 - right), Wrap(outer.h - top - bottom)))
  }

  /** A frame a client may ask for: on the screen, not hidden behind the menu bar, and with room for a work area. */
  function PublicRect(screen: Screen, ready: bool, kind: set<Gadget>, r: Rect): (work: Option<Rect>)
    ensures work.Some? ==> OnScreen(screen, r)
  {
    if !ready || r.x < -1 || r.y < 0 || !r.Solid() || r.Right() <= 0 || r.Bottom() <= screen.boxHeight
       || r.Right() > screen.width || r.Bottom() > screen.height
    then None
    else WorkRect(screen, kind, r)
  }

  predicate OnScreen(screen: Screen, r: Rect) {
    r.Solid() && r.x >= -1 && r.y >= 0 && r.Right() <= screen.width && r.Bottom() <= screen.height
  }

  /** A frame with its drop shadow, two pixels right and below, as far as the screen reaches. */
  function Grown(screen: Screen, r: Rect): Rect {
    var (w, h) := (Wrap(r.w + 2), Wrap(r.h + 2));
    var (right, bottom) := (Wrap(screen.width - r.x), Wrap(screen.height - r.y));
    Rect(r.x, r.y, if w > right then right else w, if h > bottom then bottom else h)
  }

  /** The dirty area after one more rectangle. */
  function Dirtied(area: Option<Rect>, r: Rect): Option<Rect> {
    if r.Empty() then area
    else match area
      case None => Some(r)
      case Some(dirty) => Some(Enclose(r, dirty))
  }

  function FrameDirtied(screen: Screen, area: Option<Rect>, frame: Rect): Option<Rect> {
    if frame.Empty() then area else Dirtied(area, Grown(screen, frame))
  }

  /** The size with the shadow and the room right of the frame both fit a word. No guard of the code asks for that. */
  predicate Shadowed(screen: Screen, r: Rect) {
    r.w + 2 <= WORD_MAX && r.h + 2 <= WORD_MAX && screen.width - r.x <= WORD_MAX
  }

  /** The screen, and the column left of it where a frame may put its border. */
  function Glass(screen: Screen): Rect
    requires screen.width < WORD_MAX
  {
    Rect(-1, 0, screen.width + 1, screen.height)
  }

  /** The grown frame covers the frame exactly when the frame is shadowed, and is empty when it is not. */
  lemma GrownCovers(screen: Screen, r: Rect)
    requires OnScreen(screen, r)
    ensures (forall px, py :: r.Has(px, py) ==> Grown(screen, r).Has(px, py)) <==> Shadowed(screen, r)
    ensures if Shadowed(screen, r) then Within(r, Grown(screen, r)) else Grown(screen, r).Empty()
    ensures Shadowed(screen, r) && screen.width < WORD_MAX ==> Within(Grown(screen, r), Glass(screen))
  {
    hide Wrap;
    WrapPast(r.w + 2);
    WrapPast(r.h + 2);
    WrapPast(screen.width - r.x);
    WrapPast(screen.height - r.y);
    assert r.Has(r.x, r.y);
  }

  lemma WrapPast(v: int)
    requires 0 <= v <= WORD_MAX + 2
    ensures if v <= WORD_MAX then Wrap(v) == v else Wrap(v) < 0
  {
  }

  const NOBODY := Client(NIL, 0)
  const CLEAR_SLOT := Slot(false, false, {}, NOBODY, ZERO, ZERO, ZERO)

  /** The first k handles of the stack show the first k lists; handles not among them show nothing. */
  ghost predicate ShownTo(stack: seq<int>, shown: seq<seq<Rect>>, lists: seq<seq<Rect>>, k: nat) {
    && k <= |stack| == |lists|
    && (forall i | 0 <= i < |stack| :: 0 <= stack[i] < |shown|)
    && (forall i | 0 <= i < k :: shown[stack[i]] == lists[i])
    && (forall h | 0 <= h < |shown| && h !in stack[..k] :: shown[h] == [])
  }

  lemma ShownUnique(stack: seq<int>, shown: seq<seq<Rect>>, shown': seq<seq<Rect>>, lists: seq<seq<Rect>>)
    requires ShownTo(stack, shown, lists, |stack|) && ShownTo(stack, shown', lists, |stack|) && |shown| == |shown'|
    ensures shown == shown'
  {
    assert stack[..|stack|] == stack;
    forall h | 0 <= h < |shown|
      ensures shown[h] == shown'[h]
    {
      if h in stack {
        var i :| 0 <= i < |stack| && stack[i] == h;
      }
    }
  }

  lemma ShownStep(stack: seq<int>, shown: seq<seq<Rect>>, shown': seq<seq<Rect>>, lists: seq<seq<Rect>>, k: nat)
    requires ShownTo(stack, shown, lists, k) && k < |stack| && Distinct(stack)
    requires shown' == shown[stack[k] := lists[k]]
    ensures ShownTo(stack, shown', lists, k + 1)
    ensures (forall i | k < i < |stack| :: lists[i] == []) ==> ShownTo(stack, shown', lists, |stack|)
  {
    assert stack[..k + 1] == stack[..k] + [stack[k]];
    assert stack[..|stack|] == stack;
    assert forall i | k < i < |stack| :: stack[i] !in stack[..k];
  }

  /** What clients can tell of the manager: the slots, the frames, the z-order and the visible pieces. */
  datatype Book = Book(slots: seq<Slot>, outers: seq<Rect>, order: seq<int>, shown: seq<seq<Rect>>, overflow: bool)

  /** Open windows are in the z-order, have a legal frame and the work area that belongs to it. */
  ghost predicate Registered(slots: seq<Slot>, outers: seq<Rect>, order: seq<int>, screen: Screen, ready: bool) {
    && |slots| == |outers| == WINDOW_COUNT
    && (forall h | OPEN_MIN <= h < WINDOW_COUNT :: slots[h].inTree <==> h in order)
    && (forall h | OPEN_MIN <= h < WINDOW_COUNT && h in order ::
          slots[h].inUse && PublicRect(screen, ready, slots[h].kind, outers[h]) == Some(slots[h].work))
    && slots[ROOT].work == RootWork(screen, ready)
    && (ready ==> 0 < screen.boxWidth < screen.width && 0 < screen.boxHeight < screen.height)
  }

  function RootWork(screen: Screen, ready: bool): Rect {
    if ready && screen.boxHeight <= screen.height
    then Rect(0, screen.boxHeight, screen.width, Wrap(screen.height - screen.boxHeight)) else ZERO
  }

  ghost function PaneOf(slots: seq<Slot>, outers: seq<Rect>, h: int): (pane: Pane)
    ensures pane.handle == h
  {
    if 0 <= h < |slots| && h < |outers| then Pane(h, slots[h].client, outers[h], slots[h].work)
    else Pane(h, NOBODY, ZERO, ZERO)
  }

  /** The stack of open windows, bottom to top. */
  ghost function PanesOf(slots: seq<Slot>, outers: seq<Rect>, order: seq<int>): (panes: seq<Pane>)
    ensures |panes| == |order|
  {
    seq(|order|, i requires 0 <= i < |order| => PaneOf(slots, outers, order[i]))
  }

  /** The stack the piece lists are cut from. */
  ghost function BasesOf(slots: seq<Slot>, outers: seq<Rect>, order: seq<int>): (bases: seq<Rect>)
    ensures |bases| == |order| + 1
  {
    Bases(PaneOf(slots, outers, ROOT).work, PanesOf(slots, outers, order))
  }

  /** The visible pieces on the books are the ones its frames and z-order give rise to, also when the pool ran out. */
  ghost predicate Laid(book: Book) {
    var layout := Layers(BasesOf(book.slots, book.outers, book.order), RECT_COUNT);
    book.overflow == !layout.ok && ShownTo([ROOT] + book.order, book.shown, layout.lists, |book.order| + 1)
  }

  /** So the books are settled by slots, frames and z-order alone. */
  lemma LaidUnique(book: Book, book': Book)
    requires Laid(book) && Laid(book') && |book.shown| == |book'.shown|
    requires book.slots == book'.slots && book.outers == book'.outers && book.order == book'.order
    ensures book == book'
  {
    var layout := Layers(BasesOf(book.slots, book.outers, book.order), RECT_COUNT);
    ShownUnique([ROOT] + book.order, book.shown, book'.shown, layout.lists);
  }

  /** Opening a window with a legal frame keeps the books in order. */
  lemma RegisteredOpen(slots: seq<Slot>, outers: seq<Rect>, order: seq<int>, screen: Screen, ready: bool, handle: int,
                       slot: Slot, r: Rect)
    requires Registered(slots, outers, order, screen, ready) && OPEN_MIN <= handle < WINDOW_COUNT && handle !in order
    requires slot.inUse && slot.inTree && PublicRect(screen, ready, slot.kind, r) == Some(slot.work)
    ensures Registered(slots[handle := slot], outers[handle := r], order + [handle], screen, ready)
  {
  }

  lemma RegisteredClose(slots: seq<Slot>, outers: seq<Rect>, order: seq<int>, screen: Screen, ready: bool, handle: int,
                        slot: Slot, r: Rect)
    requires Registered(slots, outers, order, screen, ready) && OPEN_MIN <= handle < WINDOW_COUNT && Distinct(order)
    requires !slot.inTree
    ensures Registered(slots[handle := slot], outers[handle := r], Minus(order, handle), screen, ready)
  {
    MinusGone(order, handle);
  }

  /** What each window of the stack shows. */
  ghost function ShownIn(order: seq<int>, shown: seq<seq<Rect>>): (lists: seq<seq<Rect>>)
    ensures |lists| == |order|
  {
    seq(|order|, i requires 0 <= i < |order| => if 0 <= order[i] < |shown| then shown[order[i]] else [])
  }

  // What an operation exposes

  /** Every frame on this screen is shadowed, and frames can be enclosed. */
  predicate Modest(screen: Screen) {
    screen.width <= WORD_MAX - 3 && screen.height <= WORD_MAX - 3
  }


  /** The dirty area holds the pixels of a rectangle. */
  ghost predicate Marked(dirty: Option<Rect>, r: Rect) {
    dirty.Some? && forall px, py :: r.Has(px, py) ==> dirty.value.Has(px, py)
  }

  lemma MarkedOne(screen: Screen, frame: Rect)
    requires OnScreen(screen, frame)
    ensures if Shadowed(screen, frame) then Marked(FrameDirtied(screen, None, frame), frame)
            else FrameDirtied(screen, None, frame) == None
  {
    GrownCovers(screen, frame);
  }

  lemma MarkedFrame(screen: Screen, area: Option<Rect>, frame: Rect)
    requires screen.width < WORD_MAX && OnScreen(screen, frame) && Shadowed(screen, frame)
    requires area.Some? ==> Within(area.value, Glass(screen))
    ensures var dirty := FrameDirtied(screen, area, frame);
            Marked(dirty, frame) && Within(dirty.value, Glass(screen)) && (area.Some? ==> Marked(dirty, area.value))
  {
    hide Enclose, Grown;
    GrownCovers(screen, frame);
    if area.Some? {
      EncloseKeeps(Grown(screen, frame), area.value, Glass(screen));
    }
  }

  /** Whoever can see new pixels of its work area is told to redraw them. */
  ghost predicate GainsTold(before: seq<Pane>, after: seq<Pane>, messages: seq<Message>) {
    forall pane, px, py | pane in after && Owns(after, pane, px, py)
        && !(pane in before && Owns(before, pane, px, py)) ::
      Told(pane, px, py, messages)
  }

  ghost predicate Told(pane: Pane, px: int, py: int, messages: seq<Message>) {
    exists m | m in messages :: m.handle == pane.handle && m.client == pane.client && m.rect.Has(px, py)
  }

  /** Every pixel a window's work area owns within the dirty area is in a redraw message to that window. */
  lemma OwnedDirtyTold(root: Rect, panes: seq<Pane>, shown: seq<seq<Rect>>, dirty: Rect, i: nat, px: int, py: int)
    requires root.Empty() || root.Solid()
    requires DistinctHandles(panes) && forall k | 0 <= k < |panes| :: panes[k].outer.Solid()
    requires var layout := Layers(Bases(root, panes), RECT_COUNT); layout.ok && shown == layout.lists[1..]
    requires i < |panes| && dirty.Has(px, py) && Owns(panes, panes[i], px, py)
    ensures Told(panes[i], px, py, Redraws(panes, shown, dirty))
  {
    var list := Layers(Bases(root, panes), RECT_COUNT).lists[i + 1];
    assert shown[i] == list;
    VisiblePieces(root, panes, RECT_COUNT, i + 1, px, py);
    forall k | 0 <= k < |list|
      ensures Within(list[k], panes[i].outer)
    {
      forall qx, qy | list[k].Has(qx, qy)
        ensures panes[i].outer.Has(qx, qy)
      {
        LayersExact(Bases(root, panes), RECT_COUNT, i + 1);
        assert Covered(list, qx, qy);
      }
      WithinIs(list[k], panes[i].outer);
    }
    RedrawsCover(panes, shown, dirty, i, px, py);
  }

  lemma PanesSnoc(slots: seq<Slot>, outers: seq<Rect>, order: seq<int>, last: int)
    ensures PanesOf(slots, outers, order + [last]) == PanesOf(slots, outers, order) + [PaneOf(slots, outers, last)]
  {
  }

  /** The panes other than `handle` do not change when only that window's slot, frame and place in the order do. */
  lemma {:induction false} WithoutIsMinus(slots: seq<Slot>, outers: seq<Rect>, order: seq<int>, handle: int)
    requires Distinct(order)
    ensures Without(PanesOf(slots, outers, order), handle) == PanesOf(slots, outers, Minus(order, handle))
  {
    if order != [] {
      var (front, last) := (order[..|order| - 1], order[|order| - 1]);
      assert order == front + [last];
      var panes := PanesOf(slots, outers, front);
      PanesSnoc(slots, outers, front, last);
      WithoutIsMinus(slots, outers, front, handle);
      MinusSnoc(front, last, handle);
      assert (panes + [PaneOf(slots, outers, last)])[..|panes|] == panes;
      if last == handle {
        MinusAbsent(front, handle);
      } else {
        PanesSnoc(slots, outers, Minus(front, handle), last);
      }
    }
  }

  lemma SameOthers(slots: seq<Slot>, outers: seq<Rect>, order: seq<int>, slots': seq<Slot>, outers': seq<Rect>,
                   order': seq<int>, handle: int)
    requires Distinct(order) && Distinct(order') && Minus(order', handle) == Minus(order, handle)
    requires |slots| == |slots'| && |outers| == |outers'| && 0 <= handle < |slots| && handle < |outers|
    requires slots' == slots[handle := slots'[handle]] && outers' == outers[handle := outers'[handle]]
    ensures Without(PanesOf(slots, outers, order), handle) == Without(PanesOf(slots', outers', order'), handle)
  {
    WithoutIsMinus(slots, outers, order, handle);
    WithoutIsMinus(slots', outers', order', handle);
    MinusGone(order, handle);
  }

  /** The exposure theorem: when one window alone is opened, moved, restacked or closed, the pool suffices and the
      dirty area covers its old and its new frame, then every newly visible pixel of any work area is announced. */
  lemma ExposuresTold(before: seq<Pane>, after: seq<Pane>, handle: int, root: Rect, shown: seq<seq<Rect>>, dirty: Rect)
    requires root.Empty() || root.Solid()
    requires DistinctHandles(before) && DistinctHandles(after) && forall k | 0 <= k < |after| :: after[k].outer.Solid()
    requires Without(before, handle) == Without(after, handle)
    requires var layout := Layers(Bases(root, after), RECT_COUNT); layout.ok && shown == layout.lists[1..]
    requires forall p, px, py | p in before + after && p.handle == handle && p.outer.Has(px, py) :: dirty.Has(px, py)
    ensures GainsTold(before, after, Redraws(after, shown, dirty))
  {
    forall pane, px, py | pane in after && Owns(after, pane, px, py) && !(pane in before && Owns(before, pane, px, py))
      ensures Told(pane, px, py, Redraws(after, shown, dirty))
    {
      GainsInsideFrames(before, after, handle, pane, px, py);
      var i :| 0 <= i < |after| && after[i] == pane;
      OwnedDirtyTold(root, after, shown, dirty, i, px, py);
    }
  }

  function WorkOf(book: Book, handle: int): Rect {
    if 0 <= handle < |book.slots| then book.slots[handle].work else ZERO
  }

  function FrameOf(book: Book, handle: int): Rect {
    if 0 <= handle < |book.outers| then book.outers[handle] else ZERO
  }

  ghost function Panes(book: Book): (panes: seq<Pane>)
    ensures |panes| == |book.order|
  {
    PanesOf(book.slots, book.outers, book.order)
  }

  /** The books of a configured manager in good order. */
  ghost predicate InOrder(book: Book, screen: Screen, ready: bool) {
    && Registered(book.slots, book.outers, book.order, screen, ready) && Distinct(book.order)
    && (forall i | 0 <= i < |book.order| :: OPEN_MIN <= book.order[i] < WINDOW_COUNT)
    && |book.shown| == WINDOW_COUNT
  }

  lemma PanesInOrder(book: Book, screen: Screen, ready: bool)
    requires InOrder(book, screen, ready)
    ensures DistinctHandles(Panes(book))
    ensures forall k | 0 <= k < |Panes(book)| ::
              OnScreen(screen, Panes(book)[k].outer) && Panes(book)[k].handle in book.order
              && Panes(book)[k].outer == book.outers[Panes(book)[k].handle]
  {
    hide PublicRect, OnScreen, WorkRect, RootWork;
    var panes := Panes(book);
    forall k | 0 <= k < |panes|
      ensures OnScreen(screen, panes[k].outer) && panes[k].handle in book.order
              && panes[k].outer == book.outers[panes[k].handle]
    {
      var h := book.order[k];
      assert PublicRect(screen, ready, book.slots[h].kind, book.outers[h]) == Some(book.slots[h].work);
    }
  }

  lemma RootInOrder(book: Book, screen: Screen, ready: bool)
    requires InOrder(book, screen, ready)
    ensures var root := PaneOf(book.slots, book.outers, ROOT).work; root.Empty() || root.Solid()
  {
  }

  lemma LaidShown(book: Book)
    requires Laid(book)
    ensures Layers(BasesOf(book.slots, book.outers, book.order), RECT_COUNT).lists[1..]
            == ShownIn(book.order, book.shown)
  {
    hide Layers, BasesOf;
    var lists := Layers(BasesOf(book.slots, book.outers, book.order), RECT_COUNT).lists;
    forall i | 0 <= i < |book.order|
      ensures lists[1..][i] == ShownIn(book.order, book.shown)[i]
    {
      assert ([ROOT] + book.order)[i + 1] == book.order[i];
    }
  }

  lemma ListedOnScreen(book: Book, screen: Screen, ready: bool, handle: int)
    requires InOrder(book, screen, ready) && OPEN_MIN <= handle < WINDOW_COUNT && handle in book.order
    ensures OnScreen(screen, book.outers[handle])
  {
  }

  /** What one operation on `handle` did to the books, as far as other windows can tell: nothing. */
  ghost predicate OnlyChanged(book: Book, book': Book, handle: int) {
    && OPEN_MIN <= handle < WINDOW_COUNT
    && |book.slots| == |book'.slots| == |book.outers| == |book'.outers| == WINDOW_COUNT
    && book'.slots == book.slots[handle := book'.slots[handle]]
    && book'.outers == book.outers[handle := book'.outers[handle]]
    && Minus(book'.order, handle) == Minus(book.order, handle)
  }

  /** The dirty area an operation on `handle` left covers the old and the new frame. */
  ghost predicate Covers(book: Book, book': Book, screen: Screen, ready: bool, handle: int, dirty: Option<Rect>) {
    && InOrder(book, screen, ready) && OnlyChanged(book, book', handle) && dirty.Some?
    && (handle in book.order ==> Marked(dirty, book.outers[handle]))
    && (handle in book'.order ==> Marked(dirty, book'.outers[handle]))
  }

  /** ExposuresTold for the books before and after an operation. */
  lemma OperationTold(book: Book, book': Book, screen: Screen, ready: bool, handle: int, dirty: Option<Rect>)
    requires InOrder(book', screen, ready) && Covers(book, book', screen, ready, handle, dirty)
    requires Laid(book') && !book'.overflow
    ensures GainsTold(Panes(book), Panes(book'), MessagesOf(book', dirty))
  {
    PanesInOrder(book, screen, ready);
    PanesInOrder(book', screen, ready);
    RootInOrder(book', screen, ready);
    LaidShown(book');
    SameOthers(book.slots, book.outers, book.order, book'.slots, book'.outers, book'.order, handle);
    hide Registered, ShownTo, Layers, PanesOf, Minus, Redraws, ShownIn, GainsTold, Without;
    var root := PaneOf(book'.slots, book'.outers, ROOT).work;
    ExposuresTold(Panes(book), Panes(book'), handle, root, ShownIn(book'.order, book'.shown), dirty.value);
  }

  /** The pool suffices for these frames in this order. */
  ghost predicate Fits(slots: seq<Slot>, outers: seq<Rect>, order: seq<int>) {
    Layers(BasesOf(slots, outers, order), RECT_COUNT).ok
  }

  /** The work area a closed window of this client would get with frame `r`; none when it may not be opened so. */
  function Openable(slot: Slot, client: Client, screen: Screen, ready: bool, r: Rect): Option<Rect> {
    if slot.inUse && slot.client == client && !slot.inTree then PublicRect(screen, ready, slot.kind, r) else None
  }

  /** The books after a window was put on top with a new slot and frame; the visible pieces follow from the rest. */
  ghost predicate Topped(book: Book, book': Book, handle: int, slot: Slot, r: Rect) {
    && 0 <= handle < |book.slots| && handle < |book.outers|
    && book'.slots == book.slots[handle := slot] && book'.outers == book.outers[handle := r]
    && book'.order == book.order + [handle] && !book'.overflow
  }

  /** The slot of a window opened with frame `r`. */
  function OpenSlot(slot: Slot, r: Rect, work: Rect): Slot {
    slot.(work := work, previous := r, inTree := true)
  }

  /** Exactly when WIND_OPEN succeeds: the client owns the closed window, the frame is legal and the pool suffices. */
  ghost predicate OpenSucceeds(book: Book, screen: Screen, ready: bool, client: Client, handle: int, r: Rect) {
    && OPEN_MIN <= handle < |book.slots| && handle < |book.outers|
    && var work := Openable(book.slots[handle], client, screen, ready, r);
    && work.Some?
    && Fits(book.slots[handle := OpenSlot(book.slots[handle], r, work.value)], book.outers[handle := r],
            book.order + [handle])
  }

  /** What WIND_OPEN does to the books. */
  ghost predicate Opened(book: Book, book': Book, screen: Screen, ready: bool, client: Client, handle: int, r: Rect) {
    && OPEN_MIN <= handle < |book.slots| && handle < |book.outers|
    && var work := Openable(book.slots[handle], client, screen, ready, r);
    && work.Some?
    && Topped(book, book', handle, OpenSlot(book.slots[handle], r, work.value), r)
  }

  lemma OpenInOrder(book: Book, book': Book, screen: Screen, ready: bool, client: Client, handle: int, r: Rect)
    requires InOrder(book, screen, ready) && |book'.shown| == WINDOW_COUNT
    requires Opened(book, book', screen, ready, client, handle, r)
    ensures InOrder(book', screen, ready) && OnlyChanged(book, book', handle)
    ensures handle !in book.order && book'.outers[handle] == r && OnScreen(screen, r)
  {
    var work := Openable(book.slots[handle], client, screen, ready, r).value;
    RegisteredOpen(book.slots, book.outers, book.order, screen, ready, handle, OpenSlot(book.slots[handle], r, work),
                   r);
    MinusLast(book.order, handle);
    MinusAbsent(book.order, handle);
    DistinctJoin(book.order, [handle]);
  }

  lemma OpenMarked(book: Book, book': Book, screen: Screen, ready: bool, client: Client, handle: int, r: Rect)
    requires InOrder(book, screen, ready) && InOrder(book', screen, ready)
    requires Opened(book, book', screen, ready, client, handle, r)
    ensures var dirty := FrameDirtied(screen, None, r);
            if Shadowed(screen, r) then Covers(book, book', screen, ready, handle, dirty) else dirty == None
    ensures !book'.overflow
  {
    OpenInOrder(book, book', screen, ready, client, handle, r);
    MarkedOne(screen, r);
  }

  /** A window just opened owns all of its work area that lies in its frame. */
  lemma OpenGains(book: Book, book': Book, screen: Screen, ready: bool, client: Client, handle: int, r: Rect)
    requires InOrder(book, screen, ready) && |book'.shown| == WINDOW_COUNT
    requires Opened(book, book', screen, ready, client, handle, r)
    ensures GainsTold(Panes(book), Panes(book'), []) <==> !Intersect(r, book'.slots[handle].work).Solid()
  {
    OpenInOrder(book, book', screen, ready, client, handle, r);
    PanesInOrder(book, screen, ready);
    PanesInOrder(book', screen, ready);
    var (before, after) := (Panes(book), Panes(book'));
    var me := after[|after| - 1];
    assert me in after && me.handle == handle && me.outer == r && me.work == book'.slots[handle].work;
    var c := Intersect(r, me.work);
    if c.Solid() {
      assert c.Has(c.x, c.y);
      assert Owns(after, me, c.x, c.y) && me !in before;
      assert !Told(me, c.x, c.y, []);
    } else {
      SameOthers(book.slots, book.outers, book.order, book'.slots, book'.outers, book'.order, handle);
      assert forall i | 0 <= i < |before| :: before[i].handle != handle;
      TopGains(before, after);
    }
  }

  /** A new window on top gains the pixels of its work area in its frame, and nobody else gains any. */
  lemma TopGains(before: seq<Pane>, after: seq<Pane>)
    requires |after| > 0 && DistinctHandles(before) && DistinctHandles(after)
    requires var me := after[|after| - 1];
             && Without(before, me.handle) == Without(after, me.handle)
             && (forall i | 0 <= i < |before| :: before[i].handle != me.handle)
             && !Intersect(me.outer, me.work).Solid()
    ensures GainsTold(before, after, [])
  {
    var me := after[|after| - 1];
    forall pane, px, py | pane in after && Owns(after, pane, px, py)
      ensures pane in before && Owns(before, pane, px, py)
    {
      assert !Intersect(me.outer, me.work).Has(px, py);
      OnlyMeAfter(after, me);
      if me.outer.Has(px, py) {
        assert false;
      } else {
        WithoutSame(before, me.handle, px, py);
        WithoutSame(after, me.handle, px, py);
        TopAtHas(after, px, py);
        assert pane.handle != me.handle;
        WithoutMember(before, me.handle, pane);
        WithoutMember(after, me.handle, pane);
      }
    }
  }

  /** On a screen as wide as a word allows, a narrow window opened at the left edge is never told to draw itself. */
  lemma WidestScreenLosesDamage(book: Book, book': Book, client: Client, handle: int)
    requires var screen := Screen(NOBODY, WORD_MAX, 400, 8, 16);
             && InOrder(book, screen, true) && |book'.shown| == WINDOW_COUNT
             && Opened(book, book', screen, true, client, handle, Rect(-1, 20, 100, 100))
             && book.slots[handle].kind == {}
    ensures var screen := Screen(NOBODY, WORD_MAX, 400, 8, 16);
            !GainsTold(Panes(book), Panes(book'), MessagesOf(book', FrameDirtied(screen, None, Rect(-1, 20, 100, 100))))
  {
    var screen := Screen(NOBODY, WORD_MAX, 400, 8, 16);
    var frame := Rect(-1, 20, 100, 100);
    hide GainsTold, Panes, Registered, InOrder, WorkRect, FrameDirtied, Intersect;
    WidestFrame(screen, frame);
    OpenGains(book, book', screen, true, client, handle, frame);
  }

  lemma WidestFrame(screen: Screen, frame: Rect)
    requires screen == Screen(NOBODY, WORD_MAX, 400, 8, 16) && frame == Rect(-1, 20, 100, 100)
    ensures WorkRect(screen, {}, frame) == Some(Rect(0, 21, 98, 98)) && FrameDirtied(screen, None, frame) == None
    ensures Intersect(frame, Rect(0, 21, 98, 98)).Solid()
  {
    var kind: set<Gadget> := {};
    assert WorkRect(screen, kind, frame) == Some(Rect(0, 21, 98, 98));
    assert Grown(screen, frame).w == -32768;
  }

  // Moving and restacking an open window

  /** The z-order with a window put on top, or left where it is. */
  ghost function Restacked(order: seq<int>, handle: int, toTop: bool): seq<int> {
    if toTop then Minus(order, handle) + [handle] else order
  }

  /** The work area an open window of this client would get with frame `r`. */
  function Movable(slot: Slot, client: Client, screen: Screen, ready: bool, r: Rect): Option<Rect> {
    if slot.inUse && slot.client == client && slot.inTree then PublicRect(screen, ready, slot.kind, r) else None
  }

  function MoveSlot(slot: Slot, from: Rect, work: Rect): Slot {
    slot.(previous := from, work := work)
  }

  /** A window got a new slot and frame, and its place in the order was `order'`. */
  ghost predicate Shifted(book: Book, book': Book, handle: int, slot: Slot, r: Rect, order': seq<int>) {
    && 0 <= handle < |book.slots| && handle < |book.outers|
    && book'.slots == book.slots[handle := slot] && book'.outers == book.outers[handle := r]
    && book'.order == order' && !book'.overflow
  }

  /** Exactly when WF_CXYWH or WF_SIZTOP succeeds. */
  ghost predicate MoveSucceeds(book: Book, screen: Screen, ready: bool, client: Client, handle: int, r: Rect,
                               toTop: bool) {
    && OPEN_MIN <= handle < |book.slots| && handle < |book.outers|
    && var work := Movable(book.slots[handle], client, screen, ready, r);
    && work.Some?
    && Fits(book.slots[handle := MoveSlot(book.slots[handle], book.outers[handle], work.value)],
            book.outers[handle := r], Restacked(book.order, handle, toTop))
  }

  /** What WF_CXYWH and WF_SIZTOP do to the books. */
  ghost predicate Moved(book: Book, book': Book, screen: Screen, ready: bool, client: Client, handle: int, r: Rect,
                        toTop: bool) {
    && OPEN_MIN <= handle < |book.slots| && handle < |book.outers|
    && var work := Movable(book.slots[handle], client, screen, ready, r);
    && work.Some?
    && Shifted(book, book', handle, MoveSlot(book.slots[handle], book.outers[handle], work.value), r,
               Restacked(book.order, handle, toTop))
  }

  lemma RestackedSame(order: seq<int>, handle: int, toTop: bool)
    requires Distinct(order) && handle in order
    ensures var order' := Restacked(order, handle, toTop);
            && Distinct(order') && Minus(order', handle) == Minus(order, handle)
            && forall h :: h in order' <==> h in order
  {
    if toTop {
      MinusGone(order, handle);
      MinusDistinct(order, handle);
      DistinctJoin(Minus(order, handle), [handle]);
      MinusLast(Minus(order, handle), handle);
    }
  }

  /** Restacking, and giving an open window a new legal frame, keep the books in order. */
  lemma ShiftInOrder(book: Book, book': Book, screen: Screen, ready: bool, handle: int, slot: Slot, r: Rect,
                     toTop: bool)
    requires InOrder(book, screen, ready) && OPEN_MIN <= handle < WINDOW_COUNT && |book'.shown| == WINDOW_COUNT
    requires slot.inUse && slot.inTree && PublicRect(screen, ready, slot.kind, r) == Some(slot.work)
    requires handle in book.order && Shifted(book, book', handle, slot, r, Restacked(book.order, handle, toTop))
    ensures InOrder(book', screen, ready) && OnlyChanged(book, book', handle)
    ensures OnScreen(screen, r) && OnScreen(screen, book.outers[handle])
  {
    RestackedSame(book.order, handle, toTop);
    assert forall i | 0 <= i < |book'.order| :: book'.order[i] in book.order;
  }

  lemma MoveInOrder(book: Book, book': Book, screen: Screen, ready: bool, client: Client, handle: int, r: Rect,
                    toTop: bool)
    requires InOrder(book, screen, ready) && |book'.shown| == WINDOW_COUNT
    requires Moved(book, book', screen, ready, client, handle, r, toTop)
    ensures InOrder(book', screen, ready) && OnlyChanged(book, book', handle)
    ensures handle in book.order && book'.outers[handle] == r
    ensures OnScreen(screen, r) && OnScreen(screen, book.outers[handle])
  {
    var work := Movable(book.slots[handle], client, screen, ready, r).value;
    ShiftInOrder(book, book', screen, ready, handle, MoveSlot(book.slots[handle], book.outers[handle], work), r, toTop);
  }

  lemma MoveMarked(book: Book, book': Book, screen: Screen, ready: bool, client: Client, handle: int, r: Rect,
                   toTop: bool)
    requires InOrder(book, screen, ready) && InOrder(book', screen, ready)
    requires Moved(book, book', screen, ready, client, handle, r, toTop)
    ensures Joinable(screen, book.outers[handle], r) ==>
              Covers(book, book', screen, ready, handle, MoveDirty(screen, book.outers[handle], r))
    ensures !book'.overflow
  {
    MoveInOrder(book, book', screen, ready, client, handle, r, toTop);
    if Joinable(screen, book.outers[handle], r) {
      MarkedFrame(screen, None, book.outers[handle]);
      MarkedFrame(screen, FrameDirtied(screen, None, book.outers[handle]), r);
    }
  }

  /** On a modest screen every operation meets the condition its redraws depend on. */
  lemma ModestRoomy(screen: Screen, ready: bool, book: Book)
    requires Modest(screen) && InOrder(book, screen, ready)
    ensures Roomy(book, screen)
    ensures forall from, r | OnScreen(screen, from) && OnScreen(screen, r) :: Joinable(screen, from, r)
  {
    forall h | h in book.order
      ensures OnScreen(screen, FrameOf(book, h))
    {
      var k :| 0 <= k < |book.order| && book.order[k] == h;
      ListedOnScreen(book, screen, ready, h);
    }
  }

  function MoveDirty(screen: Screen, from: Rect, r: Rect): Option<Rect> {
    FrameDirtied(screen, FrameDirtied(screen, None, from), r)
  }

  /** Both frames are shadowed and can be enclosed in one rectangle. */
  predicate Joinable(screen: Screen, from: Rect, r: Rect) {
    screen.width < WORD_MAX && Shadowed(screen, from) && Shadowed(screen, r)
  }

  /** The redraw messages an operation leaves. */
  ghost function MessagesOf(book: Book, dirty: Option<Rect>): seq<Message> {
    if dirty.None? then [] else Redraws(Panes(book), ShownIn(book.order, book.shown), dirty.value)
  }

  lemma MessagesThrifty(book: Book, screen: Screen, ready: bool, dirty: Option<Rect>)
    requires InOrder(book, screen, ready)
    ensures Thrifty(Panes(book), dirty, MessagesOf(book, dirty))
  {
    hide Redraws, Thrifty;
    PanesInOrder(book, screen, ready);
    DistinctBound(book.order, OPEN_MIN, WINDOW_COUNT);
    if dirty.Some? {
      RedrawsThrifty(Panes(book), ShownIn(book.order, book.shown), dirty.value);
    } else {
      NoneThrifty(Panes(book), dirty);
    }
  }

  lemma NoneThrifty(panes: seq<Pane>, dirty: Option<Rect>)
    requires |panes| < MESSAGE_COUNT
    ensures Thrifty(panes, dirty, [])
  {
  }

  // WF_TOP

  predicate Raisable(slot: Slot, client: Client) {
    slot.inUse && slot.client == client && slot.inTree
  }

  ghost predicate TopSucceeds(book: Book, client: Client, handle: int) {
    && OPEN_MIN <= handle < |book.slots| && Raisable(book.slots[handle], client)
    && Fits(book.slots, book.outers, Restacked(book.order, handle, true))
  }

  /** The window is on top; nothing else changed but the pieces that follow from it. */
  ghost predicate Raised(book: Book, book': Book, handle: int) {
    && book'.slots == book.slots && book'.outers == book.outers
    && book'.order == Restacked(book.order, handle, true) && !book'.overflow
  }

  lemma RaiseInOrder(book: Book, book': Book, screen: Screen, ready: bool, handle: int)
    requires InOrder(book, screen, ready) && OPEN_MIN <= handle < WINDOW_COUNT && |book'.shown| == WINDOW_COUNT
    requires book.slots[handle].inTree && Raised(book, book', handle)
    ensures InOrder(book', screen, ready)
    ensures FrameCovers(book, book', screen, ready, handle)
  {
    assert book.slots[handle := book.slots[handle]] == book.slots;
    assert book.outers[handle := book.outers[handle]] == book.outers;
    ShiftInOrder(book, book', screen, ready, handle, book.slots[handle], book.outers[handle], true);
    MarkedOne(screen, book.outers[handle]);
  }

  /** Marking the old frame is enough, unless the frame is not shadowed; then nothing gets marked. */
  ghost predicate FrameCovers(book: Book, book': Book, screen: Screen, ready: bool, handle: int) {
    && 0 <= handle < |book.outers|
    && var dirty := FrameDirtied(screen, None, book.outers[handle]);
    && OnlyChanged(book, book', handle)
    && if Shadowed(screen, book.outers[handle]) then Covers(book, book', screen, ready, handle, dirty)
       else dirty == None
  }

  /** Why WF_TOP may leave new pixels unannounced: it skips the redraw for a window that was not broken into several
      pieces, but a window half covered from above is a single piece, and raising it exposes the other half. */
  lemma OnePieceMayHideMore()
    ensures var lower := Pane(1, NOBODY, Rect(10, 30, 100, 100), Rect(11, 31, 98, 98));
            var upper := Pane(2, NOBODY, Rect(10, 30, 100, 50), Rect(11, 31, 98, 48));
            var before := [lower, upper];
            var after := [upper, lower];
            && Layers(Bases(Rect(0, 16, 640, 384), before), RECT_COUNT).lists[1] == [Rect(10, 80, 100, 50)]
            && Owns(after, lower, 20, 40) && !Owns(before, lower, 20, 40)
            && !GainsTold(before, after, [])
  {
    hide Layers;
    var lower := Pane(1, NOBODY, Rect(10, 30, 100, 100), Rect(11, 31, 98, 98));
    var upper := Pane(2, NOBODY, Rect(10, 30, 100, 50), Rect(11, 31, 98, 48));
    var (before, after) := ([lower, upper], [upper, lower]);
    LowerHalfShows(lower, upper);
    assert before[..1] == [lower] && after[..1] == [upper];
    assert Owns(after, lower, 20, 40) && lower in after;
    assert !Told(lower, 20, 40, []);
  }

  /** A window higher up lies over part of this one's work area. */
  ghost predicate Overlaid(panes: seq<Pane>, i: nat) {
    exists j | i < j < |panes| :: OverPart(panes, i, j)
  }

  ghost predicate OverPart(panes: seq<Pane>, i: nat, j: nat) {
    i < j < |panes| && Intersect(Intersect(panes[i].outer, panes[i].work), panes[j].outer).Solid()
  }

  lemma {:induction false} TopAtHigher(panes: seq<Pane>, j: nat, px: int, py: int)
    requires j < |panes| && panes[j].outer.Has(px, py)
    ensures exists k | j <= k < |panes| :: panes[k].outer.Has(px, py) && TopAt(panes, px, py) == panes[k].handle
  {
    var n := |panes| - 1;
    if !panes[n].outer.Has(px, py) {
      TopAtHigher(panes[..n], j, px, py);
      var k :| j <= k < n && panes[..n][k].outer.Has(px, py) && TopAt(panes[..n], px, py) == panes[..n][k].handle;
      assert panes[k].outer.Has(px, py);
    }
  }

  /** Raising a window gains it the pixels of its work area that others lay over, and gains nobody else anything: with
      no messages at all, every gain is told exactly when nothing lay over it. */
  lemma RaiseGains(before: seq<Pane>, after: seq<Pane>, i: nat)
    requires i < |before| && |after| > 0 && after[|after| - 1] == before[i] && DistinctHandles(before)
             && DistinctHandles(after)
    requires Without(before, before[i].handle) == Without(after, before[i].handle)
    requires forall p | p in after :: p in before
    ensures GainsTold(before, after, []) <==> !Overlaid(before, i)
  {
    var me := before[i];
    if Overlaid(before, i) {
      var j :| i < j < |before| && OverPart(before, i, j);
      var c := Intersect(Intersect(me.outer, me.work), before[j].outer);
      assert c.Has(c.x, c.y);
      TopAtHigher(before, j, c.x, c.y);
      assert me in after && Owns(after, me, c.x, c.y) && !Owns(before, me, c.x, c.y);
      assert !Told(me, c.x, c.y, []);
    } else {
      forall pane, px, py | pane in after && Owns(after, pane, px, py)
        ensures pane in before && Owns(before, pane, px, py)
      {
        RaiseGainsNone(before, after, i, pane, px, py);
      }
    }
  }

  lemma RaiseGainsNone(before: seq<Pane>, after: seq<Pane>, i: nat, pane: Pane, px: int, py: int)
    requires i < |before| && |after| > 0 && after[|after| - 1] == before[i] && DistinctHandles(before)
             && DistinctHandles(after)
    requires Without(before, before[i].handle) == Without(after, before[i].handle)
    requires pane in before && Owns(after, pane, px, py)
    ensures Owns(before, pane, px, py) || Overlaid(before, i)
  {
    var me := before[i];
    if me.outer.Has(px, py) {
      assert TopAt(after, px, py) == me.handle;
      assert pane == me;
      TopAtHigher(before, i, px, py);
      var k :| i <= k < |before| && before[k].outer.Has(px, py) && TopAt(before, px, py) == before[k].handle;
      if k > i {
        assert Intersect(Intersect(me.outer, me.work), before[k].outer).Has(px, py);
        assert OverPart(before, i, k);
      }
    } else {
      OnlyMe(before, i);
      OnlyMeAfter(after, me);
      WithoutSame(before, me.handle, px, py);
      WithoutSame(after, me.handle, px, py);
    }
  }

  lemma OnlyMe(panes: seq<Pane>, i: nat)
    requires DistinctHandles(panes) && i < |panes|
    ensures forall k | 0 <= k < |panes| && panes[k].handle == panes[i].handle :: panes[k] == panes[i]
  {
  }

  lemma OnlyMeAfter(panes: seq<Pane>, me: Pane)
    requires DistinctHandles(panes) && |panes| > 0 && panes[|panes| - 1] == me
    ensures forall k | 0 <= k < |panes| && panes[k].handle == me.handle :: panes[k] == me
  {
  }

  lemma BookSizes(book: Book, screen: Screen, ready: bool)
    requires InOrder(book, screen, ready)
    ensures |book.slots| == |book.outers| == WINDOW_COUNT
  {
  }

  /** Another window lies over part of an open window's work area. */
  ghost predicate Hidden(book: Book, handle: int) {
    exists i | 0 <= i < |book.order| :: book.order[i] == handle && Overlaid(Panes(book), i)
  }

  lemma RaisedGainsHidden(book: Book, book': Book, screen: Screen, ready: bool, handle: int)
    requires InOrder(book, screen, ready) && OPEN_MIN <= handle < WINDOW_COUNT && |book'.shown| == WINDOW_COUNT
    requires book.slots[handle].inTree && Raised(book, book', handle)
    ensures GainsTold(Panes(book), Panes(book'), []) <==> !Hidden(book, handle)
  {
    hide PublicRect, GainsTold, Overlaid, Raised;
    assert handle in book.order;
    forall i | 0 <= i < |book.order| && book.order[i] == handle
      ensures GainsTold(Panes(book), Panes(book'), []) <==> !Overlaid(Panes(book), i)
    {
      RaisedGains(book, book', screen, ready, handle, i);
    }
  }

  /** RaiseGains for the books. */
  lemma RaisedGains(book: Book, book': Book, screen: Screen, ready: bool, handle: int, i: nat)
    requires InOrder(book, screen, ready) && OPEN_MIN <= handle < WINDOW_COUNT && |book'.shown| == WINDOW_COUNT
    requires book.slots[handle].inTree && Raised(book, book', handle) && i < |book.order| && book.order[i] == handle
    ensures GainsTold(Panes(book), Panes(book'), []) <==> !Overlaid(Panes(book), i)
  {
    hide Registered, PublicRect, GainsTold, Overlaid;
    RaiseInOrder(book, book', screen, ready, handle);
    PanesInOrder(book, screen, ready);
    PanesInOrder(book', screen, ready);
    assert handle in book.order;
    RestackedSame(book.order, handle, true);
    BookSizes(book, screen, ready);
    SameOthers(book.slots, book.outers, book.order, book'.slots, book'.outers, book'.order, handle);
    forall p | p in Panes(book')
      ensures p in Panes(book)
    {
      var k :| 0 <= k < |book'.order| && Panes(book')[k] == p;
      assert book'.order[k] in book'.order && book'.order[k] in book.order;
      var j :| 0 <= j < |book.order| && book.order[j] == book'.order[k];
      assert Panes(book)[j] == p;
    }
    RaiseGains(Panes(book), Panes(book'), i);
  }

  lemma LowerHalfShows(lower: Pane, upper: Pane)
    requires lower.outer == Rect(10, 30, 100, 100) && upper.outer == Rect(10, 30, 100, 50)
    ensures Layers(Bases(Rect(0, 16, 640, 384), [lower, upper]), RECT_COUNT).lists[1] == [Rect(10, 80, 100, 50)]
  {
    hide Cut, CutAll;
    var root := Rect(0, 16, 640, 384);
    var bases := Bases(root, [lower, upper]);
    assert bases == [root, lower.outer, upper.outer];
    assert bases[1..] == [lower.outer, upper.outer] && bases[1..][1..] == [upper.outer];
    var b := Layer(root, bases[1..], RECT_COUNT);
    RootLayerFits(root, lower.outer, upper.outer);
    LowerHalfCut(lower.outer, upper.outer, b.free);
  }

  lemma LowerHalfCut(lower: Rect, upper: Rect, free: nat)
    requires lower == Rect(10, 30, 100, 100) && upper == Rect(10, 30, 100, 50) && free >= 100
    ensures Layer(lower, [upper], free) == Built(true, [Rect(10, 80, 100, 50)], free - 1)
  {
    assert Split(lower, upper) == [Rect(10, 80, 100, 50)];
    CutStep([], lower, [], upper, free - 1);
    CutAllStep([lower], upper, [], free - 1);
    assert [lower] + [] == [lower] && [upper] + [] == [upper];
  }

  lemma RootLayerFits(root: Rect, a: Rect, b: Rect)
    requires root.Solid()
    ensures var layer := Layer(root, [a, b], RECT_COUNT); layer.ok && layer.free >= 100
  {
    hide Cut, CutAll, Split;
    assert [a] + [b] == [a, b] && [b] + [] == [b];
    CutSmall([root], a, RECT_COUNT - 1);
    var once := Cut([root], a, RECT_COUNT - 1);
    CutAllStep([root], a, [b], RECT_COUNT - 1);
    CutSmall(once.rects, b, once.free);
    CutAllStep(once.rects, b, [], once.free);
    CutAllNone(Cut(once.rects, b, once.free));
  }

  lemma CutAllNone(b: Built)
    ensures CutAll(b.rects, [], b.free) == Built(true, b.rects, b.free)
  {
  }

  /** A short list never exhausts a pool with four spare nodes a piece. */
  lemma {:induction false} CutSmall(ps: seq<Rect>, occ: Rect, free: nat)
    requires 4 * |ps| <= free
    ensures Cut(ps, occ, free).ok && |Cut(ps, occ, free).rects| <= 4 * |ps|
  {
    if ps != [] {
      if Meets(ps[0], occ) {
        SplitExact(ps[0], occ);
        CutSmall(ps[1..], occ, free - |Split(ps[0], occ)| + 1);
      } else {
        CutSmall(ps[1..], occ, free);
      }
    }
  }

  // Closing, creating, deleting

  function CloseSlot(slot: Slot, from: Rect): Slot {
    slot.(previous := from, work := ZERO, inTree := false)
  }

  /** What WIND_CLOSE does to the books; the pieces and the overflow flag follow from the rest. */
  ghost predicate Closed(book: Book, book': Book, handle: int) {
    && OPEN_MIN <= handle < |book.slots| && handle < |book.outers|
    && book'.slots == book.slots[handle := CloseSlot(book.slots[handle], book.outers[handle])]
    && book'.outers == book.outers[handle := ZERO]
    && book'.order == Minus(book.order, handle)
  }

  lemma CloseInOrder(book: Book, book': Book, screen: Screen, ready: bool, handle: int)
    requires InOrder(book, screen, ready) && OPEN_MIN <= handle < WINDOW_COUNT && |book'.shown| == WINDOW_COUNT
    requires book.slots[handle].inTree && Closed(book, book', handle)
    ensures InOrder(book', screen, ready)
    ensures FrameCovers(book, book', screen, ready, handle)
  {
    RegisteredClose(book.slots, book.outers, book.order, screen, ready, handle,
                    CloseSlot(book.slots[handle], book.outers[handle]), ZERO);
    MinusGone(book.order, handle);
    MinusDistinct(book.order, handle);
    MinusAbsent(book'.order, handle);
    assert forall i | 0 <= i < |book'.order| :: book'.order[i] in book.order;
    ListedOnScreen(book, screen, ready, handle);
    MarkedOne(screen, book.outers[handle]);
  }

  /** A handle outside the z-order can change its slot and frame without any effect on what is visible. */
  lemma UnlistedLaid(book: Book, handle: int, slot: Slot, r: Rect)
    requires Laid(book) && handle !in book.order && 0 < handle < |book.slots| == |book.outers|
    ensures Laid(book.(slots := book.slots[handle := slot], outers := book.outers[handle := r]))
  {
    var (slots, outers) := (book.slots[handle := slot], book.outers[handle := r]);
    assert PanesOf(slots, outers, book.order) == PanesOf(book.slots, book.outers, book.order);
    assert PaneOf(slots, outers, ROOT) == PaneOf(book.slots, book.outers, ROOT);
  }

  lemma UnlistedInOrder(book: Book, screen: Screen, ready: bool, handle: int, slot: Slot, r: Rect)
    requires InOrder(book, screen, ready) && OPEN_MIN <= handle < WINDOW_COUNT && handle !in book.order && !slot.inTree
    ensures InOrder(book.(slots := book.slots[handle := slot], outers := book.outers[handle := r]), screen, ready)
  {
  }

  /** The frame WIND_CREATE accepts: none yet, or a legal one. */
  predicate Creatable(screen: Screen, ready: bool, kind: set<Gadget>, full: Rect) {
    ready && (full == ZERO || PublicRect(screen, ready, kind, full).Some?)
  }

  /** The slot of a window just created. */
  function NewSlot(client: Client, kind: set<Gadget>, full: Rect): Slot {
    CLEAR_SLOT.(inUse := true, kind := kind, client := client, full := full)
  }

  /** What WIND_CREATE does to the books when it hands out a handle: the first unused one. */
  ghost predicate Created(book: Book, book': Book, handle: int, client: Client, kind: set<Gadget>, full: Rect) {
    && OPEN_MIN <= handle < |book.slots| == |book.outers|
    && !book.slots[handle].inUse && (forall h | OPEN_MIN <= h < handle :: book.slots[h].inUse)
    && book' == book.(slots := book.slots[handle := NewSlot(client, kind, full)],
                      outers := book.outers[handle := ZERO])
  }

  lemma IsCreated(book: Book, book': Book, handle: int, client: Client, kind: set<Gadget>, full: Rect)
    requires OPEN_MIN <= handle < |book.slots| == |book.outers|
    requires !book.slots[handle].inUse && forall h | OPEN_MIN <= h < handle :: book.slots[h].inUse
    requires book' == book.(slots := book.slots[handle := NewSlot(client, kind, full)],
                            outers := book.outers[handle := ZERO])
    ensures Created(book, book', handle, client, kind, full)
  {
  }

  /** No handle is left to create a window with. */
  ghost predicate Full(book: Book) {
    forall h | OPEN_MIN <= h < |book.slots| :: book.slots[h].inUse
  }

  // What the lists mean for clients

  /** While nothing overflowed, a pixel lies in the list of the topmost window there and in no other; the root list
      holds what the windows leave of the root work area. No list holds a pixel twice. */
  lemma PixelListed(book: Book, screen: Screen, ready: bool, h: int, px: int, py: int)
    requires InOrder(book, screen, ready) && Laid(book) && !book.overflow && ROOT <= h < WINDOW_COUNT
    ensures Disjoint(book.shown[h])
    ensures Covered(book.shown[h], px, py) <==>
              h == TopAt(Panes(book), px, py) && (h == ROOT ==> RootWork(screen, ready).Has(px, py))
  {
    hide PublicRect, RootWork, Layers, TopAt, Registered;
    var (panes, stack) := (Panes(book), [ROOT] + book.order);
    RootWorkIs(book, screen, ready);
    PanesInOrder(book, screen, ready);
    RootInOrder(book, screen, ready);
    assert book.shown[ROOT] == Layers(BasesOf(book.slots, book.outers, book.order), RECT_COUNT).lists[0] by {
      assert stack[0] == ROOT;
    }
    assert stack[..|stack|] == stack;
    if h in stack {
      var i :| 0 <= i < |stack| && stack[i] == h;
      VisiblePieces(PaneOf(book.slots, book.outers, ROOT).work, panes, RECT_COUNT, i, px, py);
    } else {
      assert stack[0] == ROOT && forall n | n in book.order :: n in stack;
      TopListed(book, screen, ready, px, py);
      assert book.shown[h] == [];
    }
  }

  lemma RootWorkIs(book: Book, screen: Screen, ready: bool)
    requires InOrder(book, screen, ready)
    ensures PaneOf(book.slots, book.outers, ROOT).work == RootWork(screen, ready)
  {
  }

  lemma TopListed(book: Book, screen: Screen, ready: bool, px: int, py: int)
    requires InOrder(book, screen, ready)
    ensures TopAt(Panes(book), px, py) == ROOT || TopAt(Panes(book), px, py) in book.order
  {
    if TopAt(Panes(book), px, py) != ROOT {
      PanesInOrder(book, screen, ready);
      TopAtHas(Panes(book), px, py);
    }
  }

  /** The walk over a window's pieces shows its client exactly the work area pixels no other window hides. */
  lemma WalkedOwned(book: Book, screen: Screen, ready: bool, i: nat, px: int, py: int)
    requires InOrder(book, screen, ready) && Laid(book) && !book.overflow && i < |book.order|
    ensures var walk := Walk(book.slots[book.order[i]].work, book.shown[book.order[i]]);
            Disjoint(walk) && (Covered(walk, px, py) <==> Owns(Panes(book), Panes(book)[i], px, py))
  {
    var h := book.order[i];
    PixelListed(book, screen, ready, h, px, py);
    WalkExact(book.slots[h].work, book.shown[h]);
  }

  // Removing all windows of a client

  predicate Belongs(slot: Slot, client: Client) {
    slot.inUse && slot.client == client
  }

  /** The z-order without the windows of a client whose handle is below `limit`. */
  ghost function Staying(slots: seq<Slot>, order: seq<int>, client: Client, limit: int): seq<int> {
    if order == [] then []
    else
      var rest := Staying(slots, order[1..], client, limit);
      var h := order[0];
      if OPEN_MIN <= h < limit && h < |slots| && Belongs(slots[h], client) then rest else [h] + rest
  }

  lemma {:induction false} StayingAll(slots: seq<Slot>, order: seq<int>, client: Client)
    ensures Staying(slots, order, client, OPEN_MIN) == order
  {
    if order != [] {
      StayingAll(slots, order[1..], client);
    }
  }

  lemma {:induction false} StayingIn(slots: seq<Slot>, order: seq<int>, client: Client, limit: int, h: int)
    ensures h in Staying(slots, order, client, limit) <==>
            h in order && !(OPEN_MIN <= h < limit && h < |slots| && Belongs(slots[h], client))
  {
    if order != [] {
      StayingIn(slots, order[1..], client, limit, h);
    }
  }

  lemma {:induction false} StayingStep(slots: seq<Slot>, order: seq<int>, client: Client, h: int)
    requires OPEN_MIN <= h < |slots| && Distinct(order)
    ensures Staying(slots, order, client, h + 1)
         == if Belongs(slots[h], client) then Minus(Staying(slots, order, client, h), h)
            else Staying(slots, order, client, h)
  {
    if order != [] {
      assert order == [order[0]] + order[1..];
      DistinctParts([order[0]], order[1..]);
      assert order[0] in [order[0]];
      StayingStep(slots, order[1..], client, h);
      if order[0] == h && Belongs(slots[h], client) {
        StayingIn(slots, order[1..], client, h, h);
        MinusAbsent(Staying(slots, order[1..], client, h), h);
      }
    }
  }

  /** The slots after the windows of a client below `limit` were cleared. */
  ghost function SlotsLeft(slots: seq<Slot>, client: Client, limit: int): (slots': seq<Slot>)
    ensures |slots'| == |slots|
  {
    seq(|slots|, h requires 0 <= h < |slots| =>
      if OPEN_MIN <= h < limit && Belongs(slots[h], client) then CLEAR_SLOT else slots[h])
  }

  ghost function FramesLeft(slots: seq<Slot>, outers: seq<Rect>, client: Client, limit: int): (outers': seq<Rect>)
    ensures |outers'| == |outers|
  {
    seq(|outers|, h requires 0 <= h < |outers| =>
      if OPEN_MIN <= h < limit && h < |slots| && Belongs(slots[h], client) then ZERO else outers[h])
  }

  /** All windows of a client with a handle below `limit` are gone, and nothing else happened to the records. */
  ghost predicate Departed(book: Book, book': Book, client: Client, limit: int) {
    && book'.slots == SlotsLeft(book.slots, client, limit)
    && book'.outers == FramesLeft(book.slots, book.outers, client, limit)
    && book'.order == Staying(book.slots, book.order, client, limit)
  }

  /** One handle cleared. */
  ghost predicate Dropped(book: Book, book': Book, h: int) {
    && OPEN_MIN <= h < |book.slots| == |book.outers|
    && book'.slots == book.slots[h := CLEAR_SLOT] && book'.outers == book.outers[h := ZERO]
    && book'.order == Minus(book.order, h)
  }

  /** All frames are shadowed and can be enclosed. */
  ghost predicate Roomy(book: Book, screen: Screen) {
    && screen.width < WORD_MAX
    && forall h | h in book.order && 0 <= h < |book.outers| :: Shadowed(screen, book.outers[h])
  }

  /** The dirty area can still grow, and pixels outside it kept their topmost window. */
  ghost predicate Tidy(before: seq<Pane>, now: seq<Pane>, screen: Screen, dirty: Option<Rect>) {
    screen.width < WORD_MAX && (dirty.Some? ==> Within(dirty.value, Glass(screen))) && Quiet(before, now, dirty)
  }

  /** The state a removal loop keeps: the records are in order, the client's windows below `limit` are gone, and
      pixels outside the dirty area kept their topmost window. */
  ghost predicate Departing(book: Book, now: Book, screen: Screen, ready: bool, client: Client, limit: int,
                            dirty: Option<Rect>)
  {
    && InOrder(book, screen, ready) && InOrder(now, screen, ready) && Departed(book, now, client, limit)
    && (Roomy(book, screen) ==> Tidy(Panes(book), Panes(now), screen, dirty))
  }

  lemma DepartingStart(book: Book, screen: Screen, ready: bool, client: Client)
    requires InOrder(book, screen, ready)
    ensures Departing(book, book, screen, ready, client, OPEN_MIN, None)
  {
    StayingAll(book.slots, book.order, client);
    assert SlotsLeft(book.slots, client, OPEN_MIN) == book.slots;
    assert FramesLeft(book.slots, book.outers, client, OPEN_MIN) == book.outers;
  }

  lemma DepartingSkip(book: Book, now: Book, screen: Screen, ready: bool, client: Client, h: int, dirty: Option<Rect>)
    requires Departing(book, now, screen, ready, client, h, dirty) && OPEN_MIN <= h < |now.slots|
    requires !Belongs(now.slots[h], client)
    ensures Departing(book, now, screen, ready, client, h + 1, dirty)
  {
    assert now.slots[h] == book.slots[h];
    StayingStep(book.slots, book.order, client, h);
    assert SlotsLeft(book.slots, client, h + 1) == SlotsLeft(book.slots, client, h);
    assert FramesLeft(book.slots, book.outers, client, h + 1) == FramesLeft(book.slots, book.outers, client, h);
  }

  lemma PaneSame(slots: seq<Slot>, outers: seq<Rect>, h: int, slot: Slot, r: Rect, g: int)
    requires 0 <= h < |slots| && h < |outers| && g != h
    ensures PaneOf(slots[h := slot], outers[h := r], g) == PaneOf(slots, outers, g)
  {
  }

  lemma DropInOrder(now: Book, now': Book, screen: Screen, ready: bool, h: int)
    requires InOrder(now, screen, ready) && Dropped(now, now', h) && |now'.shown| == WINDOW_COUNT
    ensures InOrder(now', screen, ready) && Panes(now') == Without(Panes(now), h)
  {
    hide PublicRect, RootWork, Minus, Without, PaneOf;
    RegisteredClose(now.slots, now.outers, now.order, screen, ready, h, CLEAR_SLOT, ZERO);
    MinusGone(now.order, h);
    MinusDistinct(now.order, h);
    WithoutIsMinus(now.slots, now.outers, now.order, h);
    forall i | 0 <= i < |now'.order|
      ensures now'.order[i] in now.order && now'.order[i] != h
      ensures PaneOf(now'.slots, now'.outers, now'.order[i]) == PaneOf(now.slots, now.outers, now'.order[i])
    {
      assert now'.order[i] in now'.order;
      PaneSame(now.slots, now.outers, h, CLEAR_SLOT, ZERO, now'.order[i]);
    }
    assert Panes(now') == PanesOf(now.slots, now.outers, now'.order);
  }

  /** The dirty area the loop leaves for one handle. */
  ghost function DropDirty(now: Book, screen: Screen, h: int, dirty: Option<Rect>): Option<Rect> {
    if 0 <= h < |now.slots| && h < |now.outers| && now.slots[h].inTree
    then FrameDirtied(screen, dirty, now.outers[h]) else dirty
  }

  lemma DropQuiet(before: seq<Pane>, now: Book, screen: Screen, ready: bool, h: int, dirty: Option<Rect>)
    requires InOrder(now, screen, ready) && OPEN_MIN <= h < WINDOW_COUNT && Tidy(before, Panes(now), screen, dirty)
    requires h in now.order ==> Shadowed(screen, now.outers[h])
    ensures Tidy(before, Without(Panes(now), h), screen, DropDirty(now, screen, h, dirty))
  {
    var dirty' := DropDirty(now, screen, h, dirty);
    PanesInOrder(now, screen, ready);
    if now.slots[h].inTree {
      var k :| 0 <= k < |now.order| && now.order[k] == h;
      assert OnScreen(screen, Panes(now)[k].outer);
      MarkedFrame(screen, dirty, now.outers[h]);
    }
    QuietStep(before, Panes(now), dirty, h, dirty');
  }

  lemma DepartingStep(book: Book, now: Book, now': Book, screen: Screen, ready: bool, client: Client, h: int,
                      dirty: Option<Rect>)
    requires Departing(book, now, screen, ready, client, h, dirty) && Dropped(now, now', h)
    requires |now'.shown| == WINDOW_COUNT && Belongs(now.slots[h], client)
    ensures Departing(book, now', screen, ready, client, h + 1, DropDirty(now, screen, h, dirty))
  {
    assert now.slots[h] == book.slots[h];
    StayingStep(book.slots, book.order, client, h);
    assert SlotsLeft(book.slots, client, h + 1) == SlotsLeft(book.slots, client, h)[h := CLEAR_SLOT];
    assert FramesLeft(book.slots, book.outers, client, h + 1)
           == FramesLeft(book.slots, book.outers, client, h)[h := ZERO];
    DropInOrder(now, now', screen, ready, h);
    if Roomy(book, screen) {
      StayingIn(book.slots, book.order, client, h, h);
      assert now.outers[h] == book.outers[h];
      DropQuiet(Panes(book), now, screen, ready, h, dirty);
    }
  }

  /** The root's owner does not show in any pane. */
  ghost predicate RootChanged(now: Book, now': Book) {
    && |now.slots| > 0 && |now'.slots| == |now.slots| && now'.slots[ROOT].work == now.slots[ROOT].work
    && now' == now.(slots := now.slots[ROOT := now'.slots[ROOT]])
  }

  lemma RootChangedInOrder(now: Book, now': Book, screen: Screen, ready: bool)
    requires InOrder(now, screen, ready) && RootChanged(now, now')
    ensures InOrder(now', screen, ready) && Panes(now') == Panes(now) && (Laid(now) ==> Laid(now'))
  {
    assert PaneOf(now'.slots, now'.outers, ROOT).work == PaneOf(now.slots, now.outers, ROOT).work;
  }

  /** The exposure theorem for a departing client. */
  lemma DepartureTold(before: seq<Pane>, book: Book, screen: Screen, ready: bool, dirty: Option<Rect>)
    requires InOrder(book, screen, ready) && Laid(book) && !book.overflow && Quiet(before, Panes(book), dirty)
    ensures GainsTold(before, Panes(book), MessagesOf(book, dirty))
  {
    var after := Panes(book);
    var root := PaneOf(book.slots, book.outers, ROOT).work;
    PanesInOrder(book, screen, ready);
    RootInOrder(book, screen, ready);
    LaidShown(book);
    forall pane, px, py | pane in after && Owns(after, pane, px, py) && !(pane in before && Owns(before, pane, px, py))
      ensures dirty.Some? && Told(pane, px, py, Redraws(after, ShownIn(book.order, book.shown), dirty.value))
    {
      assert Soiled(dirty, px, py);
      var i :| 0 <= i < |after| && after[i] == pane;
      OwnedDirtyTold(root, after, ShownIn(book.order, book.shown), dirty.value, i, px, py);
    }
  }

  /** The root belongs to the system again when its owner leaves. */
  function RootLeft(slot: Slot, client: Client, screen: Screen): Slot {
    if slot.client == client then slot.(client := Client(screen.system.channel, 0)) else slot
  }

  function RootDirty(slot: Slot, client: Client, dirty: Option<Rect>): Option<Rect> {
    if slot.client == client then Dirtied(dirty, slot.work) else dirty
  }

  /** What a client's end does to the books. */
  ghost predicate Left(book: Book, book': Book, client: Client, screen: Screen) {
    && |book.slots| == WINDOW_COUNT
    && book'.slots == SlotsLeft(book.slots, client, WINDOW_COUNT)[ROOT := RootLeft(book.slots[ROOT], client, screen)]
    && book'.outers == FramesLeft(book.slots, book.outers, client, WINDOW_COUNT)
    && book'.order == Staying(book.slots, book.order, client, WINDOW_COUNT)
  }

  lemma DepartingEnd(book: Book, now: Book, now': Book, screen: Screen, ready: bool, client: Client,
                     dirty: Option<Rect>)
    requires Departing(book, now, screen, ready, client, WINDOW_COUNT, dirty)
    requires |now.slots| > 0 && now' == now.(slots := now.slots[ROOT := RootLeft(now.slots[ROOT], client, screen)])
    ensures Left(book, now', client, screen) && InOrder(now', screen, ready)
    ensures var dirty' := RootDirty(now.slots[ROOT], client, dirty);
            Roomy(book, screen) ==> Tidy(Panes(book), Panes(now'), screen, dirty')
  {
    hide InOrder, Departing, Tidy, Roomy, Staying, FramesLeft, SlotsLeft;
    DepartedRoot(book, now, screen, ready, client, dirty);
    RootChangedInOrder(now, now', screen, ready);
    if Roomy(book, screen) {
      RootQuiet(Panes(book), now, screen, ready, client, dirty);
    }
  }

  lemma DepartedRoot(book: Book, now: Book, screen: Screen, ready: bool, client: Client, dirty: Option<Rect>)
    requires Departing(book, now, screen, ready, client, WINDOW_COUNT, dirty)
    ensures |book.slots| == |now.slots| == WINDOW_COUNT && now.slots[ROOT] == book.slots[ROOT]
    ensures InOrder(now, screen, ready) && Departed(book, now, client, WINDOW_COUNT)
    ensures Roomy(book, screen) ==> Tidy(Panes(book), Panes(now), screen, dirty)
  {
  }

  lemma RootSolid(now: Book, screen: Screen, ready: bool)
    requires InOrder(now, screen, ready) && screen.width < WORD_MAX
    ensures |now.slots| == WINDOW_COUNT && (now.slots[ROOT].work.Empty() || Within(now.slots[ROOT].work, Glass(screen)))
  {
  }

  lemma RootQuiet(before: seq<Pane>, now: Book, screen: Screen, ready: bool, client: Client, dirty: Option<Rect>)
    requires InOrder(now, screen, ready) && Tidy(before, Panes(now), screen, dirty)
    ensures Tidy(before, Panes(now), screen, RootDirty(now.slots[ROOT], client, dirty))
  {
    hide PublicRect, TopAt, PanesOf, Registered;
    RootSolid(now, screen, ready);
    var dirty' := RootDirty(now.slots[ROOT], client, dirty);
    var work := now.slots[ROOT].work;
    if !work.Empty() && dirty.Some? {
      EncloseKeeps(work, dirty.value, Glass(screen));
    }
    forall px, py | Soiled(dirty, px, py)
      ensures Soiled(dirty', px, py)
    {
    }
  }

  /** A rebuild touches pieces only. */
  lemma LeftRebuilt(book: Book, now: Book, now': Book, screen: Screen, ready: bool, client: Client)
    requires Left(book, now, client, screen) && InOrder(now, screen, ready) && |now'.shown| == WINDOW_COUNT
    requires now'.slots == now.slots && now'.outers == now.outers && now'.order == now.order
    ensures Left(book, now', client, screen) && InOrder(now', screen, ready) && Panes(now') == Panes(now)
  {
  }

  // Starting up

  /** With no window open one node holds the root work area. */
  lemma RootFits(slots: seq<Slot>, outers: seq<Rect>)
    ensures Fits(slots, outers, [])
  {
    var bases := BasesOf(slots, outers, []);
    assert bases[1..] == [];
  }

  /** Nothing was created yet, and nothing is visible. */
  ghost predicate Unused(book: Book) {
    && book.slots == seq(WINDOW_COUNT, _ => CLEAR_SLOT) && book.outers == seq(WINDOW_COUNT, _ => ZERO)
    && book.order == [] && book.shown == seq(WINDOW_COUNT, _ => []) && !book.overflow
  }

  lemma UnusedLaid(book: Book, screen: Screen)
    requires Unused(book)
    ensures Laid(book) && InOrder(book, screen, false)
  {
    var bases := BasesOf(book.slots, book.outers, []);
    assert bases == [ZERO] && bases[1..] == [];
    RootFits(book.slots, book.outers);
    assert Layers(bases, RECT_COUNT).lists == [[]];
    assert [ROOT] + book.order == [ROOT];
  }

  /** Screen metrics that leave room for a work area. */
  predicate Configurable(width: int, height: int, boxWidth: int, boxHeight: int) {
    0 < boxWidth < width <= WORD_MAX && 0 < boxHeight < height <= WORD_MAX
  }

  /** A manager just configured: the root has its work area, no window exists. */
  ghost predicate Configured(book: Book, screen: Screen) {
    && |book.slots| == |book.outers| == WINDOW_COUNT
    && book.slots == seq(WINDOW_COUNT, _ => CLEAR_SLOT)[ROOT := RootSlot(screen)]
    && book.outers == seq(WINDOW_COUNT, _ => ZERO)[ROOT := Rect(0, 0, screen.width, screen.height)]
    && book.order == [] && !book.overflow
  }

  function RootSlot(screen: Screen): Slot {
    Slot(true, true, {}, screen.system, RootWork(screen, true), RootWork(screen, true),
         Rect(0, 0, screen.width, screen.height))
  }

  lemma ConfiguredInOrder(book: Book, screen: Screen)
    requires Configured(book, screen) && |book.shown| == WINDOW_COUNT
    requires Configurable(screen.width, screen.height, screen.boxWidth, screen.boxHeight)
    ensures InOrder(book, screen, true)
  {
  }

  // Damage

  /** Every pixel of a damaged rectangle that shows a window's work area is announced to that window. */
  ghost predicate DamageTold(panes: seq<Pane>, damage: Rect, messages: seq<Message>) {
    forall pane, px, py | pane in panes && Owns(panes, pane, px, py) && damage.Has(px, py) ::
      Told(pane, px, py, messages)
  }

  lemma DamageIsTold(book: Book, screen: Screen, ready: bool, damage: Rect)
    requires InOrder(book, screen, ready) && Laid(book) && !book.overflow
    ensures DamageTold(Panes(book), damage, MessagesOf(book, Some(damage)))
  {
    var panes := Panes(book);
    PanesInOrder(book, screen, ready);
    RootInOrder(book, screen, ready);
    LaidShown(book);
    forall pane, px, py | pane in panes && Owns(panes, pane, px, py) && damage.Has(px, py)
      ensures Told(pane, px, py, Redraws(panes, ShownIn(book.order, book.shown), damage))
    {
      var i :| 0 <= i < |panes| && panes[i] == pane;
      OwnedDirtyTold(PaneOf(book.slots, book.outers, ROOT).work, panes, ShownIn(book.order, book.shown), damage, i, px,
                     py);
    }
  }
}
