/** Which window calls succeed and what they leave in the records, in plain terms. */
module WindowCalls {
  import opened Books
  import opened Geometry
  import opened Links
  import opened Scene
  import opened WorkAreas
  import opened Wrappers
  import opened ZOrder

  /** The client's own window with this handle, open or not. */
  ghost predicate Mine(book: Book, client: Client, handle: int, open: bool) {
    && 1 <= handle < 12 && handle < |book.slots| && handle < |book.outers|
    && book.slots[handle].inUse && book.slots[handle].client == client && book.slots[handle].inTree == open
  }

  /** The root's work area is the screen below the menu bar. */
  lemma RootWorkIs(screen: Screen, px: int, py: int)
    requires Measured(screen)
    ensures RootWork(screen, true).Has(px, py) <==> 0 <= px < screen.width && screen.boxHeight <= py < screen.height
    ensures RootWork(screen, false) == ZERO
  {
    WrapKeeps(screen.height - screen.boxHeight);
  }

  /** WIND_OPEN succeeds for the owner of a closed window with an accepted frame, as long as there are pieces for all
      windows then. */
  lemma OpenMeans(book: Book, screen: Screen, ready: bool, client: Client, handle: int, r: Rect)
    requires InOrder(book, screen, ready)
    ensures OpenSucceeds(book, screen, ready, client, handle, r) <==>
            && Mine(book, client, handle, false)
            && var work := PublicRect(screen, ready, book.slots[handle].kind, r);
            && work.Some?
            && var slot := book.slots[handle].(work := work.value, previous := r, inTree := true);
               Fits(book.slots[handle := slot], book.outers[handle := r], book.order + [handle])
  {
    hide Fits, Registered, PublicRect;
    SlotCount(book, screen, ready);
  }

  lemma SlotCount(book: Book, screen: Screen, ready: bool)
    requires InOrder(book, screen, ready)
    ensures |book.slots| == |book.outers| == 12
  {
  }

  /** A frame is accepted once the manager is configured, if it is usable. */
  lemma UsableIs(screen: Screen, ready: bool, kind: set<Gadget>, r: Rect)
    requires ready ==> Measured(screen) && screen.boxHeight <= 10922
    ensures PublicRect(screen, ready, kind, r).Some? <==> ready && Usable(screen, kind, r)
  {
    hide Usable, WorkRect;
    if ready {
      FrameIs(screen, kind, r);
    }
  }

  /** WF_CXYWH and WF_SIZTOP succeed for the owner of an open window, with the same demands on the frame. */
  lemma MoveMeans(book: Book, screen: Screen, ready: bool, client: Client, handle: int, r: Rect, toTop: bool)
    requires InOrder(book, screen, ready)
    ensures MoveSucceeds(book, screen, ready, client, handle, r, toTop) <==>
            && Mine(book, client, handle, true)
            && var work := PublicRect(screen, ready, book.slots[handle].kind, r);
            && work.Some?
            && var slot := book.slots[handle].(work := work.value, previous := book.outers[handle]);
               Fits(book.slots[handle := slot], book.outers[handle := r],
                    if toTop then Minus(book.order, handle) + [handle] else book.order)
  {
    hide Fits, Registered, PublicRect;
    SlotCount(book, screen, ready);
  }

  /** WF_TOP succeeds for the owner of an open window. */
  lemma TopMeans(book: Book, screen: Screen, ready: bool, client: Client, handle: int)
    requires InOrder(book, screen, ready)
    ensures TopSucceeds(book, client, handle) <==>
            Mine(book, client, handle, true) && Fits(book.slots, book.outers, Minus(book.order, handle) + [handle])
  {
    hide Fits, Registered;
    SlotCount(book, screen, ready);
  }

  /** Only this window's frame and the named fields of its slot changed, and the order as said. */
  ghost predicate OnlyWindow(book: Book, book': Book, handle: int) {
    && 0 <= handle < |book.slots| && handle < |book.outers|
    && |book'.slots| == |book.slots| && |book'.outers| == |book.outers|
    && (forall h | 0 <= h < |book.slots| && h != handle :: book'.slots[h] == book.slots[h])
    && (forall h | 0 <= h < |book.outers| && h != handle :: book'.outers[h] == book.outers[h])
  }

  /** An opened window is on top with its frame, which is its previous one as well. */
  lemma OpenedIs(book: Book, book': Book, screen: Screen, ready: bool, client: Client, handle: int, r: Rect)
    requires Opened(book, book', screen, ready, client, handle, r)
    ensures OnlyWindow(book, book', handle)
    ensures var (s, s') := (book.slots[handle], book'.slots[handle]);
            && book'.outers[handle] == r && s'.previous == r && s'.inTree && book'.order == book.order + [handle]
            && s'.inUse == s.inUse && s'.kind == s.kind && s'.client == s.client && s'.full == s.full
  {
    hide PublicRect;
  }

  /** A moved window has its new frame, keeps the old one as previous, and its place unless it was to be raised. */
  lemma MovedIs(book: Book, book': Book, screen: Screen, ready: bool, client: Client, handle: int, r: Rect, toTop: bool)
    requires Moved(book, book', screen, ready, client, handle, r, toTop)
    ensures OnlyWindow(book, book', handle)
    ensures var (s, s') := (book.slots[handle], book'.slots[handle]);
            && book'.outers[handle] == r && s'.previous == book.outers[handle] && s'.inTree == s.inTree
            && s'.inUse == s.inUse && s'.kind == s.kind && s'.client == s.client && s'.full == s.full
            && book'.order == if toTop then Minus(book.order, handle) + [handle] else book.order
  {
    hide PublicRect;
  }

  /** A closed window has no frame and no work area, keeps its last frame as previous and is still its client's. */
  lemma ClosedIs(book: Book, book': Book, handle: int)
    requires Closed(book, book', handle)
    ensures OnlyWindow(book, book', handle)
    ensures var (s, s') := (book.slots[handle], book'.slots[handle]);
            && book'.outers[handle] == ZERO && s'.work == ZERO && s'.previous == book.outers[handle] && !s'.inTree
            && s'.inUse == s.inUse && s'.kind == s.kind && s'.client == s.client && s'.full == s.full
            && book'.order == Minus(book.order, handle)
  {
  }

  /** A new window is its client's, closed, with the gadgets and the full size asked for and nothing else. */
  lemma CreatedIs(book: Book, book': Book, handle: int, client: Client, kind: set<Gadget>, full: Rect)
    requires Created(book, book', handle, client, kind, full)
    ensures OnlyWindow(book, book', handle) && !book.slots[handle].inUse
    ensures book'.slots[handle] == Slot(true, false, kind, client, full, Rect(0, 0, 0, 0), Rect(0, 0, 0, 0))
    ensures book'.outers[handle] == Rect(0, 0, 0, 0) && book'.order == book.order && book'.shown == book.shown
  {
  }

  /** WIND_CREATE takes the zero rectangle, or a frame it could be opened with. */
  lemma CreateMeans(screen: Screen, ready: bool, kind: set<Gadget>, full: Rect)
    requires ready ==> Measured(screen) && screen.boxHeight <= 10922
    ensures Creatable(screen, ready, kind, full) <==>
            ready && (full == Rect(0, 0, 0, 0) || Usable(screen, kind, full))
  {
    hide Usable, PublicRect;
    UsableIs(screen, ready, kind, full);
  }

  // The end of a client, and a fresh start

  /** An unused slot. */
  ghost predicate Cleared(s: Slot) {
    && !s.inUse && !s.inTree && s.kind == {} && s.client == Client(-1, 0)
    && s.full == s.work == s.previous == Rect(0, 0, 0, 0)
  }

  /** The windows a client leaves behind. */
  ghost predicate Of(book: Book, client: Client, h: int) {
    1 <= h < |book.slots| && book.slots[h].inUse && book.slots[h].client == client
  }

  /** All windows of a client that ended are cleared and out of the order, all others are as they were, and the root
      is the system's if it was the client's. */
  lemma LeftMeans(book: Book, book': Book, client: Client, screen: Screen)
    requires Left(book, book', client, screen) && |book.outers| == |book.slots|
    ensures |book'.slots| == |book'.outers| == |book.slots| == 12
    ensures forall h | 1 <= h < 12 ::
              if Of(book, client, h) then Cleared(book'.slots[h]) && book'.outers[h] == Rect(0, 0, 0, 0)
              else book'.slots[h] == book.slots[h] && book'.outers[h] == book.outers[h]
    ensures forall h :: h in book'.order <==> h in book.order && !Of(book, client, h)
    ensures book'.slots[0] == (if book.slots[0].client == client
                               then book.slots[0].(client := Client(screen.system.channel, 0)) else book.slots[0])
    ensures book'.outers[0] == book.outers[0]
  {
    forall h
      ensures h in book'.order <==> h in book.order && !Of(book, client, h)
    {
      StayingIn(book.slots, book.order, client, 12, h);
    }
  }

  /** Those that stay keep their order. */
  lemma {:induction false} StayingOrder(slots: seq<Slot>, order: seq<int>, client: Client, limit: int, i: int, j: int)
    returns (k: int, l: int)
    requires 0 <= i < j < |order| && order[i] in Staying(slots, order, client, limit)
    requires order[j] in Staying(slots, order, client, limit) && Distinct(order)
    ensures 0 <= k < l < |Staying(slots, order, client, limit)|
    ensures Staying(slots, order, client, limit)[k] == order[i] && Staying(slots, order, client, limit)[l] == order[j]
  {
    var (rest, all) := (Staying(slots, order[1..], client, limit), Staying(slots, order, client, limit));
    StayingIn(slots, order, client, limit, order[i]);
    StayingIn(slots, order, client, limit, order[j]);
    StayingIn(slots, order[1..], client, limit, order[j]);
    assert order == [order[0]] + order[1..];
    DistinctParts([order[0]], order[1..]);
    assert order[1..][j - 1] == order[j];
    if i == 0 {
      var m :| 0 <= m < |rest| && rest[m] == order[j];
      k, l := 0, m + 1;
    } else {
      StayingIn(slots, order[1..], client, limit, order[i]);
      assert order[1..][i - 1] == order[i];
      k, l := StayingOrder(slots, order[1..], client, limit, i - 1, j - 1);
      if all != rest {
        k, l := k + 1, l + 1;
      }
    }
  }

  /** A manager just configured has the root only: the system's, with the screen below the menu bar to work in. */
  lemma ConfiguredIs(book: Book, screen: Screen)
    requires Configured(book, screen) && Measured(screen)
    ensures |book.slots| == |book.outers| == 12 && book.order == [] && !book.overflow
    ensures forall h | 1 <= h < 12 :: Cleared(book.slots[h]) && book.outers[h] == Rect(0, 0, 0, 0)
    ensures var below := Rect(0, screen.boxHeight, screen.width, screen.height - screen.boxHeight);
            && book.slots[0] == Slot(true, true, {}, screen.system, below, below,
                                     Rect(0, 0, screen.width, screen.height))
            && book.outers[0] == Rect(0, 0, screen.width, screen.height)
  {
    WrapKeeps(screen.height - screen.boxHeight);
  }
}
