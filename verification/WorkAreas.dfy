/** Where a window's work area is: what is left of the frame inside the border and the bands of its gadgets. */
module WorkAreas {
  import opened Books
  import opened Geometry
  import opened Scene
  import opened Wrappers
  import opened ZOrder

  /** A pixel of the frame that neither the border nor a gadget takes. A title takes as many rows at the top as a box is
      high, the information line as many less one below, a vertical bar or the sizer the width of a box at the right,
      a horizontal bar or the sizer its height at the bottom. */
  ghost predicate Inner(screen: Screen, kind: set<Gadget>, r: Rect, px: int, py: int) {
    var info := if Info in kind then screen.boxHeight - 1 else 0;
    && r.x < px < r.Right() - 1 && r.y + info < py < r.Bottom() - 1
    && (Name in kind || Closer in kind || Fuller in kind ==> py >= r.y + screen.boxHeight + info)
    && (UpArrow in kind || DnArrow in kind || VSlide in kind || Sizer in kind ==> px < r.Right() - screen.boxWidth)
    && (LfArrow in kind || RtArrow in kind || HSlide in kind || Sizer in kind ==> py < r.Bottom() - screen.boxHeight)
  }

  /** The metrics of a screen the manager can be configured for. */
  predicate Measured(screen: Screen) {
    0 < screen.boxWidth < screen.width && 0 < screen.boxHeight < screen.height
  }

  /** As high as a box may be for the rows above the work area to fit a word, whatever the gadgets. */
  const TALLEST_BOX := 16384

  lemma Takes(kind: set<Gadget>, some: set<Gadget>)
    ensures kind * some != {} <==> exists g | g in kind :: g in some
  {
    if g :| g in kind && g in some {
      assert g in kind * some;
    }
  }

  lemma Bands(kind: set<Gadget>)
    ensures kind * {Name, Closer, Fuller} != {} <==> Name in kind || Closer in kind || Fuller in kind
    ensures kind * {UpArrow, DnArrow, VSlide, Sizer} != {} <==>
            UpArrow in kind || DnArrow in kind || VSlide in kind || Sizer in kind
    ensures kind * {LfArrow, RtArrow, HSlide, Sizer} != {} <==>
            LfArrow in kind || RtArrow in kind || HSlide in kind || Sizer in kind
  {
    Takes(kind, {Name, Closer, Fuller});
    Takes(kind, {UpArrow, DnArrow, VSlide, Sizer});
    Takes(kind, {LfArrow, RtArrow, HSlide, Sizer});
  }

  /** The rows and columns taken besides the border: title, information line, right and bottom. */
  function Rows(screen: Screen, some: bool): int {
    if some then screen.boxHeight - 1 else 0
  }

  function Columns(screen: Screen, some: bool): int {
    if some then screen.boxWidth - 1 else 0
  }

  lemma WrapKeeps(v: int)
    requires WORD_MIN <= v <= WORD_MAX
    ensures Wrap(v) == v
  {
  }

  lemma WrapTurns(v: int)
    requires WORD_MAX < v < 3 * WORD_MAX
    ensures Wrap(v) == v - 0x1_0000
  {
  }

  /** The work area in plain numbers, as long as the rows above it fit a word. */
  lemma WorkRectIs(screen: Screen, kind: set<Gadget>, r: Rect, title: bool, info: bool, vertical: bool,
                   horizontal: bool)
    requires Measured(screen)
    requires title == (Name in kind || Closer in kind || Fuller in kind) && info == (Info in kind)
    requires vertical == (UpArrow in kind || DnArrow in kind || VSlide in kind || Sizer in kind)
    requires horizontal == (LfArrow in kind || RtArrow in kind || HSlide in kind || Sizer in kind)
    ensures var top := Wrap(1 + Rows(screen, title) + Rows(screen, info));
            var (right, bottom) := (1 + Columns(screen, vertical), 1 + Rows(screen, horizontal));
            WorkRect(screen, kind, r)
            == if r.w <= 1 + right || r.h <= Wrap(top + bottom) || r.x + 1 > WORD_MAX
                  || !(WORD_MIN <= r.y + top <= WORD_MAX) then None
               else Some(Rect(r.x + 1, r.y + top, Wrap(r.w - 1 - right), Wrap(r.h - top - bottom)))
  {
    hide Wrap;
    Bands(kind);
    WrapKeeps(1 + Columns(screen, vertical));
    WrapKeeps(2 + Columns(screen, vertical));
    WrapKeeps(1 + Rows(screen, horizontal));
  }

  /** A legal frame's work area holds exactly the pixels that neither the border nor a gadget takes. */
  lemma WorkAreaIs(screen: Screen, ready: bool, kind: set<Gadget>, r: Rect, px: int, py: int)
    requires Measured(screen) && screen.boxHeight <= TALLEST_BOX && PublicRect(screen, ready, kind, r).Some?
    ensures PublicRect(screen, ready, kind, r).value.Has(px, py) <==> Inner(screen, kind, r, px, py)
  {
    hide Wrap, WorkRect;
    var title := Name in kind || Closer in kind || Fuller in kind;
    var vertical := UpArrow in kind || DnArrow in kind || VSlide in kind || Sizer in kind;
    var horizontal := LfArrow in kind || RtArrow in kind || HSlide in kind || Sizer in kind;
    WorkRectIs(screen, kind, r, title, Info in kind, vertical, horizontal);
    var (top, bottom) := (1 + Rows(screen, title) + Rows(screen, Info in kind), 1 + Rows(screen, horizontal));
    WrapKeeps(top);
    WrapKeeps(r.w - 2 - Columns(screen, vertical));
    WrapKeeps(r.h - top - bottom);
    if top + bottom <= WORD_MAX {
      WrapKeeps(top + bottom);
    }
  }

  /** The work area of a legal frame is in the right place. */
  ghost predicate WellPlaced(screen: Screen, kind: set<Gadget>, r: Rect) {
    var work := PublicRect(screen, true, kind, r);
    work.Some? ==> forall px, py :: work.value.Has(px, py) <==> Inner(screen, kind, r, px, py)
  }

  /** So it is for all frames and gadgets of a screen exactly when a box is at most 16384 pixels high. */
  lemma WorkAreasExact(screen: Screen)
    requires Measured(screen)
    ensures (forall kind: set<Gadget>, r :: WellPlaced(screen, kind, r)) <==> screen.boxHeight <= 16384
  {
    if screen.boxHeight <= TALLEST_BOX {
      forall kind: set<Gadget>, r
        ensures WellPlaced(screen, kind, r)
      {
        hide WorkRect, Inner;
        if PublicRect(screen, true, kind, r).Some? {
          forall px, py
            ensures PublicRect(screen, true, kind, r).value.Has(px, py) <==> Inner(screen, kind, r, px, py)
          {
            WorkAreaIs(screen, true, kind, r, px, py);
          }
        }
      }
    } else {
      TallBoxMisplaces(screen);
    }
  }

  /** With higher boxes a frame of one row below the menu bar gets a work area that starts above it. */
  lemma TallBoxMisplaces(screen: Screen)
    requires Measured(screen) && screen.boxHeight > TALLEST_BOX
    ensures !WellPlaced(screen, {Name, Info}, Rect(-1, screen.boxHeight, 3, 1))
  {
    hide Wrap, WorkRect;
    var kind: set<Gadget> := {Name, Info};
    var r := Rect(-1, screen.boxHeight, 3, 1);
    var upper := 2 * screen.boxHeight - 1;
    var top := upper - 0x1_0000;
    WorkRectIs(screen, kind, r, true, true, false, false);
    WrapTurns(upper);
    WrapKeeps(top + 1);
    WrapKeeps(1);
    WrapKeeps(-top);
    var work := Rect(0, screen.boxHeight + top, 1, -top);
    assert PublicRect(screen, true, kind, r) == Some(work);
    assert work.Has(0, work.y) && !Inner(screen, kind, r, 0, work.y);
  }

  /** A frame is on the screen, below the menu bar, and leaves a pixel to work in. */
  ghost predicate Usable(screen: Screen, kind: set<Gadget>, r: Rect) {
    && OnScreen(screen, r) && r.Right() > 0 && r.Bottom() > screen.boxHeight
    && exists px, py :: Inner(screen, kind, r, px, py)
  }

  /** Exactly the usable frames are legal, for all frames and gadgets of a screen, exactly when a box is at most 10922
      pixels high: then all rows taken fit a word together. */
  lemma FramesExact(screen: Screen)
    requires Measured(screen)
    ensures (forall kind: set<Gadget>, r :: PublicRect(screen, true, kind, r).Some? <==> Usable(screen, kind, r))
            <==> screen.boxHeight <= 10922
  {
    if screen.boxHeight <= 10922 {
      forall kind: set<Gadget>, r
        ensures PublicRect(screen, true, kind, r).Some? <==> Usable(screen, kind, r)
      {
        FrameIs(screen, kind, r);
      }
    } else {
      TallBoxesAccepted(screen);
    }
  }

  lemma FrameIs(screen: Screen, kind: set<Gadget>, r: Rect)
    requires Measured(screen) && screen.boxHeight <= 10922
    ensures PublicRect(screen, true, kind, r).Some? <==> Usable(screen, kind, r)
  {
    hide Wrap, WorkRect;
    var title := Name in kind || Closer in kind || Fuller in kind;
    var vertical := UpArrow in kind || DnArrow in kind || VSlide in kind || Sizer in kind;
    var horizontal := LfArrow in kind || RtArrow in kind || HSlide in kind || Sizer in kind;
    WorkRectIs(screen, kind, r, title, Info in kind, vertical, horizontal);
    var (top, bottom) := (1 + Rows(screen, title) + Rows(screen, Info in kind), 1 + Rows(screen, horizontal));
    WrapKeeps(top);
    WrapKeeps(top + bottom);
    if PublicRect(screen, true, kind, r).Some? {
      assert Inner(screen, kind, r, r.x + 1, r.y + top);
    }
  }

  /** With higher boxes the sum of the rows taken turns negative, and too low a frame passes. */
  lemma TallBoxesAccepted(screen: Screen)
    requires Measured(screen) && screen.boxHeight > 10922
    ensures exists kind: set<Gadget>, r :: PublicRect(screen, true, kind, r).Some? && !Usable(screen, kind, r)
  {
    hide Wrap, WorkRect;
    if screen.boxHeight > TALLEST_BOX {
      var kind: set<Gadget> := {Name, Info};
      var r := Rect(-1, screen.boxHeight, 3, 1);
      WorkRectIs(screen, kind, r, true, true, false, false);
      WrapTurns(2 * screen.boxHeight - 1);
      WrapKeeps(2 * screen.boxHeight - 0x1_0000);
      assert PublicRect(screen, true, kind, r).Some? && !Usable(screen, kind, r);
    } else {
      var kind: set<Gadget> := {Name, Info, HSlide};
      var r := Rect(-1, 0x8000 - 2 * screen.boxHeight, 3, 3 * screen.boxHeight - WORD_MAX);
      WorkRectIs(screen, kind, r, true, true, false, true);
      WrapKeeps(2 * screen.boxHeight - 1);
      WrapTurns(3 * screen.boxHeight - 1);
      assert PublicRect(screen, true, kind, r).Some? && !Usable(screen, kind, r);
    }
  }

  /** An open window's work area is in the right place in its frame `r`. */
  ghost predicate WorkPlaced(book: Book, screen: Screen, handle: int, r: Rect) {
    0 <= handle < |book.slots|
    && forall px, py :: book.slots[handle].work.Has(px, py) <==> Inner(screen, book.slots[handle].kind, r, px, py)
  }

  /** In every state of the manager all open windows' work areas are. */
  lemma OpenPlaced(book: Book, screen: Screen, ready: bool, handle: int)
    requires InOrder(book, screen, ready) && OPEN_MIN <= handle < WINDOW_COUNT && handle in book.order
    requires screen.boxHeight <= 16384
    ensures WorkPlaced(book, screen, handle, FrameOf(book, handle))
  {
    hide PublicRect, Inner;
    forall px, py
      ensures book.slots[handle].work.Has(px, py) <==>
                Inner(screen, book.slots[handle].kind, FrameOf(book, handle), px, py)
    {
      assert PublicRect(screen, ready, book.slots[handle].kind, FrameOf(book, handle)) == Some(book.slots[handle].work);
      LegalReady(screen, ready, book.slots[handle].kind, FrameOf(book, handle));
      WorkAreaIs(screen, ready, book.slots[handle].kind, FrameOf(book, handle), px, py);
    }
  }

  lemma LegalReady(screen: Screen, ready: bool, kind: set<Gadget>, r: Rect)
    requires PublicRect(screen, ready, kind, r).Some?
    ensures ready
  {
  }

  lemma PlacedOpen(book: Book, book': Book, screen: Screen, ready: bool, client: Client, handle: int, r: Rect)
    requires InOrder(book, screen, ready) && InOrder(book', screen, ready) && screen.boxHeight <= 16384
    requires Opened(book, book', screen, ready, client, handle, r)
    ensures WorkPlaced(book', screen, handle, r)
  {
    hide PublicRect, WorkPlaced;
    OpenInOrder(book, book', screen, ready, client, handle, r);
    OpenPlaced(book', screen, ready, handle);
  }

  lemma PlacedMove(book: Book, book': Book, screen: Screen, ready: bool, client: Client, handle: int, r: Rect,
                   toTop: bool)
    requires InOrder(book, screen, ready) && InOrder(book', screen, ready) && screen.boxHeight <= 16384
    requires Moved(book, book', screen, ready, client, handle, r, toTop)
    ensures WorkPlaced(book', screen, handle, r)
  {
    hide PublicRect, WorkPlaced;
    MoveInOrder(book, book', screen, ready, client, handle, r, toTop);
    RestackedSame(book.order, handle, toTop);
    OpenPlaced(book', screen, ready, handle);
  }
}
