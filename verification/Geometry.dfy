/** Rectangles in signed 16-bit words. */
module Geometry {
  const WORD_MAX := 32767
  const WORD_MIN := -32768

  /** A signed machine word. Storing an out-of-range sum in one is a verification error, so wherever the source
      can wrap around the model has to say so with `Wrap`. */
  type Word = v: int | WORD_MIN <= v <= WORD_MAX

  function Wrap(v: int): Word {
    (v - WORD_MIN) % 0x1_0000 + WORD_MIN
  }

  function Min(a: int, b: int): int { if a < b then a else b }

  function Max(a: int, b: int): int { if a > b then a else b }

  datatype Rect = Rect(x: Word, y: Word, w: Word, h: Word) {
    function Right(): int { x + w }

    function Bottom(): int { y + h }

    predicate Empty() { w <= 0 || h <= 0 }

    /** Both far edges can be computed: a positive size whose edges fit a word. */
    predicate Solid() {
      w > 0 && h > 0 && Right() <= WORD_MAX && Bottom() <= WORD_MAX
    }

    /** The pixel (px, py) lies in the rectangle; a rectangle whose edges overflow holds no pixel. */
    predicate Has(px: int, py: int) {
      Solid() && x <= px < Right() && y <= py < Bottom()
    }
  }

  const ZERO := Rect(0, 0, 0, 0)

  /** Clips `r` to `clip`; the zero rectangle when nothing is left. */
  function Intersect(clip: Rect, r: Rect): (c: Rect)
    ensures forall px, py :: c.Has(px, py) <==> clip.Has(px, py) && r.Has(px, py)
    ensures c == ZERO || c.Solid()
  {
    if !clip.Solid() || !r.Solid() then ZERO
    else
      var left := Max(clip.x, r.x);
      var top := Max(clip.y, r.y);
      var right := Min(clip.Right(), r.Right());
      var bottom := Min(clip.Bottom(), r.Bottom());
      if right <= left || bottom <= top then ZERO
      else Rect(left, top, right - left, bottom - top)
  }

  /** The union of two rectangles can be formed: one of them is empty or both have proper edges. */
  predicate CanEnclose(r: Rect, into: Rect) {
    if r.Empty() then !into.Empty() else into.Empty() || (r.Solid() && into.Solid())
  }

  /** Grows `into` to enclose `r` as well. Left alone when an edge overflows; the enclosing size may wrap. */
  function Enclose(r: Rect, into: Rect): Rect {
    if r.Empty() then into
    else if into.Empty() then r
    else if !r.Solid() || !into.Solid() then into
    else
      var left := Min(r.x, into.x);
      var top := Min(r.y, into.y);
      Rect(left, top, Wrap(Max(r.Right(), into.Right()) - left), Wrap(Max(r.Bottom(), into.Bottom()) - top))
  }

  /** `r` has proper edges and lies within `outer`. */
  predicate Within(r: Rect, outer: Rect) {
    r.Solid() && outer.x <= r.x && outer.y <= r.y && r.Right() <= outer.Right() && r.Bottom() <= outer.Bottom()
  }

  /** Within a common rectangle two rectangles can be enclosed, and the result loses no pixel of either. */
  lemma EncloseKeeps(r: Rect, into: Rect, outer: Rect)
    requires Within(r, outer) && (into == ZERO || Within(into, outer)) && outer.Solid()
    ensures CanEnclose(r, into) && Within(Enclose(r, into), outer)
    ensures forall px, py :: r.Has(px, py) || into.Has(px, py) ==> Enclose(r, into).Has(px, py)
  {
    if into != ZERO {
      assert Enclose(r, into).Right() == Max(r.Right(), into.Right());
      assert Enclose(r, into).Bottom() == Max(r.Bottom(), into.Bottom());
    }
  }

  /** A solid rectangle all of whose pixels are in another lies within it. */
  lemma WithinIs(r: Rect, outer: Rect)
    requires r.Solid() && forall px, py :: r.Has(px, py) ==> outer.Has(px, py)
    ensures Within(r, outer)
  {
    assert r.Has(r.x, r.y);
    assert r.Has(r.Right() - 1, r.Bottom() - 1);
  }
}
