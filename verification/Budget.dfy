/** How many nodes the piece lists take: cutting from an endless pool, and what a limited one makes of it. */
module Budget {
  import opened Books
  import opened Geometry
  import opened Pieces
  import opened Scene

  /** Every piece cut around the occluder, from an endless pool. */
  function Whole(ps: seq<Rect>, occ: Rect): seq<Rect> {
    if ps == [] then [] else (if Meets(ps[0], occ) then Split(ps[0], occ) else [ps[0]]) + Whole(ps[1..], occ)
  }

  function Greater(a: int, b: int): nat
    requires a >= 0
  {
    if a > b then a else b
  }

  /** The most spare nodes in use at any moment while a list is cut around an occluder. The parts of a piece are made
      before its own node is given back. */
  function Peak(ps: seq<Rect>, occ: Rect): nat {
    if ps == [] then 0
    else if !Meets(ps[0], occ) then Peak(ps[1..], occ)
    else Greater(|Split(ps[0], occ)|, |Split(ps[0], occ)| - 1 + Peak(ps[1..], occ))
  }

  /** The pool suffices exactly for the peak, and then the cut is the same as from an endless one. */
  lemma {:induction false} CutPeak(ps: seq<Rect>, occ: Rect, free: nat)
    ensures Cut(ps, occ, free).ok <==> Peak(ps, occ) <= free
    ensures Cut(ps, occ, free).ok ==> Cut(ps, occ, free).rects == Whole(ps, occ)
  {
    hide Split, Meets;
    if ps != [] {
      if !Meets(ps[0], occ) {
        CutPeak(ps[1..], occ, free);
      } else if |Split(ps[0], occ)| <= free {
        CutPeak(ps[1..], occ, free - |Split(ps[0], occ)| + 1);
      }
    }
  }

  function WholeAll(ps: seq<Rect>, occs: seq<Rect>): seq<Rect>
    decreases |occs|
  {
    if occs == [] then ps else WholeAll(Whole(ps, occs[0]), occs[1..])
  }

  function PeakAll(ps: seq<Rect>, occs: seq<Rect>): nat
    decreases |occs|
  {
    if occs == [] then 0
    else Greater(Peak(ps, occs[0]), |Whole(ps, occs[0])| - |ps| + PeakAll(Whole(ps, occs[0]), occs[1..]))
  }

  lemma {:induction false} CutAllPeak(ps: seq<Rect>, occs: seq<Rect>, free: nat)
    ensures CutAll(ps, occs, free).ok <==> PeakAll(ps, occs) <= free
    ensures CutAll(ps, occs, free).ok ==> CutAll(ps, occs, free).rects == WholeAll(ps, occs)
    decreases |occs|
  {
    if occs != [] {
      CutPeak(ps, occs[0], free);
      var b := Cut(ps, occs[0], free);
      if b.ok {
        CutAllPeak(b.rects, occs[1..], b.free);
      }
    }
  }

  function WholeLayer(base: Rect, occs: seq<Rect>): seq<Rect> {
    if base.Empty() then [] else WholeAll([base], occs)
  }

  function LayerPeak(base: Rect, occs: seq<Rect>): nat {
    if base.Empty() then 0 else 1 + PeakAll([base], occs)
  }

  lemma LayerPeaks(base: Rect, occs: seq<Rect>, free: nat)
    ensures Layer(base, occs, free).ok <==> LayerPeak(base, occs) <= free
    ensures Layer(base, occs, free).ok ==> Layer(base, occs, free).rects == WholeLayer(base, occs)
  {
    if !base.Empty() && free > 0 {
      CutAllPeak([base], occs, free - 1);
    }
  }

  /** The most nodes in use at any moment while the lists of a stack are built, lowest first. */
  function StackPeak(bases: seq<Rect>): nat {
    if bases == [] then 0
    else Greater(LayerPeak(bases[0], bases[1..]), |WholeLayer(bases[0], bases[1..])| + StackPeak(bases[1..]))
  }

  /** All lists can be built exactly when the nodes in use never are more than there are, and then each is what an
      endless pool would give. */
  lemma {:induction false} LayersPeak(bases: seq<Rect>, free: nat)
    ensures Layers(bases, free).ok <==> StackPeak(bases) <= free
    ensures Layers(bases, free).ok ==>
              forall i | 0 <= i < |bases| :: Layers(bases, free).lists[i] == WholeLayer(bases[i], bases[i + 1..])
  {
    hide Layer, WholeLayer, LayerPeak;
    if bases != [] {
      var b := Layer(bases[0], bases[1..], free);
      LayerPeaks(bases[0], bases[1..], free);
      if b.ok {
        LayersPeak(bases[1..], b.free);
        forall i | 0 < i < |bases|
          ensures bases[1..][i - 1] == bases[i] && bases[1..][i..] == bases[i + 1..]
        {
        }
      }
    }
  }

  /** A rebuild finds room for all pieces exactly when it never needs more than 120 nodes at once. */
  lemma FitsPeak(slots: seq<Slot>, outers: seq<Rect>, order: seq<int>)
    ensures Fits(slots, outers, order) <==> StackPeak(BasesOf(slots, outers, order)) <= 120
  {
    LayersPeak(BasesOf(slots, outers, order), 120);
  }
}
