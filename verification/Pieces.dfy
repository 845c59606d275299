/** What is left of stacked rectangles: cutting one list of pieces around an occluder, and layering whole scenes.
    Every cut runs against a bounded pool of list nodes, so the same functions also say when it runs dry. */
module Pieces {
  import opened Geometry

  predicate Overlap(a: Rect, b: Rect)
    requires a.Solid() && b.Solid()
  {
    a.x < b.Right() && b.x < a.Right() && a.y < b.Bottom() && b.y < a.Bottom()
  }

  predicate Meets(whole: Rect, occ: Rect) {
    whole.Solid() && occ.Solid() && Overlap(whole, occ)
  }

  function Keep(r: Rect): seq<Rect> {
    if r.Empty() then [] else [r]
  }

  // The four strips of `whole` around `occ`.

  function Above(whole: Rect, occ: Rect): Rect
    requires Meets(whole, occ)
  {
    Rect(whole.x, whole.y, whole.w, occ.y - whole.y)
  }

  function LeftOf(whole: Rect, occ: Rect): Rect
    requires Meets(whole, occ)
  {
    var top := Max(whole.y, occ.y);
    Rect(whole.x, top, occ.x - whole.x, Min(whole.Bottom(), occ.Bottom()) - top)
  }

  function RightOf(whole: Rect, occ: Rect): Rect
    requires Meets(whole, occ)
  {
    var top := Max(whole.y, occ.y);
    Rect(occ.Right(), top, whole.Right() - occ.Right(), Min(whole.Bottom(), occ.Bottom()) - top)
  }

  function Below(whole: Rect, occ: Rect): Rect
    requires Meets(whole, occ)
  {
    Rect(whole.x, occ.Bottom(), whole.w, whole.Bottom() - occ.Bottom())
  }

  /** The pieces that replace `whole` once `occ` lies on top of it: itself when they do not meet. */
  function Split(whole: Rect, occ: Rect): seq<Rect> {
    if Meets(whole, occ)
    then Keep(Above(whole, occ)) + Keep(LeftOf(whole, occ)) + Keep(RightOf(whole, occ)) + Keep(Below(whole, occ))
    else [whole]
  }

  /** Some piece holds the pixel. */
  ghost predicate Covered(ps: seq<Rect>, px: int, py: int) {
    exists i | 0 <= i < |ps| :: ps[i].Has(px, py)
  }

  /** No pixel lies in two pieces. */
  ghost predicate Disjoint(ps: seq<Rect>) {
    forall i, j, px, py | 0 <= i < j < |ps| :: !(ps[i].Has(px, py) && ps[j].Has(px, py))
  }

  ghost predicate AllSolid(ps: seq<Rect>) {
    forall i | 0 <= i < |ps| :: ps[i].Solid()
  }

  lemma CoveredConcat(a: seq<Rect>, b: seq<Rect>, px: int, py: int)
    ensures Covered(a + b, px, py) <==> Covered(a, px, py) || Covered(b, px, py)
  {
    if Covered(a, px, py) {
      var i :| 0 <= i < |a| && a[i].Has(px, py);
      assert (a + b)[i].Has(px, py);
    }
    if Covered(b, px, py) {
      var i :| 0 <= i < |b| && b[i].Has(px, py);
      assert (a + b)[|a| + i].Has(px, py);
    }
  }

  lemma DisjointConcat(a: seq<Rect>, b: seq<Rect>)
    requires Disjoint(a) && Disjoint(b)
    requires forall px, py :: !(Covered(a, px, py) && Covered(b, px, py))
    ensures Disjoint(a + b)
  {
    forall i, j, px, py | 0 <= i < j < |a + b|
      ensures !((a + b)[i].Has(px, py) && (a + b)[j].Has(px, py))
    {
      if i < |a| <= j {
        assert a[i].Has(px, py) ==> Covered(a, px, py);
        assert b[j - |a|].Has(px, py) ==> Covered(b, px, py);
      }
    }
  }

  lemma CoveredKeep(r: Rect, px: int, py: int)
    requires r.Empty() || r.Solid()
    ensures Covered(Keep(r), px, py) <==> r.Has(px, py)
  {
    if r.Has(px, py) {
      assert Keep(r)[0].Has(px, py);
    }
  }

  /** The strips around an occluder are solid or empty, and hold precisely the uncovered pixels, each once. */
  lemma StripsExact(whole: Rect, occ: Rect, px: int, py: int)
    requires Meets(whole, occ)
    ensures var (a, l, r, b) := (Above(whole, occ), LeftOf(whole, occ), RightOf(whole, occ), Below(whole, occ));
            && (a.Empty() || a.Solid()) && (l.Empty() || l.Solid())
            && (r.Empty() || r.Solid()) && (b.Empty() || b.Solid())
            && (a.Has(px, py) || l.Has(px, py) || r.Has(px, py) || b.Has(px, py) <==>
                whole.Has(px, py) && !occ.Has(px, py))
            && !(a.Has(px, py) && (l.Has(px, py) || r.Has(px, py) || b.Has(px, py)))
            && !(l.Has(px, py) && (r.Has(px, py) || b.Has(px, py))) && !(r.Has(px, py) && b.Has(px, py))
  {
  }

  /** Splitting is exact: the pieces are solid, pairwise disjoint and hold precisely the uncovered pixels. */
  lemma SplitExact(whole: Rect, occ: Rect)
    requires whole.Solid()
    ensures AllSolid(Split(whole, occ)) && Disjoint(Split(whole, occ))
    ensures forall px, py :: Covered(Split(whole, occ), px, py) <==> whole.Has(px, py) && !occ.Has(px, py)
    ensures |Split(whole, occ)| <= 4
  {
    if Meets(whole, occ) {
      var (a, l, r, b) := (Above(whole, occ), LeftOf(whole, occ), RightOf(whole, occ), Below(whole, occ));
      StripsExact(whole, occ, 0, 0);
      forall px, py
        ensures Covered(Split(whole, occ), px, py) <==> whole.Has(px, py) && !occ.Has(px, py)
        ensures Covered(Keep(a) + Keep(l) + Keep(r), px, py) <==> a.Has(px, py) || l.Has(px, py) || r.Has(px, py)
        ensures Covered(Keep(a) + Keep(l), px, py) <==> a.Has(px, py) || l.Has(px, py)
        ensures !(Covered(Keep(a), px, py) && Covered(Keep(l), px, py))
        ensures !(Covered(Keep(a) + Keep(l), px, py) && Covered(Keep(r), px, py))
        ensures !(Covered(Keep(a) + Keep(l) + Keep(r), px, py) && Covered(Keep(b), px, py))
      {
        StripsExact(whole, occ, px, py);
        CoveredConcat(Keep(a) + Keep(l) + Keep(r), Keep(b), px, py);
        CoveredConcat(Keep(a) + Keep(l), Keep(r), px, py);
        CoveredConcat(Keep(a), Keep(l), px, py);
        CoveredKeep(a, px, py);
        CoveredKeep(l, px, py);
        CoveredKeep(r, px, py);
        CoveredKeep(b, px, py);
      }
      DisjointConcat(Keep(a), Keep(l));
      DisjointConcat(Keep(a) + Keep(l), Keep(r));
      DisjointConcat(Keep(a) + Keep(l) + Keep(r), Keep(b));
    } else {
      forall px, py
        ensures Covered([whole], px, py) <==> whole.Has(px, py) && !occ.Has(px, py)
      {
        CoveredKeep(whole, px, py);
      }
    }
  }

  /** The outcome of cutting under a pool with `free` spare nodes: whether it sufficed, the pieces as they then
      stand (cut up to the failure point when it did not), and the spare nodes left. */
  datatype Built = Built(ok: bool, rects: seq<Rect>, free: nat)

  /** Cuts every piece of a list around one occluder, left to right. The new pieces of a split are taken from the
      pool before the node of the split piece goes back. */
  function Cut(ps: seq<Rect>, occ: Rect, free: nat): (b: Built)
    ensures |b.rects| + b.free == |ps| + free
  {
    if ps == [] then Built(true, [], free)
    else if !Meets(ps[0], occ) then
      var rest := Cut(ps[1..], occ, free);
      rest.(rects := [ps[0]] + rest.rects)
    else
      var parts := Split(ps[0], occ);
      if |parts| > free then Built(false, ps, free)
      else
        var rest := Cut(ps[1..], occ, free - |parts| + 1);
        rest.(rects := parts + rest.rects)
  }

  function Prepend(ps: seq<Rect>, b: Built): Built {
    b.(rects := ps + b.rects)
  }

  /** One step of `Cut` with the pieces already passed kept in front. */
  lemma CutStep(passed: seq<Rect>, whole: Rect, after: seq<Rect>, occ: Rect, free: nat)
    ensures var b := Prepend(passed, Cut([whole] + after, occ, free));
            b == if !Meets(whole, occ) then Prepend(passed + [whole], Cut(after, occ, free))
                 else if |Split(whole, occ)| > free then Built(false, passed + [whole] + after, free)
                 else Prepend(passed + Split(whole, occ), Cut(after, occ, free - |Split(whole, occ)| + 1))
  {
    assert ([whole] + after)[1..] == after;
    assert passed + ([whole] + after) == passed + [whole] + after;
    var rest := Cut(after, occ, free).rects;
    assert passed + ([whole] + rest) == passed + [whole] + rest;
  }

  /** Cuts a list around a whole stack of occluders, lowest first; stops at the first that exhausts the pool. */
  function CutAll(ps: seq<Rect>, occs: seq<Rect>, free: nat): (b: Built)
    ensures |b.rects| + b.free == |ps| + free
    decreases |occs|
  {
    if occs == [] then Built(true, ps, free)
    else
      var b := Cut(ps, occs[0], free);
      if b.ok then CutAll(b.rects, occs[1..], b.free) else b
  }

  lemma CutAllStep(ps: seq<Rect>, occ: Rect, occs: seq<Rect>, free: nat)
    ensures var b := Cut(ps, occ, free);
            CutAll(ps, [occ] + occs, free) == if b.ok then CutAll(b.rects, occs, b.free) else b
  {
    assert ([occ] + occs)[1..] == occs;
  }

  /** One list from scratch: nothing for an empty base, otherwise one node for the base and then the cuts. */
  function Layer(base: Rect, occs: seq<Rect>, free: nat): (b: Built)
    ensures |b.rects| + b.free == free
  {
    if base.Empty() then Built(true, [], free)
    else if free == 0 then Built(false, [], 0)
    else CutAll([base], occs, free - 1)
  }

  datatype Layout = Layout(ok: bool, lists: seq<seq<Rect>>)

  function Blank(n: nat): seq<seq<Rect>> {
    seq(n, _ => [])
  }

  /** The lists of a whole stack, lowest rectangle first, each cut around everything above it. When the pool runs
      dry the list at hand stays half cut and the ones above it stay empty. */
  function Layers(bases: seq<Rect>, free: nat): (l: Layout)
    ensures |l.lists| == |bases|
  {
    if bases == [] then Layout(true, [])
    else
      var b := Layer(bases[0], bases[1..], free);
      if !b.ok then Layout(false, [b.rects] + Blank(|bases| - 1))
      else
        var rest := Layers(bases[1..], b.free);
        Layout(rest.ok, [b.rects] + rest.lists)
  }

  /** From list k on, `goal` is what layering the rest of the stack with `free` spare nodes gives. */
  ghost predicate LeadsTo(bases: seq<Rect>, k: nat, free: nat, goal: Layout) {
    && k <= |bases| == |goal.lists|
    && Layers(bases[k..], free) == Layout(goal.ok, goal.lists[k..])
  }

  lemma LeadsToStart(bases: seq<Rect>, free: nat)
    ensures LeadsTo(bases, 0, free, Layers(bases, free))
  {
    assert bases[0..] == bases;
    assert Layers(bases, free).lists[0..] == Layers(bases, free).lists;
  }

  lemma LayersStep(bases: seq<Rect>, k: nat, free: nat, goal: Layout)
    requires LeadsTo(bases, k, free, goal) && k < |bases|
    ensures var b := Layer(bases[k], bases[k + 1..], free);
            && goal.lists[k] == b.rects
            && if b.ok then LeadsTo(bases, k + 1, b.free, goal)
               else !goal.ok && forall i | k < i < |bases| :: goal.lists[i] == []
  {
    var b := Layer(bases[k], bases[k + 1..], free);
    var (rest, lists) := (bases[k..], goal.lists[k..]);
    assert rest[0] == bases[k] && rest[1..] == bases[k + 1..];
    assert lists[0] == goal.lists[k] && lists[1..] == goal.lists[k + 1..];
    assert forall i | k < i < |bases| :: goal.lists[i] == lists[i - k];
  }

  /** Cutting around one occluder is exact. */
  lemma {:induction false} CutExact(ps: seq<Rect>, occ: Rect, free: nat)
    requires AllSolid(ps) && Disjoint(ps) && Cut(ps, occ, free).ok
    ensures var cut := Cut(ps, occ, free).rects;
            && AllSolid(cut) && Disjoint(cut)
            && forall px, py :: Covered(cut, px, py) <==> Covered(ps, px, py) && !occ.Has(px, py)
  {
    if ps != [] {
      var parts := Split(ps[0], occ);
      var left := if Meets(ps[0], occ) then free - |parts| + 1 else free;
      var rest := Cut(ps[1..], occ, left).rects;
      SplitExact(ps[0], occ);
      CutExact(ps[1..], occ, left);
      forall px, py
        ensures Covered(parts + rest, px, py) <==> Covered(ps, px, py) && !occ.Has(px, py)
        ensures !(Covered(parts, px, py) && Covered(rest, px, py))
      {
        CoveredConcat(parts, rest, px, py);
        CoveredConcat([ps[0]], ps[1..], px, py);
        CoveredKeep(ps[0], px, py);
        assert [ps[0]] + ps[1..] == ps;
      }
      DisjointConcat(parts, rest);
    }
  }

  lemma {:induction false} CutAllExact(ps: seq<Rect>, occs: seq<Rect>, free: nat)
    requires AllSolid(ps) && Disjoint(ps) && CutAll(ps, occs, free).ok
    ensures var cut := CutAll(ps, occs, free).rects;
            && AllSolid(cut) && Disjoint(cut)
            && forall px, py :: Covered(cut, px, py) <==> Covered(ps, px, py) && !Covered(occs, px, py)
    decreases |occs|
  {
    if occs != [] {
      var b := Cut(ps, occs[0], free);
      CutExact(ps, occs[0], free);
      CutAllExact(b.rects, occs[1..], b.free);
      forall px, py
        ensures Covered(occs, px, py) <==> occs[0].Has(px, py) || Covered(occs[1..], px, py)
      {
        assert occs == [occs[0]] + occs[1..];
        CoveredConcat([occs[0]], occs[1..], px, py);
        assert Covered([occs[0]], px, py) <==> occs[0].Has(px, py) by {
          if occs[0].Has(px, py) { assert [occs[0]][0].Has(px, py); }
        }
      }
    }
  }

  lemma {:induction false} LayerExact(base: Rect, occs: seq<Rect>, free: nat)
    requires base.Empty() || base.Solid()
    requires Layer(base, occs, free).ok
    ensures var ps := Layer(base, occs, free).rects;
            && AllSolid(ps) && Disjoint(ps)
            && forall px, py :: Covered(ps, px, py) <==> base.Has(px, py) && !Covered(occs, px, py)
  {
    if !base.Empty() {
      CutAllExact([base], occs, free - 1);
      forall px, py
        ensures Covered([base], px, py) <==> base.Has(px, py)
      {
        CoveredKeep(base, px, py);
      }
    }
  }

  /** The main result on layering: when the pool suffices, every list is made of disjoint solid pieces that hold
      exactly the pixels of its base lying under none of the rectangles above. */
  lemma {:induction false} LayersExact(bases: seq<Rect>, free: nat, i: nat)
    requires forall k | 0 <= k < |bases| :: bases[k].Empty() || bases[k].Solid()
    requires Layers(bases, free).ok && i < |bases|
    ensures var ps := Layers(bases, free).lists[i];
            && AllSolid(ps) && Disjoint(ps)
            && forall px, py :: Covered(ps, px, py) <==> bases[i].Has(px, py) && !Covered(bases[i + 1..], px, py)
  {
    if i == 0 {
      LayerExact(bases[0], bases[1..], free);
    } else {
      LayersExact(bases[1..], Layer(bases[0], bases[1..], free).free, i - 1);
      assert bases[1..][i..] == bases[i + 1..];
    }
  }

  // Walking a window's pieces

  /** What a client that asks for the pieces of its window one by one is given: their visible work area parts. */
  function Walk(work: Rect, ps: seq<Rect>): seq<Rect> {
    if ps == [] then []
    else
      var clip := Intersect(work, ps[0]);
      (if clip.Solid() then [clip] else []) + Walk(work, ps[1..])
  }

  /** A walk over disjoint pieces is a tiling of the visible work area. */
  lemma {:induction false} WalkExact(work: Rect, ps: seq<Rect>)
    requires Disjoint(ps)
    ensures AllSolid(Walk(work, ps)) && Disjoint(Walk(work, ps))
    ensures forall px, py :: Covered(Walk(work, ps), px, py) <==> work.Has(px, py) && Covered(ps, px, py)
  {
    if ps != [] {
      var (clip, rest) := (Intersect(work, ps[0]), Walk(work, ps[1..]));
      var first := if clip.Solid() then [clip] else [];
      WalkExact(work, ps[1..]);
      assert [ps[0]] + ps[1..] == ps;
      forall px, py
        ensures Covered(first + rest, px, py) <==> work.Has(px, py) && Covered(ps, px, py)
        ensures !(Covered(first, px, py) && Covered(rest, px, py))
      {
        CoveredConcat(first, rest, px, py);
        CoveredConcat([ps[0]], ps[1..], px, py);
        assert ps[0].Has(px, py) ==> [ps[0]][0].Has(px, py);
        assert clip.Has(px, py) ==> first[0].Has(px, py);
      }
      DisjointConcat(first, rest);
    }
  }
}
