/** A stack of open windows as a value: who owns a pixel, which pieces each window shows, and which redraw messages
    a dirty area calls for. */
module Scene {
  import opened Geometry
  import opened Pieces
  import opened Wrappers

  const ROOT := 0

  /** A client channel together with the generation that tells its successive users apart. */
  datatype Client = Client(channel: int, generation: int)

  /** One open window: its frame rectangle, its work area and the pieces of the frame that show. */
  datatype Pane = Pane(handle: int, client: Client, outer: Rect, work: Rect)

  /** WM_REDRAW for one window. */
  datatype Message = Message(client: Client, handle: int, rect: Rect)

  /** The topmost window at a pixel, ROOT where there is none. Panes are ordered bottom to top. */
  function TopAt(panes: seq<Pane>, px: int, py: int): int {
    if panes == [] then ROOT
    else if panes[|panes| - 1].outer.Has(px, py) then panes[|panes| - 1].handle
    else TopAt(panes[..|panes| - 1], px, py)
  }

  function Outers(panes: seq<Pane>): (os: seq<Rect>)
    ensures |os| == |panes|
  {
    seq(|panes|, i requires 0 <= i < |panes| => panes[i].outer)
  }

  /** The stack the piece lists are cut from: the root work area below all frames. */
  function Bases(root: Rect, panes: seq<Pane>): (bs: seq<Rect>)
    ensures |bs| == |panes| + 1
  {
    [root] + Outers(panes)
  }

  ghost predicate DistinctHandles(panes: seq<Pane>) {
    && (forall i | 0 <= i < |panes| :: panes[i].handle != ROOT)
    && (forall i, j | 0 <= i < j < |panes| :: panes[i].handle != panes[j].handle)
  }

  /** TopAt finds the last pane that has the pixel. */
  lemma {:induction false} TopAtIs(panes: seq<Pane>, px: int, py: int)
    ensures if Covered(Outers(panes), px, py)
            then exists i | 0 <= i < |panes| :: panes[i].outer.Has(px, py) && TopAt(panes, px, py) == panes[i].handle
                                                && !Covered(Outers(panes)[i + 1..], px, py)
            else TopAt(panes, px, py) == ROOT
  {
    if panes != [] {
      var n := |panes| - 1;
      if panes[n].outer.Has(px, py) {
        assert Outers(panes)[n].Has(px, py);
        assert Outers(panes)[n + 1..] == [];
      } else {
        TopAtIs(panes[..n], px, py);
        assert Outers(panes) == Outers(panes[..n]) + [panes[n].outer];
        CoveredConcat(Outers(panes[..n]), [panes[n].outer], px, py);
        if Covered(Outers(panes[..n]), px, py) {
          var i :| 0 <= i < n && panes[..n][i].outer.Has(px, py) && TopAt(panes[..n], px, py) == panes[..n][i].handle
                   && !Covered(Outers(panes[..n])[i + 1..], px, py);
          assert panes[i].outer.Has(px, py);
          assert Outers(panes)[i + 1..] == Outers(panes[..n])[i + 1..] + [panes[n].outer];
          CoveredConcat(Outers(panes[..n])[i + 1..], [panes[n].outer], px, py);
        }
      }
    }
  }

  /** What the piece lists mean. When the pool sufficed, pane i's list is made of disjoint pieces that together hold
      exactly the pixels whose topmost window it is; the root list (position 0) holds what is left of its work area.
      So every pixel of the work area or of a window lies in exactly one piece of exactly one list. */
  lemma VisiblePieces(root: Rect, panes: seq<Pane>, free: nat, i: nat, px: int, py: int)
    requires root.Empty() || root.Solid()
    requires forall k | 0 <= k < |panes| :: panes[k].outer.Solid()
    requires DistinctHandles(panes)
    requires Layers(Bases(root, panes), free).ok && i <= |panes|
    ensures var list := Layers(Bases(root, panes), free).lists[i];
            && AllSolid(list) && Disjoint(list)
            && (Covered(list, px, py) <==>
                if i == 0 then root.Has(px, py) && TopAt(panes, px, py) == ROOT
                else TopAt(panes, px, py) == panes[i - 1].handle)
  {
    var bases := Bases(root, panes);
    var os := Outers(panes);
    LayersExact(bases, free, i);
    TopAtIs(panes, px, py);
    assert bases[i + 1..] == os[i..];
    CoveredTail(os, i, px, py);
    forall a, k | 0 <= a <= k < |os| && os[k].Has(px, py)
      ensures Covered(os[a..], px, py)
    {
      assert os[a..][k - a] == os[k];
    }
    if Covered(os, px, py) {
      var k :| 0 <= k < |panes| && panes[k].outer.Has(px, py) && TopAt(panes, px, py) == panes[k].handle
               && !Covered(os[k + 1..], px, py);
      assert os[k] == panes[k].outer;
      assert i > 0 ==> os[i - 1] == panes[i - 1].outer;
    }
  }

  lemma CoveredTail(ps: seq<Rect>, from: nat, px: int, py: int)
    requires from <= |ps|
    ensures Covered(ps[from..], px, py) ==> Covered(ps, px, py)
  {
    if Covered(ps[from..], px, py) {
      var m :| 0 <= m < |ps[from..]| && ps[from..][m].Has(px, py);
      assert ps[from + m].Has(px, py);
    }
  }

  // Redrawing

  /** The rectangle enclosing a window's visible pieces; the zero rectangle when a union cannot be formed. */
  function Bounds(ps: seq<Rect>, acc: Rect): Rect {
    if ps == [] then acc
    else if !CanEnclose(ps[0], acc) then ZERO
    else Bounds(ps[1..], Enclose(ps[0], acc))
  }

  /** What of a dirty area is worth redrawing in a window. */
  function Clip(work: Rect, shown: seq<Rect>, dirty: Rect): Rect {
    Intersect(Bounds(shown, ZERO), Intersect(work, dirty))
  }

  /** The redraw messages for a dirty area, bottom window first. */
  function Redraws(panes: seq<Pane>, shown: seq<seq<Rect>>, dirty: Rect): seq<Message>
    requires |shown| == |panes|
  {
    if panes == [] then []
    else
      var clip := Clip(panes[0].work, shown[0], dirty);
      (if clip.Solid() then [Message(panes[0].client, panes[0].handle, clip)] else [])
      + Redraws(panes[1..], shown[1..], dirty)
  }

  const MESSAGE_COUNT := 12

  /** The messages as they stand after the first k windows were served, none lost while there was room for all. */
  ghost predicate Sending(sent0: seq<Message>, sent: seq<Message>, panes: seq<Pane>, shown: seq<seq<Rect>>, dirty: Rect,
                          k: nat)
    requires |shown| == |panes|
  {
    && k <= |panes| && |sent| <= |sent0| + k
    && (|sent0| + |panes| <= MESSAGE_COUNT ==>
          sent0 + Redraws(panes, shown, dirty) == sent + Redraws(panes[k..], shown[k..], dirty))
  }

  lemma SendingStart(sent: seq<Message>, panes: seq<Pane>, shown: seq<seq<Rect>>, dirty: Rect)
    requires |shown| == |panes|
    ensures Sending(sent, sent, panes, shown, dirty, 0)
  {
    assert panes[0..] == panes && shown[0..] == shown;
  }

  lemma SendingStep(sent0: seq<Message>, sent: seq<Message>, panes: seq<Pane>, shown: seq<seq<Rect>>, dirty: Rect,
                    k: nat, sent': seq<Message>)
    requires |shown| == |panes| && Sending(sent0, sent, panes, shown, dirty, k) && k < |panes|
    requires var clip := Clip(panes[k].work, shown[k], dirty);
             sent' == if clip.Solid() && |sent| < MESSAGE_COUNT
                      then sent + [Message(panes[k].client, panes[k].handle, clip)] else sent
    ensures Sending(sent0, sent', panes, shown, dirty, k + 1)
  {
    hide Clip, Rect.Solid;
    var (ps, ls) := (panes[k..], shown[k..]);
    assert ps[1..] == panes[k + 1..] && ls[1..] == shown[k + 1..];
    var clip := Clip(panes[k].work, shown[k], dirty);
    var first := if clip.Solid() then [Message(panes[k].client, panes[k].handle, clip)] else [];
    var rest := Redraws(panes[k + 1..], shown[k + 1..], dirty);
    assert Redraws(ps, ls, dirty) == first + rest;
    assert sent + (first + rest) == sent + first + rest;
  }

  lemma SendingEnd(sent0: seq<Message>, sent: seq<Message>, panes: seq<Pane>, shown: seq<seq<Rect>>, dirty: Rect)
    requires |shown| == |panes| && Sending(sent0, sent, panes, shown, dirty, |panes|)
    ensures |sent0| + |panes| <= MESSAGE_COUNT ==> sent == sent0 + Redraws(panes, shown, dirty)
  {
  }

  lemma {:induction false} BoundsKeep(ps: seq<Rect>, acc: Rect, outer: Rect, px: int, py: int)
    requires outer.Solid() && forall i | 0 <= i < |ps| :: Within(ps[i], outer)
    requires acc == ZERO || Within(acc, outer)
    ensures acc.Has(px, py) || Covered(ps, px, py) ==> Bounds(ps, acc).Has(px, py)
  {
    if ps != [] {
      EncloseKeeps(ps[0], acc, outer);
      BoundsKeep(ps[1..], Enclose(ps[0], acc), outer, px, py);
      assert ps == [ps[0]] + ps[1..];
      CoveredConcat([ps[0]], ps[1..], px, py);
    }
  }

  /** Every visible, dirty pixel of a window's work area lies in a redraw message to that window. */
  lemma {:induction false} RedrawsCover(panes: seq<Pane>, shown: seq<seq<Rect>>, dirty: Rect, i: nat, px: int, py: int)
    requires |shown| == |panes| && i < |panes|
    requires panes[i].outer.Solid() && forall k | 0 <= k < |shown[i]| :: Within(shown[i][k], panes[i].outer)
    requires dirty.Has(px, py) && panes[i].work.Has(px, py) && Covered(shown[i], px, py)
    ensures exists m | m in Redraws(panes, shown, dirty) ::
              m.handle == panes[i].handle && m.client == panes[i].client && m.rect.Has(px, py)
  {
    if i == 0 {
      BoundsKeep(shown[0], ZERO, panes[0].outer, px, py);
      assert Redraws(panes, shown, dirty)[0].rect.Has(px, py);
    } else {
      RedrawsCover(panes[1..], shown[1..], dirty, i - 1, px, py);
      var m :| m in Redraws(panes[1..], shown[1..], dirty)
               && m.handle == panes[i].handle && m.client == panes[i].client && m.rect.Has(px, py);
      assert m in Redraws(panes, shown, dirty);
    }
  }

  /** The message goes to this window and asks for dirty pixels of its work area only. */
  ghost predicate Serves(m: Message, pane: Pane, dirty: Rect) {
    && m.handle == pane.handle && m.client == pane.client
    && forall px, py :: m.rect.Has(px, py) ==> pane.work.Has(px, py) && dirty.Has(px, py)
  }

  /** Every message serves a window of the stack. */
  lemma {:induction false} RedrawsServe(panes: seq<Pane>, shown: seq<seq<Rect>>, dirty: Rect, m: Message)
    requires |shown| == |panes| && m in Redraws(panes, shown, dirty)
    ensures exists pane | pane in panes :: Serves(m, pane, dirty)
  {
    if m in Redraws(panes[1..], shown[1..], dirty) {
      RedrawsServe(panes[1..], shown[1..], dirty, m);
      var pane :| pane in panes[1..] && Serves(m, pane, dirty);
      assert pane in panes;
    } else {
      assert Serves(m, panes[0], dirty);
    }
  }

  /** No window gets two messages, so there are never more messages than windows. */
  lemma {:induction false} RedrawsOnce(panes: seq<Pane>, shown: seq<seq<Rect>>, dirty: Rect)
    requires |shown| == |panes| && DistinctHandles(panes)
    ensures var ms := Redraws(panes, shown, dirty);
            |ms| <= |panes| && forall j, k | 0 <= j < k < |ms| :: ms[j].handle != ms[k].handle
  {
    if panes != [] {
      RedrawsOnce(panes[1..], shown[1..], dirty);
      var rest := Redraws(panes[1..], shown[1..], dirty);
      forall m | m in rest
        ensures m.handle != panes[0].handle
      {
        RedrawsServe(panes[1..], shown[1..], dirty, m);
      }
    }
  }

  /** No window gets two messages, and each asks a window of the stack for dirty pixels of its work area only; there
      are fewer messages than the list has room for. */
  ghost predicate Thrifty(panes: seq<Pane>, dirty: Option<Rect>, messages: seq<Message>) {
    && |messages| <= |panes| < MESSAGE_COUNT
    && (forall j, k | 0 <= j < k < |messages| :: messages[j].handle != messages[k].handle)
    && forall m | m in messages :: dirty.Some? && exists pane | pane in panes :: Serves(m, pane, dirty.value)
  }

  lemma RedrawsThrifty(panes: seq<Pane>, shown: seq<seq<Rect>>, dirty: Rect)
    requires |shown| == |panes| < MESSAGE_COUNT && DistinctHandles(panes)
    ensures Thrifty(panes, Some(dirty), Redraws(panes, shown, dirty))
  {
    RedrawsOnce(panes, shown, dirty);
    forall m | m in Redraws(panes, shown, dirty)
      ensures exists pane | pane in panes :: Serves(m, pane, dirty)
    {
      RedrawsServe(panes, shown, dirty, m);
    }
  }

  // Moving one window

  /** The stack with one window taken out. */
  function Without(panes: seq<Pane>, handle: int): seq<Pane> {
    if panes == [] then []
    else if panes[|panes| - 1].handle == handle then Without(panes[..|panes| - 1], handle)
    else Without(panes[..|panes| - 1], handle) + [panes[|panes| - 1]]
  }

  /** A window whose frame does not have the pixel makes no difference to who is topmost there. */
  lemma {:induction false} WithoutSame(panes: seq<Pane>, handle: int, px: int, py: int)
    requires forall i | 0 <= i < |panes| && panes[i].handle == handle :: !panes[i].outer.Has(px, py)
    ensures TopAt(Without(panes, handle), px, py) == TopAt(panes, px, py)
  {
    if panes != [] {
      var n := |panes| - 1;
      WithoutSame(panes[..n], handle, px, py);
      if panes[n].handle != handle {
        assert Without(panes, handle)[..|Without(panes, handle)| - 1] == Without(panes[..n], handle);
      }
    }
  }

  /** The pixel shows this window's work area. */
  ghost predicate Owns(panes: seq<Pane>, pane: Pane, px: int, py: int) {
    TopAt(panes, px, py) == pane.handle && pane.work.Has(px, py)
  }

  lemma {:induction false} WithoutMember(panes: seq<Pane>, handle: int, p: Pane)
    requires p.handle != handle
    ensures p in Without(panes, handle) <==> p in panes
  {
    if panes != [] {
      var n := |panes| - 1;
      WithoutMember(panes[..n], handle, p);
      assert panes == panes[..n] + [panes[n]];
    }
  }

  lemma {:induction false} TopAtHas(panes: seq<Pane>, px: int, py: int)
    requires TopAt(panes, px, py) != ROOT
    ensures exists p | p in panes :: p.handle == TopAt(panes, px, py) && p.outer.Has(px, py)
  {
    var n := |panes| - 1;
    if panes[n].outer.Has(px, py) {
      assert panes[n] in panes;
    } else {
      TopAtHas(panes[..n], px, py);
    }
  }

  /** When only one window is opened, closed, moved or restacked, no window gains a pixel that lay outside the old
      and the new frame of that window. */
  lemma GainsInsideFrames(before: seq<Pane>, after: seq<Pane>, handle: int, pane: Pane, px: int, py: int)
    requires Without(before, handle) == Without(after, handle)
    requires pane in after && DistinctHandles(before) && DistinctHandles(after)
    requires Owns(after, pane, px, py) && !(pane in before && Owns(before, pane, px, py))
    ensures exists p | p in before + after :: p.handle == handle && p.outer.Has(px, py)
  {
    if forall p | p in before + after && p.handle == handle :: !p.outer.Has(px, py) {
      forall i | 0 <= i < |before| && before[i].handle == handle
        ensures !before[i].outer.Has(px, py)
      {
        assert before[i] in before + after;
      }
      forall i | 0 <= i < |after| && after[i].handle == handle
        ensures !after[i].outer.Has(px, py)
      {
        assert after[i] in before + after;
      }
      WithoutSame(before, handle, px, py);
      WithoutSame(after, handle, px, py);
      if pane.handle == handle {
        TopAtHas(after, px, py);
      } else {
        WithoutMember(before, handle, pane);
        WithoutMember(after, handle, pane);
      }
    }
  }

  // Windows taken out in turn

  predicate Soiled(dirty: Option<Rect>, px: int, py: int) {
    dirty.Some? && dirty.value.Has(px, py)
  }

  /** Outside the dirty area every pixel has the topmost window it had before. */
  ghost predicate Quiet(before: seq<Pane>, now: seq<Pane>, dirty: Option<Rect>) {
    && (forall pane | pane in now :: pane in before)
    && forall px, py | !Soiled(dirty, px, py) :: TopAt(now, px, py) == TopAt(before, px, py)
  }

  /** Taking out one more window keeps it so, when the dirty area grows to cover that window. */
  lemma QuietStep(before: seq<Pane>, now: seq<Pane>, dirty: Option<Rect>, handle: int, dirty': Option<Rect>)
    requires Quiet(before, now, dirty)
    requires forall px, py :: Soiled(dirty, px, py) ==> Soiled(dirty', px, py)
    requires forall p, px, py | p in now && p.handle == handle && p.outer.Has(px, py) :: Soiled(dirty', px, py)
    ensures Quiet(before, Without(now, handle), dirty')
  {
    forall pane | pane in Without(now, handle)
      ensures pane in before
    {
      WithoutSubset(now, handle, pane);
    }
    forall px, py | !Soiled(dirty', px, py)
      ensures TopAt(Without(now, handle), px, py) == TopAt(before, px, py)
    {
      forall i | 0 <= i < |now| && now[i].handle == handle
        ensures !now[i].outer.Has(px, py)
      {
        assert now[i] in now;
      }
      WithoutSame(now, handle, px, py);
    }
  }

  lemma {:induction false} WithoutSubset(panes: seq<Pane>, handle: int, p: Pane)
    requires p in Without(panes, handle)
    ensures p in panes && p.handle != handle
  {
    if panes != [] {
      var n := |panes| - 1;
      if p != panes[n] || panes[n].handle == handle {
        WithoutSubset(panes[..n], handle, p);
      }
      assert panes == panes[..n] + [panes[n]];
    }
  }
}
