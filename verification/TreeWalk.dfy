/** Walking object trees: where an object is, drawing a subtree, and the object under a point. */
module TreeWalk {
  import opened Forest
  import opened Geometry
  import opened Links
  import opened ObjectTree
  import opened WordMath

  /** Machine words add with wrap-around. */
  function Plus(a: int, b: int): Word {
    Wrap(a + b)
  }

  lemma PlusAssociates(a: Word, b: Word, c: Word)
    ensures Plus(Plus(a, b), c) == Plus(a, Plus(b, c)) && Plus(a, b) == Plus(b, a) && Plus(0, a) == a
  {
    var (j, k) := (WrapIs(a + b), WrapIs(b + c));
    WrapPeriod(a + b + c, -j);
    WrapPeriod(a + b + c, -k);
    assert WrapIs(a) == 0;
  }

  /** How many word sizes apart a number and its wrapped form are. */
  function WrapIs(v: int): (k: int)
    ensures v == Wrap(v) + 0x1_0000 * k
  {
    (v - WORD_MIN) / 0x1_0000
  }

  lemma WrapPeriod(v: int, k: int)
    ensures Wrap(v + 0x1_0000 * k) == Wrap(v)
  {
    var u := v - WORD_MIN;
    DivideDone(u + 0x1_0000 * k, u / 0x1_0000 + k, 0x1_0000, u % 0x1_0000);
  }

  /** Where an object is on the screen: its own place added to its parent's. */
  ghost function Spot(nodes: seq<Node>, kids: seq<seq<int>>, level: seq<nat>, c: int): (Word, Word)
    requires Threaded(nodes, kids) && Layered(kids, level) && 0 <= c < |nodes|
    decreases level[c]
  {
    var p := ParentOf(kids, c);
    if Loose(kids, c) then (nodes[c].data.x, nodes[c].data.y)
    else
      ParentIs(nodes, kids, c);
      assert Deeper(level, p, c);
      (Plus(Spot(nodes, kids, level, p).0, nodes[c].data.x), Plus(Spot(nodes, kids, level, p).1, nodes[c].data.y))
  }

  // Drawing

  /** One object the drawing walk comes to, and where; a hidden one is passed over. */
  datatype Visit = Visit(index: int, x: Word, y: Word, shown: bool)

  /** The objects of a subtree in drawing order: an object, then its children unless it is hidden, at most d levels
      down. (x, y) is where the parent is. */
  ghost function Preorder(nodes: seq<Node>, kids: seq<seq<int>>, c: int, d: nat, x: Word, y: Word): seq<Visit>
    decreases d, 0
  {
    if !(0 <= c < |nodes| && c < |kids|) then []
    else
      var (px, py) := (Plus(x, nodes[c].data.x), Plus(y, nodes[c].data.y));
      [Visit(c, px, py, !nodes[c].data.hidden)]
      + if d == 0 || nodes[c].data.hidden then [] else PreorderAll(nodes, kids, kids[c], d - 1, px, py)
  }

  ghost function PreorderAll(nodes: seq<Node>, kids: seq<seq<int>>, list: seq<int>, d: nat, x: Word,
                             y: Word): seq<Visit>
    decreases d, |list| + 1
  {
    if list == [] then []
    else Preorder(nodes, kids, list[0], d, x, y) + PreorderAll(nodes, kids, list[1..], d, x, y)
  }

  /** A way down from an object to another through children of objects that are not hidden. */
  ghost predicate Way(nodes: seq<Node>, kids: seq<seq<int>>, way: seq<int>) {
    && way != [] && (forall k | 0 <= k < |way| :: 0 <= way[k] < |nodes| && way[k] < |kids|)
    && forall k | 0 <= k < |way| - 1 :: !nodes[way[k]].data.hidden && way[k + 1] in kids[way[k]]
  }

  ghost predicate Reached(nodes: seq<Node>, kids: seq<seq<int>>, c: int, d: nat, i: int) {
    exists way :: Way(nodes, kids, way) && way[0] == c && way[|way| - 1] == i && |way| <= d + 1
  }

  /** The walk comes to exactly the objects that can be reached so in at most d steps down. */
  lemma {:induction false} PreorderReaches(nodes: seq<Node>, kids: seq<seq<int>>, c: int, d: nat, x: Word, y: Word,
                                           i: int)
    ensures (exists v | v in Preorder(nodes, kids, c, d, x, y) :: v.index == i) <==> Reached(nodes, kids, c, d, i)
    decreases d, 0
  {
    hide Plus;
    var visits := Preorder(nodes, kids, c, d, x, y);
    if 0 <= c < |nodes| && c < |kids| {
      var (px, py) := (Plus(x, nodes[c].data.x), Plus(y, nodes[c].data.y));
      var first := Visit(c, px, py, !nodes[c].data.hidden);
      if i == c {
        assert first in visits;
        assert Way(nodes, kids, [c]);
      } else if d > 0 && !nodes[c].data.hidden {
        PreorderAllReaches(nodes, kids, kids[c], d - 1, px, py, i);
        ReachedStep(nodes, kids, c, d, i);
        var rest := PreorderAll(nodes, kids, kids[c], d - 1, px, py);
        assert visits == [first] + rest;
        assert forall v :: v in visits <==> v == first || v in rest;
      } else {
        ReachedStep(nodes, kids, c, d, i);
      }
    }
  }

  lemma {:induction false} PreorderAllReaches(nodes: seq<Node>, kids: seq<seq<int>>, list: seq<int>, d: nat, x: Word,
                                              y: Word, i: int)
    ensures (exists v | v in PreorderAll(nodes, kids, list, d, x, y) :: v.index == i) <==>
            exists c | c in list :: Reached(nodes, kids, c, d, i)
    decreases d, |list| + 1
  {
    if list != [] {
      PreorderReaches(nodes, kids, list[0], d, x, y, i);
      PreorderAllReaches(nodes, kids, list[1..], d, x, y, i);
      var (first, rest) := (Preorder(nodes, kids, list[0], d, x, y), PreorderAll(nodes, kids, list[1..], d, x, y));
      assert forall v :: v in first + rest <==> v in first || v in rest;
      assert forall c :: c in list <==> c == list[0] || c in list[1..];
    }
  }

  /** A longer way goes through a child. */
  lemma ReachedStep(nodes: seq<Node>, kids: seq<seq<int>>, c: int, d: nat, i: int)
    requires 0 <= c < |nodes| && c < |kids| && i != c
    ensures Reached(nodes, kids, c, d, i) <==>
            d > 0 && !nodes[c].data.hidden && exists k | k in kids[c] :: Reached(nodes, kids, k, d - 1, i)
  {
    if Reached(nodes, kids, c, d, i) {
      var way :| Way(nodes, kids, way) && way[0] == c && way[|way| - 1] == i && |way| <= d + 1;
      assert |way| > 1 && way[0 + 1] in kids[way[0]];
      assert Way(nodes, kids, way[1..]);
      assert Reached(nodes, kids, way[1], d - 1, i);
    }
    if d > 0 && !nodes[c].data.hidden && exists k | k in kids[c] :: Reached(nodes, kids, k, d - 1, i) {
      var k :| k in kids[c] && Reached(nodes, kids, k, d - 1, i);
      var way :| Way(nodes, kids, way) && way[0] == k && way[|way| - 1] == i && |way| <= d;
      var longer := [c] + way;
      forall j | 0 <= j < |longer| - 1
        ensures !nodes[longer[j]].data.hidden && longer[j + 1] in kids[longer[j]]
      {
        if j > 0 {
          assert longer[j] == way[j - 1] && longer[j + 1] == way[j - 1 + 1];
        }
      }
      assert Way(nodes, kids, longer) && longer[0] == c && longer[|longer| - 1] == i;
    }
  }

  /** Every visit is where OBJC_OFFSET says the object is. */
  lemma {:induction false} PreorderSpots(nodes: seq<Node>, kids: seq<seq<int>>, level: seq<nat>, c: int, d: nat,
                                         x: Word, y: Word, v: Visit)
    requires Threaded(nodes, kids) && Layered(kids, level) && 0 <= c < |nodes| && v in Preorder(nodes, kids, c, d, x, y)
    requires Spot(nodes, kids, level, c) == (Plus(x, nodes[c].data.x), Plus(y, nodes[c].data.y))
    ensures 0 <= v.index < |nodes| && (v.x, v.y) == Spot(nodes, kids, level, v.index)
    decreases d, 0
  {
    hide Plus;
    FamilyOf(nodes, kids, c);
    var (px, py) := (Plus(x, nodes[c].data.x), Plus(y, nodes[c].data.y));
    if v != Visit(c, px, py, !nodes[c].data.hidden) {
      PreorderAllSpots(nodes, kids, level, c, kids[c], d - 1, v);
    }
  }

  lemma {:induction false} PreorderAllSpots(nodes: seq<Node>, kids: seq<seq<int>>, level: seq<nat>, p: int,
                                            list: seq<int>, d: nat, v: Visit)
    requires Threaded(nodes, kids) && Layered(kids, level) && 0 <= p < |nodes| == |kids|
    requires forall c | c in list :: c in kids[p]
    requires var spot := Spot(nodes, kids, level, p); v in PreorderAll(nodes, kids, list, d, spot.0, spot.1)
    ensures 0 <= v.index < |nodes| && (v.x, v.y) == Spot(nodes, kids, level, v.index)
    decreases d, |list| + 1
  {
    hide Plus;
    FamilyOf(nodes, kids, p);
    var spot := Spot(nodes, kids, level, p);
    var c := list[0];
    assert c in list && c in kids[p] && !Loose(kids, c);
    if v in Preorder(nodes, kids, c, d, spot.0, spot.1) {
      PreorderSpots(nodes, kids, level, c, d, spot.0, spot.1, v);
    } else {
      PreorderAllSpots(nodes, kids, level, p, list[1..], d, v);
    }
  }

  /** A step of the way from the start of a walk to where it is: child number `place` of an object that is at (x, y). */
  datatype Frame = Frame(owner: int, place: nat, x: Word, y: Word)

  /** The path leads from the start to the current object. */
  ghost predicate Trail(kids: seq<seq<int>>, start: int, current: int, path: seq<Frame>)
    decreases |path|
  {
    if path == [] then current == start
    else
      var f := path[|path| - 1];
      && 0 <= f.owner < |kids| && f.place < |kids[f.owner]| && kids[f.owner][f.place] == current
      && Trail(kids, start, f.owner, path[..|path| - 1])
  }

  /** What is still to be visited when the current object's subtree is done. */
  ghost function Later(nodes: seq<Node>, kids: seq<seq<int>>, path: seq<Frame>, depth: nat): seq<Visit>
    decreases |path|
  {
    if path == [] then []
    else
      var f := path[|path| - 1];
      var rest := if 0 <= f.owner < |kids| && f.place < |kids[f.owner]| then kids[f.owner][f.place + 1..] else [];
      PreorderAll(nodes, kids, rest, depth, f.x, f.y) + Later(nodes, kids, path[..|path| - 1], depth + 1)
  }

  const MAX_DEPTH := 8
  const COORD_STACK := 10

  /** The links around the current object of a walk: where its subtree goes on, and that the walk has not yet reached
      what follows its start. */
  lemma TrailNext(nodes: seq<Node>, kids: seq<seq<int>>, level: seq<nat>, start: int, current: int, path: seq<Frame>)
    requires Threaded(nodes, kids) && Layered(kids, level) && 0 <= start < |nodes| && Trail(kids, start, current, path)
    ensures |kids| == |nodes| && 0 <= current < |nodes|
    ensures path == [] ==> current == start
    ensures path != [] ==>
              var f := path[|path| - 1];
              && 0 <= f.owner < |nodes| && f.place < |kids[f.owner]| && kids[f.owner][f.place] == current && current > 0
              && Trail(kids, start, f.owner, path[..|path| - 1])
              && nodes[current].next == (if f.place + 1 < |kids[f.owner]| then kids[f.owner][f.place + 1] else f.owner)
              && (f.place + 1 < |kids[f.owner]| ==> nodes[nodes[current].next].data.tail != current)
              && (f.place + 1 == |kids[f.owner]| ==> nodes[f.owner].data.tail == current)
              && 0 <= nodes[current].next < |nodes|
              && (start != ROOT ==> nodes[current].next != nodes[start].next)
  {
    hide Threaded, Layered;
    ParentIs(nodes, kids, start);
    if path != [] {
      var f := path[|path| - 1];
      TrailLevel(nodes, kids, level, start, f.owner, path[..|path| - 1]);
      NextIs(nodes, kids, f.owner, f.place);
      FamilyOf(nodes, kids, f.owner);
      if start != ROOT {
        TrailApart(nodes, kids, level, start, current, path);
      }
    }
  }

  lemma TrailLevel(nodes: seq<Node>, kids: seq<seq<int>>, level: seq<nat>, start: int, current: int, path: seq<Frame>)
    requires Threaded(nodes, kids) && Layered(kids, level) && 0 <= start < |nodes| && Trail(kids, start, current, path)
    ensures |kids| == |nodes| && 0 <= current < |nodes| && level[start] <= level[current]
    ensures path != [] ==> level[start] < level[current]
    decreases |path|
  {
    if path != [] {
      var f := path[|path| - 1];
      TrailLevel(nodes, kids, level, start, f.owner, path[..|path| - 1]);
      assert current in kids[f.owner] && Deeper(level, f.owner, current);
    }
  }

  /** What follows an object inside the subtree of the start is not what follows the start. */
  lemma TrailApart(nodes: seq<Node>, kids: seq<seq<int>>, level: seq<nat>, start: int, current: int, path: seq<Frame>)
    requires Threaded(nodes, kids) && Layered(kids, level) && 0 < start < |nodes| && path != []
    requires Trail(kids, start, current, path)
    ensures 0 <= current < |nodes| && nodes[current].next != nodes[start].next
  {
    var (f, before) := (path[|path| - 1], path[..|path| - 1]);
    TrailLevel(nodes, kids, level, start, current, path);
    TrailLevel(nodes, kids, level, start, f.owner, before);
    NextIs(nodes, kids, f.owner, f.place);
    FamilyOf(nodes, kids, f.owner);
    var next := nodes[current].next;
    assert next >= 0;
    if !Loose(kids, start) {
      var p := ParentOf(kids, start);
      ParentIs(nodes, kids, start);
      var k :| 0 <= k < |kids[p]| && kids[p][k] == start;
      NextIs(nodes, kids, p, k);
      FamilyOf(nodes, kids, p);
      assert Deeper(level, p, start);
      // what follows the start is p or a child of p; what follows the current object lies deeper than p
      if f.place + 1 < |kids[f.owner]| {
        assert next in kids[f.owner] && Deeper(level, f.owner, next);
        assert k + 1 < |kids[p]| ==> kids[p][k + 1] in kids[p];
      } else if before != [] {
        var g := before[|before| - 1];
        TrailLevel(nodes, kids, level, start, g.owner, before[..|before| - 1]);
        FamilyOf(nodes, kids, g.owner);
        assert f.owner in kids[g.owner];
        assert k + 1 < |kids[p]| ==> kids[p][k + 1] in kids[p];
      } else {
        assert k + 1 < |kids[p]| ==> kids[p][k + 1] != start by {
          assert Distinct(kids[p]);
        }
      }
    } else {
      LinkIs(nodes, kids, start);
    }
  }

  /** What is left of a walk at an object: its subtree, if the walk is about to enter it, and what comes later. */
  ghost function Left(nodes: seq<Node>, kids: seq<seq<int>>, path: seq<Frame>, current: int, maximum: int, x: Word,
                      y: Word, down: bool): seq<Visit>
    requires |path| <= maximum
  {
    var d := maximum - |path|;
    (if down then Preorder(nodes, kids, current, d, x, y) else []) + Later(nodes, kids, path, d)
  }

  lemma LeftDown(nodes: seq<Node>, kids: seq<seq<int>>, path: seq<Frame>, current: int, maximum: int, x: Word, y: Word)
    requires |path| <= maximum && |kids| == |nodes| && 0 <= current < |nodes|
    ensures var (px, py) := (Plus(x, nodes[current].data.x), Plus(y, nodes[current].data.y));
            var v := [Visit(current, px, py, !nodes[current].data.hidden)];
            Left(nodes, kids, path, current, maximum, x, y, true) ==
            if kids[current] == [] || nodes[current].data.hidden || |path| == maximum
            then v + Left(nodes, kids, path, current, maximum, x, y, false)
            else v + Left(nodes, kids, path + [Frame(current, 0, px, py)], kids[current][0], maximum, px, py, true)
  {
    hide Plus, Preorder, PreorderAll, Later;
    var (px, py) := (Plus(x, nodes[current].data.x), Plus(y, nodes[current].data.y));
    var d := maximum - |path|;
    PreorderParts(nodes, kids, current, d, x, y);
    var later := Later(nodes, kids, path, d);
    if kids[current] == [] || nodes[current].data.hidden || d == 0 {
      assert [] + later == later;
    } else {
      LaterDown(nodes, kids, path, current, d, px, py);
      var (first, rest) := (Preorder(nodes, kids, kids[current][0], d - 1, px, py),
                            PreorderAll(nodes, kids, kids[current][1..], d - 1, px, py));
      var v := [Visit(current, px, py, !nodes[current].data.hidden)];
      Regroup(v, first, rest, later);
    }
  }

  lemma Regroup<T>(a: seq<T>, b: seq<T>, c: seq<T>, d: seq<T>)
    ensures a + (b + c) + d == a + (b + (c + d)) && b + c + d == b + (c + d)
  {
  }

  lemma PreorderParts(nodes: seq<Node>, kids: seq<seq<int>>, c: int, d: nat, x: Word, y: Word)
    requires |kids| == |nodes| && 0 <= c < |nodes|
    ensures var (px, py) := (Plus(x, nodes[c].data.x), Plus(y, nodes[c].data.y));
            var v := [Visit(c, px, py, !nodes[c].data.hidden)];
            Preorder(nodes, kids, c, d, x, y) ==
            if kids[c] == [] || nodes[c].data.hidden || d == 0 then v
            else v + (Preorder(nodes, kids, kids[c][0], d - 1, px, py)
                      + PreorderAll(nodes, kids, kids[c][1..], d - 1, px, py))
  {
    hide Plus;
    var (px, py) := (Plus(x, nodes[c].data.x), Plus(y, nodes[c].data.y));
    if d > 0 {
      assert PreorderAll(nodes, kids, kids[c], d - 1, px, py) ==
             if kids[c] == [] then []
             else
               Preorder(nodes, kids, kids[c][0], d - 1, px, py)
               + PreorderAll(nodes, kids, kids[c][1..], d - 1, px, py);
    }
  }

  lemma LaterDown(nodes: seq<Node>, kids: seq<seq<int>>, path: seq<Frame>, c: int, d: nat, px: Word, py: Word)
    requires |kids| == |nodes| && 0 <= c < |nodes| && kids[c] != [] && d > 0
    ensures Later(nodes, kids, path + [Frame(c, 0, px, py)], d - 1)
         == PreorderAll(nodes, kids, kids[c][1..], d - 1, px, py) + Later(nodes, kids, path, d)
  {
    hide PreorderAll;
    var path' := path + [Frame(c, 0, px, py)];
    assert path'[..|path|] == path;
  }

  lemma LeftAcross(nodes: seq<Node>, kids: seq<seq<int>>, path: seq<Frame>, current: int, maximum: int, x: Word,
                   y: Word)
    requires 0 < |path| <= maximum && path[|path| - 1].x == x && path[|path| - 1].y == y
    requires var f := path[|path| - 1]; 0 <= f.owner < |kids| && f.place + 1 < |kids[f.owner]|
    ensures var f := path[|path| - 1];
            Left(nodes, kids, path, current, maximum, x, y, false)
            == Left(nodes, kids, path[|path| - 1 := f.(place := f.place + 1)], kids[f.owner][f.place + 1], maximum, x,
                    y, true)
  {
    var (f, d) := (path[|path| - 1], maximum - |path|);
    var list := kids[f.owner][f.place + 1..];
    assert list[0] == kids[f.owner][f.place + 1] && list[1..] == kids[f.owner][f.place + 2..];
    var path' := path[|path| - 1 := f.(place := f.place + 1)];
    assert path'[..|path| - 1] == path[..|path| - 1];
    var (first, rest, later) := (Preorder(nodes, kids, list[0], d, x, y), PreorderAll(nodes, kids, list[1..], d, x, y),
                                 Later(nodes, kids, path[..|path| - 1], d + 1));
    Regroup([], first, rest, later);
  }

  lemma LeftUp(nodes: seq<Node>, kids: seq<seq<int>>, path: seq<Frame>, current: int, maximum: int, x: Word, y: Word,
               x': Word, y': Word)
    requires 0 < |path| <= maximum
    requires var f := path[|path| - 1]; 0 <= f.owner < |kids| && f.place + 1 == |kids[f.owner]|
    ensures Left(nodes, kids, path, current, maximum, x, y, false)
         == Left(nodes, kids, path[..|path| - 1], path[|path| - 1].owner, maximum, x', y', false)
  {
    var f := path[|path| - 1];
    assert kids[f.owner][f.place + 1..] == [];
    assert PreorderAll(nodes, kids, [], maximum - |path|, f.x, f.y) == [];
  }

  /** The coordinates kept on the way down. */
  ghost predicate Stacked(path: seq<Frame>, x: seq<Word>, y: seq<Word>) {
    && |path| < |x| == |y|
    && forall j | 0 <= j < |path| :: x[j + 1] == path[j].x && y[j + 1] == path[j].y
  }

  /** Draws a subtree without recursion; `last` is what follows its top. The walk needs no bound: it visits exactly the
      preorder. */
  method Every(tree: Objects, start: int, last: int, startX: Word, startY: Word, maximum: nat, ghost level: seq<nat>)
    returns (visits: seq<Visit>)
    requires tree.Threads() && Layered(tree.kids, level) && 0 <= start < tree.objects.Length
    requires start != ROOT ==> last == tree.objects[start].next
    requires start == ROOT ==> last == NIL
    ensures visits == Preorder(tree.objects[..], tree.kids, start, if maximum > MAX_DEPTH then MAX_DEPTH else maximum,
                               startX, startY)
  {
    hide *;
    DepthLimits();
    ThreadsAre(tree);
    ghost var (nodes, kids) := (tree.objects[..], tree.kids);
    var limit := if maximum > MAX_DEPTH then MAX_DEPTH else maximum;
    var x: seq<Word>, y: seq<Word> := seq(COORD_STACK, _ => startX), seq(COORD_STACK, _ => startY);
    ghost var path: seq<Frame> := [];
    var current, depth, down, done := start, 1, true, false;
    visits := [];
    ghost var goal := Preorder(nodes, kids, start, limit, startX, startY);
    WalkStart(nodes, kids, start, limit, x, y);
    while !done
      invariant 1 <= depth <= limit + 1 && |x| == |y| == COORD_STACK
      invariant Walking(nodes, kids, start, limit, current, depth, down, path, x, y, visits, goal)
      invariant done ==> !down && path == []
      decreases !done, Rest(nodes, kids, limit, current, down, path, x, y), !down, |path|
    {
      WalkAt(nodes, kids, level, start, limit, current, depth, down, path, x, y, visits, goal);
      if down {
        var item := tree.objects[current].data;
        StepDown(nodes, kids, start, limit, current, depth, path, x, y, visits, goal);
        x, y := x[depth := Plus(x[depth - 1], item.x)], y[depth := Plus(y[depth - 1], item.y)];
        visits := visits + [Visit(current, x[depth], y[depth], !item.hidden)];
        if item.head != NIL && !item.hidden && depth <= limit {
          path := path + [Frame(current, 0, x[depth], y[depth])];
          depth, current := depth + 1, item.head;
        } else {
          down := false;
        }
      } else {
        var next := tree.objects[current].next;
        if current == ROOT || next == last {
          done := true;
        } else if tree.objects[next].data.tail != current {
          StepAcross(nodes, kids, start, limit, current, depth, path, x, y, visits, goal);
          path := Onward(path);
          current, down := next, true;
        } else {
          StepUp(nodes, kids, start, limit, current, depth, path, x, y, visits, goal);
          path := path[..|path| - 1];
          depth, current := depth - 1, next;
        }
      }
    }
    WalkEnd(nodes, kids, start, limit, current, depth, path, x, y, visits, goal);
  }

  lemma ThreadsAre(tree: Objects)
    requires tree.Threads()
    ensures Threaded(tree.objects[..], tree.kids)
  {
  }

  lemma DepthLimits()
    ensures MAX_DEPTH == 8 && COORD_STACK == 10 && ROOT == 0 && NIL == -1
  {
  }

  /** The state of the walk: what was visited and what is left make up the goal. */
  ghost predicate Walking(nodes: seq<Node>, kids: seq<seq<int>>, start: int, limit: nat, current: int, depth: int,
                          down: bool,
                          path: seq<Frame>, x: seq<Word>, y: seq<Word>, visits: seq<Visit>, goal: seq<Visit>)
  {
    && |path| == depth - 1 <= limit <= MAX_DEPTH && |x| == |y| == COORD_STACK && Stacked(path, x, y)
    && Trail(kids, start, current, path)
    && goal == visits + Left(nodes, kids, path, current, limit, x[|path|], y[|path|], down)
  }

  /** How many visits are left. */
  ghost function Rest(nodes: seq<Node>, kids: seq<seq<int>>, limit: nat, current: int, down: bool, path: seq<Frame>,
                      x: seq<Word>, y: seq<Word>): nat
  {
    if |path| <= limit && |path| < |x| && |path| < |y|
    then |Left(nodes, kids, path, current, limit, x[|path|], y[|path|], down)| else 0
  }

  /** The path with its last step moved to the next sibling. */
  ghost function Onward(path: seq<Frame>): seq<Frame> {
    if path == [] then [] else path[|path| - 1 := path[|path| - 1].(place := path[|path| - 1].place + 1)]
  }

  /** What the links say about the walk's next move. */
  lemma WalkAt(nodes: seq<Node>, kids: seq<seq<int>>, level: seq<nat>, start: int, limit: nat, current: int, depth: int,
               down: bool, path: seq<Frame>, x: seq<Word>, y: seq<Word>, visits: seq<Visit>, goal: seq<Visit>)
    requires Threaded(nodes, kids) && Layered(kids, level) && 0 <= start < |nodes|
    requires Walking(nodes, kids, start, limit, current, depth, down, path, x, y, visits, goal)
    ensures |kids| == |nodes| && 0 <= current < |nodes| && |path| == depth - 1
    ensures nodes[current].data.head == (if kids[current] == [] then NIL else kids[current][0])
    ensures kids[current] != [] ==> kids[current][0] > 0
    ensures var follows := if start == ROOT then NIL else nodes[start].next;
            current == ROOT || nodes[current].next == follows <==> path == []
    ensures path != [] ==>
              var (f, next) := (path[|path| - 1], nodes[current].next);
              && 0 <= next < |nodes| && 0 <= f.owner < |kids| && f.place < |kids[f.owner]|
              && (if nodes[next].data.tail != current then f.place + 1 < |kids[f.owner]|
                  && next == kids[f.owner][f.place + 1]
                  else f.place + 1 == |kids[f.owner]| && next == f.owner)
  {
    hide Threaded, Layered, Left, Stacked;
    TrailNext(nodes, kids, level, start, current, path);
    NoKids(nodes, kids, current);
    if kids[current] != [] {
      NextIs(nodes, kids, current, 0);
    }
  }

  lemma StepDown(nodes: seq<Node>, kids: seq<seq<int>>, start: int, limit: nat, current: int, depth: int,
                 path: seq<Frame>, x: seq<Word>, y: seq<Word>, visits: seq<Visit>, goal: seq<Visit>)
    requires Walking(nodes, kids, start, limit, current, depth, true, path, x, y, visits, goal)
    requires |kids| == |nodes| && 0 <= current < |nodes|
    ensures 1 <= depth < COORD_STACK == |x| == |y|
    ensures var item := nodes[current].data;
            var (px, py) := (Plus(x[depth - 1], item.x), Plus(y[depth - 1], item.y));
            var (x', y') := (x[depth := px], y[depth := py]);
            var visits' := visits + [Visit(current, px, py, !item.hidden)];
            if kids[current] != [] && !item.hidden && depth <= limit
            then var path' := path + [Frame(current, 0, px, py)];
                 && Walking(nodes, kids, start, limit, kids[current][0], depth + 1, true, path', x', y', visits', goal)
                 && Rest(nodes, kids, limit, kids[current][0], true, path', x', y')
                    < Rest(nodes, kids, limit, current, true, path, x, y)
            else && Walking(nodes, kids, start, limit, current, depth, false, path, x', y', visits', goal)
                 && Rest(nodes, kids, limit, current, false, path, x', y') < Rest(nodes, kids, limit, current, true,
                                                                                  path, x, y)
  {
    hide Left, Plus, Trail;
    var item := nodes[current].data;
    var (px, py) := (Plus(x[depth - 1], item.x), Plus(y[depth - 1], item.y));
    var v := [Visit(current, px, py, !item.hidden)];
    LeftDown(nodes, kids, path, current, limit, x[depth - 1], y[depth - 1]);
    if kids[current] != [] && !item.hidden && depth <= limit {
      TrailDown(kids, start, current, path, px, py);
      Regroup(visits, v, Left(nodes, kids, path + [Frame(current, 0, px, py)], kids[current][0], limit, px, py, true),
              []);
    } else {
      Regroup(visits, v, Left(nodes, kids, path, current, limit, x[depth - 1], y[depth - 1], false), []);
    }
  }

  lemma StepAcross(nodes: seq<Node>, kids: seq<seq<int>>, start: int, limit: nat, current: int, depth: int,
                   path: seq<Frame>, x: seq<Word>, y: seq<Word>, visits: seq<Visit>, goal: seq<Visit>)
    requires Walking(nodes, kids, start, limit, current, depth, false, path, x, y, visits, goal) && path != []
    requires var f := path[|path| - 1]; 0 <= f.owner < |kids| && f.place + 1 < |kids[f.owner]|
    ensures var f := path[|path| - 1];
            var next := kids[f.owner][f.place + 1];
            && Walking(nodes, kids, start, limit, next, depth, true, Onward(path), x, y, visits, goal)
            && Rest(nodes, kids, limit, next, true, Onward(path), x, y)
               == Rest(nodes, kids, limit, current, false, path, x, y)
  {
    hide Left, Trail;
    LeftAcross(nodes, kids, path, current, limit, x[depth - 1], y[depth - 1]);
    TrailAcross(kids, start, current, path);
  }

  lemma StepUp(nodes: seq<Node>, kids: seq<seq<int>>, start: int, limit: nat, current: int, depth: int,
               path: seq<Frame>, x: seq<Word>, y: seq<Word>, visits: seq<Visit>, goal: seq<Visit>)
    requires Walking(nodes, kids, start, limit, current, depth, false, path, x, y, visits, goal) && path != []
    requires var f := path[|path| - 1]; 0 <= f.owner < |kids| && f.place + 1 == |kids[f.owner]|
    ensures var (f, up) := (path[|path| - 1], path[..|path| - 1]);
            && Walking(nodes, kids, start, limit, f.owner, depth - 1, false, up, x, y, visits, goal)
            && Rest(nodes, kids, limit, f.owner, false, up, x, y)
               == Rest(nodes, kids, limit, current, false, path, x, y)
  {
    hide Left;
    LeftUp(nodes, kids, path, current, limit, x[depth - 1], y[depth - 1], x[depth - 2], y[depth - 2]);
  }

  lemma WalkStart(nodes: seq<Node>, kids: seq<seq<int>>, start: int, limit: nat, x: seq<Word>, y: seq<Word>)
    requires |x| == |y| == COORD_STACK && limit <= MAX_DEPTH
    ensures Walking(nodes, kids, start, limit, start, 1, true, [], x, y, [],
                    Preorder(nodes, kids, start, limit, x[0], y[0]))
  {
  }

  lemma WalkEnd(nodes: seq<Node>, kids: seq<seq<int>>, start: int, limit: nat, current: int, depth: int,
                path: seq<Frame>, x: seq<Word>, y: seq<Word>, visits: seq<Visit>, goal: seq<Visit>)
    requires Walking(nodes, kids, start, limit, current, depth, false, path, x, y, visits, goal) && path == []
    ensures visits == goal
  {
  }

  lemma TrailDown(kids: seq<seq<int>>, start: int, current: int, path: seq<Frame>, x: Word, y: Word)
    requires Trail(kids, start, current, path) && 0 <= current < |kids| && kids[current] != []
    ensures Trail(kids, start, kids[current][0], path + [Frame(current, 0, x, y)])
  {
    assert (path + [Frame(current, 0, x, y)])[..|path|] == path;
  }

  lemma TrailAcross(kids: seq<seq<int>>, start: int, current: int, path: seq<Frame>)
    requires Trail(kids, start, current, path) && path != []
    ensures var f := path[|path| - 1];
            0 <= f.owner < |kids| && f.place + 1 < |kids[f.owner]| ==>
              Trail(kids, start, kids[f.owner][f.place + 1], path[|path| - 1 := f.(place := f.place + 1)])
  {
    var f := path[|path| - 1];
    assert path[|path| - 1 := f.(place := f.place + 1)][..|path| - 1] == path[..|path| - 1];
  }

  // OBJC_OFFSET

  /** Objects met on the way up: all different, and all deeper than the next one. */
  ghost predicate Climbed(level: seq<nat>, chain: seq<int>, next: int) {
    && Distinct(chain)
    && forall i | 0 <= i < |chain| :: 0 <= chain[i] < |level| && (next != NIL ==> Deeper(level, next, chain[i]))
  }

  lemma ClimbStep(nodes: seq<Node>, kids: seq<seq<int>>, level: seq<nat>, chain: seq<int>, c: int)
    requires Threaded(nodes, kids) && Layered(kids, level) && 0 <= c < |nodes| && Climbed(level, chain, c)
    ensures |chain| < |nodes| && Climbed(level, chain + [c], ParentOf(kids, c))
    ensures var p := ParentOf(kids, c);
            p == NIL || (0 <= p < |nodes| && level[p] < level[c]
                         && Spot(nodes, kids, level, c) == (Plus(Spot(nodes, kids, level, p).0, nodes[c].data.x),
                                                            Plus(Spot(nodes, kids, level, p).1, nodes[c].data.y)))
    ensures ParentOf(kids, c) == NIL ==> Spot(nodes, kids, level, c) == (nodes[c].data.x, nodes[c].data.y)
  {
    hide Plus;
    ParentIs(nodes, kids, c);
    var (p, more) := (ParentOf(kids, c), chain + [c]);
    assert p != NIL ==> Deeper(level, p, c);
    forall i | 0 <= i < |chain|
      ensures chain[i] != c
    {
      assert Deeper(level, c, chain[i]);
    }
    DistinctJoin(chain, [c]);
    DistinctBound(more, 0, |nodes|);
  }

  /** Where an object is: the sum of the places from it up to its root. The step limit is never reached. */
  method Offset(tree: Objects, c: int, ghost level: seq<nat>) returns (x: Word, y: Word, ok: bool)
    requires tree.Threads() && Layered(tree.kids, level)
    ensures ok == (0 <= c < tree.objects.Length)
    ensures ok ==> (x, y) == Spot(tree.objects[..], tree.kids, level, c)
  {
    hide Threaded, Layered, Plus, Climbed, Spot;
    x, y := 0, 0;
    if !(0 <= c < tree.objects.Length) {
      return x, y, false;
    }
    ghost var (nodes, kids, chain) := (tree.objects[..], tree.kids, []);
    var index, steps := c, tree.objects.Length;
    OffsetStart(level, c, Spot(nodes, kids, level, c).0, Spot(nodes, kids, level, c).1);
    while index != NIL
      invariant steps == tree.objects.Length - |chain| && (index == NIL || 0 <= index < tree.objects.Length)
      invariant index != NIL ==> Climbed(level, chain, index)
      invariant Spot(nodes, kids, level, c)
                == if index == NIL then (x, y)
                   else (Plus(Spot(nodes, kids, level, index).0, x), Plus(Spot(nodes, kids, level, index).1, y))
      decreases steps
    {
      ClimbStep(nodes, kids, level, chain, index);
      assert steps > 0;
      steps := steps - 1;
      var item := tree.objects[index].data;
      OffsetStep(nodes, kids, level, index, x, y);
      x, y := Plus(x, item.x), Plus(y, item.y);
      chain := chain + [index];
      var parent, _, _ := tree.Parent(index);
      index := parent;
    }
    ok := true;
  }

  lemma OffsetStart(level: seq<nat>, c: int, x: Word, y: Word)
    ensures Climbed(level, [], c) && Plus(x, 0) == x && Plus(y, 0) == y
  {
  }

  lemma OffsetStep(nodes: seq<Node>, kids: seq<seq<int>>, level: seq<nat>, c: int, x: Word, y: Word)
    requires Threaded(nodes, kids) && Layered(kids, level) && 0 <= c < |nodes|
    ensures var (p, item, spot) := (ParentOf(kids, c), nodes[c].data, Spot(nodes, kids, level, c));
            var (x', y') := (Plus(x, item.x), Plus(y, item.y));
            (Plus(spot.0, x), Plus(spot.1, y)) ==
            if p == NIL then (x', y')
            else
              assert 0 <= p < |nodes| by { ParentIs(nodes, kids, c); }
              (Plus(Spot(nodes, kids, level, p).0, x'), Plus(Spot(nodes, kids, level, p).1, y'))
  {
    hide Plus;
    ParentIs(nodes, kids, c);
    var (p, item) := (ParentOf(kids, c), nodes[c].data);
    PlusAssociates(item.x, x, 0);
    PlusAssociates(item.y, y, 0);
    if p != NIL {
      assert Deeper(level, p, c);
      PlusAssociates(Spot(nodes, kids, level, p).0, item.x, x);
      PlusAssociates(Spot(nodes, kids, level, p).1, item.y, y);
    }
  }

  /** Where an object's parent is; the origin when it has none. */
  ghost function Base(nodes: seq<Node>, kids: seq<seq<int>>, level: seq<nat>, c: int): (Word, Word)
    requires Threaded(nodes, kids) && Layered(kids, level) && 0 <= c < |nodes|
  {
    if Loose(kids, c) then (0, 0)
    else
      ParentIs(nodes, kids, c);
      Spot(nodes, kids, level, ParentOf(kids, c))
  }

  /** OBJC_DRAW: the preorder of the subtree, each object where OBJC_OFFSET says it is. */
  method Draw(tree: Objects, c: int, depth: nat, ghost level: seq<nat>) returns (ok: bool, visits: seq<Visit>)
    requires tree.Threads() && Layered(tree.kids, level)
    ensures ok == (0 <= c < tree.objects.Length) && (!ok ==> visits == [])
    ensures ok ==> var base := Base(tree.objects[..], tree.kids, level, c);
                   visits == Preorder(tree.objects[..], tree.kids, c, if depth > MAX_DEPTH then MAX_DEPTH else depth,
                                      base.0, base.1)
    ensures forall v | v in visits :: 0 <= v.index < tree.objects.Length
                                      && (v.x, v.y) == Spot(tree.objects[..], tree.kids, level, v.index)
  {
    hide Threaded, Layered, Plus, Spot, Preorder;
    visits := [];
    var parent, last, valid := tree.Parent(c);
    if !valid {
      return false, [];
    }
    ParentIs(tree.objects[..], tree.kids, c);
    var x, y := Origin(tree, c, level);
    visits := Every(tree, c, last, x, y, depth, level);
    DrawSpots(tree.objects[..], tree.kids, level, c, if depth > MAX_DEPTH then MAX_DEPTH else depth, x, y);
    ok := true;
  }

  lemma DrawSpots(nodes: seq<Node>, kids: seq<seq<int>>, level: seq<nat>, c: int, d: nat, x: Word, y: Word)
    requires Threaded(nodes, kids) && Layered(kids, level) && 0 <= c < |nodes|
    requires (x, y) == Base(nodes, kids, level, c)
    ensures forall v | v in Preorder(nodes, kids, c, d, x, y) ::
              0 <= v.index < |nodes| && (v.x, v.y) == Spot(nodes, kids, level, v.index)
  {
    hide Plus, Preorder;
    ParentIs(nodes, kids, c);
    PlusAssociates(nodes[c].data.x, 0, 0);
    PlusAssociates(nodes[c].data.y, 0, 0);
    forall v | v in Preorder(nodes, kids, c, d, x, y)
      ensures 0 <= v.index < |nodes| && (v.x, v.y) == Spot(nodes, kids, level, v.index)
    {
      PreorderSpots(nodes, kids, level, c, d, x, y, v);
    }
  }

  // OBJC_FIND

  /** The pointer is on an object whose top left corner is at (px, py); far edges wrap around. */
  predicate Inside(px: Word, py: Word, w: Word, h: Word, mx: Word, my: Word) {
    px <= mx < Plus(px, w) && py <= my < Plus(py, h)
  }

  /** Where both far edges fit a word these are exactly the pixels of the rectangle. */
  lemma InsideIs(r: Rect, mx: Word, my: Word)
    requires WORD_MIN <= r.Right() <= WORD_MAX && WORD_MIN <= r.Bottom() <= WORD_MAX
    ensures Inside(r.x, r.y, r.w, r.h, mx, my) <==> r.Has(mx, my)
  {
  }

  /** An object that shows and has the pointer on it; (x, y) is where its parent is. */
  predicate Hit(item: Item, x: Word, y: Word, mx: Word, my: Word) {
    !item.hidden && Inside(Plus(x, item.x), Plus(y, item.y), item.w, item.h, mx, my)
  }

  /** As long as its edges fit a word, an object is hit at the pixels of its rectangle, unless it is hidden. */
  lemma HitIs(item: Item, x: Word, y: Word, mx: Word, my: Word)
    requires var (px, py) := (x + item.x, y + item.y);
             && WORD_MIN <= px <= WORD_MAX && WORD_MIN <= px + item.w <= WORD_MAX
             && WORD_MIN <= py <= WORD_MAX && WORD_MIN <= py + item.h <= WORD_MAX
    ensures Hit(item, x, y, mx, my) <==>
            !item.hidden && x + item.x <= mx < x + item.x + item.w && y + item.y <= my < y + item.y + item.h
  {
  }

  /** The last child that is hit, NIL for none. */
  ghost function LastHit(nodes: seq<Node>, list: seq<int>, x: Word, y: Word, mx: Word, my: Word): (c: int)
    ensures c != NIL ==> c in list && 0 <= c < |nodes|
    decreases |list|
  {
    if list == [] then NIL
    else
      var c := list[|list| - 1];
      if 0 <= c < |nodes| && Hit(nodes[c].data, x, y, mx, my) then c
          else LastHit(nodes, list[..|list| - 1], x, y, mx, my)
  }

  /** No later child is hit, and none at all when there is no last one. */
  lemma {:induction false} LastHitIs(nodes: seq<Node>, list: seq<int>, x: Word, y: Word, mx: Word, my: Word)
    requires forall i | 0 <= i < |list| :: 0 <= list[i] < |nodes|
    ensures var c := LastHit(nodes, list, x, y, mx, my);
            if c == NIL then forall i | 0 <= i < |list| :: !Hit(nodes[list[i]].data, x, y, mx, my)
            else exists k | 0 <= k < |list| ::
                   list[k] == c && Hit(nodes[c].data, x, y, mx, my)
                   && forall i | k < i < |list| :: !Hit(nodes[list[i]].data, x, y, mx, my)
    decreases |list|
  {
    hide Hit;
    if list != [] {
      var n := |list| - 1;
      var front := list[..n];
      if Hit(nodes[list[n]].data, x, y, mx, my) {
        assert list[n] == LastHit(nodes, list, x, y, mx, my);
      } else {
        LastHitIs(nodes, front, x, y, mx, my);
        assert forall i | 0 <= i < n :: front[i] == list[i];
        if LastHit(nodes, front, x, y, mx, my) != NIL {
          var c := LastHit(nodes, front, x, y, mx, my);
          var k :| 0 <= k < n && front[k] == c && forall i | k < i < n :: !Hit(nodes[front[i]].data, x, y, mx, my);
          assert list[k] == c;
        }
      }
    }
  }

  /** The object under the pointer: the last child that is hit, taken again and again, at most depth levels down. */
  ghost function Under(nodes: seq<Node>, kids: seq<seq<int>>, c: int, depth: nat, x: Word, y: Word, mx: Word,
                       my: Word): int
    decreases depth
  {
    if !(0 <= c < |nodes| && c < |kids|) || !Hit(nodes[c].data, x, y, mx, my) then NIL
    else UnderKids(nodes, kids, c, kids[c], depth, Plus(x, nodes[c].data.x), Plus(y, nodes[c].data.y), mx, my)
  }

  /** The same for an object that is hit, looking at some of its children only. */
  ghost function UnderKids(nodes: seq<Node>, kids: seq<seq<int>>, c: int, list: seq<int>, depth: nat, px: Word,
                           py: Word, mx: Word, my: Word): int
    decreases depth, 0
  {
    var r := LastHit(nodes, list, px, py, mx, my);
    if depth == 0 || r == NIL then c else Under(nodes, kids, r, depth - 1, px, py, mx, my)
  }

  /** The objects a search has looked at: all different, each the start or a child of another one. */
  ghost predicate Searched(kids: seq<seq<int>>, start: int, seen: seq<int>) {
    && Distinct(seen)
    && (forall i | 0 <= i < |seen| :: 0 <= seen[i] < |kids|)
    && forall s | s in seen && s != start :: ParentOf(kids, s) in seen
  }

  /** Where a search stands: at the start, or at child k of the last object hit, the children up to k not seen yet. */
  ghost predicate Standing(kids: seq<seq<int>>, level: seq<nat>, start: int, current: int, last: int, k: nat,
                           seen: seq<int>) {
    && |kids| == |level| && 0 <= start < |kids| && Searched(kids, start, seen)
    && if last == NIL then seen == [] && current == start
       else && last in seen && k < |kids[last]| && current == kids[last][k] && level[start] <= level[last]
            && forall i | 0 <= i <= k :: kids[last][i] !in seen
  }

  lemma StandingFresh(nodes: seq<Node>, kids: seq<seq<int>>, level: seq<nat>, start: int, current: int, last: int,
                      k: nat, seen: seq<int>)
    requires Threaded(nodes, kids) && Layered(kids, level) && Standing(kids, level, start, current, last, k, seen)
    ensures 0 <= current < |nodes| == |kids| && current !in seen && |seen| < |nodes|
    ensures level[start] <= level[current] && Searched(kids, start, seen + [current])
    ensures last != NIL ==> 0 <= last < |nodes| && current in kids[last]
  {
    if last != NIL {
      FamilyOf(nodes, kids, last);
      assert current in kids[last] && Deeper(level, last, current);
    }
    DistinctJoin(seen, [current]);
    DistinctBound(seen + [current], 0, |nodes|);
  }

  /** Going down to the last child, or back to the sibling before, the search meets an object it has not seen. */
  lemma StandingMoves(nodes: seq<Node>, kids: seq<seq<int>>, level: seq<nat>, start: int, current: int, last: int,
                      k: nat, seen: seq<int>)
    requires Threaded(nodes, kids) && Layered(kids, level) && Standing(kids, level, start, current, last, k, seen)
    ensures 0 <= current < |nodes| == |kids|
    ensures kids[current] != [] ==>
              Standing(kids, level, start, kids[current][|kids[current]| - 1], current, |kids[current]| - 1,
                       seen + [current])
    ensures last != NIL && k > 0 ==> 0 <= last < |kids| && k < |kids[last]|
                                     && kids[last][k - 1] > 0
                                     && Standing(kids, level, start, kids[last][k - 1], last, k - 1, seen + [current])
  {
    StandingFresh(nodes, kids, level, start, current, last, k, seen);
    FamilyOf(nodes, kids, current);
    forall t | t in kids[current]
      ensures t !in seen + [current]
    {
      assert Deeper(level, current, t);
      assert ParentOf(kids, t) == current;
    }
    if last != NIL {
      FamilyOf(nodes, kids, last);
    }
  }

  /** One look at an object, in terms of the search that is left. */
  ghost function Sought(nodes: seq<Node>, kids: seq<seq<int>>, current: int, last: int, k: nat, depth: nat, x: Word,
                        y: Word, mx: Word, my: Word): int
  {
    if last == NIL then Under(nodes, kids, current, depth, x, y, mx, my)
    else if 0 <= last < |kids| && k < |kids[last]|
    then UnderKids(nodes, kids, last, kids[last][..k + 1], depth + 1, x, y, mx, my)
    else NIL
  }

  lemma SoughtStep(nodes: seq<Node>, kids: seq<seq<int>>, current: int, last: int, k: nat, depth: nat, x: Word, y: Word,
                   mx: Word, my: Word)
    requires 0 <= current < |nodes| == |kids|
    requires last != NIL ==> 0 <= last < |kids| && k < |kids[last]| && kids[last][k] == current
    ensures var (item, now) := (nodes[current].data, Sought(nodes, kids, current, last, k, depth, x, y, mx, my));
            if !Hit(item, x, y, mx, my)
            then now == if last == NIL || k == 0 then last
                        else Sought(nodes, kids, kids[last][k - 1], last, k - 1, depth, x, y, mx, my)
            else if kids[current] == [] || depth == 0 then now == current
            else var n := |kids[current]| - 1;
                 now == Sought(nodes, kids, kids[current][n], current, n, depth - 1,
                               Plus(x, item.x), Plus(y, item.y), mx, my)
  {
    hide Plus, Hit;
    var item := nodes[current].data;
    if last != NIL {
      var list := kids[last][..k + 1];
      assert list[..k] == kids[last][..k] && list[k] == current;
      assert LastHit(nodes, list, x, y, mx, my) ==
             if Hit(item, x, y, mx, my) then current else LastHit(nodes, kids[last][..k], x, y, mx, my);
      assert kids[last][..0] == [];
    }
    if Hit(item, x, y, mx, my) {
      var (px, py) := (Plus(x, item.x), Plus(y, item.y));
      assert Sought(nodes, kids, current, last, k, depth, x, y, mx, my)
             == Under(nodes, kids, current, depth, x, y, mx, my);
      assert Under(nodes, kids, current, depth, x, y, mx, my)
             == UnderKids(nodes, kids, current, kids[current], depth, px, py, mx, my);
      assert kids[current][..|kids[current]|] == kids[current];
    }
  }

  /** The object under the pointer in the subtree of an object, NIL for none. No object is looked at twice, so the step
      limit is never reached. */
  method Find(tree: Objects, start: int, depth: nat, mx: Word, my: Word, ghost level: seq<nat>) returns (found: int)
    requires tree.Threads() && Layered(tree.kids, level)
    ensures !(0 <= start < tree.objects.Length) ==> found == NIL
    ensures 0 <= start < tree.objects.Length ==>
              var base := Base(tree.objects[..], tree.kids, level, start);
              found == Under(tree.objects[..], tree.kids, start, depth, base.0, base.1, mx, my)
  {
    hide Threaded, Layered, Plus, Spot, Standing, Sought, Under, Hit;
    found := NIL;
    if !(0 <= start < tree.objects.Length) {
      return;
    }
    ghost var (nodes, kids) := (tree.objects[..], tree.kids);
    var x, y := Origin(tree, start, level);
    var current, left, done, steps := start, depth, false, tree.objects.Length;
    ghost var goal := Under(nodes, kids, start, depth, x, y, mx, my);
    ghost var k: nat, seen: seq<int> := 0, [];
    FindStart(nodes, kids, level, start, depth, x, y, mx, my);
    while !done && steps > 0
      invariant steps == tree.objects.Length - |seen| || done
      invariant !done ==> Standing(kids, level, start, current, found, k, seen)
      invariant goal == if done then found else Sought(nodes, kids, current, found, k, left, x, y, mx, my)
      invariant !done ==> steps > 0
      decreases steps
    {
      StandingFresh(nodes, kids, level, start, current, found, k, seen);
      StandingMoves(nodes, kids, level, start, current, found, k, seen);
      StandingAt(nodes, kids, level, start, current, found, k, seen);
      SoughtStep(nodes, kids, current, found, k, left, x, y, mx, my);
      steps := steps - 1;
      seen := seen + [current];
      var item := tree.objects[current].data;
      if Hit(item, x, y, mx, my) {
        NoKids(nodes, kids, current);
        found := current;
        if item.tail != NIL && left > 0 {
          LastChild(nodes, kids, current);
          k := |kids[current]| - 1;
          current, left, x, y := item.tail, left - 1, Plus(x, item.x), Plus(y, item.y);
          StandingFresh(nodes, kids, level, start, current, found, k, seen);
        } else {
          done := true;
        }
      } else if found != NIL {
        current := tree.Previous(found, current);
        if current == NIL {
          done := true;
        } else {
          k := k - 1;
          StandingFresh(nodes, kids, level, start, current, found, k, seen);
        }
      } else {
        done := true;
      }
    }
  }

  method Origin(tree: Objects, c: int, ghost level: seq<nat>) returns (x: Word, y: Word)
    requires tree.Threads() && Layered(tree.kids, level) && 0 <= c < tree.objects.Length
    ensures (x, y) == Base(tree.objects[..], tree.kids, level, c)
  {
    hide Threaded, Layered, Spot;
    ParentIs(tree.objects[..], tree.kids, c);
    var parent, _, _ := tree.Parent(c);
    x, y := 0, 0;
    if parent != NIL {
      var px, py, _ := Offset(tree, parent, level);
      x, y := px, py;
    }
  }

  lemma FindStart(nodes: seq<Node>, kids: seq<seq<int>>, level: seq<nat>, start: int, depth: nat, x: Word, y: Word,
                  mx: Word, my: Word)
    requires Threaded(nodes, kids) && Layered(kids, level) && 0 <= start < |nodes|
    ensures Standing(kids, level, start, start, NIL, 0, [])
    ensures Sought(nodes, kids, start, NIL, 0, depth, x, y, mx, my) == Under(nodes, kids, start, depth, x, y, mx, my)
  {
  }

  lemma StandingAt(nodes: seq<Node>, kids: seq<seq<int>>, level: seq<nat>, start: int, current: int, last: int, k: nat,
                   seen: seq<int>)
    requires Standing(kids, level, start, current, last, k, seen)
    ensures last != NIL ==> 0 <= last < |kids| && k < |kids[last]| && kids[last][k] == current
  {
  }

  lemma LastChild(nodes: seq<Node>, kids: seq<seq<int>>, p: int)
    requires Threaded(nodes, kids) && 0 <= p < |nodes|
    ensures |kids| == |nodes| && (kids[p] != [] ==> nodes[p].data.tail == kids[p][|kids[p]| - 1])
  {
    FamilyOf(nodes, kids, p);
  }
}
