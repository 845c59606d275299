/** The shared pool of visible-piece nodes: a free list and any number of caller-held lists, linked by index. */
module RectPool {
  import opened Geometry
  import opened Links
  import opened Pieces

  const RECT_COUNT := 120

  type Node = Linked<Rect>

  ghost function RectOf(nodes: seq<Node>, n: int): Rect {
    if 0 <= n < |nodes| then nodes[n].data else ZERO
  }

  /** The rectangles along a list. */
  ghost function Rects(nodes: seq<Node>, list: seq<int>): (rs: seq<Rect>)
    ensures |rs| == |list|
  {
    seq(|list|, i requires 0 <= i < |list| => RectOf(nodes, list[i]))
  }

  /** Rectangles along a list only depend on its own nodes. */
  lemma RectsFrame(nodes: seq<Node>, nodes': seq<Node>, list: seq<int>)
    requires forall n | n in list :: RectOf(nodes', n) == RectOf(nodes, n)
    ensures Rects(nodes', list) == Rects(nodes, list)
  {
  }

  lemma RectsConcat(nodes: seq<Node>, a: seq<int>, b: seq<int>)
    ensures Rects(nodes, a + b) == Rects(nodes, a) + Rects(nodes, b)
  {
  }

  /** One round of cutting, seen on the rectangles of the list. */
  lemma CutRound(nodes: seq<Node>, nodes': seq<Node>, done: seq<int>, at: int, after: seq<int>, parts: seq<int>,
                 occ: Rect, free: nat, free': nat)
    requires forall n | n in done || n in after :: RectOf(nodes', n) == RectOf(nodes, n)
    requires var whole := RectOf(nodes, at);
             Rects(nodes', parts)
             == if !Meets(whole, occ) || |Split(whole, occ)| <= free then Split(whole, occ) else [whole]
    requires |parts| + free' == 1 + free
    ensures var whole := RectOf(nodes, at);
            Prepend(Rects(nodes, done), Cut(Rects(nodes, [at] + after), occ, free)) ==
            if !Meets(whole, occ) || |Split(whole, occ)| <= free
            then Prepend(Rects(nodes', done + parts), Cut(Rects(nodes', after), occ, free'))
            else Built(false, Rects(nodes', done + parts + after), free')
  {
    RectsConcat(nodes, [at], after);
    assert Rects(nodes, [at]) == [RectOf(nodes, at)];
    RectsFrame(nodes, nodes', done);
    RectsFrame(nodes, nodes', after);
    RectsConcat(nodes', done, parts);
    RectsConcat(nodes', done + parts, after);
    assert |Rects(nodes', parts)| == |parts|;
    CutStep(Rects(nodes, done), RectOf(nodes, at), Rects(nodes, after), occ, free);
  }

  /** The pool after node `n` was filled with `piece` and linked behind the last node of `list`. */
  ghost function Extended(nodes: seq<Node>, list: seq<int>, n: int, piece: Rect): seq<Node>
    requires 0 <= n < |nodes|
  {
    Relinked(nodes[n := Linked(NIL, piece)], list, n)
  }

  /** A node taken from the front of the free list becomes the last one of `list`. */
  lemma AppendStep(nodes: seq<Node>, nodes': seq<Node>, head: int, list: seq<int>, n: int, free: seq<int>,
                   freeRect: int, piece: Rect)
    requires Run(nodes, head, list, NIL) && Apart(list, [n] + free) && 0 <= n < |nodes| == |nodes'|
    requires Run(nodes, n, [n] + free, NIL) && freeRect == nodes[n].next
    requires nodes' == Extended(nodes, list, n, piece)
    ensures Run(nodes', if list == [] then n else head, list + [n], NIL)
    ensures Run(nodes', freeRect, free, NIL)
    ensures Apart(list + [n], free)
    ensures Rects(nodes', list + [n]) == Rects(nodes, list) + [piece]
  {
    RunTail(nodes, n, [n] + free);
    assert ([n] + free)[1..] == free;
    assert n !in list && n in [n] + free;
    assert Apart(list, free);
    RunFrame(nodes, nodes', freeRect, free, NIL);
    if list != [] {
      RunDistinct(nodes, head, list, NIL);
      RunRelink(nodes, nodes', head, list, NIL, n);
    }
    RunJoin(nodes', if list == [] then n else head, list, n, [n], NIL);
  }

  ghost function Total(pieces: seq<seq<int>>): nat {
    if pieces == [] then 0 else |pieces[0]| + Total(pieces[1..])
  }

  /** The lists and the free nodes share nothing and together make up the whole pool. */
  ghost predicate Partition(pieces: seq<seq<int>>, free: seq<int>) {
    && (forall g, h | 0 <= g < h < |pieces| :: Apart(pieces[g], pieces[h]))
    && (forall h | 0 <= h < |pieces| :: Apart(pieces[h], free))
    && (forall n | 0 <= n < RECT_COUNT :: n in free || exists h | 0 <= h < |pieces| :: n in pieces[h])
    && Total(pieces) + |free| == RECT_COUNT
  }

  lemma {:induction false} TotalUpdate(pieces: seq<seq<int>>, h: nat, list: seq<int>)
    requires h < |pieces|
    ensures Total(pieces[h := list]) == Total(pieces) - |pieces[h]| + |list|
  {
    var pieces' := pieces[h := list];
    if h == 0 {
      assert pieces'[1..] == pieces[1..];
    } else {
      assert pieces'[1..] == pieces[1..][h - 1 := list];
      TotalUpdate(pieces[1..], h - 1, list);
    }
  }

  lemma {:induction false} TotalEmpty(pieces: seq<seq<int>>)
    requires forall h | 0 <= h < |pieces| :: pieces[h] == []
    ensures Total(pieces) == 0
  {
    if pieces != [] {
      TotalEmpty(pieces[1..]);
    }
  }

  /** To begin with all nodes are free. */
  lemma PartitionStart(count: nat)
    ensures Partition(seq(count, _ => []), seq(RECT_COUNT, i => i))
  {
    var free := seq(RECT_COUNT, i => i);
    TotalEmpty(seq(count, _ => []));
    forall n | 0 <= n < RECT_COUNT
      ensures n in free
    {
      assert free[n] == n;
    }
  }

  /** Trading nodes between one list and the free list keeps the pool partitioned. */
  lemma PartitionSwap(pieces: seq<seq<int>>, free: seq<int>, h: nat, list: seq<int>, free': seq<int>)
    requires Partition(pieces, free) && h < |pieces|
    requires Elems(list) + Elems(free') == Elems(pieces[h]) + Elems(free)
    requires |list| + |free'| == |pieces[h]| + |free| && Apart(list, free')
    ensures Partition(pieces[h := list], free')
  {
    var pieces' := pieces[h := list];
    TotalUpdate(pieces, h, list);
    SameElems(list, free', pieces[h], free);
    forall n | 0 <= n < RECT_COUNT
      ensures n in free' || exists g | 0 <= g < |pieces'| :: n in pieces'[g]
    {
      if n !in free' {
        if n in list {
          assert n in pieces'[h];
        } else {
          var g :| 0 <= g < |pieces| && n in pieces[g];
          assert n in pieces'[g];
        }
      }
    }
  }

  ghost function RectsOfAll(nodes: seq<Node>, pieces: seq<seq<int>>): (shown: seq<seq<Rect>>)
    ensures |shown| == |pieces|
    ensures forall h | 0 <= h < |pieces| :: |shown[h]| == |pieces[h]|
  {
    seq(|pieces|, h requires 0 <= h < |pieces| => Rects(nodes, pieces[h]))
  }

  // Walking a list from one of its nodes

  /** The list from the first occurrence of node `at` on. */
  ghost function From(list: seq<int>, at: int): (rest: seq<int>)
    ensures |rest| <= |list|
  {
    if list == [] || list[0] == at then list else From(list[1..], at)
  }

  lemma FromNil(list: seq<int>)
    ensures NIL !in list ==> From(list, NIL) == []
  {
  }

  lemma {:induction false} FromStep(nodes: seq<Node>, head: int, list: seq<int>, at: int)
    requires Run(nodes, head, list, NIL) && at in list
    ensures 0 <= at < |nodes|
    ensures From(list, at) == [at] + From(list, nodes[at].next)
    ensures nodes[at].next == NIL || nodes[at].next in list
    decreases list
  {
    RunTail(nodes, head, list);
    if at != head {
      FromStep(nodes, nodes[head].next, list[1..], at);
    } else if list[1..] != [] {
      assert nodes[head].next == list[1..][0];
    } else {
      assert From(list[1..], NIL) == [];
    }
  }

  /** One step of a walk over pieces. */
  lemma WalkStep(work: Rect, nodes: seq<Node>, at: int, rest: seq<int>)
    requires 0 <= at < |nodes|
    ensures var clip := Intersect(work, nodes[at].data);
            Walk(work, Rects(nodes, [at] + rest)) == if clip.Solid() then [clip] + Walk(work, Rects(nodes, rest))
                                                     else Walk(work, Rects(nodes, rest))
  {
    assert Rects(nodes, [at] + rest)[1..] == Rects(nodes, rest);
  }

  class Pool {
    const nodes: array<Node>
    var freeRect: int
    ghost var free: seq<int>

    ghost predicate Valid()
      reads this, nodes
    {
      nodes.Length == RECT_COUNT && Run(nodes[..], freeRect, free, NIL)
    }

    /** `list` is a list of its own: it ends at NIL and shares no node with the free list. */
    ghost predicate Holds(head: int, list: seq<int>)
      reads this, nodes
    {
      Run(nodes[..], head, list, NIL) && Apart(list, free)
    }

    /** The nodes the pool can work with while `list` is in hand: those of the list and the free ones. */
    ghost function Stock(list: seq<int>): set<int>
      reads this
    {
      Elems(list) + Elems(free)
    }

    constructor ()
      ensures Valid() && fresh(nodes)
      ensures free == seq(RECT_COUNT, i => i)
    {
      nodes := new Node[RECT_COUNT](i => Linked(if i + 1 < RECT_COUNT then i + 1 else NIL, ZERO));
      freeRect := 0;
      free := seq(RECT_COUNT, i => i);
    }

    /** Threads all nodes into the free list again. */
    method Refill()
      requires nodes.Length == RECT_COUNT
      modifies this, nodes
      ensures Valid() && free == seq(RECT_COUNT, i => i)
    {
      for i := 0 to RECT_COUNT
        invariant forall k | 0 <= k < i :: nodes[k] == Linked(if k + 1 < RECT_COUNT then k + 1 else NIL, ZERO)
      {
        nodes[i] := Linked(if i + 1 < RECT_COUNT then i + 1 else NIL, ZERO);
      }
      freeRect := 0;
      free := seq(RECT_COUNT, i => i);
    }

    method Alloc() returns (n: int)
      requires Valid()
      modifies this, nodes
      ensures Valid()
      ensures n == NIL <==> old(free) == []
      ensures n == NIL ==> unchanged(this) && unchanged(nodes)
      ensures n != NIL ==> 0 <= n < RECT_COUNT && n == old(freeRect) && freeRect == old(nodes[n].next)
      ensures n != NIL ==> old(free) == [n] + free && n !in free && nodes[..] == old(nodes[..])[n := Linked(NIL, ZERO)]
    {
      n := freeRect;
      if n == NIL {
        return;
      }
      RunTail(nodes[..], freeRect, free);
      freeRect := nodes[n].next;
      RunFrame(nodes[..], nodes[..][n := Linked(NIL, ZERO)], freeRect, free[1..], NIL);
      nodes[n] := Linked(NIL, ZERO);
      free := free[1..];
    }

    method Release(n: int)
      requires Valid() && 0 <= n < RECT_COUNT && n !in free
      modifies this, nodes
      ensures Valid()
      ensures free == [n] + old(free)
      ensures nodes[..] == old(nodes[..])[n := old(nodes[n]).(next := old(freeRect))]
    {
      RunFrame(nodes[..], nodes[..][n := nodes[n].(next := freeRect)], freeRect, free, NIL);
      nodes[n] := nodes[n].(next := freeRect);
      RunPush(nodes[..], n, free);
      freeRect := n;
      free := [n] + free;
    }

    /** Returns every node of a list to the pool. */
    method ReleaseList(head: int, ghost list: seq<int>)
      requires Valid() && Holds(head, list)
      modifies this, nodes
      ensures Valid()
      ensures Stock([]) == old(Stock(list)) && |free| == |list| + |old(free)|
      ensures forall n | 0 <= n < RECT_COUNT && n !in old(Stock(list)) :: nodes[n] == old(nodes[n])
    {
      var at := head;
      ghost var rest := list;
      while at != NIL
        invariant Valid() && Holds(at, rest)
        invariant Stock(rest) == old(Stock(list)) && |rest| + |free| == |list| + |old(free)|
        invariant forall n | 0 <= n < RECT_COUNT && n !in old(Stock(list)) :: nodes[n] == old(nodes[n])
        decreases |rest|
      {
        var next := nodes[at].next;
        RunTail(nodes[..], at, rest);
        RunFrame(nodes[..], nodes[..][at := nodes[at].(next := freeRect)], next, rest[1..], NIL);
        Release(at);
        rest := rest[1..];
        at := next;
      }
    }

    /** Takes a node off the free list, fills it and links it behind `tail`. */
    method Link(head: int, tail: int, piece: Rect, ghost list: seq<int>) returns (n: int)
      requires Valid() && Holds(head, list)
      requires list != [] ==> tail == list[|list| - 1]
      modifies this, nodes
      ensures n == NIL <==> old(free) == []
      ensures n == NIL ==> unchanged(this) && unchanged(nodes)
      ensures n != NIL ==>
        && 0 <= n < RECT_COUNT && old(free) == [n] + free && freeRect == old(nodes[n].next)
        && nodes[..] == Extended(old(nodes[..]), list, n, piece)
    {
      n := Alloc();
      if n == NIL {
        return;
      }
      nodes[n] := nodes[n].(data := piece);
      if head != NIL {
        nodes[tail] := nodes[tail].(next := n);
      }
    }

    /** Appends a piece to a list under construction unless the piece is empty; fails only for want of a node. */
    method Append(head: int, tail: int, piece: Rect, ghost list: seq<int>)
      returns (ok: bool, head': int, tail': int, ghost list': seq<int>)
      requires Valid() && Holds(head, list)
      requires list != [] ==> tail == list[|list| - 1]
      modifies this, nodes
      ensures Valid() && Holds(head', list')
      ensures list' != [] ==> tail' == list'[|list'| - 1]
      ensures ok == (|Keep(piece)| <= |old(free)|)
      ensures Stock(list') == old(Stock(list)) && |list'| + |free| == |list| + |old(free)|
      ensures Rects(nodes[..], list') == old(Rects(nodes[..], list)) + if ok then Keep(piece) else []
      ensures forall n | 0 <= n < RECT_COUNT && n !in old(Stock(list)) :: nodes[n] == old(nodes[n])
    {
      ok, head', tail', list' := true, head, tail, list;
      if piece.Empty() {
        return;
      }
      var n := Link(head, tail, piece, list);
      if n == NIL {
        ok := false;
        return;
      }
      head', tail', list' := if head == NIL then n else head, n, list + [n];
      AppendStep(old(nodes[..]), nodes[..], head, list, n, free, freeRect, piece);
    }

    /** Builds the pieces of `whole` around `occ` as a list of their own, or gives every node back. */
    method Strips(whole: Rect, occ: Rect) returns (ok: bool, head: int, tail: int, ghost parts: seq<int>)
      requires Valid() && Meets(whole, occ)
      modifies this, nodes
      ensures Valid() && Holds(head, parts)
      ensures parts != [] ==> tail == parts[|parts| - 1]
      ensures ok == (|Split(whole, occ)| <= |old(free)|)
      ensures parts == [] || ok
      ensures ok ==> Rects(nodes[..], parts) == Split(whole, occ)
      ensures Stock(parts) == old(Stock([])) && |parts| + |free| == |old(free)|
      ensures forall n | 0 <= n < RECT_COUNT && n !in old(Stock([])) :: nodes[n] == old(nodes[n])
    {
      hide Above, LeftOf, RightOf, Below, Run;
      RunEmpty(nodes[..]);
      parts := [];
      ok, head, tail, parts := Append(NIL, NIL, Above(whole, occ), parts);
      assert ok ==> Rects(nodes[..], parts) == Keep(Above(whole, occ));
      if ok {
        ok, head, tail, parts := Append(head, tail, LeftOf(whole, occ), parts);
        if ok {
          ok, head, tail, parts := Append(head, tail, RightOf(whole, occ), parts);
          if ok {
            ok, head, tail, parts := Append(head, tail, Below(whole, occ), parts);
          }
        }
      }
      if !ok {
        ReleaseList(head, parts);
        head, parts := NIL, [];
        RunEmpty(nodes[..]);
      }
    }

    /** Puts the list at `head` (NIL: nothing) in the place of node `at`, which `prev` (NIL: the list head) links to. */
    method Splice(first: int, prev: int, at: int, head: int, tail: int,
                  ghost done: seq<int>, ghost after: seq<int>, ghost parts: seq<int>)
      returns (first': int)
      requires nodes.Length == RECT_COUNT
      requires Run(nodes[..], first, done + ([at] + after), NIL) && Run(nodes[..], head, parts, NIL)
      requires Apart(parts, done + ([at] + after)) && 0 <= at < RECT_COUNT
      requires prev == Last(done)
      requires parts != [] ==> tail == parts[|parts| - 1]
      modifies nodes
      ensures Run(nodes[..], first', done + parts + after, NIL)
      ensures forall n | 0 <= n < RECT_COUNT :: nodes[n].data == old(nodes[n].data)
      ensures forall n | 0 <= n < RECT_COUNT && n !in done + parts :: nodes[n] == old(nodes[n])
    {
      SpliceRun(nodes[..], first, done, at, after, head, parts);
      RunSplit(nodes[..], first, done, [at] + after, NIL);
      var successor := nodes[at].next;
      var link := if head == NIL then successor else head;
      first' := first;
      if prev == NIL {
        first' := link;
      } else {
        nodes[prev] := nodes[prev].(next := link);
      }
      assert nodes[..] == Relinked(old(nodes[..]), done, link);
      if head != NIL {
        nodes[tail] := nodes[tail].(next := successor);
      }
    }

    /** Lets the list at `head` take the place of node `at`, which goes back to the pool. */
    method Replace(first: int, prev: int, at: int, head: int, tail: int,
                   ghost done: seq<int>, ghost after: seq<int>, ghost parts: seq<int>)
      returns (first': int)
      requires Valid() && Holds(first, done + ([at] + after)) && Holds(head, parts)
      requires Apart(parts, done + ([at] + after)) && 0 <= at < RECT_COUNT
      requires prev == Last(done)
      requires parts != [] ==> tail == parts[|parts| - 1]
      modifies this, nodes
      ensures Valid() && Holds(first', done + parts + after)
      ensures free == [at] + old(free)
      ensures forall n | 0 <= n < RECT_COUNT :: nodes[n].data == old(nodes[n].data)
      ensures forall n | 0 <= n < RECT_COUNT && n !in done + parts && n != at :: nodes[n] == old(nodes[n])
    {
      ReplaceApart(nodes[..], first, done, at, after, free, parts);
      first' := Splice(first, prev, at, head, tail, done, after, parts);
      RunFrame(old(nodes[..]), nodes[..], freeRect, free, NIL);
      ghost var spliced := nodes[..];
      Release(at);
      RunFrame(spliced, nodes[..], first', done + parts + after, NIL);
    }

    /** Splits node `at`, which `occ` meets; the list is `done` up to `prev`, then `at`, then `after`. */
    method CutOut(first: int, prev: int, at: int, occ: Rect, ghost done: seq<int>, ghost after: seq<int>)
      returns (ok: bool, first': int, ghost parts: seq<int>)
      requires Valid() && Holds(first, done + ([at] + after)) && 0 <= at < RECT_COUNT && Meets(nodes[at].data, occ)
      requires prev == Last(done)
      modifies this, nodes
      ensures Valid() && Holds(first', done + parts + after)
      ensures ok == (|Split(old(nodes[at].data), occ)| <= |old(free)|)
      ensures ok ==> Rects(nodes[..], parts) == Split(old(nodes[at].data), occ) && at !in parts
      ensures !ok ==> parts == [at] && first' == first
      ensures Stock(done + parts + after) == old(Stock(done + ([at] + after)))
      ensures |parts| + |free| == 1 + |old(free)|
      ensures forall n | 0 <= n < RECT_COUNT && n !in old(Stock(done + ([at] + after))) :: nodes[n] == old(nodes[n])
      ensures forall n | 0 <= n < RECT_COUNT && n !in old(free) :: nodes[n].data == old(nodes[n].data)
    {
      assert done + ([at] + after) == done + [at] + after;
      var head, tail;
      ghost var strips;
      ok, head, tail, strips := Strips(nodes[at].data, occ);
      StripsApart(done + ([at] + after), old(free), strips, free);
      RunFrame(old(nodes[..]), nodes[..], first, done + ([at] + after), NIL);
      if !ok {
        return false, first, [at];
      }
      parts := strips;
      ghost var stripped := nodes[..];
      ReplaceStock(done, at, after, old(free), parts, free);
      first' := Replace(first, prev, at, head, tail, done, after, parts);
      RectsFrame(stripped, nodes[..], parts);
      assert (done + ([at] + after))[|done|] == at;
    }

    /** Splits the node `at` that `prev` (NIL: the list head) links to around `occ`. The list is `done` up to `prev`,
        then `at`, then `after`; the pieces take the place of `at`. */
    method BreakOne(first: int, prev: int, occ: Rect, ghost done: seq<int>, ghost at: int, ghost after: seq<int>)
      returns (ok: bool, first': int, ghost parts: seq<int>)
      requires Valid() && Holds(first, done + ([at] + after))
      requires prev == Last(done)
      modifies this, nodes
      ensures Valid() && Holds(first', done + parts + after)
      ensures var whole := RectOf(old(nodes[..]), at);
        && ok == (!Meets(whole, occ) || |Split(whole, occ)| <= |old(free)|)
        && Rects(nodes[..], parts) == (if ok then Split(whole, occ) else [whole])
        && (!ok || !Meets(whole, occ) ==> parts == [at] && first' == first)
        && (ok && Meets(whole, occ) ==> at !in parts)
      ensures Stock(done + parts + after) == old(Stock(done + ([at] + after)))
      ensures |parts| + |free| == 1 + |old(free)|
      ensures forall n | 0 <= n < RECT_COUNT && n !in old(Stock(done + ([at] + after))) :: nodes[n] == old(nodes[n])
      ensures forall n | 0 <= n < RECT_COUNT && n !in old(free) :: nodes[n].data == old(nodes[n].data)
    {
      assert done + ([at] + after) == done + [at] + after;
      assert (done + ([at] + after))[|done|] == at;
      assert Run(nodes[..], first, done, at) by {
        RunSplit(nodes[..], first, done, [at] + after, NIL);
      }
      var target := if prev == NIL then first else nodes[prev].next;
      ok, first', parts := true, first, [at];
      if Meets(nodes[target].data, occ) {
        ok, first', parts := CutOut(first, prev, target, occ, done, after);
      }
    }

    /** The node of a run that links to `successor`. */
    method FindTail(scan: int, successor: int, ghost run: seq<int>, ghost after: seq<int>) returns (tail: int)
      requires Valid() && run != [] && Run(nodes[..], scan, run + after, NIL) && successor == First(after)
      ensures tail == Last(run)
    {
      ghost var list := run + after;
      RunDistinct(nodes[..], scan, list, NIL);
      assert successor == if |run| < |list| then list[|run|] else NIL;
      tail := scan;
      ghost var k := 0;
      while nodes[tail].next != successor
        invariant 0 <= k < |run| && tail == list[k]
        decreases |run| - k
      {
        assert nodes[list[k]].next == if k + 1 < |list| then list[k + 1] else NIL;
        tail := nodes[tail].next;
        k := k + 1;
      }
      assert nodes[list[k]].next == if k + 1 < |list| then list[k + 1] else NIL;
    }

    /** The node (NIL: the list head) whose link leads to what follows the pieces just made. */
    method SkipParts(first: int, prev: int, at: int, successor: int,
                     ghost done: seq<int>, ghost parts: seq<int>, ghost after: seq<int>)
      returns (prev': int)
      requires Valid() && Run(nodes[..], first, done + parts + after, NIL) && prev == Last(done)
      requires successor == First(after) && at != NIL
      requires at !in after && (at in parts ==> parts == [at])
      ensures prev' == Last(done + parts)
    {
      assert done + parts + after == done + (parts + after);
      RunSplit(nodes[..], first, done, parts + after, NIL);
      var scan := if prev == NIL then first else nodes[prev].next;
      assert scan == First(parts + after);
      assert parts != [] && after != [] ==> (parts + after)[0] != (parts + after)[|parts|] by {
        RunDistinct(nodes[..], scan, parts + after, NIL);
      }
      prev' := prev;
      if scan == at {
        prev' := at;
      } else if scan != successor {
        prev' := FindTail(scan, successor, parts, after);
      }
    }

    /** One round of BreakList: splits node `at` and finds the link to what follows its pieces. */
    method BreakNext(first: int, prev: int, at: int, occ: Rect, ghost done: seq<int>, ghost after: seq<int>)
      returns (ok: bool, first': int, prev': int, successor: int, ghost parts: seq<int>)
      requires Valid() && Holds(first, done + ([at] + after)) && prev == Last(done)
      modifies this, nodes
      ensures Valid() && Holds(first', done + parts + after)
      ensures old(Prepend(Rects(nodes[..], done), Cut(Rects(nodes[..], [at] + after), occ, |free|))) ==
              if ok then Prepend(Rects(nodes[..], done + parts), Cut(Rects(nodes[..], after), occ, |free|))
              else Built(false, Rects(nodes[..], done + parts + after), |free|)
      ensures successor == First(after) && (ok ==> prev' == Last(done + parts))
      ensures Stock(done + parts + after) == old(Stock(done + ([at] + after)))
      ensures forall n | 0 <= n < RECT_COUNT && n !in old(Stock(done + ([at] + after))) :: nodes[n] == old(nodes[n])
    {
      assert (done + ([at] + after))[|done|] == at;
      assert nodes[at].next == First(after) && at !in after by {
        RunSplit(nodes[..], first, done, [at] + after, NIL);
        RunTail(nodes[..], at, [at] + after);
        assert ([at] + after)[1..] == after;
      }
      successor := nodes[at].next;
      ok, first', parts := BreakOne(first, prev, occ, done, at, after);
      assert forall n | n in done || n in after :: RectOf(nodes[..], n) == RectOf(old(nodes[..]), n) by {
        assert forall n | n in done || n in after :: n in done + ([at] + after);
      }
      CutRound(old(nodes[..]), nodes[..], done, at, after, parts, occ, |old(free)|, |free|);
      prev' := prev;
      if ok {
        prev' := SkipParts(first', prev, at, successor, done, parts, after);
      }
    }

    /** Splits every node of a list around one occluder, passing over the pieces just made. */
    method BreakList(first: int, occ: Rect, ghost list: seq<int>)
      returns (ok: bool, first': int, ghost list': seq<int>)
      requires Valid() && Holds(first, list)
      modifies this, nodes
      ensures Valid() && Holds(first', list')
      ensures Built(ok, Rects(nodes[..], list'), |free|) == old(Cut(Rects(nodes[..], list), occ, |free|))
      ensures Stock(list') == old(Stock(list))
      ensures forall n | 0 <= n < RECT_COUNT && n !in old(Stock(list)) :: nodes[n] == old(nodes[n])
    {
      ok, first' := true, first;
      var prev := NIL;
      ghost var done, rest := [], list;
      ghost var goal := Cut(Rects(nodes[..], list), occ, |free|);
      var at := first;
      assert done + rest == list;
      while at != NIL
        invariant Valid() && Holds(first', done + rest)
        invariant prev == Last(done) && at == First(rest) && (at == NIL ==> rest == [])
        invariant goal == Prepend(Rects(nodes[..], done), Cut(Rects(nodes[..], rest), occ, |free|))
        invariant Stock(done + rest) == old(Stock(list))
        invariant forall n | 0 <= n < RECT_COUNT && n !in old(Stock(list)) :: nodes[n] == old(nodes[n])
        decreases |rest|
      {
        ghost var after := rest[1..];
        assert rest == [at] + after;
        var successor;
        ghost var parts;
        ok, first', prev, successor, parts := BreakNext(first', prev, at, occ, done, after);
        if !ok {
          list' := done + parts + after;
          return;
        }
        done, rest := done + parts, after;
        at := successor;
        assert rest != [] ==> (done + rest)[|done|] == rest[0];
      }
      assert done + rest == done;
      list' := done;
    }

    /** A new list holding one rectangle; NIL for want of a node. */
    method Start(base: Rect, ghost occs: seq<Rect>) returns (first: int, ghost list: seq<int>)
      requires Valid() && !base.Empty()
      modifies this, nodes
      ensures Making(first, list, old(free), old(nodes[..]))
      ensures Outlook(first != NIL, list, occs) == Layer(base, occs, |old(free)|)
    {
      hide Cut;
      first := Alloc();
      list := [];
      if first != NIL {
        nodes[first] := nodes[first].(data := base);
        list := [first];
        RunFrame(old(nodes[..])[first := Linked(NIL, ZERO)], nodes[..], freeRect, free, NIL);
        assert Rects(nodes[..], list) == [base];
      }
    }

    /** `list` is being made out of the nodes that were free when the pool stood at `free0` and `nodes0`. */
    ghost predicate Making(first: int, list: seq<int>, free0: seq<int>, nodes0: seq<Node>)
      reads this, nodes
    {
      && Valid() && Holds(first, list) && |nodes0| == RECT_COUNT
      && Elems(list) + Elems(free) == Elems(free0) && |list| + |free| == |free0|
      && forall n | 0 <= n < RECT_COUNT && n !in free0 :: nodes[n] == nodes0[n]
    }

    /** The list now, and what cutting it around the occluders still to come leads to. */
    ghost function Outlook(ok: bool, list: seq<int>, occs: seq<Rect>): Built
      reads this, nodes
    {
      if ok then CutAll(Rects(nodes[..], list), occs, |free|) else Built(false, Rects(nodes[..], list), |free|)
    }

    lemma OutlookFailed(list: seq<int>, occs: seq<Rect>, occs': seq<Rect>)
      ensures Outlook(false, list, occs) == Outlook(false, list, occs')
    {
    }

    /** BreakList as a step of making a new list. */
    method BreakMore(first: int, occ: Rect, ghost list: seq<int>, ghost occs: seq<Rect>, ghost free0: seq<int>,
                     ghost nodes0: seq<Node>)
      returns (ok: bool, first': int, ghost list': seq<int>)
      requires Making(first, list, free0, nodes0)
      modifies this, nodes
      ensures Making(first', list', free0, nodes0)
      ensures Outlook(ok, list', occs) == old(Outlook(true, list, [occ] + occs))
    {
      CutAllStep(Rects(nodes[..], list), occ, occs, |free|);
      SameElems(list, free, free0, []);
      ok, first', list' := BreakList(first, occ, list);
    }
  }
}
