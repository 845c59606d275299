/** Singly linked lists threaded through an array of records by index. One array may hold many disjoint lists. */
module Links {
  const NIL := -1

  datatype Linked<+T> = Linked(next: int, data: T)

  /** `list` is the run of node numbers met when following links from `head` up to, not including, `end`. */
  ghost predicate Run<T>(nodes: seq<Linked<T>>, head: int, list: seq<int>, end: int) {
    && (forall i | 0 <= i < |list| :: 0 <= list[i] < |nodes|)
    && head == (if list == [] then end else list[0])
    && (forall i {:trigger nodes[list[i]]} | 0 <= i < |list| ::
          nodes[list[i]].next == if i + 1 < |list| then list[i + 1] else end)
  }

  ghost function First(list: seq<int>): int {
    if list == [] then NIL else list[0]
  }

  ghost function Last(list: seq<int>): int {
    if list == [] then NIL else list[|list| - 1]
  }

  ghost predicate Distinct(list: seq<int>) {
    forall i, j | 0 <= i < j < |list| :: list[i] != list[j]
  }

  ghost predicate Apart(a: seq<int>, b: seq<int>) {
    forall n | n in a :: n !in b
  }

  ghost function Elems(list: seq<int>): set<int> {
    set n | n in list
  }

  lemma SameElems(a: seq<int>, b: seq<int>, a': seq<int>, b': seq<int>)
    requires Elems(a) + Elems(b) == Elems(a') + Elems(b')
    ensures forall n :: n in a || n in b <==> n in a' || n in b'
  {
    forall n
      ensures n in a || n in b <==> n in a' || n in b'
    {
      assert n in Elems(a) + Elems(b) <==> n in Elems(a') + Elems(b');
    }
  }

  lemma RunEmpty<T>(nodes: seq<Linked<T>>)
    ensures Run(nodes, NIL, [], NIL)
  {
  }

  lemma RunOne<T>(nodes: seq<Linked<T>>, n: int, end: int)
    requires Run(nodes, n, [n], end)
    ensures 0 <= n < |nodes| && nodes[n].next == end
  {
  }

  lemma RunRange<T>(nodes: seq<Linked<T>>, head: int, list: seq<int>, end: int)
    requires Run(nodes, head, list, end)
    ensures forall n | n in list :: 0 <= n < |nodes|
  {
  }

  /** A run that ends outside itself is acyclic. */
  lemma RunDistinct<T>(nodes: seq<Linked<T>>, head: int, list: seq<int>, end: int)
    requires Run(nodes, head, list, end) && end !in list
    ensures Distinct(list)
  {
    forall i, j | 0 <= i < j < |list|
      ensures list[i] != list[j]
    {
      NoReturn(nodes, head, list, end, i, j);
    }
  }

  lemma {:induction false} NoReturn<T>(nodes: seq<Linked<T>>, head: int, list: seq<int>, end: int, i: nat, j: nat)
    requires Run(nodes, head, list, end) && end !in list && i < j < |list|
    ensures list[i] != list[j]
    decreases |list| - j
  {
    assert nodes[list[i]].next == list[i + 1];
    if j + 1 < |list| {
      assert nodes[list[j]].next == list[j + 1];
      NoReturn(nodes, head, list, end, i + 1, j + 1);
    }
  }

  lemma RunJoin<T>(nodes: seq<Linked<T>>, head: int, a: seq<int>, middle: int, b: seq<int>, end: int)
    requires Run(nodes, head, a, middle) && Run(nodes, middle, b, end)
    ensures Run(nodes, head, a + b, end)
  {
    var ab := a + b;
    assert forall i | 0 <= i < |a| :: ab[i] == a[i];
    assert forall i | |a| <= i < |ab| :: ab[i] == b[i - |a|];
    forall i, j | 0 <= i < j < |ab| && j == i + 1
      ensures nodes[ab[i]].next == ab[j]
    {
      if j < |a| {
        assert nodes[a[i]].next == a[j];
      } else if j == |a| {
        assert ab[i] == a[|a| - 1];
      } else {
        assert nodes[b[i - |a|]].next == b[j - |a|];
      }
    }
  }

  lemma RunSplit<T>(nodes: seq<Linked<T>>, head: int, a: seq<int>, b: seq<int>, end: int)
    requires Run(nodes, head, a + b, end)
    ensures var middle := if b == [] then end else b[0];
            Run(nodes, head, a, middle) && Run(nodes, middle, b, end)
  {
    var ab := a + b;
    forall i | 0 <= i < |a|
      ensures 0 <= a[i] < |nodes|
      ensures nodes[a[i]].next == if i + 1 < |ab| then ab[i + 1] else end
    {
      assert a[i] == ab[i];
    }
    forall i | 0 <= i < |b|
      ensures 0 <= b[i] < |nodes|
      ensures nodes[b[i]].next == if i + 1 < |b| then b[i + 1] else end
    {
      var k := |a| + i;
      assert b[i] == ab[k] && (i + 1 < |b| ==> ab[k + 1] == b[i + 1]);
    }
    assert a != [] ==> a[0] == ab[0];
    assert b != [] ==> b[0] == ab[|a|];
  }

  /** A run only depends on the links of its own nodes. */
  lemma RunFrame<T>(nodes: seq<Linked<T>>, nodes': seq<Linked<T>>, head: int, list: seq<int>, end: int)
    requires Run(nodes, head, list, end) && |nodes'| == |nodes|
    requires forall n | n in list :: nodes'[n].next == nodes[n].next
    ensures Run(nodes', head, list, end)
  {
  }

  /** Relinking the last node of a run moves its end. */
  lemma RunRelink<T>(nodes: seq<Linked<T>>, nodes': seq<Linked<T>>, head: int, list: seq<int>, end: int, end': int)
    requires Run(nodes, head, list, end) && |nodes'| == |nodes| && Distinct(list) && list != []
    requires nodes'[list[|list| - 1]].next == end'
    requires forall n | n in list && n != list[|list| - 1] :: nodes'[n].next == nodes[n].next
    ensures Run(nodes', head, list, end')
  {
  }

  /** The first node of a run ending at NIL, and what follows it. */
  lemma RunTail<T>(nodes: seq<Linked<T>>, head: int, list: seq<int>)
    requires Run(nodes, head, list, NIL) && list != []
    ensures list == [head] + list[1..] && head !in list[1..]
    ensures Run(nodes, nodes[head].next, list[1..], NIL)
  {
    assert list == [head] + list[1..];
    RunSplit(nodes, head, [head], list[1..], NIL);
    RunDistinct(nodes, head, list, NIL);
  }

  lemma RunPush<T>(nodes: seq<Linked<T>>, head: int, list: seq<int>)
    requires 0 <= head < |nodes| && Run(nodes, nodes[head].next, list, NIL)
    ensures Run(nodes, head, [head] + list, NIL)
  {
    RunJoin(nodes, head, [head], nodes[head].next, list, NIL);
  }

  /** The pool after the last node of `list`, if any, was linked to `next`. */
  ghost function Relinked<T>(nodes: seq<Linked<T>>, list: seq<int>, next: int): (nodes': seq<Linked<T>>)
    ensures |nodes'| == |nodes|
  {
    if list == [] || !(0 <= list[|list| - 1] < |nodes|) then nodes
    else nodes[list[|list| - 1] := nodes[list[|list| - 1]].(next := next)]
  }

  /** Unhooking the node between `a` and `b`: only the last link of `a` changes. */
  lemma RunRemove<T>(nodes: seq<Linked<T>>, nodes': seq<Linked<T>>, head: int, a: seq<int>, n: int, b: seq<int>,
                     end: int)
    requires Run(nodes, head, a + ([n] + b), end) && end !in a + ([n] + b) && |nodes'| == |nodes|
    requires 0 <= n < |nodes| && (a != [] ==> 0 <= Last(a) < |nodes| && nodes'[Last(a)].next == nodes[n].next)
    requires forall m | ((m in a && m != Last(a)) || m in b) && 0 <= m < |nodes| :: nodes'[m].next == nodes[m].next
    ensures Run(nodes', if a == [] then nodes[n].next else head, a + b, end) && end !in a + b
    ensures Distinct(a + b) && n !in a + b && (if b == [] then nodes[n].next == end else nodes[n].next == b[0])
  {
    hide Run, Distinct;
    var list := a + ([n] + b);
    RunRange(nodes, head, list, end);
    assert forall m | m in a || m in b :: m in list;
    RunDistinct(nodes, head, list, end);
    DistinctMiddle(a, n, b);
    RunSplit(nodes, head, a, [n] + b, end);
    RunSplit(nodes, n, [n], b, end);
    var next := nodes[n].next;
    RunOne(nodes, n, if b == [] then end else b[0]);
    assert a != [] ==> Last(a) in a;
    RunFrame(nodes, nodes', next, b, end);
    if a == [] {
      assert a + b == b;
    } else {
      RunRelink(nodes, nodes', head, a, n, next);
      RunJoin(nodes', head, a, next, b, end);
    }
  }

  /** Hooking a node in between `a` and `b`. */
  lemma RunInsert<T>(nodes: seq<Linked<T>>, nodes': seq<Linked<T>>, head: int, a: seq<int>, n: int, b: seq<int>,
                     end: int)
    requires Run(nodes, head, a + b, end) && end !in a + b && |nodes'| == |nodes| && n !in a + b && n != end
    requires 0 <= n < |nodes| && nodes'[n].next == if b == [] then end else b[0]
    requires a != [] ==> 0 <= Last(a) < |nodes| && nodes'[Last(a)].next == n
    requires forall m | ((m in a && m != Last(a)) || m in b) && 0 <= m < |nodes| :: nodes'[m].next == nodes[m].next
    ensures Run(nodes', if a == [] then n else head, a + ([n] + b), end) && end !in a + ([n] + b)
  {
    hide Run, Distinct;
    RunRange(nodes, head, a + b, end);
    assert forall m | m in a || m in b :: m in a + b;
    RunDistinct(nodes, head, a + b, end);
    DistinctParts(a, b);
    RunSplit(nodes, head, a, b, end);
    var after := if b == [] then end else b[0];
    assert a != [] ==> Last(a) in a;
    RunFrame(nodes, nodes', after, b, end);
    RunOfOne(nodes', n, after);
    RunJoin(nodes', n, [n], after, b, end);
    if a == [] {
      assert a + ([n] + b) == [n] + b;
    } else {
      RunRelink(nodes, nodes', head, a, after, n);
      RunJoin(nodes', head, a, n, [n] + b, end);
    }
  }

  lemma RunOfOne<T>(nodes: seq<Linked<T>>, n: int, end: int)
    requires 0 <= n < |nodes| && nodes[n].next == end
    ensures Run(nodes, n, [n], end)
  {
  }

  /** Replacing one node of a list by a list of others, with two links changed. */
  lemma SpliceRun<T>(nodes: seq<Linked<T>>, first: int, done: seq<int>, at: int, after: seq<int>, head: int,
                     parts: seq<int>)
    requires Run(nodes, first, done + ([at] + after), NIL) && Run(nodes, head, parts, NIL)
    requires Apart(parts, done + ([at] + after)) && 0 <= at < |nodes|
    ensures var next := First(after);
            var link := if parts == [] then next else head;
            && nodes[at].next == next
            && Run(Relinked(Relinked(nodes, done, link), parts, next), if done == [] then link else first,
                   done + parts + after, NIL)
  {
    var next := First(after);
    var link := if parts == [] then next else head;
    var first' := if done == [] then link else first;
    var mid := Relinked(nodes, done, link);
    var end := Relinked(mid, parts, next);
    RunDistinct(nodes, first, done + ([at] + after), NIL);
    RunDistinct(nodes, head, parts, NIL);
    DistinctParts(done, [at] + after);
    assert Apart(parts, done) && Apart(parts, after) by {
      assert forall n | n in parts :: n !in done + ([at] + after);
    }
    RunSplit(nodes, first, done, [at] + after, NIL);
    RunSplit(nodes, at, [at], after, NIL);
    if done != [] {
      RunRelink(nodes, mid, first, done, at, link);
      RunFrame(mid, end, first, done, link);
    }
    assert forall n | n in after :: n !in done by {
      assert forall n | n in after :: n in [at] + after;
    }
    RunFrame(nodes, end, next, after, NIL);
    if parts != [] {
      RunFrame(nodes, mid, head, parts, NIL);
      RunRelink(mid, end, head, parts, NIL, next);
    }
    RunJoin(end, first', done, link, parts, next);
    RunJoin(end, first', done + parts, next, after, NIL);
  }

  lemma DistinctParts(a: seq<int>, b: seq<int>)
    requires Distinct(a + b)
    ensures Distinct(a) && Distinct(b) && Apart(a, b)
  {
    var ab := a + b;
    assert forall i | 0 <= i < |a| :: ab[i] == a[i];
    assert forall i | 0 <= i < |b| :: ab[|a| + i] == b[i];
  }

  /** Pieces built from free nodes stay clear of a list that was clear of the free nodes. */
  lemma StripsApart(list: seq<int>, free: seq<int>, parts: seq<int>, free': seq<int>)
    requires Apart(list, free) && Elems(parts) + Elems(free') == Elems(free)
    ensures Apart(parts, list) && Apart(list, free')
  {
    forall n | n in parts || n in free'
      ensures n in free
    {
      assert n in Elems(parts) + Elems(free');
    }
  }

  lemma ElemsConcat(a: seq<int>, b: seq<int>)
    ensures Elems(a + b) == Elems(a) + Elems(b)
  {
  }

  lemma ReplaceStock(done: seq<int>, at: int, after: seq<int>, free: seq<int>, parts: seq<int>, free': seq<int>)
    requires Elems(parts) + Elems(free') == Elems(free)
    ensures Elems(done + parts + after) + Elems([at] + free') == Elems(done + ([at] + after)) + Elems(free)
  {
    ElemsConcat(done + parts, after);
    ElemsConcat(done, parts);
    ElemsConcat(done, [at] + after);
    ElemsConcat([at], after);
    ElemsConcat([at], free');
  }

  lemma ReplaceApart<T>(nodes: seq<Linked<T>>, first: int, done: seq<int>, at: int, after: seq<int>, free: seq<int>,
                     parts: seq<int>)
    requires Run(nodes, first, done + ([at] + after), NIL)
    requires Apart(done + ([at] + after), free) && Apart(parts, done + ([at] + after)) && Apart(parts, free)
    ensures Apart(done + parts, free) && at !in free && at !in done + parts + after
    ensures Apart(done + parts + after, [at] + free)
  {
    var list := done + ([at] + after);
    assert list[|done|] == at;
    assert forall n | n in after :: n in list && n != at by {
      RunDistinct(nodes, first, list, NIL);
      assert forall i | 0 <= i < |after| :: after[i] == list[|done| + 1 + i];
    }
    assert forall n | n in done :: n in list && n != at by {
      RunDistinct(nodes, first, list, NIL);
      assert forall i | 0 <= i < |done| :: done[i] == list[i];
    }
  }

  lemma DistinctJoin(a: seq<int>, b: seq<int>)
    requires Distinct(a) && Distinct(b) && Apart(a, b)
    ensures Distinct(a + b)
  {
    forall i, j | 0 <= i < j < |a + b|
      ensures (a + b)[i] != (a + b)[j]
    {
      if i < |a| <= j {
        assert a[i] in a && b[j - |a|] in b;
      }
    }
  }

  lemma DistinctMiddle(a: seq<int>, n: int, b: seq<int>)
    requires Distinct(a + ([n] + b))
    ensures Distinct(a) && Distinct(b) && Distinct(a + b) && Apart(a, b) && n !in a && n !in b
  {
    DistinctParts(a, [n] + b);
    DistinctParts([n], b);
    assert n in [n] + b && n in [n];
    assert forall m | m in b :: m in [n] + b;
    DistinctJoin(a, b);
  }

  /** Distinct numbers below a bound are no more than that bound. */
  lemma {:induction false} DistinctBound(list: seq<int>, low: int, high: int)
    requires Distinct(list) && low <= high && forall i | 0 <= i < |list| :: low <= list[i] < high
    ensures |list| <= high - low
    decreases high - low
  {
    if list != [] {
      if high - 1 in list {
        var k :| 0 <= k < |list| && list[k] == high - 1;
        var rest := list[..k] + list[k + 1..];
        assert forall i | 0 <= i < |rest| :: rest[i] == list[if i < k then i else i + 1];
        DistinctBound(rest, low, high - 1);
      } else {
        assert low <= list[0] < high;
        DistinctBound(list, low, high - 1);
      }
    }
  }

  // Taking one element out

  /** `order` with its one occurrence of `handle` taken out. */
  ghost function Minus(order: seq<int>, handle: int): seq<int> {
    if order == [] then []
    else if order[0] == handle then order[1..]
    else [order[0]] + Minus(order[1..], handle)
  }

  lemma {:induction false} MinusAt(order: seq<int>, k: nat)
    requires k < |order| && forall i | 0 <= i < k :: order[i] != order[k]
    ensures Minus(order, order[k]) == order[..k] + order[k + 1..]
  {
    if k > 0 {
      var rest := order[1..];
      assert rest[k - 1] == order[k] && forall i | 0 <= i < k - 1 :: rest[i] == order[i + 1];
      MinusAt(rest, k - 1);
      assert order[..k] == [order[0]] + rest[..k - 1] && order[k + 1..] == rest[k..];
    } else {
      assert order[..0] + order[1..] == order[1..];
    }
  }

  lemma MinusLast(order: seq<int>, handle: int)
    requires handle !in order
    ensures Minus(order + [handle], handle) == order
  {
    var k := |order|;
    MinusAt(order + [handle], k);
    assert (order + [handle])[..k] + (order + [handle])[k + 1..] == order;
  }

  lemma MinusAbsent(order: seq<int>, handle: int)
    requires handle !in order
    ensures Minus(order, handle) == order
  {
  }

  lemma MinusGone(order: seq<int>, handle: int)
    requires Distinct(order)
    ensures handle !in Minus(order, handle)
    ensures forall h :: h in Minus(order, handle) <==> h in order && h != handle
  {
    if order != [] {
      assert order == [order[0]] + order[1..];
      DistinctParts([order[0]], order[1..]);
      assert order[0] in [order[0]];
      MinusGone(order[1..], handle);
    }
  }

  lemma MinusDistinct(order: seq<int>, handle: int)
    requires Distinct(order)
    ensures Distinct(Minus(order, handle))
  {
    if order != [] && order[0] != handle {
      MinusDistinct(order[1..], handle);
      MinusGone(order[1..], handle);
      DistinctJoin([order[0]], Minus(order[1..], handle));
    }
  }

  lemma MinusSnoc(order: seq<int>, last: int, handle: int)
    ensures Minus(order + [last], handle)
         == if last == handle && handle !in order then order else Minus(order, handle) + [last]
  {
    if order == [] {
      assert [last] + [] == [last];
    } else {
      assert (order + [last])[1..] == order[1..] + [last];
      MinusSnoc(order[1..], last, handle);
      if order[0] != handle && handle !in order {
        assert [order[0]] + order[1..] == order;
      }
    }
  }
}
