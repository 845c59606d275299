/** Lists of menu titles or items: which can be picked, and stepping through those. */
module MenuItems {
  import opened Links
  import opened WordMath

  /** A state word: the SELECTED and DISABLED bits, and the rest. */
  datatype Mark = Mark(selected: bool, disabled: bool, other: int)

  function MarkAt(marks: seq<Mark>, i: int): Mark {
    if 0 <= i < |marks| then marks[i] else Mark(false, true, 0)
  }

  /** The items of a list that are not disabled, in order. */
  function Enabled(list: seq<int>, marks: seq<Mark>): (items: seq<int>)
    ensures forall c :: c in items <==> c in list && !MarkAt(marks, c).disabled
  {
    if list == [] then []
    else (if MarkAt(marks, list[0]).disabled then [] else [list[0]]) + Enabled(list[1..], marks)
  }

  lemma {:induction false} EnabledDistinct(list: seq<int>, marks: seq<Mark>)
    requires Distinct(list)
    ensures Distinct(Enabled(list, marks))
  {
    if list != [] {
      assert list == [list[0]] + list[1..];
      DistinctParts([list[0]], list[1..]);
      EnabledDistinct(list[1..], marks);
      assert list[0] in [list[0]];
      DistinctJoin([list[0]], Enabled(list[1..], marks));
    }
  }

  lemma {:induction false} EnabledSnoc(list: seq<int>, c: int, marks: seq<Mark>)
    ensures Enabled(list + [c], marks) == Enabled(list, marks) + if MarkAt(marks, c).disabled then [] else [c]
  {
    if list == [] {
      assert list + [c] == [c] && [c][1..] == [];
    } else {
      assert (list + [c])[1..] == list[1..] + [c];
      EnabledSnoc(list[1..], c, marks);
    }
  }

  /** The first place of an element in a list. */
  ghost function Place(list: seq<int>, c: int): nat
    requires c in list
    ensures Place(list, c) < |list| && list[Place(list, c)] == c
  {
    if list[0] == c then 0 else 1 + Place(list[1..], c)
  }

  /** The element after c, going round; the first one when c is not in the list. */
  ghost function After(items: seq<int>, c: int): int {
    if items == [] then NIL
    else if c in items && Place(items, c) + 1 < |items| then items[Place(items, c) + 1]
    else items[0]
  }

  /** The element before c, going round; the last one when c is not in the list. */
  ghost function Before(items: seq<int>, c: int): int {
    if items == [] then NIL
    else if c in items && Place(items, c) > 0 then items[Place(items, c) - 1]
    else items[|items| - 1]
  }

  lemma PlaceIs(items: seq<int>, k: nat)
    requires Distinct(items) && k < |items|
    ensures items[k] in items && Place(items, items[k]) == k
  {
  }

  /** Stepping forward and back are inverse, and each reaches a pickable item. */
  lemma StepsInverse(list: seq<int>, marks: seq<Mark>, c: int)
    requires Distinct(list) && c in Enabled(list, marks)
    ensures var items := Enabled(list, marks);
            && After(items, c) in items && Before(items, c) in items
            && Before(items, After(items, c)) == c && After(items, Before(items, c)) == c
  {
    var items := Enabled(list, marks);
    EnabledDistinct(list, marks);
    var k := Place(items, c);
    var n := |items|;
    PlaceIs(items, if k + 1 < n then k + 1 else 0);
    PlaceIs(items, if k > 0 then k - 1 else n - 1);
    PlaceIs(items, k);
    PlaceIs(items, 0);
    PlaceIs(items, n - 1);
  }

  /** Stepping forward n times from an item reaches the n-th item on, going round. */
  ghost function AfterMany(items: seq<int>, c: int, n: nat): int {
    if n == 0 then c else After(items, AfterMany(items, c, n - 1))
  }

  lemma {:induction false} StepsGoRound(list: seq<int>, marks: seq<Mark>, c: int, n: nat)
    requires Distinct(list) && c in Enabled(list, marks)
    ensures var items := Enabled(list, marks);
            AfterMany(items, c, n) == items[(Place(items, c) + n) % |items|]
  {
    hide Enabled, Place;
    var items := Enabled(list, marks);
    EnabledDistinct(list, marks);
    var k := Place(items, c);
    RoundStart(k, |items|);
    if n > 0 {
      StepsGoRound(list, marks, c, n - 1);
      var j := (k + n - 1) % |items|;
      PlaceIs(items, j);
      RoundStep(k + n - 1, |items|);
    }
  }

  lemma RoundStart(k: nat, n: nat)
    requires k < n
    ensures k % n == k
  {
  }

  lemma RoundStep(a: nat, n: nat)
    requires n > 0
    ensures (a + 1) % n == if a % n + 1 < n then a % n + 1 else 0
  {
    var (q, r) := (a / n, a % n);
    assert a == q * n + r;
    if r + 1 < n {
      DivideDone(a + 1, q, n, r + 1);
    } else {
      assert (q + 1) * n == q * n + n;
      DivideDone(a + 1, q + 1, n, 0);
    }
  }

  /** What a walk along a list has seen after k elements: the first and the last pickable item, and on the way back the
      one before the current item. On the way forward the item after the current one has not come yet. */
  ghost predicate Walked(list: seq<int>, marks: seq<Mark>, k: nat, current: int, forward: bool, first: int,
                         previous: int, before: int)
  {
    && k <= |list|
    && var items := Enabled(list[..k], marks);
    && first == (if items == [] then NIL else items[0])
    && previous == (if items == [] then NIL else items[|items| - 1])
    && (!forward ==>
          before == if current in items && Place(items, current) > 0 then items[Place(items, current) - 1] else NIL)
    && (forward && current in items ==> current == previous)
  }

  lemma WalkStart(list: seq<int>, marks: seq<Mark>, current: int, forward: bool)
    ensures Walked(list, marks, 0, current, forward, NIL, NIL, NIL)
  {
    assert list[..0] == [];
  }

  lemma PlaceSnoc(items: seq<int>, c: int, d: int)
    ensures c in items ==> c in items + [d] && Place(items + [d], c) == Place(items, c)
    ensures c !in items ==> d in items + [d] && (c == d ==> Place(items + [d], c) == |items|)
  {
    if items != [] {
      assert (items + [d])[1..] == items[1..] + [d];
      PlaceSnoc(items[1..], c, d);
    }
  }

  lemma WalkStep(list: seq<int>, marks: seq<Mark>, k: nat, current: int, forward: bool, first: int, previous: int,
                 before: int)
    requires Walked(list, marks, k, current, forward, first, previous, before) && k < |list| && Distinct(list)
    requires forall i | 0 <= i < |list| :: list[i] >= 0
    ensures var item := list[k];
            if MarkAt(marks, item).disabled then Walked(list, marks, k + 1, current, forward, first, previous, before)
            else if forward && previous == current then item == After(Enabled(list, marks), current)
            else Walked(list, marks, k + 1, current, forward, if first == NIL then item else first, item,
                        if !forward && item == current then previous else before)
  {
    hide Enabled, Distinct, After, Walked;
    if MarkAt(marks, list[k]).disabled {
      WalkSkip(list, marks, k, current, forward, first, previous, before);
    } else if forward && previous == current {
      WalkFound(list, marks, k, current, forward, first, previous, before);
    } else {
      WalkPass(list, marks, k, current, forward, first, previous, before);
    }
  }

  lemma WalkSkip(list: seq<int>, marks: seq<Mark>, k: nat, current: int, forward: bool, first: int, previous: int,
                 before: int)
    requires Walked(list, marks, k, current, forward, first, previous, before) && k < |list|
    requires MarkAt(marks, list[k]).disabled
    ensures Walked(list, marks, k + 1, current, forward, first, previous, before)
  {
    hide Enabled, Place;
    var items := Enabled(list[..k], marks);
    assert list[..k + 1] == list[..k] + [list[k]] && items + [] == items;
    EnabledSnoc(list[..k], list[k], marks);
  }

  lemma WalkPass(list: seq<int>, marks: seq<Mark>, k: nat, current: int, forward: bool, first: int, previous: int,
                 before: int)
    requires Walked(list, marks, k, current, forward, first, previous, before) && k < |list| && Distinct(list)
    requires !MarkAt(marks, list[k]).disabled && !(forward && previous == current)
    requires forall i | 0 <= i < |list| :: list[i] >= 0
    ensures Walked(list, marks, k + 1, current, forward, if first == NIL then list[k] else first, list[k],
                   if !forward && list[k] == current then previous else before)
  {
    hide Enabled, Distinct, Place;
    var (items, item) := (Enabled(list[..k], marks), list[k]);
    assert list[..k + 1] == list[..k] + [item];
    EnabledSnoc(list[..k], item, marks);
    NotYet(list, k);
    PlaceSnoc(items, current, item);
    assert items != [] ==> items[0] in items;
    assert item !in items;
    assert forall c | c in items :: c >= 0;
  }

  lemma NotYet(list: seq<int>, k: nat)
    requires Distinct(list) && k < |list|
    ensures list[k] !in list[..k]
  {
  }

  /** The first pickable item behind the current one is the one after it. */
  lemma WalkFound(list: seq<int>, marks: seq<Mark>, k: nat, current: int, forward: bool, first: int, previous: int,
                  before: int)
    requires Walked(list, marks, k, current, forward, first, previous, before) && previous == current
    requires k < |list| && Distinct(list) && !MarkAt(marks, list[k]).disabled
    requires forall i | 0 <= i < |list| :: list[i] >= 0
    ensures After(Enabled(list, marks), current) == list[k]
  {
    hide Enabled, Place, Distinct;
    var (items, all) := (Enabled(list[..k], marks), Enabled(list, marks));
    EnabledParts(list, k, marks);
    EnabledDistinct(list, marks);
    FirstEnabled(list, k, marks);
    assert all[|items|] == list[k];
    assert forall c | c in all :: c >= 0;
    if items != [] {
      assert all[|items| - 1] == current;
      PlaceIs(all, |items| - 1);
    }
  }

  lemma FirstEnabled(list: seq<int>, k: nat, marks: seq<Mark>)
    requires k < |list| && !MarkAt(marks, list[k]).disabled
    ensures Enabled(list[k..], marks) != [] && Enabled(list[k..], marks)[0] == list[k]
  {
    assert list[k..][0] == list[k];
  }

  lemma {:induction false} EnabledParts(list: seq<int>, k: nat, marks: seq<Mark>)
    requires k <= |list|
    ensures Enabled(list, marks) == Enabled(list[..k], marks) + Enabled(list[k..], marks)
  {
    if k > 0 {
      EnabledParts(list[1..], k - 1, marks);
      assert list[1..][..k - 1] == list[..k][1..] && list[1..][k - 1..] == list[k..];
    } else {
      assert list[..0] == [] && list[0..] == list;
    }
  }

  lemma WalkEnd(list: seq<int>, marks: seq<Mark>, current: int, forward: bool, first: int, previous: int, before: int)
    requires Walked(list, marks, |list|, current, forward, first, previous, before) && Distinct(list)
    requires forall i | 0 <= i < |list| :: list[i] >= 0
    ensures var items := Enabled(list, marks);
            && (forward ==> first == After(items, current))
            && (!forward ==> (if current == NIL || before == NIL then previous else before) == Before(items, current))
  {
    assert list[..|list|] == list;
    EnabledDistinct(list, marks);
    var items := Enabled(list, marks);
    assert forall c | c in items :: c >= 0;
    if items != [] {
      PlaceIs(items, |items| - 1);
      assert current in items && Place(items, current) > 0 ==> items[Place(items, current) - 1] in items;
    }
  }

  /** Finds the next or the previous pickable item of a list, going round. */
  method ListFind(list: seq<int>, marks: array<Mark>, current: int, forward: bool) returns (found: int)
    requires Distinct(list) && forall i | 0 <= i < |list| :: 0 <= list[i] < marks.Length
    ensures found == if forward then After(Enabled(list, marks[..]), current)
            else Before(Enabled(list, marks[..]), current)
  {
    hide Enabled, After, Before, Distinct, Walked;
    ghost var state := marks[..];
    var first, previous, before := NIL, NIL, NIL;
    var k := 0;
    WalkStart(list, state, current, forward);
    while k < |list|
      invariant 0 <= k <= |list| && Walked(list, state, k, current, forward, first, previous, before)
    {
      var item := list[k];
      WalkStep(list, state, k, current, forward, first, previous, before);
      if !marks[item].disabled {
        if first == NIL {
          first := item;
        }
        if forward && previous == current {
          return item;
        }
        if !forward && item == current {
          before := previous;
        }
        previous := item;
      }
      k := k + 1;
    }
    WalkEnd(list, state, current, forward, first, previous, before);
    found := if forward then first else if current == NIL || before == NIL then previous else before;
  }
}
