/** The parked-request slots in place: first-in first-out lists threaded through the slots' own links. */
module Pending {
  import opened Departure
  import opened Links
  import opened Mail
  import opened Parking

  /** Both ends of a list of channel numbers, NIL when empty. */
  datatype Ends = Ends(head: int, tail: int)

  type Nodes = seq<Linked<Parked>>

  ghost predicate Thread(nodes: Nodes, e: Ends, list: seq<int>) {
    Run(nodes, e.head, list, NIL) && e.tail == Last(list)
  }

  /** Each list is threaded, and no slot is on two of them. */
  ghost predicate Threads(nodes: Nodes, ends: seq<Ends>, fifos: seq<seq<int>>) {
    && |nodes| == CHANNELS && |ends| == |fifos| == LISTS
    && (forall l | 0 <= l < LISTS :: Thread(nodes, ends[l], fifos[l]))
    && (forall k, l | 0 <= k < l < LISTS :: Apart(fifos[k], fifos[l]))
  }

  /** The slot is on no list. */
  ghost predicate Loose(fifos: seq<seq<int>>, c: int) {
    forall l | 0 <= l < |fifos| :: c !in fifos[l]
  }

  lemma ThreadsParts(nodes: Nodes, ends: seq<Ends>, fifos: seq<seq<int>>, l: int)
    requires Threads(nodes, ends, fifos) && 0 <= l < LISTS
    ensures |nodes| == CHANNELS && |ends| == |fifos| == LISTS && Thread(nodes, ends[l], fifos[l])
    ensures Distinct(fifos[l]) && forall i | 0 <= i < |fifos[l]| :: Channel(fifos[l][i])
    ensures forall k | 0 <= k < LISTS && k != l :: Apart(fifos[k], fifos[l])
  {
    RunDistinct(nodes, ends[l].head, fifos[l], NIL);
    forall k | 0 <= k < LISTS && k != l
      ensures Apart(fifos[k], fifos[l])
    {
      assert Apart(fifos[if k < l then k else l], fifos[if k < l then l else k]);
    }
  }

  /** Work on one list, and on loose slots, leaves all other lists threaded. */
  lemma ThreadsChange(nodes: Nodes, ends: seq<Ends>, fifos: seq<seq<int>>, l: int, nodes': Nodes, e: Ends,
                      list: seq<int>)
    requires Threads(nodes, ends, fifos) && 0 <= l < LISTS && |nodes'| == |nodes| && Thread(nodes', e, list)
    requires forall n | n in list && n !in fifos[l] :: Loose(fifos, n)
    requires forall n | 0 <= n < CHANNELS && n !in fifos[l] && !Loose(fifos, n) :: nodes'[n].next == nodes[n].next
    ensures Threads(nodes', ends[l := e], fifos[l := list])
  {
    ThreadsParts(nodes, ends, fifos, l);
    forall k | 0 <= k < LISTS && k != l
      ensures Thread(nodes', ends[k], fifos[k]) && Apart(fifos[k], list) && Apart(list, fifos[k])
    {
      ThreadsParts(nodes, ends, fifos, k);
      forall n | n in fifos[k]
        ensures nodes'[n].next == nodes[n].next && n !in list
      {
        assert !Loose(fifos, n) && n !in fifos[l];
      }
      RunFrame(nodes, nodes', ends[k].head, fifos[k], NIL);
    }
  }

  /** A loose slot at the end of a list. */
  lemma ThreadAppend(nodes: Nodes, nodes': Nodes, e: Ends, list: seq<int>, c: int)
    requires Thread(nodes, e, list) && Distinct(list) && c !in list && 0 <= c < |nodes| == |nodes'|
    requires nodes'[c].next == NIL && (list != [] ==> nodes'[e.tail].next == c)
    requires forall n | n in list && n != e.tail :: nodes'[n].next == nodes[n].next
    ensures Thread(nodes', Ends(if list == [] then c else e.head, c), list + [c])
  {
    if list != [] {
      RunRelink(nodes, nodes', e.head, list, NIL, c);
      RunJoin(nodes', e.head, list, c, [c], NIL);
    }
  }

  /** A list with the slot behind `a` taken out. */
  lemma ThreadRemove(nodes: Nodes, nodes': Nodes, e: Ends, a: seq<int>, c: int, b: seq<int>)
    requires Thread(nodes, e, a + ([c] + b)) && |nodes'| == |nodes| && 0 <= c < |nodes|
    requires a != [] ==> 0 <= Last(a) < |nodes| && nodes'[Last(a)].next == nodes[c].next
    requires forall n | ((n in a && n != Last(a)) || n in b) && 0 <= n < |nodes| :: nodes'[n].next == nodes[n].next
    ensures Thread(nodes', Ends(if a == [] then nodes[c].next else e.head, if b == [] then Last(a) else e.tail), a + b)
  {
    hide Run;
    RunRange(nodes, e.head, a + ([c] + b), NIL);
    assert NIL !in a + ([c] + b);
    RunRemove(nodes, nodes', e.head, a, c, b, NIL);
    LastOf(a, c, b);
  }

  lemma PopThread(nodes: Nodes, nodes': Nodes, e: Ends, list: seq<int>)
    requires Thread(nodes, e, list) && list != [] && 0 <= list[0] < |nodes| == |nodes'|
             && nodes' == nodes[list[0] := nodes'[list[0]]]
    ensures var next := nodes[list[0]].next; Thread(nodes', Ends(next, if next == NIL then NIL else e.tail), list[1..])
  {
    RunDistinct(nodes, e.head, list, NIL);
    var (c, b) := (list[0], list[1..]);
    assert list == [] + ([c] + b) && [] + b == b;
    DistinctMiddle([], c, b);
    ThreadRemove(nodes, nodes', e, [], c, b);
  }

  lemma LastOf(a: seq<int>, c: int, b: seq<int>)
    ensures Last(a + ([c] + b)) == if b == [] then c else Last(b)
    ensures Last(a + b) == if b == [] then Last(a) else Last(b)
    ensures a != [] ==> Last(a) in a
  {
    assert b == [] ==> a + b == a;
  }

  lemma ThreadFirst(nodes: Nodes, e: Ends, list: seq<int>)
    requires Thread(nodes, e, list)
    ensures e.head == First(list[0..])
  {
  }

  lemma ThreadNext(nodes: Nodes, e: Ends, list: seq<int>, k: nat)
    requires Thread(nodes, e, list) && k < |list|
    ensures First(list[k..]) == list[k] && 0 <= list[k] < |nodes| && nodes[list[k]].next == First(list[k + 1..])
  {
  }

  lemma ThreadDone(nodes: Nodes, e: Ends, list: seq<int>, k: nat)
    requires Thread(nodes, e, list) && k <= |list| && First(list[k..]) == NIL
    ensures k == |list|
  {
  }

  class Slots {
    const slots: array<Linked<Parked>>
    const ends: array<Ends>
    ghost var fifos: seq<seq<int>>
    ghost var tickets: seq<nat>
    ghost var askers: seq<int>
    ghost var replies: seq<Receipt>
    ghost var cancelled: set<nat>

    ghost predicate Valid()
      reads this, slots, ends
    {
      Threads(slots[..], ends[..], fifos)
    }

    /** The slots and lists, and their history, as a value. */
    ghost function State(): (f: Filing)
      reads this, slots
    {
      Filing(Records(slots[..]), fifos, tickets, askers, replies, cancelled)
    }

    constructor ()
      ensures Valid() && fresh(slots) && fresh(ends)
      ensures State() == Filing(seq(CHANNELS, _ => VACANT), seq(LISTS, _ => []), seq(CHANNELS, _ => 0), [], [], {})
    {
      slots := new Linked<Parked>[CHANNELS](_ => Linked(NIL, VACANT));
      ends := new Ends[LISTS](_ => Ends(NIL, NIL));
      fifos, tickets, askers := seq(LISTS, _ => []), seq(CHANNELS, _ => 0), [];
      replies, cancelled := [], {};
      new;
      assert Records(slots[..]) == seq(CHANNELS, _ => VACANT);
    }

    method Append(l: int, c: int)
      requires Valid() && 0 <= l < LISTS && Channel(c) && Loose(fifos, c)
      modifies this`fifos, slots, ends
      ensures Valid() && fifos == old(fifos)[l := old(fifos)[l] + [c]] && Records(slots[..]) == old(Records(slots[..]))
    {
      ghost var (nodes, es) := (slots[..], ends[..]);
      ThreadsParts(nodes, es, fifos, l);
      slots[c] := slots[c].(next := NIL);
      if ends[l].tail != NIL {
        slots[ends[l].tail] := slots[ends[l].tail].(next := c);
      } else {
        ends[l] := ends[l].(head := c);
      }
      ends[l] := ends[l].(tail := c);
      ThreadAppend(nodes, slots[..], es[l], fifos[l], c);
      ThreadsChange(nodes, es, fifos, l, slots[..], ends[l], fifos[l] + [c]);
      assert ends[..] == es[l := ends[l]];
      fifos := fifos[l := fifos[l] + [c]];
    }

    /** Takes the oldest slot off a list. */
    method Pop(l: int) returns (c: int)
      requires Valid() && 0 <= l < LISTS
      modifies this`fifos, slots, ends
      ensures Valid() && |fifos| == |old(fifos)| == LISTS
      ensures Records(slots[..]) == old(Records(slots[..]))
      ensures c == NIL ==> old(fifos)[l] == [] && fifos == old(fifos)
      ensures c != NIL ==> Channel(c) && old(fifos)[l] == [c] + fifos[l] && fifos == old(fifos)[l := fifos[l]]
    {
      hide Threads, Run, Distinct, Apart;
      ThreadsParts(slots[..], ends[..], fifos, l);
      ghost var (nodes, es, list) := (slots[..], ends[..], fifos[l]);
      ThreadFirst(nodes, es[l], list);
      c := ends[l].head;
      if c == NIL {
        ThreadDone(nodes, es[l], list, 0);
        return;
      }
      ThreadNext(nodes, es[l], list, 0);
      ends[l] := ends[l].(head := slots[c].next);
      if ends[l].head == NIL {
        ends[l] := ends[l].(tail := NIL);
      }
      slots[c] := slots[c].(next := NIL);
      PopThread(nodes, slots[..], es[l], list);
      assert forall n | n in list[1..] :: n in list;
      ThreadsChange(nodes, es, fifos, l, slots[..], ends[l], list[1..]);
      assert ends[..] == es[l := ends[l]];
      fifos := fifos[l := list[1..]];
    }

    /** Takes a slot off a list, wherever it stands; nothing happens when it is not there. */
    method Remove(l: int, c: int)
      requires Valid() && 0 <= l < LISTS
      modifies this`fifos, slots, ends
      ensures Valid() && |old(fifos)| == LISTS
      ensures Records(slots[..]) == old(Records(slots[..])) && fifos == old(fifos)[l := Minus(old(fifos)[l], c)]
    {
      hide Threads, Run, Records;
      ThreadsParts(slots[..], ends[..], fifos, l);
      ghost var (nodes, list) := (slots[..], fifos[l]);
      ThreadFirst(nodes, ends[l], list);
      var previous, current := NIL, ends[l].head;
      ghost var k := 0;
      while current != NIL && current != c
        modifies {}
        invariant 0 <= k <= |list| && current == First(list[k..]) && previous == Last(list[..k])
        invariant c !in list[..k] && slots[..] == nodes
        decreases |list| - k
      {
        ThreadNext(nodes, ends[l], list, k);
        previous, current := current, slots[current].next;
        assert list[..k + 1] == list[..k] + [list[k]];
        k := k + 1;
      }
      if current == NIL {
        ThreadDone(nodes, ends[l], list, k);
        assert list[..k] == list;
        MinusAbsent(list, c);
        assert fifos == fifos[l := list];
      } else {
        ThreadNext(nodes, ends[l], list, k);
        assert list == list[..k] + ([c] + list[k + 1..]);
        MinusAt(list, k);
        Unlink(l, previous, c, list[..k], list[k + 1..]);
      }
    }

    method Unlink(l: int, previous: int, c: int, ghost a: seq<int>, ghost b: seq<int>)
      requires Valid() && 0 <= l < LISTS && |fifos| == LISTS && fifos[l] == a + ([c] + b) && previous == Last(a)
      modifies this`fifos, slots, ends
      ensures Valid() && Records(slots[..]) == old(Records(slots[..])) && fifos == old(fifos)[l := a + b]
    {
      hide Run, Distinct, Threads, Apart;
      ghost var (nodes, es) := (slots[..], ends[..]);
      ThreadsParts(nodes, es, fifos, l);
      assert fifos[l][|a|] == c && (a != [] ==> fifos[l][|a| - 1] == Last(a));
      DistinctMiddle(a, c, b);
      var next := slots[c].next;
      if previous == NIL {
        ends[l] := ends[l].(head := next);
      } else {
        slots[previous] := slots[previous].(next := next);
      }
      if ends[l].tail == c {
        ends[l] := ends[l].(tail := previous);
      }
      slots[c] := slots[c].(next := NIL);
      assert (b == [] <==> es[l].tail == c) by {
        assert fifos[l][|fifos[l]| - 1] == if b == [] then c else b[|b| - 1];
      }
      ThreadRemove(nodes, slots[..], es[l], a, c, b);
      ThreadsChange(nodes, es, fifos, l, slots[..], ends[l], a + b);
      assert ends[..] == es[l := ends[l]];
      fifos := fifos[l := a + b];
    }

    /** Sets up an empty list. */
    method InitList(l: int)
      requires Valid() && 0 <= l < LISTS && Fifo(State(), l) == []
      modifies ends
      ensures Valid() && State() == old(State())
    {
      hide Run;
      ThreadsParts(slots[..], ends[..], fifos, l);
      ghost var es := ends[..];
      ends[l] := Ends(NIL, NIL);
      RunEmpty(slots[..]);
      ThreadsChange(slots[..], es, fifos, l, slots[..], ends[l], []);
      assert ends[..] == es[l := ends[l]] && fifos[l := []] == fifos;
    }

    /** What the head of a list is. */
    lemma HeadNow(l: int)
      requires Valid() && 0 <= l < LISTS
      ensures slots.Length == CHANNELS && ends.Length == LISTS && ends[l].head == Head(State(), l)
      ensures Shaped(State()) || |tickets| != CHANNELS
      ensures ends[l].head != NIL ==> Channel(ends[l].head)
    {
      ThreadsParts(slots[..], ends[..], fifos, l);
    }

    lemma SlotNow(c: int)
      requires Valid() && Channel(c)
      ensures slots.Length == CHANNELS && |fifos| == LISTS && SlotAt(State(), c) == slots[c].data
    {
    }

    /** A slot that is on no list gets its result and goes to the ready list. */
    method Finish(c: int, result: int)
      requires Valid() && Channel(c) && Loose(fifos, c)
      modifies this`fifos, slots, ends
      ensures Valid() && |old(fifos)| == LISTS
      ensures State() == old(State()).(
                slots := Put(old(State()).slots, c, SlotAt(old(State()), c).(phase := Ready, result := result)),
                fifos := old(fifos)[READY_LIST := old(fifos)[READY_LIST] + [c]])
    {
      SlotNow(c);
      SetSlot(c, slots[c].data.(phase := Ready, result := result));
      Append(READY_LIST, c);
    }

    /** Overwrites what a slot says, not where it is filed. */
    method SetSlot(c: int, p: Parked)
      requires Valid() && Channel(c)
      modifies slots
      ensures Valid() && Records(slots[..]) == Put(old(Records(slots[..])), c, p)
    {
      hide Run;
      ThreadsParts(slots[..], ends[..], fifos, 0);
      ghost var nodes := slots[..];
      slots[c] := slots[c].(data := p);
      SameThreads(nodes, slots[..], ends[..], fifos);
    }

    /** Parks a request in a free slot, and on a list when l names one. */
    method Park(c: int, p: Parked, l: int)
      requires Valid() && Filed(State()) && Channel(c) && SlotAt(State(), c).phase == Free && l == Home(p)
      requires l == NIL || 0 <= l < LISTS
      modifies this`fifos, this`tickets, this`askers, slots, ends
      ensures Valid() && State() == Parking.Park(old(State()), c, p)
    {
      hide Run, Threads, Minus;
      ghost var f := State();
      FreeLoose(f, c);
      SetSlot(c, p);
      if l != NIL {
        Append(l, c);
      }
      tickets, askers := Put(tickets, c, |askers|), askers + [c];
      ParkIs(f, c, p);
    }

    /** Empties the slot of a dead client's request, wherever it is filed. */
    method Clear(c: int)
      requires Valid() && Filed(State()) && Channel(c) && Targeted(SlotAt(State(), c), c)
      modifies this`fifos, this`cancelled, slots, ends
      ensures Valid() && State() == Cancel(old(State()), c)
    {
      hide Run, Threads, Minus;
      SlotNow(c);
      ghost var f := State();
      var p := slots[c].data;
      if p.phase != Free {
        Unfile(c, p);
        SetSlot(c, VACANT);
        cancelled := cancelled + {tickets[c]};
        ClearIs(f, c);
      }
    }

    /** Takes a slot off the list its state and operation call for, if any. */
    method Unfile(c: int, p: Parked)
      requires Valid() && Filed(State()) && Channel(c) && p == SlotAt(State(), c) && Targeted(p, c)
      modifies this`fifos, slots, ends
      ensures Valid() && Records(slots[..]) == old(Records(slots[..])) && fifos == Unlisted(old(State()), c)
      ensures Loose(fifos, c)
    {
      hide Run, Threads, Minus;
      ghost var f := State();
      HomeIs(f, c);
      if p.phase == Ready {
        Remove(READY_LIST, c);
      } else if p.phase == Waiting && p.operation == Update {
        Remove(UPDATE_LIST, c);
      } else if p.phase == Waiting && (p.operation == Read || p.operation == Write) {
        Remove(if p.operation == Write then WriteList(p.target) else ReadList(p.target), c);
      }
      UnlistedLoose(f, c);
    }

    /** Fails a parked request, wherever it is filed. */
    method Fail(c: int, result: int)
      requires Valid() && Filed(State()) && Channel(c) && Targeted(SlotAt(State(), c), c)
      modifies this`fifos, slots, ends
      ensures Valid() && State() == Complete(old(State()), c, result)
    {
      hide Run, Threads, Minus;
      SlotNow(c);
      ghost var f := State();
      Unfile(c, slots[c].data);
      Finish(c, result);
      CompleteIs(f, c, result);
    }

    /** Takes the oldest finished request, whose reply is to be sent; NIL when there is none. */
    method TakeReady() returns (c: int, result: int)
      requires Valid() && Filed(State())
      modifies this`fifos, this`replies, slots, ends
      ensures Valid() && c == Head(old(State()), READY_LIST)
      ensures c != NIL ==> result == SlotAt(old(State()), c).result
      ensures State() == Parking.TakeReady(old(State()))
    {
      hide Run, Threads, Minus;
      ghost var f := State();
      HeadNow(READY_LIST);
      c := Pop(READY_LIST);
      result := 0;
      if c != NIL {
        SlotNow(c);
        result := slots[c].data.result;
        SetSlot(c, VACANT);
        replies := replies + [Receipt(tickets[c], c, result)];
        TakeIs(f, c);
      }
    }
  }

  lemma SameThreads(nodes: Nodes, nodes': Nodes, ends: seq<Ends>, fifos: seq<seq<int>>)
    requires Threads(nodes, ends, fifos) && |nodes'| == |nodes|
    requires forall n | 0 <= n < |nodes| :: nodes'[n].next == nodes[n].next
    ensures Threads(nodes', ends, fifos)
  {
    forall l | 0 <= l < LISTS
      ensures Thread(nodes', ends[l], fifos[l])
    {
      RunRange(nodes, ends[l].head, fifos[l], NIL);
      RunFrame(nodes, nodes', ends[l].head, fifos[l], NIL);
    }
  }

  lemma FreeLoose(f: Filing, c: int)
    requires Filed(f) && Channel(c) && SlotAt(f, c).phase == Free
    ensures Loose(f.fifos, c) && Shaped(f)
  {
  }

  /** Which list a slot is on, if any. */
  lemma HomeIs(f: Filing, c: int)
    requires Filed(f) && Channel(c)
    ensures var l := Home(SlotAt(f, c)); l == NIL || 0 <= l < LISTS
    ensures Shaped(f)
  {
    assert Home(f.slots[c]) != NIL ==> FiledAt(f, c);
  }

  lemma UnlistedLoose(f: Filing, c: int)
    requires Filed(f) && Channel(c)
    ensures Loose(Unlisted(f, c), c)
  {
    HomeIs(f, c);
    forall l | 0 <= l < LISTS
      ensures c !in Unlisted(f, c)[l]
    {
      MinusGone(f.fifos[l], c);
    }
  }

  lemma ParkIs(f: Filing, c: int, p: Parked)
    requires Filed(f) && Channel(c) && SlotAt(f, c).phase == Free
    ensures var l := Home(p);
            Parking.Park(f, c, p) == f.(slots := Put(f.slots, c, p), tickets := Put(f.tickets, c, |f.askers|),
                                        askers := f.askers + [c], fifos := Put(f.fifos, l, Fifo(f, l) + [c]))
  {
  }

  lemma ClearIs(f: Filing, c: int)
    requires Shaped(f) && Channel(c) && f.slots[c].phase != Free
    ensures Cancel(f, c) == f.(slots := Put(f.slots, c, VACANT), fifos := Unlisted(f, c),
                               cancelled := f.cancelled + {f.tickets[c]})
  {
  }

  lemma CompleteIs(f: Filing, c: int, result: int)
    requires Shaped(f) && Channel(c)
    ensures var fifos := Unlisted(f, c);
            Complete(f, c, result) == f.(slots := Put(f.slots, c, SlotAt(f, c).(phase := Ready, result := result)),
                                         fifos := fifos[READY_LIST := fifos[READY_LIST] + [c]])
  {
  }

  lemma TakeIs(f: Filing, c: int)
    requires Filed(f) && Channel(c) && Fifo(f, READY_LIST) != [] && c == Fifo(f, READY_LIST)[0]
    ensures Shaped(f)
    ensures Parking.TakeReady(f) == f.(slots := Put(f.slots, c, VACANT),
                                       fifos := f.fifos[READY_LIST := f.fifos[READY_LIST][1..]],
                                       replies := f.replies + [Receipt(f.tickets[c], c, SlotAt(f, c).result)])
  {
    MemberIs(f, c, READY_LIST);
  }

  /** Taking the head off its list and finishing it is what Complete says. */
  lemma HeadComplete(f: Filing, l: int, c: int, result: int)
    requires Filed(f) && 0 <= l < READY_LIST && c == Head(f, l) && c != NIL
    ensures Shaped(f) && Channel(c) && f.fifos[l] == [c] + f.fifos[l][1..] && Loose(f.fifos[l := f.fifos[l][1..]], c)
    ensures Complete(f, c, result)
         == f.(slots := Put(f.slots, c, SlotAt(f, c).(phase := Ready, result := result)),
               fifos := f.fifos[l := f.fifos[l][1..]][READY_LIST := f.fifos[READY_LIST] + [c]])
  {
    hide Filed, Minus;
    HeadIs(f, l);
    UnlistedLoose(f, c);
    MinusHead(f.fifos[l]);
  }

  lemma MinusHead(list: seq<int>)
    requires list != []
    ensures Minus(list, list[0]) == list[1..]
  {
  }

  ghost function Records(nodes: Nodes): (slots: seq<Parked>)
    ensures |slots| == |nodes|
  {
    seq(|nodes|, c requires 0 <= c < |nodes| => nodes[c].data)
  }
}
