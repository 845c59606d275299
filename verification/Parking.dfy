/** Parked requests as values: one slot a channel, and the first-in first-out lists the slots are filed on. */
module Parking {
  import opened Links

  const CHANNELS := 6
  const LISTS := 14
  const UPDATE_LIST := 12
  const READY_LIST := 13

  /** The list of clients that wait to read from, or to write to, the queue of channel q. */
  function ReadList(q: int): int { q }

  function WriteList(q: int): int { CHANNELS + q }

  datatype Operation = Read | Write | Event | Graf | Form | Update

  datatype Phase = Free | Waiting | Ready

  /** One slot. `generation` tells successive clients of a channel apart and only matters to Update. */
  datatype Parked = Parked(phase: Phase, operation: Operation, target: int, buffer: int, length: int, generation: int,
                           result: int)

  const VACANT := Parked(Free, Read, 0, 0, 0, 0, 0)

  /** The list a slot belongs on, NIL for none. */
  function Home(p: Parked): int {
    match p.phase
    case Free => NIL
    case Ready => READY_LIST
    case Waiting =>
      match p.operation
      case Read => ReadList(p.target)
      case Write => WriteList(p.target)
      case Update => UPDATE_LIST
      case _ => NIL
  }

  /** A reply as the server sends it; the ticket is the number of the request it answers, counting deferred ones. */
  datatype Receipt = Receipt(ticket: nat, channel: int, result: int)

  /** The slots and lists, and the history of what was deferred (for which channel, ticket by ticket), answered and
      cancelled. */
  datatype Filing = Filing(slots: seq<Parked>, fifos: seq<seq<int>>, tickets: seq<nat>, askers: seq<int>,
                           replies: seq<Receipt>, cancelled: set<nat>)

  predicate Channel(c: int) {
    0 <= c < CHANNELS
  }

  ghost predicate Shaped(f: Filing) {
    |f.slots| == |f.tickets| == CHANNELS && |f.fifos| == LISTS
  }

  /** Every slot is on exactly the list its state and operation call for. */
  ghost predicate Filed(f: Filing) {
    && Shaped(f)
    && (forall l, c | 0 <= l < LISTS && c in f.fifos[l] :: Channel(c) && Home(f.slots[c]) == l)
    && (forall c | Channel(c) && Home(f.slots[c]) != NIL :: FiledAt(f, c))
    && (forall l | 0 <= l < LISTS :: Distinct(f.fifos[l]))
  }

  ghost predicate FiledAt(f: Filing, c: int)
    requires Shaped(f) && Channel(c)
  {
    0 <= Home(f.slots[c]) < LISTS && c in f.fifos[Home(f.slots[c])]
  }

  /** No slot is on two lists. */
  lemma OneList(f: Filing, c: int, k: int, l: int)
    requires Filed(f) && 0 <= k < LISTS && 0 <= l < LISTS && c in f.fifos[k] && k != l
    ensures c !in f.fifos[l]
  {
    assert Home(f.slots[c]) == k;
  }

  function Put<T>(s: seq<T>, i: int, v: T): (s': seq<T>)
    ensures |s'| == |s|
  {
    if 0 <= i < |s| then s[i := v] else s
  }

  function SlotAt(f: Filing, c: int): Parked {
    if 0 <= c < |f.slots| then f.slots[c] else VACANT
  }

  function Fifo(f: Filing, l: int): seq<int> {
    if 0 <= l < |f.fifos| then f.fifos[l] else []
  }

  ghost function Unlisted(f: Filing, c: int): (fifos: seq<seq<int>>)
    ensures |fifos| == |f.fifos|
  {
    var l := Home(SlotAt(f, c));
    Put(f.fifos, l, Minus(Fifo(f, l), c))
  }

  /** Channel c's slot becomes p: it leaves the list it is on and goes to the end of the one it belongs on. */
  ghost function Refiled(f: Filing, c: int, p: Parked): Filing {
    var g := f.(slots := Put(f.slots, c, p), fifos := Unlisted(f, c));
    g.(fifos := Put(g.fifos, Home(p), Fifo(g, Home(p)) + [c]))
  }

  lemma RefiledLists(f: Filing, c: int, p: Parked, l: int)
    requires Filed(f) && Channel(c) && 0 <= l < LISTS
    ensures var rest := Minus(f.fifos[l], c);
            && |Refiled(f, c, p).fifos| == LISTS
            && Refiled(f, c, p).fifos[l] == (if Home(p) == l then rest + [c] else rest)
            && c !in rest && Distinct(rest) && forall d :: d in rest <==> d in f.fifos[l] && d != c
  {
    MinusGone(f.fifos[l], c);
    MinusDistinct(f.fifos[l], c);
    if Home(f.slots[c]) != l {
      MinusAbsent(f.fifos[l], c);
    }
  }

  /** Refiling keeps the lists right. */
  lemma RefiledFiled(f: Filing, c: int, p: Parked)
    requires Filed(f) && Channel(c) && (Home(p) == NIL || 0 <= Home(p) < LISTS)
    ensures Filed(Refiled(f, c, p))
  {
    hide Minus, Home, Refiled, Distinct;
    var g := Refiled(f, c, p);
    RefiledShape(f, c, p);
    forall l | 0 <= l < LISTS
      ensures Distinct(g.fifos[l])
      ensures forall d :: d in g.fifos[l] <==> Channel(d) && Home(g.slots[d]) == l
    {
      RefiledMembers(f, c, p, l);
    }
  }

  lemma RefiledShape(f: Filing, c: int, p: Parked)
    requires Shaped(f) && Channel(c)
    ensures Shaped(Refiled(f, c, p)) && Refiled(f, c, p).slots == f.slots[c := p]
    ensures Refiled(f, c, p).tickets == f.tickets && Refiled(f, c, p).askers == f.askers
    ensures Refiled(f, c, p).replies == f.replies && Refiled(f, c, p).cancelled == f.cancelled
  {
  }

  lemma RefiledMembers(f: Filing, c: int, p: Parked, l: int)
    requires Filed(f) && Channel(c) && 0 <= l < LISTS
    ensures |Refiled(f, c, p).fifos| == LISTS && Distinct(Refiled(f, c, p).fifos[l])
    ensures forall d :: d in Refiled(f, c, p).fifos[l] <==> Channel(d) && Home(f.slots[c := p][d]) == l
  {
    hide Minus, Home, Refiled;
    RefiledLists(f, c, p, l);
    if Home(p) == l {
      DistinctJoin(Minus(f.fifos[l], c), [c]);
    }
    forall d
      ensures d in Refiled(f, c, p).fifos[l] <==> Channel(d) && Home(f.slots[c := p][d]) == l
    {
      if Channel(d) && d != c && Home(f.slots[d]) == l {
        assert FiledAt(f, d);
      }
    }
  }

  /** The lists other than the ready list are in the order the requests came in. */
  ghost predicate InArrivalOrder(f: Filing) {
    forall l | 0 <= l < |f.fifos| && l != READY_LIST :: Sorted(f.tickets, f.fifos[l])
  }

  ghost predicate Sorted(tickets: seq<nat>, list: seq<int>) {
    && (forall i | 0 <= i < |list| :: 0 <= list[i] < |tickets|)
    && (forall i, j | 0 <= i < j < |list| :: tickets[list[i]] < tickets[list[j]])
  }

  lemma SortedMinus(tickets: seq<nat>, list: seq<int>, c: int)
    requires Sorted(tickets, list)
    ensures Sorted(tickets, Minus(list, c))
  {
    if c in list {
      var k :| 0 <= k < |list| && list[k] == c;
      MinusAt(list, k);
    } else {
      MinusAbsent(list, c);
    }
  }

  lemma RefiledInOrder(f: Filing, c: int, p: Parked)
    requires Filed(f) && Shaped(f) && InArrivalOrder(f) && Channel(c)
    requires Home(p) != READY_LIST && Home(p) != NIL ==> forall d | d in Fifo(f, Home(p)) :: f.tickets[d] < f.tickets[c]
    ensures InArrivalOrder(Refiled(f, c, p))
  {
    hide Filed, Refiled, Home;
    RefiledShape(f, c, p);
    forall l | 0 <= l < LISTS && l != READY_LIST
      ensures Sorted(f.tickets, Refiled(f, c, p).fifos[l])
    {
      RefiledSorted(f, c, p, l);
    }
  }

  lemma RefiledSorted(f: Filing, c: int, p: Parked, l: int)
    requires Filed(f) && Channel(c) && 0 <= l < LISTS && Shaped(f) && Sorted(f.tickets, f.fifos[l])
    requires Home(p) == l ==> forall d | d in f.fifos[l] :: f.tickets[d] < f.tickets[c]
    ensures |Refiled(f, c, p).fifos| == LISTS && Sorted(f.tickets, Refiled(f, c, p).fifos[l])
  {
    hide Filed, Refiled, Home, Minus;
    RefiledLists(f, c, p, l);
    SortedMinus(f.tickets, f.fifos[l], c);
    assert forall d | d in Minus(f.fifos[l], c) :: d in f.fifos[l];
  }

  // Tickets

  /** Ticket t belongs to a request that is still parked or whose reply has not left yet. */
  ghost predicate Open(f: Filing, t: nat) {
    exists c | 0 <= c < |f.slots| && c < |f.tickets| :: f.slots[c].phase != Free && f.tickets[c] == t
  }

  ghost predicate Replied(f: Filing, t: nat) {
    exists i | 0 <= i < |f.replies| :: f.replies[i].ticket == t
  }

  /** Every deferred request is either open, or was answered once, or was cancelled, and only one of these; the reply
      went to the channel that asked. */
  ghost predicate Accounted(f: Filing) {
    && Shaped(f)
    && (forall c, d | 0 <= c < d < CHANNELS && f.slots[c].phase != Free && f.slots[d].phase != Free ::
          f.tickets[c] != f.tickets[d])
    && (forall c | Channel(c) && f.slots[c].phase != Free :: Asked(f, f.tickets[c], c))
    && (forall i, j | 0 <= i < j < |f.replies| :: f.replies[i].ticket != f.replies[j].ticket)
    && (forall i | 0 <= i < |f.replies| :: Asked(f, f.replies[i].ticket, f.replies[i].channel))
    && (forall t | t in f.cancelled :: t < |f.askers|)
    && (forall t: nat | t < |f.askers| :: Once(f, t))
  }

  /** The request with this ticket came from this channel. */
  ghost predicate Asked(f: Filing, t: nat, c: int) {
    t < |f.askers| && f.askers[t] == c
  }

  ghost predicate Once(f: Filing, t: nat) {
    if Open(f, t) then !Replied(f, t) && t !in f.cancelled
    else Replied(f, t) <==> t !in f.cancelled
  }

  // What happens to a slot

  /** A request that cannot be finished yet is parked under a new ticket. */
  ghost function Park(f: Filing, c: int, p: Parked): Filing {
    var g := f.(tickets := Put(f.tickets, c, |f.askers|), askers := f.askers + [c]);
    Refiled(g, c, p)
  }

  /** A parked request is finished; its reply waits in the ready list. */
  ghost function Complete(f: Filing, c: int, result: int): Filing {
    Refiled(f, c, SlotAt(f, c).(phase := Ready, result := result))
  }

  /** A request is dropped without a reply, for its client is gone. */
  ghost function Cancel(f: Filing, c: int): Filing {
    if 0 <= c < |f.slots| && c < |f.tickets| && f.slots[c].phase != Free
    then Refiled(f, c, VACANT).(cancelled := f.cancelled + {f.tickets[c]})
    else f
  }

  /** The oldest ready reply is sent. */
  ghost function TakeReady(f: Filing): Filing {
    var ready := Fifo(f, READY_LIST);
    if ready == [] || !(0 <= ready[0] < |f.tickets|) then f
    else
      var c := ready[0];
      Refiled(f, c, VACANT).(replies := f.replies + [Receipt(f.tickets[c], c, SlotAt(f, c).result)])
  }

  /** All that is promised of slots, lists and replies. */
  ghost predicate Orderly(f: Filing) {
    Filed(f) && InArrivalOrder(f) && Accounted(f)
  }

  lemma OrderlyParts(f: Filing)
    requires Orderly(f)
    ensures Filed(f) && InArrivalOrder(f) && Accounted(f) && Shaped(f)
  {
  }

  lemma ParkKeeps(f: Filing, c: int, p: Parked)
    requires Orderly(f) && Channel(c) && f.slots[c].phase == Free && p.phase == Waiting
    requires Home(p) == NIL || 0 <= Home(p) < LISTS
    ensures Orderly(Park(f, c, p))
  {
    ParkFiled(f, c, p);
    ParkAccounted(f, c, p);
  }

  lemma ParkFiled(f: Filing, c: int, p: Parked)
    requires Orderly(f) && Channel(c) && f.slots[c].phase == Free && p.phase == Waiting
    requires Home(p) == NIL || 0 <= Home(p) < LISTS
    ensures Filed(Park(f, c, p)) && InArrivalOrder(Park(f, c, p))
  {
    var g := f.(tickets := Put(f.tickets, c, |f.askers|), askers := f.askers + [c]);
    assert Filed(g);
    assert forall l | 0 <= l < LISTS :: c !in f.fifos[l];
    RefiledFiled(g, c, p);
    RefiledInOrder(g, c, p);
  }

  lemma ParkAccounted(f: Filing, c: int, p: Parked)
    requires Orderly(f) && Channel(c) && f.slots[c].phase == Free && p.phase == Waiting
    ensures Accounted(Park(f, c, p))
  {
    hide Filed, InArrivalOrder;
    var g := Park(f, c, p);
    forall t: nat | t < |g.askers|
      ensures Once(g, t)
    {
      if t == |f.askers| {
        assert g.slots[c].phase != Free && g.tickets[c] == t;
      } else {
        assert Once(f, t);
        if Open(f, t) {
          var d :| 0 <= d < CHANNELS && f.slots[d].phase != Free && f.tickets[d] == t;
          assert g.slots[d] == f.slots[d] && g.tickets[d] == t;
        }
      }
    }
  }

  /** A slot that stays in use keeps the accounts as they are. */
  lemma CompleteKeeps(f: Filing, c: int, result: int)
    requires Orderly(f) && Channel(c) && f.slots[c].phase != Free
    ensures Orderly(Complete(f, c, result))
  {
    var p := f.slots[c].(phase := Ready, result := result);
    RefiledFiled(f, c, p);
    RefiledInOrder(f, c, p);
    CompleteAccounted(f, c, result);
  }

  lemma CompleteAccounted(f: Filing, c: int, result: int)
    requires Orderly(f) && Channel(c) && f.slots[c].phase != Free
    ensures Accounted(Complete(f, c, result))
  {
    hide Filed, InArrivalOrder;
    var g := Complete(f, c, result);
    assert forall d | Channel(d) :: (g.slots[d].phase == Free) == (f.slots[d].phase == Free);
    forall t: nat | t < |g.askers|
      ensures Once(g, t)
    {
      assert Once(f, t);
      assert Open(g, t) <==> Open(f, t);
    }
  }

  lemma CancelKeeps(f: Filing, c: int)
    requires Orderly(f) && Channel(c)
    ensures Orderly(Cancel(f, c))
  {
    hide Filed, InArrivalOrder, Accounted, Refiled;
    OrderlyParts(f);
    if f.slots[c].phase != Free {
      RefiledShape(f, c, VACANT);
      EmptiedOrderly(f, Cancel(f, c), c);
    }
  }

  lemma TakeReadyKeeps(f: Filing)
    requires Orderly(f)
    ensures Orderly(TakeReady(f))
  {
    hide Filed, InArrivalOrder, Accounted, Refiled;
    OrderlyParts(f);
    if f.fifos[READY_LIST] != [] {
      var c := f.fifos[READY_LIST][0];
      ListedInUse(f, c, READY_LIST);
      RefiledShape(f, c, VACANT);
      EmptiedOrderly(f, TakeReady(f), c);
    }
  }

  lemma ListedInUse(f: Filing, c: int, l: int)
    requires Filed(f) && 0 <= l < LISTS && c in f.fifos[l]
    ensures Channel(c) && f.slots[c].phase != Free
  {
  }

  /** One more reply was sent: to channel c, for the request in its slot. */
  ghost predicate Answers(f: Filing, g: Filing, c: int) {
    && 0 <= c < |f.tickets|
    && exists result :: g.replies == f.replies + [Receipt(f.tickets[c], c, result)]
  }

  /** A slot was emptied, and its ticket answered or cancelled. */
  lemma EmptiedOrderly(f: Filing, g: Filing, c: int)
    requires Orderly(f) && Shaped(f) && Channel(c) && f.slots[c].phase != Free
    requires g == Refiled(f, c, VACANT).(cancelled := g.cancelled, replies := g.replies)
    requires || (g.cancelled == f.cancelled + {f.tickets[c]} && g.replies == f.replies)
             || (g.cancelled == f.cancelled && Answers(f, g, c))
    ensures Orderly(g)
  {
    hide Filed, InArrivalOrder, Accounted, Refiled;
    OrderlyParts(f);
    RefiledShape(f, c, VACANT);
    RefiledFiled(f, c, VACANT);
    RefiledInOrder(f, c, VACANT);
    SameFiling(Refiled(f, c, VACANT), g);
    ClosedAccounted(f, g, c);
  }

  lemma SameFiling(f: Filing, g: Filing)
    requires Filed(f) && InArrivalOrder(f) && g.slots == f.slots && g.fifos == f.fifos && g.tickets == f.tickets
    ensures Filed(g) && InArrivalOrder(g)
  {
    assert forall c | Channel(c) && Home(f.slots[c]) != NIL :: FiledAt(f, c);
  }

  /** Emptying a slot either answers or cancels its ticket. */
  lemma ClosedAccounted(f: Filing, g: Filing, c: int)
    requires Orderly(f) && Channel(c) && f.slots[c].phase != Free
    requires g.slots == f.slots[c := VACANT] && |g.fifos| == LISTS && g.tickets == f.tickets && g.askers == f.askers
    requires || (g.cancelled == f.cancelled + {f.tickets[c]} && g.replies == f.replies)
             || (g.cancelled == f.cancelled && Answers(f, g, c))
    ensures Accounted(g)
  {
    hide Filed, InArrivalOrder;
    var t0 := f.tickets[c];
    assert Open(f, t0) && Once(f, t0);
    var n := |f.replies|;
    assert forall i | 0 <= i < n :: f.replies[i].ticket != t0;
    forall t: nat | t < |g.askers|
      ensures Once(g, t)
    {
      assert Once(f, t);
      if t == t0 {
        assert !Open(g, t);
        if |g.replies| > n {
          assert g.replies[n].ticket == t;
        }
      } else {
        OpenElsewhere(f, g, c, t);
        if Replied(f, t) {
          var i :| 0 <= i < n && f.replies[i].ticket == t;
          assert g.replies[i].ticket == t;
        }
      }
    }
  }

  lemma OpenElsewhere(f: Filing, g: Filing, c: int, t: nat)
    requires Shaped(f) && Channel(c) && g.slots == f.slots[c := VACANT] && g.tickets == f.tickets && f.tickets[c] != t
    ensures Open(g, t) <==> Open(f, t)
  {
    if Open(f, t) {
      var d :| 0 <= d < CHANNELS && f.slots[d].phase != Free && f.tickets[d] == t;
      assert g.slots[d] == f.slots[d];
    }
  }
}
