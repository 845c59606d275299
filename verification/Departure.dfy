/** What the death of a client does to everybody's parked requests. */
module Departure {
  import opened Links
  import opened Mail
  import opened Parking
  import opened Requests

  /** Client i waits on a queue of client c. */
  predicate Doomed(f: Filing, c: int, i: int) {
    i != c && SlotAt(f, i).phase == Waiting && SlotAt(f, i).target == c
  }

  /** The clients below i that wait on a queue of c, by channel number. */
  ghost function DoomedBelow(f: Filing, c: int, i: nat): seq<int> {
    if i == 0 then [] else DoomedBelow(f, c, i - 1) + if Doomed(f, c, i - 1) then [i - 1] else []
  }

  lemma {:induction false} DoomedBelowIn(f: Filing, c: int, i: nat, d: int)
    ensures d in DoomedBelow(f, c, i) <==> 0 <= d < i && Doomed(f, c, d)
  {
    if i > 0 {
      DoomedBelowIn(f, c, i - 1, d);
    }
  }

  /** What becomes of slot i. */
  function SlotLeft(f: Filing, c: int, i: int): Parked {
    if i == c then (if SlotAt(f, c).phase == Free then SlotAt(f, c) else VACANT)
    else if Doomed(f, c, i) then SlotAt(f, i).(phase := Ready, result := FAILED)
    else SlotAt(f, i)
  }

  /** Reads and writes are on a channel's queue; all other waits are about the client itself. */
  ghost predicate OwnTargets(f: Filing) {
    forall c | Channel(c) :: Targeted(SlotAt(f, c), c)
  }

  predicate Targeted(p: Parked, c: int) {
    p.phase == Waiting ==> if p.operation == Read || p.operation == Write then Channel(p.target) else p.target == c
  }

  /** The sweep from f to g has dealt with the slots below i. */
  ghost predicate Swept(f: Filing, g: Filing, c: int, i: nat) {
    && Orderly(f) && Orderly(g) && OwnTargets(f) && i <= CHANNELS
    && (forall d | Channel(d) :: g.slots[d] == if d < i then SlotLeft(f, c, d) else f.slots[d])
    && (forall l | 0 <= l < READY_LIST && l != ReadList(c) && l != WriteList(c) ::
          g.fifos[l] == if c < i then Minus(f.fifos[l], c) else f.fifos[l])
    && g.fifos[READY_LIST] == (if c < i then Minus(f.fifos[READY_LIST], c) else f.fifos[READY_LIST])
       + DoomedBelow(f, c, i)
  }

  lemma SweptStart(f: Filing, c: int)
    requires Orderly(f) && OwnTargets(f) && Channel(c)
    ensures Swept(f, f, c, 0)
  {
  }

  lemma MinusConcat(a: seq<int>, b: seq<int>, c: int)
    requires c !in b
    ensures Minus(a + b, c) == Minus(a, c) + b
  {
    if a == [] {
      MinusAbsent(b, c);
      assert [] + b == b;
    } else {
      assert (a + b)[1..] == a[1..] + b;
      if a[0] != c {
        MinusConcat(a[1..], b, c);
      }
    }
  }

  lemma SweptParts(f: Filing, g: Filing, c: int, i: nat)
    requires Swept(f, g, c, i)
    ensures Orderly(f) && Orderly(g) && Shaped(f) && Shaped(g) && Filed(f) && Filed(g)
    ensures OwnTargets(f) && (i < CHANNELS ==> g.slots[i] == f.slots[i])
  {
  }

  lemma SweptStep(f: Filing, g: Filing, c: int, i: nat)
    requires Swept(f, g, c, i) && i < CHANNELS && Channel(c)
    ensures Swept(f, SweepOne(g, c, i), c, i + 1)
  {
    hide Orderly, Refiled, Filed;
    SweptParts(f, g, c, i);
    var g' := SweepOne(g, c, i);
    if i == c {
      CancelKeeps(g, c);
      SweptSelf(f, g, c);
    } else if Doomed(f, c, i) {
      CompleteKeeps(g, i, FAILED);
      SweptOther(f, g, c, i);
    }
  }

  lemma SweptSelf(f: Filing, g: Filing, c: nat)
    requires Swept(f, g, c, c) && Channel(c) && Orderly(Cancel(g, c))
    ensures Swept(f, Cancel(g, c), c, c + 1)
  {
    hide Orderly, Filed;
    SweptParts(f, g, c, c);
    var g' := Cancel(g, c);
    DoomedBelowIn(f, c, c, c);
    MinusConcat(f.fifos[READY_LIST], DoomedBelow(f, c, c), c);
    if g.slots[c].phase == Free {
      forall l | 0 <= l < LISTS
        ensures Minus(f.fifos[l], c) == f.fifos[l]
      {
        FreeNowhere(f, c, l);
        MinusAbsent(f.fifos[l], c);
      }
    } else {
      forall l | 0 <= l < LISTS
        ensures g'.fifos[l] == Minus(g.fifos[l], c)
      {
        RefiledLists(g, c, VACANT, l);
      }
    }
  }

  lemma MemberIs(f: Filing, c: int, l: int)
    requires Filed(f) && 0 <= l < LISTS && c in f.fifos[l]
    ensures Channel(c) && Home(f.slots[c]) == l
  {
  }

  lemma FreeNowhere(f: Filing, c: int, l: int)
    requires Filed(f) && Channel(c) && 0 <= l < LISTS && f.slots[c].phase == Free
    ensures c !in f.fifos[l]
  {
  }

  lemma SweptOther(f: Filing, g: Filing, c: int, i: nat)
    requires Swept(f, g, c, i) && Channel(c) && i < CHANNELS && Doomed(f, c, i) && Orderly(Complete(g, i, FAILED))
    ensures Swept(f, Complete(g, i, FAILED), c, i + 1)
  {
    hide Orderly, Filed, Complete, Minus;
    SweptParts(f, g, c, i);
    CompleteSlots(g, i, FAILED);
    assert Targeted(SlotAt(f, i), i);
    forall l | 0 <= l < LISTS && l != ReadList(c) && l != WriteList(c)
      ensures Complete(g, i, FAILED).fifos[l] == if l == READY_LIST then g.fifos[l] + [i] else g.fifos[l]
    {
      OtherLists(g, c, i, l);
    }
  }

  /** A client that gets its failure leaves a list of c and joins the ready list. */
  lemma OtherLists(g: Filing, c: int, i: int, l: int)
    requires Filed(g) && Channel(c) && Channel(i) && 0 <= l < LISTS && l != ReadList(c) && l != WriteList(c)
    requires g.slots[i].phase == Waiting && g.slots[i].target == c && i != c && Targeted(g.slots[i], i)
    ensures |Complete(g, i, FAILED).fifos| == LISTS
    ensures Complete(g, i, FAILED).fifos[l] == if l == READY_LIST then g.fifos[l] + [i] else g.fifos[l]
  {
    RefiledLists(g, i, g.slots[i].(phase := Ready, result := FAILED), l);
    assert Home(g.slots[i]) != l;
    assert i !in g.fifos[l];
    MinusAbsent(g.fifos[l], i);
  }

  lemma {:induction false} SweepSweeps(f: Filing, g: Filing, c: int, i: nat)
    requires Swept(f, g, c, i) && Channel(c)
    ensures Swept(f, Sweep(g, c, i), c, CHANNELS)
    decreases CHANNELS - i
  {
    hide Swept, SweepOne;
    if i < CHANNELS {
      SweptStep(f, g, c, i);
      SweepSweeps(f, SweepOne(g, c, i), c, i + 1);
    } else {
      SweptBound(f, g, c, i);
    }
  }

  lemma SweptBound(f: Filing, g: Filing, c: int, i: nat)
    requires Swept(f, g, c, i)
    ensures i <= CHANNELS
  {
  }

  /** After the death of client c its slot is free and nobody waits on its queues; whoever did has a failure ready,
      once, behind the older replies; all other slots and the order of all other lists are as they were. */
  lemma DropDone(d: Desk, c: int)
    requires Sane(d) && OwnTargets(d.filing) && Channel(c)
    ensures Shaped(d.filing) && Shaped(Drop(d, c).filing)
    ensures var (f, g) := (d.filing, Drop(d, c).filing);
            && (forall i | Channel(i) :: g.slots[i] == SlotLeft(f, c, i))
            && g.slots[c].phase == Free && (forall l | 0 <= l < LISTS :: c !in g.fifos[l])
            && g.fifos[ReadList(c)] == [] && g.fifos[WriteList(c)] == []
            && g.fifos[READY_LIST] == Minus(f.fifos[READY_LIST], c) + DoomedBelow(f, c, CHANNELS)
            && forall l | 0 <= l < READY_LIST && l != ReadList(c) && l != WriteList(c) ::
                 g.fifos[l] == Minus(f.fifos[l], c)
    ensures Orderly(Drop(d, c).filing)
  {
    hide Refiled, Sweep, Orderly, SweepOne;
    SaneParts(d);
    var (f, g) := (d.filing, Sweep(d.filing, c, 0));
    SweptStart(f, c);
    SweepSweeps(f, f, c, 0);
    SweptParts(f, g, c, CHANNELS);
    ListsEmpty(f, g, c);
    forall l | 0 <= l < LISTS
      ensures c !in g.fifos[l]
    {
      FreeNowhere(g, c, l);
    }
    assert Drop(d, c).filing.fifos == g.fifos;
  }

  lemma ListsEmpty(f: Filing, g: Filing, c: int)
    requires Swept(f, g, c, CHANNELS) && Channel(c)
    ensures Shaped(g) && g.fifos[ReadList(c)] == [] && g.fifos[WriteList(c)] == []
  {
    hide Orderly, Minus, DoomedBelow;
    SweptParts(f, g, c, CHANNELS);
    forall l | l == ReadList(c) || l == WriteList(c)
      ensures g.fifos[l] == []
    {
      if g.fifos[l] != [] {
        var i := g.fifos[l][0];
        MemberIs(g, i, l);
        assert g.slots[i] == SlotLeft(f, c, i) && Targeted(SlotAt(f, i), i);
        TargetIs(g.slots[i], i, c);
      }
    }
  }

  /** A slot on one of c's lists waits on c's queue. */
  lemma TargetIs(p: Parked, i: int, c: int)
    requires Channel(c) && (Home(p) == ReadList(c) || Home(p) == WriteList(c)) && Targeted(p, i)
    ensures p.phase == Waiting && p.target == c
  {
  }

  lemma DropKeeps(d: Desk, c: int)
    requires Sane(d) && OwnTargets(d.filing) && Channel(c)
    ensures Sane(Drop(d, c))
  {
    hide Orderly, Drop;
    SaneParts(d);
    DropDone(d, c);
    var g := Drop(d, c);
    DropPost(d, c);
    assert Conserved(g.post);
    forall i | Channel(i)
      ensures Fitting(SlotAt(g.filing, i), |BytesAt(g.post.memory, i)|)
    {
      assert Fitting(SlotAt(d.filing, i), |BytesAt(d.post.memory, i)|);
    }
  }

  lemma DropPost(d: Desk, c: int)
    ensures Drop(d, c).post == Emptied(d.post, c)
  {
  }
}
