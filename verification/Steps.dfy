/** The remaining steps of the parked-request protocol in plain terms: arrivals, waits, replies and ends of clients. */
module Steps {
  import opened Departure
  import opened Links
  import opened Mail
  import opened Parking
  import opened Pending
  import opened Promises
  import opened Protocol
  import opened Requests
  import opened ScreenLock
  import opened Transfers

  /** A client arrives on one of six channels, not the AES's own nor one in use; all else stays. */
  lemma ActAttaches(w: World, c: int, generation: int, memory: seq<Byte>)
    requires Steady(w)
    ensures var w' := Act(w, Attach(c, generation, memory));
            && |w.clients| == 6
            && if c < 0 || c >= 6 || c == 1 || w.clients[c].attached then w' == w
               else w'.clients == w.clients[c := Client(true, generation)] && w'.desk.filing == w.desk.filing
                    && w'.desk.post == w.desk.post.(memory := w'.desk.post.memory)
                    && BytesAt(w'.desk.post.memory, c) == memory && w'.lock == w.lock && w'.waiting == w.waiting
                    && forall d | 0 <= d < 6 && d != c ::
                         BytesAt(w'.desk.post.memory, d) == BytesAt(w.desk.post.memory, d)
  {
    hide Orderly, Locked;
    SteadyParts(w);
    SaneParts(w.desk);
  }

  /** A wait for the tick is parked on no list. */
  lemma ActHolds(w: World, c: int, operation: Operation)
    requires Steady(w) && Calls(w, c) && (operation == Event || operation == Graf || operation == Form)
    ensures var (w', f) := (Act(w, Hold(c, operation)), w.desk.filing);
            && |f.slots| == |f.tickets| == |w.waiting| == 6
            && w'.waiting == w.waiting[c := true] && w'.desk.post == w.desk.post && w'.lock == w.lock
            && w'.desk.filing == f.(slots := f.slots[c := Parked(Waiting, operation, c, 0, 0, 0, 0)],
                                    tickets := f.tickets[c := |f.askers|], askers := f.askers + [c])
  {
    hide Coherent, Minus;
    CallsFree(w, c);
    SaneParts(w.desk);
    var (f, p) := (w.desk.filing, Waiter(operation, c, 0, 0, 0));
    assert Park(f, c, p).fifos == f.fifos;
  }

  /** The oldest finished call is answered with its result: its slot is free, its client owed nothing, and the reply
      bears the ticket of its request. */
  lemma ActReplies(w: World)
    requires Steady(w)
    ensures var (w', f) := (Act(w, TakeReply), w.desk.filing);
            && |f.fifos| == 14 && |f.slots| == |f.tickets| == |w.waiting| == 6
            && if f.fifos[13] == [] then w' == w
               else
                 var c := f.fifos[13][0];
                 && 0 <= c < 6 && f.slots[c].phase == Ready
                 && w'.waiting == w.waiting[c := false] && w'.desk.post == w.desk.post && w'.lock == w.lock
                 && w'.desk.filing == f.(slots := f.slots[c := VACANT], fifos := f.fifos[13 := f.fifos[13][1..]],
                                         replies := f.replies + [Receipt(f.tickets[c], c, f.slots[c].result)])
  {
    hide Orderly, Coherent, Minus;
    SteadyParts(w);
    SaneParts(w.desk);
    var f := w.desk.filing;
    HeadNone(f, READY_LIST);
    if f.fifos[13] != [] {
      HeadIs(f, READY_LIST);
      ReadyTaken(w.desk);
    }
  }

  lemma ReadyTaken(d: Desk)
    requires Sane(d) && Head(d.filing, READY_LIST) != NIL
    ensures Shaped(d.filing)
    ensures var (f, c) := (d.filing, Head(d.filing, READY_LIST));
            && Channel(c) && f.slots[c].phase == Ready
            && TakeReady(f) == f.(slots := f.slots[c := VACANT], fifos := f.fifos[13 := f.fifos[13][1..]],
                                  replies := f.replies + [Receipt(f.tickets[c], c, f.slots[c].result)])
  {
    hide Orderly, Filed, Parking.TakeReady;
    SaneParts(d);
    HeadIs(d.filing, READY_LIST);
    TakeIs(d.filing, Head(d.filing, READY_LIST));
    ReadyPhase(d, Head(d.filing, READY_LIST));
  }

  lemma ReadyPhase(d: Desk, c: int)
    requires Sane(d) && Channel(c) && Home(SlotAt(d.filing, c)) == READY_LIST
    ensures SlotAt(d.filing, c).phase == Ready
  {
    hide Orderly;
    SaneParts(d);
    assert Fitting(SlotAt(d.filing, c), |BytesAt(d.post.memory, c)|);
  }

  /** What the end of client c leaves in the slot of another client d, when h is the contender the lock passes to: a
      call waiting on c's queue has failed with -1, h's has succeeded with 1, and any other is as it was. */
  ghost predicate SlotAfterExit(f: Filing, f': Filing, c: int, d: int, h: int) {
    var (p, p') := (SlotAt(f, d), SlotAt(f', d));
    if p.phase == Waiting && p.target == c then p' == p.(phase := Ready, result := -1)
    else if d == h then p' == p.(phase := Ready, result := 1)
    else p' == p
  }

  /** The end of a client: nothing of it is left, its queue is empty, calls waiting on the queue fail, and its lock
      goes to the oldest contender; memory, other queues and all other calls are as they were. */
  lemma ActExits(w: World, c: int)
    requires Steady(w) && Channel(c) && ClientAt(w.clients, c).attached
    ensures var (w', f) := (Act(w, Exit(c)), w.desk.filing);
            var h := if w.lock.owner == c then Head(f, UPDATE_LIST) else NIL;
            && |w.clients| == |w.waiting| == 6
            && w'.clients == w.clients[c := Client(false, 0)] && w'.waiting == w.waiting[c := false]
            && w'.desk.post.memory == w.desk.post.memory && BytesAt(w'.desk.post.queues, c) == []
            && (forall d | 0 <= d < 6 && d != c :: BytesAt(w'.desk.post.queues, d) == BytesAt(w.desk.post.queues, d))
            && SlotAt(w'.desk.filing, c).phase == Free
            && (forall d | 0 <= d < 6 && d != c :: SlotAfterExit(f, w'.desk.filing, c, d, h))
            && (if w.lock.owner == c then HandedOn(w', h) else w'.lock.owner == w.lock.owner)
  {
    hide Steady, Drop, Vacate, Progress, HandedOn, SlotAfterExit, Emptied;
    Sizes(w);
    var v := w.(desk := Drop(w.desk, c), lock := Vacate(w.lock, c, ClientAt(w.clients, c).generation));
    ExitSlots(w, c);
    ExitLock(w, c);
    DropPost(w.desk, c);
    PostParts(w);
    EmptiedIs(w.desk.post, c);
    ProgressFrame(v);
    var w' := Progress(v);
    SameHands(w', w'.(clients := Put(w'.clients, c, Requests.NOBODY), waiting := Put(w'.waiting, c, false)),
              if w.lock.owner == c then Head(w.desk.filing, UPDATE_LIST) else NIL);
  }

  lemma Sizes(w: World)
    requires Steady(w)
    ensures |w.clients| == |w.waiting| == 6
  {
    SteadyParts(w);
  }

  lemma PostParts(w: World)
    requires Steady(w)
    ensures Conserved(w.desk.post)
  {
    SteadyParts(w);
    SaneParts(w.desk);
  }

  lemma SameHands(w: World, w': World, h: int)
    requires w'.lock == w.lock && w'.desk == w.desk
    ensures HandedOn(w', h) <==> HandedOn(w, h)
  {
  }

  /** The state after the client was dropped and before the lock is passed on, but for the reply owed to it. */
  ghost function Left(w: World, c: int): World {
    w.(desk := Drop(w.desk, c), lock := Vacate(w.lock, c, ClientAt(w.clients, c).generation))
  }

  lemma LeftIs(w: World, c: int)
    requires Steady(w) && Channel(c) && ClientAt(w.clients, c).attached
    ensures var (v, waiting) := (Left(w, c), Put(w.waiting, c, false));
            && Coherent(v.(waiting := waiting)) && Gone(v.(waiting := waiting), c)
            && v.lock.owner == (if w.lock.owner == c then NIL else w.lock.owner)
            && (v.lock.owner == NIL ==>
                  Head(v.desk.filing, UPDATE_LIST) == if w.lock.owner == c then Head(w.desk.filing, UPDATE_LIST)
                      else NIL)
            && Progress(v).desk == Progress(v.(waiting := waiting)).desk
            && Progress(v).lock == Progress(v.(waiting := waiting)).lock
  {
    hide Coherent, Drop, Vacate, Progress, Minus, DoomedBelow, SlotLeft;
    SteadyParts(w);
    DroppedCoherent(w, c);
    VacatedOwner(w, c);
    DropDone(w.desk, c);
    ProgressWaiting(Left(w, c), Put(w.waiting, c, false));
    if w.lock.owner == c {
      OwnerContends(w, c);
    } else if w.lock.owner == NIL {
      MinusAbsent([], c);
    }
  }

  lemma ExitLock(w: World, c: int)
    requires Steady(w) && Channel(c) && ClientAt(w.clients, c).attached
    ensures var p := Progress(Left(w, c));
            if w.lock.owner == c then HandedOn(p, Head(w.desk.filing, UPDATE_LIST)) else p.lock.owner == w.lock.owner
  {
    hide Coherent, Drop, Vacate, Progress, Minus, Gone, Left;
    LeftIs(w, c);
    var v := Left(w, c).(waiting := Put(w.waiting, c, false));
    if v.lock.owner == NIL {
      ProgressHands(v);
      SameHands(Progress(v), Progress(Left(w, c)), Head(v.desk.filing, UPDATE_LIST));
    } else {
      ProgressStays(v);
    }
  }

  lemma ExitSlots(w: World, c: int)
    requires Steady(w) && Channel(c) && ClientAt(w.clients, c).attached
    ensures var (f, f') := (w.desk.filing, Progress(Left(w, c)).desk.filing);
            var h := if w.lock.owner == c then Head(f, UPDATE_LIST) else NIL;
            && SlotAt(f', c).phase == Free
            && forall d | 0 <= d < 6 && d != c :: SlotAfterExit(f, f', c, d, h)
  {
    hide Coherent, Drop, Vacate, Progress, Minus, DoomedBelow, Left, HandedOn, SlotAfterExit, Locked, Sane;
    SteadyParts(w);
    LeftIs(w, c);
    var v := Left(w, c).(waiting := Put(w.waiting, c, false));
    var h := if w.lock.owner == c then Head(w.desk.filing, UPDATE_LIST) else NIL;
    LeftSlots(w, c);
    ProgressGone(v, c);
    HeadOther(w, h);
    if v.lock.owner == NIL {
      ProgressHands(v);
      ProgressSlot(v);
    } else {
      ProgressStays(v);
    }
    hide SlotLeft;
    forall d | 0 <= d < 6 && d != c
      ensures SlotAfterExit(w.desk.filing, Progress(v).desk.filing, c, d, h)
    {
      AfterExitIs(w.desk.filing, v.desk.filing, Progress(v).desk.filing, c, d, h);
    }
  }

  lemma AfterExitIs(f: Filing, g: Filing, f': Filing, c: int, d: int, h: int)
    requires Channel(d) && d != c && SlotAt(g, d) == SlotLeft(f, c, d)
    requires if d == h then SlotAt(f', d) == SlotAt(g, d).(phase := Ready, result := 1)
             else SlotAt(f', d) == SlotAt(g, d)
    requires d == h ==> SlotAt(f, h).phase == Waiting && SlotAt(f, h).target == h
    ensures SlotAfterExit(f, f', c, d, h)
  {
  }

  lemma LeftSlots(w: World, c: int)
    requires Steady(w) && Channel(c)
    ensures forall d | Channel(d) :: SlotAt(Left(w, c).desk.filing, d) == SlotLeft(w.desk.filing, c, d)
  {
    hide Coherent, Drop, Vacate, Minus, DoomedBelow, SlotLeft;
    SteadyParts(w);
    DropDone(w.desk, c);
  }

  lemma VacatedOwner(w: World, c: int)
    requires Steady(w) && Channel(c) && ClientAt(w.clients, c).attached
    ensures var l := Vacate(w.lock, c, ClientAt(w.clients, c).generation);
            l.owner == if w.lock.owner == c then NIL else w.lock.owner
  {
    SteadyParts(w);
    assert Bound(w, c) && Consistent(w.lock, c);
  }

  /** The contender the lock passes to is finished with 1 and otherwise as it was. */
  lemma ProgressSlot(w: World)
    requires Coherent(w) && w.lock.owner == NIL
    ensures var (f, h) := (w.desk.filing, Head(w.desk.filing, UPDATE_LIST));
            h != NIL ==> SlotAt(Progress(w).desk.filing, h) == SlotAt(f, h).(phase := Ready, result := 1)
  {
    hide Coherent, Complete, Handover, Locked, Sane;
    SteadyParts(w);
    BoundContending(w);
    HandoverIs(w.desk.filing, w.lock, w.clients);
    var h := Head(w.desk.filing, UPDATE_LIST);
    if h != NIL {
      CompleteSlots(w.desk.filing, h, TRUE);
    }
  }

  /** A contender waits for nothing but the lock. */
  lemma HeadOther(w: World, h: int)
    requires Steady(w) && (h == NIL || h == Head(w.desk.filing, UPDATE_LIST))
    ensures h != NIL ==> Channel(h) && h != w.lock.owner && SlotAt(w.desk.filing, h).phase == Waiting
                         && SlotAt(w.desk.filing, h).target == h
  {
    hide Orderly;
    SteadyParts(w);
    SaneParts(w.desk);
    if h != NIL {
      HeadIs(w.desk.filing, UPDATE_LIST);
      assert Bound(w, h);
      assert Fitting(SlotAt(w.desk.filing, h), |BytesAt(w.desk.post.memory, h)|);
      BoundContending(w);
      assert h in Fifo(w.desk.filing, UPDATE_LIST);
    }
  }

  lemma EmptiedIs(m: Post, c: int)
    requires Conserved(m) && Channel(c)
    ensures var m' := Emptied(m, c);
            && m'.memory == m.memory && BytesAt(m'.queues, c) == []
            && forall d | d != c :: BytesAt(m'.queues, d) == BytesAt(m.queues, d)
  {
  }
}
