/** The parked-request protocol as a whole: every step any client, the input tick or the socket server can take, and
    what holds in every state they can reach. */
module Protocol {
  import opened Departure
  import opened Links
  import opened Mail
  import opened Parking
  import opened Requests
  import opened ScreenLock
  import opened Wrappers

  const AES_CHANNEL := 1

  /** What holds between steps. */
  ghost predicate Steady(w: World) {
    Coherent(w) && (w.lock.owner == NIL ==> Fifo(w.desk.filing, UPDATE_LIST) == [])
  }

  /** The same, except that a free lock may have contenders. */
  ghost predicate Coherent(w: World) {
    && Sane(w.desk) && Locked(w.lock) && |w.clients| == |w.waiting| == CHANNELS
    && (forall c | Channel(c) :: Bound(w, c))
  }

  /** Channel c's slot, lock record and queue fit its client, if it has one. */
  ghost predicate Bound(w: World, c: int) {
    var (p, client, holder) := (SlotAt(w.desk.filing, c), ClientAt(w.clients, c), HolderAt(w.lock, c));
    && (p.phase != Free ==> client.attached)
    && Targeted(p, c)
    && (p.phase == Waiting ==> ClientAt(w.clients, p.target).attached)
    && (p.phase == Waiting && p.operation == Operation.Update ==>
          p.generation == client.generation && c != w.lock.owner)
    && (holder.active ==> client.attached && holder.generation == client.generation)
    && (!client.attached ==> BytesAt(w.desk.post.queues, c) == [])
    && (0 <= c < |w.waiting| ==> (w.waiting[c] <==> p.phase != Free))
  }

  datatype Action =
    | Attach(c: int, generation: int, memory: seq<Byte>)
    | Transfer(c: int, operation: Operation, target: int, buffer: int, length: int)
    | ReadMessage(c: int, buffer: int)
    | Hold(c: int, operation: Operation)
    | Finish(c: int, message: Option<int>, result: int)
    | Notices(notices: seq<Notice>, drawn: bool)
    | WindUpdate(c: int, begin: bool)
    | Inner(c: int, begin: bool)
    | TakeReply
    | Exit(c: int)

  /** A call the server took from a client it does not owe a reply. */
  predicate Calls(w: World, c: int) {
    Channel(c) && ClientAt(w.clients, c).attached && !(0 <= c < |w.waiting| && w.waiting[c])
  }

  function Owing(w: World, c: int, answer: Answer): seq<bool> {
    if answer.Deferred? then Put(w.waiting, c, true) else w.waiting
  }

  /** A wait that only the input tick can finish. */
  predicate Held(p: Parked) {
    p.phase == Waiting && p.operation != Read && p.operation != Write && p.operation != Operation.Update
  }

  /** One step; a step that cannot be taken changes nothing. */
  ghost function Act(w: World, a: Action): World {
    match a
    case Attach(c, generation, memory) =>
      if !Channel(c) || c == AES_CHANNEL || ClientAt(w.clients, c).attached then w
      else w.(clients := Put(w.clients, c, Client(true, generation)),
              desk := w.desk.(post := w.desk.post.(memory := Put(w.desk.post.memory, c, memory))))
    case Transfer(c, operation, target, buffer, length) =>
      if !Calls(w, c) || !(operation == Read || operation == Write) then w
      else
        var (d, answer) := ReadWrite(w.desk, w.clients, c, target, operation, buffer, length);
        w.(desk := d, waiting := Owing(w, c, answer))
    case ReadMessage(c, buffer) =>
      if !Calls(w, c) then w else w.(desk := EventMessage(w.desk, c, buffer).0)
    case Hold(c, operation) =>
      var p := Waiter(operation, c, 0, 0, 0);
      if !Calls(w, c) || !Held(p) || SlotAt(w.desk.filing, c).phase != Free then w
      else w.(desk := w.desk.(filing := Park(w.desk.filing, c, p)), waiting := Owing(w, c, Deferred))
    case Finish(c, message, result) =>
      if !Channel(c) || !Held(SlotAt(w.desk.filing, c)) then w
      else w.(desk := FinishWait(w.desk, c, message, result))
    case Notices(notices, drawn) =>
      w.(desk := Notify(w.desk, w.clients, notices, drawn).0)
    case WindUpdate(c, begin) =>
      if !Calls(w, c) then w
      else
        var (w', answer) := UpdateCall(w, c, begin);
        w'.(waiting := Owing(w, c, answer))
    case Inner(c, begin) =>
      if !Channel(c) || !ClientAt(w.clients, c).attached then w
      else if begin then w.(lock := Begin(w.lock, c, ClientAt(w.clients, c).generation).0)
      else UpdateCall(w, c, false).0
    case TakeReply =>
      var c := Head(w.desk.filing, READY_LIST);
      if c == NIL then w
      else w.(desk := w.desk.(filing := TakeReady(w.desk.filing)), waiting := Put(w.waiting, c, false))
    case Exit(c) =>
      Requests.Exit(w, c)
  }

  ghost function RunOf(w: World, actions: seq<Action>): World
    decreases |actions|
  {
    if actions == [] then w else RunOf(Act(w, actions[0]), actions[1..])
  }

  lemma SteadyParts(w: World)
    requires Coherent(w)
    ensures Sane(w.desk) && Locked(w.lock) && |w.clients| == |w.waiting| == CHANNELS && Shaped(w.desk.filing)
    ensures Orderly(w.desk.filing) && Filed(w.desk.filing) && Conserved(w.desk.post) && OwnTargets(w.desk.filing)
    ensures forall c | Channel(c) :: Bound(w, c)
  {
    assert forall c | Channel(c) :: Bound(w, c);
  }

  // Steps that only finish requests

  /** From f to g some requests were finished, and nothing else happened to slots. */
  ghost predicate Advanced(f: Filing, g: Filing) {
    forall c | Channel(c) :: SlotAt(g, c) == SlotAt(f, c) || (SlotAt(f, c).phase != Free && SlotAt(g, c).phase == Ready)
  }

  lemma AdvancedSteady(w: World, w': World)
    requires Steady(w) && Sane(w'.desk) && Advanced(w.desk.filing, w'.desk.filing)
    requires w' == w.(desk := w'.desk)
    requires forall c | Channel(c) && !ClientAt(w.clients, c).attached ::
               BytesAt(w'.desk.post.queues, c) == BytesAt(w.desk.post.queues, c)
    ensures Steady(w')
  {
    hide Sane, Locked;
    SteadyParts(w);
    SaneParts(w'.desk);
    forall c | Channel(c)
      ensures Bound(w', c)
    {
      assert Bound(w, c);
    }
    AdvancedUpdates(w.desk.filing, w'.desk.filing);
    var list := Fifo(w'.desk.filing, UPDATE_LIST);
    assert list != [] ==> list[0] in list;
  }

  /** Who still contends for the lock did so before. */
  lemma AdvancedUpdates(f: Filing, g: Filing)
    requires Filed(f) && Filed(g) && Advanced(f, g)
    ensures forall c | c in Fifo(g, UPDATE_LIST) :: c in Fifo(f, UPDATE_LIST)
  {
    forall c | c in Fifo(g, UPDATE_LIST)
      ensures c in Fifo(f, UPDATE_LIST)
    {
      MemberIs(g, c, UPDATE_LIST);
      assert FiledAt(f, c);
    }
  }

  lemma CompleteAdvanced(f: Filing, c: int, result: int)
    requires Shaped(f) && Channel(c) && f.slots[c].phase != Free
    ensures Advanced(f, Complete(f, c, result))
  {
    CompleteSlots(f, c, result);
  }

  lemma {:induction false} PumpAdvanced(d: Desk, q: int, passes: nat)
    requires Sane(d) && Channel(q)
    ensures Advanced(d.filing, Pump(d, q, passes).filing)
    decreases passes
  {
    hide Sane, Step, Settled, Served, Complete;
    if passes > 0 && !Settled(d, q) {
      ServedIs(d, q);
      CompleteAdvanced(d.filing, Served(d, q), TRUE);
      StepKeeps(d, q);
      PumpAdvanced(Step(d, q), q, passes - 1);
    }
  }

  lemma {:induction false} PumpAllAdvanced(d: Desk, clients: seq<Client>, notices: seq<Notice>, q: nat, c: int)
    requires Sane(d) && Channel(c) && (Reserved(notices, c) > 0 ==> ClientAt(clients, c).attached)
    ensures Advanced(d.filing, PumpAll(d, notices, q).filing)
    ensures !ClientAt(clients, c).attached ==>
              BytesAt(PumpAll(d, notices, q).post.queues, c) == BytesAt(d.post.queues, c)
    decreases CHANNELS - q
  {
    hide Sane, Pump;
    if q < CHANNELS {
      var d' := if Reserved(notices, q) > 0 then Pump(d, q, CHANNELS) else d;
      PumpKeeps(d, q, CHANNELS);
      PumpAdvanced(d, q, CHANNELS);
      if q != c {
        PumpElse(d, q, CHANNELS, c);
      }
      PumpAllAdvanced(d', clients, notices, q + 1, c);
    }
  }

  // Every step

  lemma TransferSteady(w: World, c: int, target: int, operation: Operation, buffer: int, length: int)
    requires Steady(w) && Calls(w, c) && (operation == Read || operation == Write)
    ensures Steady(Act(w, Transfer(c, operation, target, buffer, length)))
  {
    hide Sane, Orderly, Refiled, Pump, Coherent, Park;
    SteadyParts(w);
    var (d, answer) := ReadWrite(w.desk, w.clients, c, target, operation, buffer, length);
    ReadWriteKeeps(w.desk, w.clients, c, target, operation, buffer, length);
    if answer.Deferred? {
      var p := Waiter(operation, target, buffer, length, 0);
      ParkSteady(w, c, p);
    } else if answer == Done(TRUE) && length > 0 {
      var d' := Moved(w.desk, c, target, operation, buffer, length);
      MovedKeeps(w.desk, c, target, operation, buffer, length);
      PumpSteady(w, d', target);
    }
  }

  /** A queue with an attached owner got or lost bytes and was pumped. */
  lemma PumpSteady(w: World, d': Desk, q: int)
    requires Steady(w) && Sane(d') && Channel(q) && ClientAt(w.clients, q).attached && d'.filing == w.desk.filing
    requires forall c | Channel(c) && c != q :: BytesAt(d'.post.queues, c) == BytesAt(w.desk.post.queues, c)
    ensures Steady(w.(desk := Pump(d', q, CHANNELS)))
  {
    hide Sane, Pump, Coherent;
    PumpKeeps(d', q, CHANNELS);
    PumpAdvanced(d', q, CHANNELS);
    forall c | Channel(c) && !ClientAt(w.clients, c).attached
      ensures BytesAt(Pump(d', q, CHANNELS).post.queues, c) == BytesAt(w.desk.post.queues, c)
    {
      PumpElse(d', q, CHANNELS, c);
    }
    AdvancedSteady(w, w.(desk := Pump(d', q, CHANNELS)));
  }

  lemma ParkSteady(w: World, c: int, p: Parked)
    requires Steady(w) && Channel(c) && SlotAt(w.desk.filing, c).phase == Free && p.phase == Waiting
    requires ClientAt(w.clients, c).attached && ClientAt(w.clients, p.target).attached && Targeted(p, c)
    requires Fitting(p, |BytesAt(w.desk.post.memory, c)|)
    requires p.operation == Operation.Update ==>
               p.generation == w.clients[c].generation && c != w.lock.owner && w.lock.owner != NIL
    ensures Steady(w.(desk := w.desk.(filing := Park(w.desk.filing, c, p)), waiting := w.waiting[c := true]))
  {
    hide Sane, Orderly, Refiled, Park, Filed;
    SteadyParts(w);
    var f := Park(w.desk.filing, c, p);
    var w' := w.(desk := w.desk.(filing := f), waiting := w.waiting[c := true]);
    ParkKeeps(w.desk.filing, c, p);
    ParkRanged(w.desk, c, p);
    assert Sane(w'.desk) by { SaneIs(w'.desk); }
    ParkLists(w.desk.filing, c, p, UPDATE_LIST);
    forall d | Channel(d)
      ensures Bound(w', d)
    {
      assert Bound(w, d);
    }
  }

  lemma SaneIs(d: Desk)
    requires Orderly(d.filing) && Conserved(d.post) && Ranged(d)
    ensures Sane(d)
  {
  }

  lemma ReadMessageSteady(w: World, c: int, buffer: int)
    requires Steady(w) && Channel(c) && ClientAt(w.clients, c).attached
    ensures Steady(w.(desk := EventMessage(w.desk, c, buffer).0))
  {
    hide Sane, Orderly, Coherent, Pump;
    SteadyParts(w);
    if EventMessage(w.desk, c, buffer).1 {
      var d' := Moved(w.desk, c, c, Read, buffer, MESSAGE_BYTES);
      MovedKeeps(w.desk, c, c, Read, buffer, MESSAGE_BYTES);
      PumpSteady(w, d', c);
    }
  }

  /** The pump leaves waits for other things alone. */
  lemma {:induction false} PumpSpares(d: Desk, q: int, passes: nat, c: int)
    requires Sane(d) && Channel(q) && Channel(c) && Held(SlotAt(d.filing, c))
    ensures SlotAt(Pump(d, q, passes).filing, c) == SlotAt(d.filing, c)
    decreases passes
  {
    hide Sane, Step, Settled, Served, Complete;
    if passes > 0 && !Settled(d, q) {
      ServedIs(d, q);
      CompleteSlots(d.filing, Served(d, q), TRUE);
      StepKeeps(d, q);
      PumpSpares(Step(d, q), q, passes - 1, c);
    }
  }

  lemma FinishSteady(w: World, c: int, message: Option<int>, result: int)
    requires Steady(w) && Channel(c) && Held(SlotAt(w.desk.filing, c))
    ensures Steady(w.(desk := FinishWait(w.desk, c, message, result)))
  {
    hide Sane, Orderly, Coherent, Pump, Complete;
    SteadyParts(w);
    assert Bound(w, c);
    var (d', ok) := if message.None? then (w.desk, true) else EventMessage(w.desk, c, message.value);
    if message.Some? {
      ReadMessageSteady(w, c, message.value);
      if ok {
        MovedKeeps(w.desk, c, c, Read, message.value, MESSAGE_BYTES);
        PumpSpares(Moved(w.desk, c, c, Read, message.value, MESSAGE_BYTES), c, CHANNELS, c);
      }
    }
    CompleteSteady(w.(desk := d'), c, if ok then result else FAILED);
  }

  lemma CompleteSteady(w: World, c: int, result: int)
    requires Steady(w) && Channel(c) && SlotAt(w.desk.filing, c).phase == Waiting
    ensures Steady(w.(desk := w.desk.(filing := Complete(w.desk.filing, c, result))))
  {
    hide Sane, Orderly, Coherent, Complete;
    SteadyParts(w);
    var d' := w.desk.(filing := Complete(w.desk.filing, c, result));
    CompleteKeeps(w.desk.filing, c, result);
    CompleteAdvanced(w.desk.filing, c, result);
    CompleteRanged(w.desk, c, result);
    SaneParts(w.desk);
    SaneIs(d');
    AdvancedSteady(w, w.(desk := d'));
  }

  lemma CompleteRanged(d: Desk, c: int, result: int)
    requires Sane(d) && Channel(c)
    ensures Ranged(d.(filing := Complete(d.filing, c, result)))
  {
    hide Complete, Orderly;
    SaneParts(d);
    CompleteSlots(d.filing, c, result);
    forall b | Channel(b)
      ensures Fitting(SlotAt(Complete(d.filing, c, result), b), |BytesAt(d.post.memory, b)|)
    {
      assert Fitting(SlotAt(d.filing, b), |BytesAt(d.post.memory, b)|);
    }
  }

  lemma NoticesSteady(w: World, notices: seq<Notice>, drawn: bool)
    requires Steady(w)
    ensures Steady(w.(desk := Notify(w.desk, w.clients, notices, drawn).0))
  {
    hide Sane, Coherent, Pump, PumpAll;
    SteadyParts(w);
    if Notify(w.desk, w.clients, notices, drawn).1 {
      var d' := w.desk.(post := PostAll(w.desk.post, notices));
      PostAllSane(w.desk, w.clients, notices);
      NotifyKeeps(w.desk, w.clients, notices, drawn);
      forall c | Channel(c)
        ensures Advanced(w.desk.filing, PumpAll(d', notices, 0).filing)
        ensures !ClientAt(w.clients, c).attached ==>
                  BytesAt(PumpAll(d', notices, 0).post.queues, c) == BytesAt(w.desk.post.queues, c)
      {
        ReservedAttached(w.clients, notices, c);
        TextsReserved(notices, c);
        SaneParts(w.desk);
        PostAllIs(w.desk.post, notices, c);
        PumpAllAdvanced(d', w.clients, notices, 0, c);
      }
      assert Channel(0);
      AdvancedSteady(w, w.(desk := PumpAll(d', notices, 0)));
    }
  }

  lemma ReservedAttached(clients: seq<Client>, notices: seq<Notice>, c: int)
    requires forall i | 0 <= i < |notices| :: ClientAt(clients, notices[i].owner).attached
    ensures Reserved(notices, c) > 0 ==> ClientAt(clients, c).attached
  {
    if notices != [] && notices[0].owner != c {
      ReservedAttached(clients, notices[1..], c);
    }
  }

  lemma AttachSteady(w: World, c: int, generation: int, memory: seq<Byte>)
    requires Steady(w)
    ensures Steady(Act(w, Attach(c, generation, memory)))
  {
    hide Orderly, Locked;
    SteadyParts(w);
    SaneParts(w.desk);
    var w' := Act(w, Attach(c, generation, memory));
    if w' != w {
      assert Bound(w, c);
      forall d | Channel(d)
        ensures Bound(w', d)
        ensures Fitting(SlotAt(w'.desk.filing, d), |BytesAt(w'.desk.post.memory, d)|)
      {
        assert Bound(w, d);
        assert Fitting(SlotAt(w.desk.filing, d), |BytesAt(w.desk.post.memory, d)|);
      }
      assert Conserved(w'.desk.post);
    }
  }

  lemma TakeReplySteady(w: World)
    requires Steady(w)
    ensures Steady(Act(w, TakeReply))
  {
    hide Sane, Orderly, Coherent;
    SteadyParts(w);
    SaneParts(w.desk);
    var c := Head(w.desk.filing, READY_LIST);
    if c != NIL {
      HeadIs(w.desk.filing, READY_LIST);
      TakeReadyKeeps(w.desk.filing);
      TakenSteady(w, c);
    }
  }

  lemma TakenSteady(w: World, c: int)
    requires Steady(w) && c != NIL && c == Head(w.desk.filing, READY_LIST) && Channel(c)
    requires Orderly(TakeReady(w.desk.filing))
    ensures Steady(Act(w, TakeReply))
  {
    hide Orderly, Locked, Filed;
    SteadyParts(w);
    SaneParts(w.desk);
    var w' := Act(w, TakeReply);
    TakenLists(w.desk.filing, c);
    forall d | Channel(d)
      ensures Bound(w', d)
      ensures Fitting(SlotAt(w'.desk.filing, d), |BytesAt(w'.desk.post.memory, d)|)
    {
      assert Bound(w, d);
      assert Fitting(SlotAt(w.desk.filing, d), |BytesAt(w.desk.post.memory, d)|);
    }
  }

  lemma TakenLists(f: Filing, c: int)
    requires Filed(f) && Channel(c) && c == Head(f, READY_LIST)
    ensures Shaped(f) && Shaped(TakeReady(f)) && TakeReady(f).slots == f.slots[c := VACANT]
    ensures forall l | 0 <= l < READY_LIST :: TakeReady(f).fifos[l] == f.fifos[l]
  {
    assert c in f.fifos[READY_LIST];
    forall l | 0 <= l < READY_LIST
      ensures TakeReady(f).fifos[l] == f.fifos[l]
    {
      RefiledLists(f, c, VACANT, l);
      OneList(f, c, READY_LIST, l);
      MinusAbsent(f.fifos[l], c);
    }
  }

  // The lock

  /** Every contender is the client that asked, and is not the owner. */
  ghost predicate Contending(f: Filing, l: Lock, clients: seq<Client>) {
    forall c | c in Fifo(f, UPDATE_LIST) :: Channel(c) && !Stale(f, clients, c) && c != l.owner
  }

  lemma BoundContending(w: World)
    requires Coherent(w)
    ensures Contending(w.desk.filing, w.lock, w.clients)
  {
    SteadyParts(w);
    forall c | c in Fifo(w.desk.filing, UPDATE_LIST)
      ensures Channel(c) && !Stale(w.desk.filing, w.clients, c) && c != w.lock.owner
    {
      MemberIs(w.desk.filing, c, UPDATE_LIST);
      assert Bound(w, c);
    }
  }

  /** A free lock goes to the oldest contender, at depth one, and only its request is finished; a lock in use stays
      where it is. */
  lemma HandoverIs(f: Filing, l: Lock, clients: seq<Client>)
    requires Orderly(f) && Locked(l) && Contending(f, l, clients)
    ensures var c := Head(f, UPDATE_LIST);
            var (f', l') := Handover(f, l, clients, |Fifo(f, UPDATE_LIST)|);
            && Locked(l')
            && (c == NIL ==> f' == f && l' == l && Fifo(f, UPDATE_LIST) == [])
            && (c != NIL ==> Channel(c) && HolderAt(l', c).active
                             && HolderAt(l', c).generation == ClientAt(clients, c).generation)
            && (c != NIL && l.owner == NIL ==>
                  f' == Complete(f, c, TRUE) && l'.owner == c
                      && HolderAt(l', c) == Holder(true, ClientAt(clients, c).generation, 1))
            && (c != NIL && l.owner != NIL ==> f' == f && l'.owner == l.owner)
            && forall d :: d != c ==> HolderAt(l', d) == HolderAt(l, d)
  {
    hide Orderly, Filed;
    OrderlyParts(f);
    var c := Head(f, UPDATE_LIST);
    HeadNone(f, UPDATE_LIST);
    if c != NIL {
      HeadIs(f, UPDATE_LIST);
      assert c in Fifo(f, UPDATE_LIST);
      BeginKeeps(l, c, ClientAt(clients, c).generation);
      BeginHolder(l, c, ClientAt(clients, c).generation);
    }
  }

  lemma HeadNone(f: Filing, l: int)
    requires Filed(f) && 0 <= l < LISTS
    ensures Head(f, l) == NIL <==> Fifo(f, l) == []
  {
    if f.fifos[l] != [] {
      MemberIs(f, f.fifos[l][0], l);
    }
  }

  lemma BeginHolder(l: Lock, c: int, generation: int)
    requires Locked(l) && Channel(c)
    ensures var l' := Begin(l, c, generation).0;
            && HolderAt(l', c).active && HolderAt(l', c).generation == generation
            && forall d :: d != c ==> HolderAt(l', d) == HolderAt(l, d)
  {
    var (b, l') := (Bind(l, c, generation), Begin(l, c, generation).0);
    assert |b.holders| == CHANNELS && b.holders == l.holders[c := b.holders[c]];
    assert l'.holders == b.holders[c := l'.holders[c]];
  }

  lemma ProgressFrame(w: World)
    ensures Progress(w).clients == w.clients && Progress(w).waiting == w.waiting && Progress(w).desk.post == w.desk.post
  {
  }

  /** Passing the lock on leaves a coherent state steady. */
  lemma ProgressSteady(w: World)
    requires Coherent(w)
    ensures Steady(Progress(w))
  {
    hide Orderly, Coherent, Locked, Complete, Handover, Sane;
    SteadyParts(w);
    BoundContending(w);
    HandoverIs(w.desk.filing, w.lock, w.clients);
    var c := Head(w.desk.filing, UPDATE_LIST);
    var w' := Progress(w);
    if c == NIL {
      assert w' == w;
    } else {
      var l := w'.lock;
      assert Bound(w, c);
      LockCoherent(w, l, c);
      if w.lock.owner == NIL {
        HeadIs(w.desk.filing, UPDATE_LIST);
        GrantedCoherent(w, l, c);
        assert w' == w.(lock := l, desk := w.desk.(filing := Complete(w.desk.filing, c, TRUE)));
      } else {
        assert w' == w.(lock := l);
      }
    }
  }

  /** The lock record of c changed, while c was not waiting for the lock or did not become its owner. */
  lemma LockCoherent(w: World, l: Lock, c: int)
    requires Coherent(w) && Locked(l) && Channel(c) && ClientAt(w.clients, c).attached
    requires HolderAt(l, c).active ==> HolderAt(l, c).generation == ClientAt(w.clients, c).generation
    requires forall d :: d != c ==> HolderAt(l, d) == HolderAt(w.lock, d)
    ensures l.owner == w.lock.owner || l.owner == NIL
            || (l.owner == c && !(SlotAt(w.desk.filing, c).phase == Waiting
                                  && SlotAt(w.desk.filing, c).operation == Operation.Update))
            ==> Coherent(w.(lock := l))
  {
    hide Orderly, Locked, Sane;
    SteadyParts(w);
    forall d | Channel(d)
      ensures l.owner == w.lock.owner || l.owner == NIL
              || (l.owner == c && !(SlotAt(w.desk.filing, c).phase == Waiting
                                    && SlotAt(w.desk.filing, c).operation == Operation.Update))
              ==> Bound(w.(lock := l), d)
    {
      assert Bound(w, d);
    }
  }

  lemma GrantedCoherent(w: World, l: Lock, c: int)
    requires Coherent(w) && Locked(l) && Channel(c) && l.owner == c && SlotAt(w.desk.filing, c).phase == Waiting
    requires HolderAt(l, c).generation == ClientAt(w.clients, c).generation
    requires forall d :: d != c ==> HolderAt(l, d) == HolderAt(w.lock, d)
    ensures Coherent(w.(lock := l, desk := w.desk.(filing := Complete(w.desk.filing, c, TRUE))))
  {
    hide Orderly, Locked, Sane, Complete;
    SteadyParts(w);
    SaneParts(w.desk);
    var d' := w.desk.(filing := Complete(w.desk.filing, c, TRUE));
    CompleteKeeps(w.desk.filing, c, TRUE);
    CompleteSlots(w.desk.filing, c, TRUE);
    CompleteRanged(w.desk, c, TRUE);
    SaneIs(d');
    forall d | Channel(d)
      ensures Bound(w.(lock := l, desk := d'), d)
    {
      assert Bound(w, d);
      assert Bound(w, c);
    }
  }

  /** A lock record is bound to the client of its channel, so finding it releases nothing. */
  lemma BindSame(w: World, c: int)
    requires Coherent(w) && Channel(c)
    ensures Bind(w.lock, c, ClientAt(w.clients, c).generation).owner == w.lock.owner
  {
    hide Sane;
    SteadyParts(w);
    assert Bound(w, c) && Consistent(w.lock, c);
  }

  lemma NotContending(w: World, c: int)
    requires Steady(w) && Channel(c) && (w.lock.owner == NIL || w.lock.owner == c)
    ensures !(SlotAt(w.desk.filing, c).phase == Waiting && SlotAt(w.desk.filing, c).operation == Operation.Update)
  {
    hide Sane;
    SteadyParts(w);
    assert Bound(w, c) && (Home(w.desk.filing.slots[c]) == UPDATE_LIST ==> FiledAt(w.desk.filing, c));
  }

  lemma BeginSteady(w: World, c: int)
    requires Steady(w) && Channel(c) && ClientAt(w.clients, c).attached
    ensures var l := Begin(w.lock, c, ClientAt(w.clients, c).generation).0;
            Steady(w.(lock := l)) && (l.owner == NIL ==> w.lock.owner == NIL)
    ensures Begin(w.lock, c, ClientAt(w.clients, c).generation).1.Refused? ==>
              var l := Begin(w.lock, c, ClientAt(w.clients, c).generation).0;
              l.owner == w.lock.owner && l.owner != NIL && l.owner != c
  {
    hide Sane, Coherent, Locked, Begin, Bind;
    var g := ClientAt(w.clients, c).generation;
    SteadyParts(w);
    BindSame(w, c);
    BeginKeeps(w.lock, c, g);
    BeginHolder(w.lock, c, g);
    if w.lock.owner == NIL || w.lock.owner == c {
      NotContending(w, c);
    }
    LockCoherent(w, Begin(w.lock, c, g).0, c);
  }

  lemma EndSteady(w: World, c: int)
    requires Steady(w) && Channel(c) && ClientAt(w.clients, c).attached
    ensures Steady(UpdateCall(w, c, false).0)
    ensures !UpdateCall(w, c, false).1.Deferred? && UpdateCall(w, c, false).0.waiting == w.waiting
  {
    hide Sane, Coherent, Locked, Bind, Progress, End, Begin;
    var g := ClientAt(w.clients, c).generation;
    var l := End(w.lock, c, g).0;
    SteadyParts(w);
    BindSame(w, c);
    EndKeeps(w.lock, c, g);
    EndHolder(w.lock, c, g);
    LockCoherent(w, l, c);
    if End(w.lock, c, g).1 {
      ProgressSteady(w.(lock := l));
      ProgressFrame(w.(lock := l));
    }
  }

  lemma EndHolder(l: Lock, c: int, generation: int)
    requires Locked(l) && Channel(c)
    ensures var l' := End(l, c, generation).0;
            && HolderAt(l', c).active && HolderAt(l', c).generation == generation
            && (l'.owner == NIL || l'.owner == l.owner)
            && forall d :: d != c ==> HolderAt(l', d) == HolderAt(l, d)
  {
    var (b, l') := (Bind(l, c, generation), End(l, c, generation).0);
    assert |b.holders| == CHANNELS && b.holders == l.holders[c := b.holders[c]];
    assert l'.holders == b.holders[c := l'.holders[c]];
  }

  lemma UpdateSteady(w: World, c: int, begin: bool)
    requires Steady(w) && Calls(w, c)
    ensures Steady(Act(w, WindUpdate(c, begin)))
  {
    hide Sane, Coherent, Locked, Begin, End, Progress, Park;
    SteadyParts(w);
    assert Bound(w, c);
    if begin {
      BeginSteady(w, c);
      var g := ClientAt(w.clients, c).generation;
      var (l, outcome) := Begin(w.lock, c, g);
      if outcome.Refused? {
        ParkSteady(w.(lock := l), c, Waiter(Operation.Update, c, 0, 0, g));
      }
    } else {
      EndSteady(w, c);
    }
  }

  // The end of a client

  lemma ExitSteady(w: World, c: int)
    requires Steady(w)
    ensures Steady(Act(w, Exit(c)))
  {
    hide Sane, Coherent, Locked, Vacate, Progress, Drop;
    SteadyParts(w);
    if ClientAt(w.clients, c).attached {
      var v := w.(desk := Drop(w.desk, c), lock := Vacate(w.lock, c, ClientAt(w.clients, c).generation),
                  waiting := Put(w.waiting, c, false));
      DroppedCoherent(w, c);
      ProgressSteady(v);
      ProgressGone(v, c);
      GoneSteady(Progress(v), c);
      ProgressWaiting(w.(desk := v.desk, lock := v.lock), v.waiting);
      ProgressFrame(v);
      ProgressFrame(w.(desk := v.desk, lock := v.lock));
    }
  }

  lemma ProgressWaiting(w: World, waiting: seq<bool>)
    ensures Progress(w.(waiting := waiting)) == Progress(w).(waiting := waiting)
  {
  }

  /** Nothing is left of client c, except that its channel is still taken. */
  ghost predicate Gone(w: World, c: int) {
    && SlotAt(w.desk.filing, c).phase == Free && !HolderAt(w.lock, c).active && BytesAt(w.desk.post.queues, c) == []
    && forall d | Channel(d) && SlotAt(w.desk.filing, d).phase == Waiting :: SlotAt(w.desk.filing, d).target != c
  }

  lemma GoneSteady(w: World, c: int)
    requires Steady(w) && Channel(c) && Gone(w, c)
    ensures Steady(w.(clients := Put(w.clients, c, NOBODY)))
  {
    hide Sane, Locked;
    SteadyParts(w);
    forall d | Channel(d)
      ensures Bound(w.(clients := Put(w.clients, c, NOBODY)), d)
    {
      assert Bound(w, d);
    }
  }

  lemma ProgressGone(w: World, c: int)
    requires Coherent(w) && Channel(c) && Gone(w, c)
    ensures Gone(Progress(w), c)
  {
    hide Sane, Coherent, Locked, Complete, Handover;
    SteadyParts(w);
    BoundContending(w);
    HandoverIs(w.desk.filing, w.lock, w.clients);
    var h := Head(w.desk.filing, UPDATE_LIST);
    if h != NIL {
      HeadIs(w.desk.filing, UPDATE_LIST);
      CompleteSlots(w.desk.filing, h, TRUE);
    }
  }

  lemma DroppedCoherent(w: World, c: int)
    requires Steady(w) && Channel(c) && ClientAt(w.clients, c).attached
    ensures var v := w.(desk := Drop(w.desk, c), lock := Vacate(w.lock, c, ClientAt(w.clients, c).generation),
                        waiting := Put(w.waiting, c, false));
            Coherent(v) && Gone(v, c)
  {
    hide Sane, Locked, Drop, Vacate, Bound, SlotLeft, Minus, DoomedBelow;
    SteadyParts(w);
    var g := ClientAt(w.clients, c).generation;
    var v := w.(desk := Drop(w.desk, c), lock := Vacate(w.lock, c, g), waiting := Put(w.waiting, c, false));
    DropKeeps(w.desk, c);
    DropDone(w.desk, c);
    DropPost(w.desk, c);
    VacateKeeps(w.lock, c, g);
    VacateHolder(w, c);
    forall d | Channel(d)
      ensures Bound(v, d)
      ensures SlotAt(v.desk.filing, d).phase == Waiting ==> SlotAt(v.desk.filing, d).target != c
    {
      DroppedBound(w, v, c, d);
    }
    assert Gone(v, c);
  }

  lemma VacateHolder(w: World, c: int)
    requires Coherent(w) && Channel(c)
    ensures var l := Vacate(w.lock, c, ClientAt(w.clients, c).generation);
            && !HolderAt(l, c).active && (l.owner == NIL || (l.owner == w.lock.owner && l.owner != c))
            && forall d :: d != c ==> HolderAt(l, d) == HolderAt(w.lock, d)
  {
    hide Sane;
    SteadyParts(w);
    assert Bound(w, c) && Consistent(w.lock, c);
  }

  lemma DroppedBound(w: World, v: World, c: int, d: int)
    requires Coherent(w) && Channel(c) && Channel(d)
    requires v.clients == w.clients && v.waiting == Put(w.waiting, c, false) && v.desk.post == Emptied(w.desk.post, c)
    requires SlotAt(v.desk.filing, d) == SlotLeft(w.desk.filing, c, d)
    requires !HolderAt(v.lock, c).active && (v.lock.owner == NIL || (v.lock.owner == w.lock.owner && v.lock.owner != c))
    requires forall b :: b != c ==> HolderAt(v.lock, b) == HolderAt(w.lock, b)
    ensures Bound(v, d)
    ensures SlotAt(v.desk.filing, d).phase == Waiting ==> SlotAt(v.desk.filing, d).target != c
  {
    hide Sane, Locked;
    SteadyParts(w);
    SaneParts(w.desk);
    assert Bound(w, d);
  }

  // Every run

  lemma HoldSteady(w: World, c: int, operation: Operation)
    requires Steady(w)
    ensures Steady(Act(w, Hold(c, operation)))
  {
    hide Coherent, Park;
    var p := Waiter(operation, c, 0, 0, 0);
    SteadyParts(w);
    if Calls(w, c) && Held(p) && SlotAt(w.desk.filing, c).phase == Free {
      ParkSteady(w, c, p);
    }
  }

  /** Every step leads from a steady state to a steady state. */
  lemma ActSteady(w: World, a: Action)
    requires Steady(w)
    ensures Steady(Act(w, a))
  {
    hide Coherent, ReadWrite, EventMessage, FinishWait, Notify, UpdateCall, Begin, TakeReady, Requests.Exit;
    match a {
      case Attach(c, generation, memory) => AttachSteady(w, c, generation, memory);
      case Transfer(c, operation, target, buffer, length) =>
        if Calls(w, c) && (operation == Read || operation == Write) {
          TransferSteady(w, c, target, operation, buffer, length);
        }
      case ReadMessage(c, buffer) => if Calls(w, c) { ReadMessageSteady(w, c, buffer); }
      case Hold(c, operation) => HoldSteady(w, c, operation);
      case Finish(c, message, result) =>
        if Channel(c) && Held(SlotAt(w.desk.filing, c)) {
          FinishSteady(w, c, message, result);
        }
      case Notices(notices, drawn) => NoticesSteady(w, notices, drawn);
      case WindUpdate(c, begin) => if Calls(w, c) { UpdateSteady(w, c, begin); }
      case Inner(c, begin) =>
        if Channel(c) && ClientAt(w.clients, c).attached {
          if begin {
            BeginSteady(w, c);
          } else {
            EndSteady(w, c);
          }
        }
      case TakeReply => TakeReplySteady(w);
      case Exit(c) => ExitSteady(w, c);
    }
  }

  /** The main safety result: whatever the clients, the tick and the server do, in whatever order, slots, lists, queues,
      lock, histories and reply flags stay in order. */
  lemma {:induction false} RunSteady(w: World, actions: seq<Action>)
    requires Steady(w)
    ensures Steady(RunOf(w, actions))
    decreases |actions|
  {
    hide Steady, Act;
    if actions != [] {
      ActSteady(w, actions[0]);
      RunSteady(Act(w, actions[0]), actions[1..]);
    }
  }

  /** Before any client has come. */
  ghost function Start(): World {
    var none := seq<seq<Byte>>(CHANNELS, _ => []);
    World(Desk(Filing(seq(CHANNELS, _ => VACANT), seq(LISTS, _ => []), seq(CHANNELS, _ => 0), [], [], {}),
               Post(none, none, none, none)),
          seq(CHANNELS, _ => NOBODY), Lock(NIL, seq(CHANNELS, _ => NOT_BOUND), []), seq(CHANNELS, _ => false))
  }

  lemma StartSteady()
    ensures Steady(Start()) && Calm(Start().desk)
  {
    hide Orderly, Conserved, Locked, Ranged;
    StartParts();
    forall c | Channel(c)
      ensures Bound(Start(), c)
    {
    }
  }

  lemma StartSane()
    ensures Sane(Start().desk)
  {
    StartSteady();
    SteadyParts(Start());
  }

  lemma StartParts()
    ensures Orderly(Start().desk.filing) && Conserved(Start().desk.post) && Locked(Start().lock) && Ranged(Start().desk)
  {
    StartFiled(Start().desk.filing);
    StartLocked(Start().lock);
    assert forall c | Channel(c) :: SlotAt(Start().desk.filing, c) == VACANT;
  }

  lemma StartFiled(f: Filing)
    requires f == Start().desk.filing
    ensures Orderly(f)
  {
    assert Filed(f) && InArrivalOrder(f) && Accounted(f);
  }

  lemma StartLocked(l: Lock)
    requires l == Start().lock
    ensures Locked(l)
  {
    assert forall c | Channel(c) :: Consistent(l, c);
    assert Exclusive(l.grants);
  }
}
