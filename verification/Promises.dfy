/** What runs of the parked-request protocol promise beyond safety of the records: queues are served as far as they can
    be, and requests are only cancelled by the death of their client. */
module Promises {
  import opened Departure
  import opened Links
  import opened Mail
  import opened Parking
  import opened Protocol
  import opened Requests
  import opened ScreenLock
  import opened Wrappers

  // Queues stay settled

  lemma ParkTraffic(d: Desk, c: int, p: Parked)
    requires Sane(d) && Channel(c) && SlotAt(d.filing, c).phase == Free && (Home(p) == NIL || Home(p) == UPDATE_LIST)
    ensures SameTraffic(d, d.(filing := Park(d.filing, c, p)))
  {
    hide Park, Orderly;
    SaneParts(d);
    forall l | 0 <= l < LISTS
      ensures Fifo(Park(d.filing, c, p), l) == if Home(p) == l then Fifo(d.filing, l) + [c] else Fifo(d.filing, l)
      ensures c !in Fifo(d.filing, l) && Park(d.filing, c, p).slots == d.filing.slots[c := p]
    {
      ParkLists(d.filing, c, p, l);
    }
  }

  lemma CompleteTraffic(d: Desk, c: int, result: int)
    requires Sane(d) && Channel(c) && SlotAt(d.filing, c).phase == Waiting
    requires Home(SlotAt(d.filing, c)) == NIL || Home(SlotAt(d.filing, c)) == UPDATE_LIST
    ensures SameTraffic(d, d.(filing := Complete(d.filing, c, result)))
  {
    hide Orderly;
    SaneParts(d);
    CompleteSlots(d.filing, c, result);
    forall l | 0 <= l < UPDATE_LIST
      ensures Fifo(Complete(d.filing, c, result), l) == Fifo(d.filing, l)
    {
      assert c !in d.filing.fifos[l];
      RefiledLists(d.filing, c, d.filing.slots[c].(phase := Ready, result := result), l);
      MinusAbsent(d.filing.fifos[l], c);
    }
  }

  lemma TakeReplyTraffic(d: Desk)
    requires Sane(d) && Head(d.filing, READY_LIST) != NIL
    ensures SameTraffic(d, d.(filing := TakeReady(d.filing)))
  {
    hide Orderly, TakeReady;
    SaneParts(d);
    var c := Head(d.filing, READY_LIST);
    HeadIs(d.filing, READY_LIST);
    TakenLists(d.filing, c);
    assert c in d.filing.fifos[READY_LIST];
    forall l | 0 <= l < UPDATE_LIST
      ensures c !in d.filing.fifos[l]
    {
      OneList(d.filing, c, READY_LIST, l);
    }
  }

  lemma EventMessageCalm(d: Desk, c: int, buffer: int)
    requires Sane(d) && Calm(d) && Channel(c)
    ensures Calm(EventMessage(d, c, buffer).0) && Sane(EventMessage(d, c, buffer).0)
  {
    hide Sane, Calm, Pump;
    if EventMessage(d, c, buffer).1 {
      MovedKeeps(d, c, c, Read, buffer, MESSAGE_BYTES);
      MovedCalm(d, c, c, Read, buffer, MESSAGE_BYTES);
      PumpCalm(Moved(d, c, c, Read, buffer, MESSAGE_BYTES), c);
      PumpKeeps(Moved(d, c, c, Read, buffer, MESSAGE_BYTES), c, CHANNELS);
    }
  }

  lemma FinishCalm(w: World, c: int, message: Option<int>, result: int)
    requires Steady(w) && Calm(w.desk) && Channel(c) && Held(SlotAt(w.desk.filing, c))
    ensures Calm(FinishWait(w.desk, c, message, result))
  {
    hide Sane, Calm, Complete, Coherent, SameTraffic;
    SteadyParts(w);
    var (d', ok) := if message.None? then (w.desk, true) else EventMessage(w.desk, c, message.value);
    if message.Some? {
      EventMessageCalm(w.desk, c, message.value);
      if ok {
        MovedKeeps(w.desk, c, c, Read, message.value, MESSAGE_BYTES);
        PumpSpares(Moved(w.desk, c, c, Read, message.value, MESSAGE_BYTES), c, CHANNELS, c);
      }
    }
    var r := if ok then result else FAILED;
    CompleteTraffic(d', c, r);
    TrafficCalm(d', d'.(filing := Complete(d'.filing, c, r)));
  }

  lemma ProgressCalm(w: World)
    requires Coherent(w) && Calm(w.desk)
    ensures Calm(Progress(w).desk)
  {
    hide Coherent, Calm, Complete, Handover, Locked, Sane, SameTraffic;
    SteadyParts(w);
    BoundContending(w);
    HandoverIs(w.desk.filing, w.lock, w.clients);
    var c := Head(w.desk.filing, UPDATE_LIST);
    if c != NIL && w.lock.owner == NIL {
      HeadIs(w.desk.filing, UPDATE_LIST);
      assert Bound(w, c);
      CompleteTraffic(w.desk, c, TRUE);
      TrafficCalm(w.desk, w.desk.(filing := Complete(w.desk.filing, c, TRUE)));
    }
  }

  lemma UpdateCalm(w: World, c: int, begin: bool)
    requires Steady(w) && Calm(w.desk) && Channel(c)
    ensures Calm(UpdateCall(w, c, begin).0.desk)
  {
    hide Coherent, Calm, Progress, Locked, Sane, SameTraffic, Begin, End, Park;
    SteadyParts(w);
    if ClientAt(w.clients, c).attached {
      var g := ClientAt(w.clients, c).generation;
      if begin {
        var (l, outcome) := Begin(w.lock, c, g);
        if outcome.Refused? && SlotAt(w.desk.filing, c).phase == Free {
          var p := Waiter(Operation.Update, c, 0, 0, g);
          ParkTraffic(w.desk, c, p);
          TrafficCalm(w.desk, w.desk.(filing := Park(w.desk.filing, c, p)));
        }
      } else {
        EndCoherent(w, c);
        if End(w.lock, c, g).1 {
          ProgressCalm(w.(lock := End(w.lock, c, g).0));
        }
      }
    }
  }

  lemma EndCoherent(w: World, c: int)
    requires Steady(w) && Channel(c) && ClientAt(w.clients, c).attached
    ensures Coherent(w.(lock := End(w.lock, c, ClientAt(w.clients, c).generation).0))
  {
    hide Coherent, Locked, Sane, End;
    var g := ClientAt(w.clients, c).generation;
    SteadyParts(w);
    EndKeeps(w.lock, c, g);
    EndHolder(w.lock, c, g);
    LockCoherent(w, End(w.lock, c, g).0, c);
  }

  /** As long as no client dies, every step leaves every queue settled: neither its oldest reader nor its oldest writer
      could be served. */
  lemma ActCalm(w: World, a: Action)
    requires Steady(w) && Calm(w.desk) && !a.Exit?
    ensures Calm(Act(w, a).desk)
  {
    hide Coherent, Calm, ReadWrite, EventMessage, FinishWait, Notify, UpdateCall, Begin, TakeReady, Park, Sane,
         SameTraffic;
    SteadyParts(w);
    match a {
      case Attach(c, generation, memory) =>
        AttachTraffic(w, c, generation, memory);
        TrafficCalm(w.desk, Act(w, a).desk);
      case Transfer(c, operation, target, buffer, length) =>
        if Calls(w, c) && (operation == Read || operation == Write) {
          ReadWriteCalm(w.desk, w.clients, c, target, operation, buffer, length);
        }
      case ReadMessage(c, buffer) => if Calls(w, c) { EventMessageCalm(w.desk, c, buffer); }
      case Hold(c, operation) =>
        var p := Waiter(operation, c, 0, 0, 0);
        if Calls(w, c) && Held(p) && SlotAt(w.desk.filing, c).phase == Free {
          ParkTraffic(w.desk, c, p);
          TrafficCalm(w.desk, w.desk.(filing := Park(w.desk.filing, c, p)));
        }
      case Finish(c, message, result) =>
        if Channel(c) && Held(SlotAt(w.desk.filing, c)) {
          FinishCalm(w, c, message, result);
        }
      case Notices(notices, drawn) => NotifyCalm(w.desk, w.clients, notices, drawn);
      case WindUpdate(c, begin) => if Calls(w, c) { UpdateCalm(w, c, begin); }
      case Inner(c, begin) => if Channel(c) { UpdateCalm(w, c, begin); }
      case TakeReply =>
        if Head(w.desk.filing, READY_LIST) != NIL {
          TakeReplyTraffic(w.desk);
          TrafficCalm(w.desk, w.desk.(filing := TakeReady(w.desk.filing)));
        }
    }
  }

  lemma AttachTraffic(w: World, c: int, generation: int, memory: seq<Byte>)
    ensures SameTraffic(w.desk, Act(w, Attach(c, generation, memory)).desk)
  {
  }

  lemma {:induction false} RunCalm(w: World, actions: seq<Action>)
    requires Steady(w) && Calm(w.desk) && forall i | 0 <= i < |actions| :: !actions[i].Exit?
    ensures Calm(RunOf(w, actions).desk)
    decreases |actions|
  {
    hide Steady, Act, Calm;
    if actions != [] {
      ActSteady(w, actions[0]);
      ActCalm(w, actions[0]);
      RunCalm(Act(w, actions[0]), actions[1..]);
    }
  }

  // One reply for every deferred request, unless its client dies

  /** Nothing was cancelled, and replies were only added. */
  ghost predicate Kept(f: Filing, g: Filing) {
    g.cancelled == f.cancelled && f.replies <= g.replies && f.askers <= g.askers
  }

  lemma {:induction false} PumpKept(d: Desk, q: int, passes: nat)
    requires Sane(d) && Channel(q)
    ensures Kept(d.filing, Pump(d, q, passes).filing)
    decreases passes
  {
    hide Sane, Settled;
    if passes > 0 && !Settled(d, q) {
      StepKeeps(d, q);
      PumpKept(Step(d, q), q, passes - 1);
    }
  }

  lemma {:induction false} PumpAllKept(d: Desk, notices: seq<Notice>, q: nat)
    requires Sane(d)
    ensures Kept(d.filing, PumpAll(d, notices, q).filing)
    decreases CHANNELS - q
  {
    hide Sane, Pump;
    if q < CHANNELS {
      PumpKept(d, q, CHANNELS);
      PumpKeeps(d, q, CHANNELS);
      PumpAllKept(if Reserved(notices, q) > 0 then Pump(d, q, CHANNELS) else d, notices, q + 1);
    }
  }

  lemma ReadWriteKept(w: World, c: int, target: int, operation: Operation, buffer: int, length: int)
    requires Steady(w) && (operation == Read || operation == Write)
    ensures Kept(w.desk.filing, ReadWrite(w.desk, w.clients, c, target, operation, buffer, length).0.filing)
  {
    hide Sane, Coherent, Pump, Park;
    SteadyParts(w);
    ParkKept(w.desk.filing, c, Waiter(operation, target, buffer, length, 0));
    var answer := ReadWrite(w.desk, w.clients, c, target, operation, buffer, length);
    if answer.1 == Done(TRUE) && length > 0 {
      MovedKeeps(w.desk, c, target, operation, buffer, length);
      PumpKept(Moved(w.desk, c, target, operation, buffer, length), target, CHANNELS);
    }
  }

  lemma EventMessageKept(d: Desk, c: int, buffer: int)
    requires Sane(d) && Channel(c)
    ensures Kept(d.filing, EventMessage(d, c, buffer).0.filing)
  {
    hide Sane, Pump;
    if EventMessage(d, c, buffer).1 {
      MovedKeeps(d, c, c, Read, buffer, MESSAGE_BYTES);
      PumpKept(Moved(d, c, c, Read, buffer, MESSAGE_BYTES), c, CHANNELS);
    }
  }

  lemma {:induction false} HandoverKept(f: Filing, l: Lock, clients: seq<Client>, n: nat)
    ensures Kept(f, Handover(f, l, clients, n).0)
    decreases n
  {
    hide Begin, Complete, Head, Stale;
    var c := Head(f, UPDATE_LIST);
    CompleteKept(f, c, FAILED);
    CompleteKept(f, c, TRUE);
    if n == 0 || c == NIL {
      assert Handover(f, l, clients, n) == (f, l);
    } else if Stale(f, clients, c) {
      var g := Complete(f, c, FAILED);
      HandoverKept(g, l, clients, n - 1);
      assert Handover(f, l, clients, n) == Handover(g, l, clients, n - 1);
      assert f.replies <= g.replies <= Handover(f, l, clients, n).0.replies;
      assert f.askers <= g.askers <= Handover(f, l, clients, n).0.askers;
    } else {
      var (l', outcome) := Begin(l, c, ClientAt(clients, c).generation);
      assert Handover(f, l, clients, n) == (if outcome.Taken? then Complete(f, c, TRUE) else f, l');
    }
  }

  /** The ticket of the channel's open request, if it has one. */
  ghost function Owed(f: Filing, c: int): set<nat> {
    if 0 <= c < |f.tickets| && SlotAt(f, c).phase != Free then {f.tickets[c]} else {}
  }

  /** Only the death of a client cancels a request, and only its own. */
  lemma {:induction false} SweepCancels(f: Filing, c: int, i: nat)
    requires Orderly(f) && Channel(c)
    ensures Shaped(f) && f.replies <= Sweep(f, c, i).replies && Sweep(f, c, i).askers == f.askers
    ensures Sweep(f, c, i).cancelled <= f.cancelled + Owed(f, c)
    decreases CHANNELS - i
  {
    hide Orderly, Filed, Unlisted;
    OrderlyParts(f);
    if i < CHANNELS {
      if i == c {
        CancelKeeps(f, i);
      } else if SlotAt(f, i).phase == Waiting && SlotAt(f, i).target == c {
        CompleteKeeps(f, i, FAILED);
      }
      SweepCancels(SweepOne(f, c, i), c, i + 1);
    }
  }

  lemma ExitCancels(w: World, c: int)
    requires Steady(w) && Channel(c)
    ensures w.desk.filing.replies <= Act(w, Exit(c)).desk.filing.replies
    ensures w.desk.filing.askers <= Act(w, Exit(c)).desk.filing.askers
    ensures Act(w, Exit(c)).desk.filing.cancelled <= w.desk.filing.cancelled + Owed(w.desk.filing, c)
  {
    hide Coherent, Handover, Sweep, Vacate;
    SteadyParts(w);
    SweepCancels(w.desk.filing, c, 0);
    var v := w.(desk := Drop(w.desk, c), lock := Vacate(w.lock, c, ClientAt(w.clients, c).generation));
    HandoverKept(v.desk.filing, v.lock, v.clients, |Fifo(v.desk.filing, UPDATE_LIST)|);
  }

  lemma CompleteKept(f: Filing, c: int, result: int)
    ensures Kept(f, Complete(f, c, result))
  {
  }

  lemma UpdateKept(w: World, c: int, begin: bool)
    ensures Kept(w.desk.filing, UpdateCall(w, c, begin).0.desk.filing)
  {
    hide Begin, End, Handover;
    var v := w.(lock := End(w.lock, c, ClientAt(w.clients, c).generation).0);
    HandoverKept(v.desk.filing, v.lock, v.clients, |Fifo(v.desk.filing, UPDATE_LIST)|);
  }

  lemma FinishKept(w: World, c: int, message: Option<int>, result: int)
    requires Steady(w) && Channel(c)
    ensures Kept(w.desk.filing, FinishWait(w.desk, c, message, result).filing)
  {
    hide Coherent, EventMessage, Complete;
    SteadyParts(w);
    var (d', ok) := if message.None? then (w.desk, true) else EventMessage(w.desk, c, message.value);
    if message.Some? {
      EventMessageKept(w.desk, c, message.value);
    }
    CompleteKept(d'.filing, c, if ok then result else FAILED);
  }

  lemma NotifyKept(w: World, notices: seq<Notice>, drawn: bool)
    requires Steady(w)
    ensures Kept(w.desk.filing, Notify(w.desk, w.clients, notices, drawn).0.filing)
  {
    hide Coherent, PumpAll, PostAll;
    SteadyParts(w);
    if Notify(w.desk, w.clients, notices, drawn).1 {
      PostAllSane(w.desk, w.clients, notices);
      PumpAllKept(w.desk.(post := PostAll(w.desk.post, notices)), notices, 0);
    }
  }

  lemma TakeReplyKept(f: Filing)
    ensures Kept(f, TakeReady(f))
  {
  }

  lemma ParkKept(f: Filing, c: int, p: Parked)
    ensures Kept(f, Park(f, c, p))
  {
  }

  /** Together with the accounts that every reachable state keeps: a deferred request that is not open any more was
      answered exactly once, unless a step cancelled it, and that step was the end of the client that made it. */
  lemma ActCancels(w: World, a: Action)
    requires Steady(w)
    ensures w.desk.filing.replies <= Act(w, a).desk.filing.replies
    ensures w.desk.filing.askers <= Act(w, a).desk.filing.askers
    ensures forall t | t in Act(w, a).desk.filing.cancelled && t !in w.desk.filing.cancelled ::
              a.Exit? && Channel(a.c) && t in Owed(w.desk.filing, a.c)
  {
    hide Coherent, ReadWrite, FinishWait, Notify, EventMessage, Begin, UpdateCall, Park, TakeReady, Requests.Exit;
    SteadyParts(w);
    match a {
      case Attach(_, _, _) =>
      case Transfer(c, operation, target, buffer, length) =>
        if operation == Read || operation == Write {
          ReadWriteKept(w, c, target, operation, buffer, length);
        }
      case ReadMessage(c, buffer) => if Channel(c) { EventMessageKept(w.desk, c, buffer); }
      case Hold(c, operation) => ParkKept(w.desk.filing, c, Waiter(operation, c, 0, 0, 0));
      case Finish(c, message, result) => if Channel(c) { FinishKept(w, c, message, result); }
      case Notices(notices, drawn) => NotifyKept(w, notices, drawn);
      case WindUpdate(c, begin) => UpdateKept(w, c, begin);
      case Inner(c, begin) => UpdateKept(w, c, false);
      case TakeReply => TakeReplyKept(w.desk.filing);
      case Exit(c) =>
        if Channel(c) {
          ExitCancels(w, c);
        } else {
          AbsentExit(w, c);
        }
    }
  }

  /** A request is cancelled by nothing but the end of the client that made it. */
  lemma ActSpares(w: World, a: Action, t: nat)
    requires Steady(w) && t < |w.desk.filing.askers| && t !in w.desk.filing.cancelled
    requires a != Exit(w.desk.filing.askers[t])
    ensures t < |Act(w, a).desk.filing.askers| && Act(w, a).desk.filing.askers[t] == w.desk.filing.askers[t]
    ensures t !in Act(w, a).desk.filing.cancelled
  {
    hide Coherent, Act, Owed;
    ActCancels(w, a);
    if t in Act(w, a).desk.filing.cancelled {
      OwedAsked(w, a.c, t);
    }
  }

  lemma OwedAsked(w: World, c: int, t: nat)
    requires Steady(w) && Channel(c) && t in Owed(w.desk.filing, c)
    ensures Asked(w.desk.filing, t, c)
  {
    SteadyParts(w);
    OrderlyParts(w.desk.filing);
  }

  /** One reply bears this ticket, and it went to this channel. */
  ghost predicate AnsweredOnce(f: Filing, t: nat, c: int) {
    exists i | 0 <= i < |f.replies| :: f.replies[i].ticket == t && f.replies[i].channel == c
                                       && forall j | 0 <= j < |f.replies| && j != i :: f.replies[j].ticket != t
  }

  /** Over whole runs: as long as the client that made a request does not end, the request is open, or it was answered
      exactly once, to that client's channel; never both, and never neither. */
  lemma {:induction false} RunAnswers(w: World, actions: seq<Action>, t: nat)
    requires Steady(w) && t < |w.desk.filing.askers| && t !in w.desk.filing.cancelled
    requires Exit(w.desk.filing.askers[t]) !in actions
    ensures var f := RunOf(w, actions).desk.filing;
            && t !in f.cancelled && Asked(f, t, w.desk.filing.askers[t])
            && (Open(f, t) <==> !Replied(f, t)) && (Replied(f, t) <==> AnsweredOnce(f, t, w.desk.filing.askers[t]))
    decreases |actions|
  {
    hide Steady, Act, Open, Replied, AnsweredOnce;
    if actions == [] {
      SteadyAnswers(w, t);
    } else {
      ActSteady(w, actions[0]);
      ActSpares(w, actions[0], t);
      RunAnswers(Act(w, actions[0]), actions[1..], t);
    }
  }

  lemma SteadyAnswers(w: World, t: nat)
    requires Steady(w) && t < |w.desk.filing.askers| && t !in w.desk.filing.cancelled
    ensures var f := w.desk.filing;
            && (Open(f, t) <==> !Replied(f, t)) && (Replied(f, t) <==> AnsweredOnce(f, t, f.askers[t]))
  {
    hide Coherent, Filed, InArrivalOrder;
    SteadyParts(w);
    OrderlyParts(w.desk.filing);
    var f := w.desk.filing;
    assert Once(f, t);
    if Replied(f, t) {
      var i :| 0 <= i < |f.replies| && f.replies[i].ticket == t;
      assert Asked(f, t, f.replies[i].channel);
    }
  }

  // Handing the screen on

  /** The lock went to this contender, at depth one, and its request is answered; it is free when there is none. */
  ghost predicate HandedOn(w: World, h: int) {
    if h == NIL then w.lock.owner == NIL
    else w.lock.owner == h && HolderAt(w.lock, h).depth == 1 && SlotAt(w.desk.filing, h).phase == Ready
         && SlotAt(w.desk.filing, h).result == TRUE
  }

  lemma ProgressHands(w: World)
    requires Coherent(w) && w.lock.owner == NIL
    ensures HandedOn(Progress(w), Head(w.desk.filing, UPDATE_LIST))
    ensures forall d | Channel(d) && d != Head(w.desk.filing, UPDATE_LIST) ::
              SlotAt(Progress(w).desk.filing, d) == SlotAt(w.desk.filing, d)
  {
    hide Coherent, Complete, Handover, Locked, Sane;
    SteadyParts(w);
    BoundContending(w);
    HandoverIs(w.desk.filing, w.lock, w.clients);
    var h := Head(w.desk.filing, UPDATE_LIST);
    if h != NIL {
      CompleteSlots(w.desk.filing, h, TRUE);
    }
  }

  /** The owner ends a level: the last one hands the screen to the oldest contender, and no other request is touched;
      an earlier one only counts down. */
  lemma EndHandsOn(w: World, c: int)
    requires Steady(w) && Channel(c) && w.lock.owner == c
    ensures ClientAt(w.clients, c).attached
    ensures var (w', h, depth) := (UpdateCall(w, c, false).0, Head(w.desk.filing, UPDATE_LIST),
                                   HolderAt(w.lock, c).depth);
            if depth > 1 then w'.desk == w.desk && w'.lock.owner == c && HolderAt(w'.lock, c).depth == depth - 1
            else HandedOn(w', h)
                 && forall d | Channel(d) && d != h :: SlotAt(w'.desk.filing, d) == SlotAt(w.desk.filing, d)
  {
    hide Coherent, Progress, Sane;
    SteadyParts(w);
    assert Bound(w, c) && Consistent(w.lock, c);
    var l := End(w.lock, c, ClientAt(w.clients, c).generation).0;
    assert Bind(w.lock, c, ClientAt(w.clients, c).generation) == w.lock;
    EndCoherent(w, c);
    if HolderAt(w.lock, c).depth == 1 {
      assert l.owner == NIL;
      ProgressHands(w.(lock := l));
    } else {
      ProgressStays(w.(lock := l));
    }
  }

  /** A lock in use is not passed on. */
  lemma ProgressStays(w: World)
    requires Coherent(w) && w.lock.owner != NIL
    ensures Progress(w).desk == w.desk && Progress(w).lock.owner == w.lock.owner
    ensures HolderAt(Progress(w).lock, w.lock.owner) == HolderAt(w.lock, w.lock.owner)
  {
    hide Coherent, Complete, Handover, Locked, Sane;
    SteadyParts(w);
    BoundContending(w);
    HandoverIs(w.desk.filing, w.lock, w.clients);
    if Head(w.desk.filing, UPDATE_LIST) != NIL {
      HeadIs(w.desk.filing, UPDATE_LIST);
    }
  }

  /** However the owner gives the screen up, by its own last call, by a call made for it, or by its end, the oldest
      contender has it next. */
  lemma ActHandsOn(w: World, c: int, a: Action)
    requires Steady(w) && Channel(c) && w.lock.owner == c
    requires || a == Exit(c)
             || ((a == Inner(c, false) || (a == WindUpdate(c, false) && Calls(w, c))) && HolderAt(w.lock, c).depth == 1)
    ensures HandedOn(Act(w, a), Head(w.desk.filing, UPDATE_LIST))
  {
    hide Coherent, UpdateCall, Requests.Exit;
    EndHandsOn(w, c);
    if a == Exit(c) {
      ExitHandsOn(w, c);
    }
  }

  lemma ExitHandsOn(w: World, c: int)
    requires Steady(w) && Channel(c) && w.lock.owner == c && ClientAt(w.clients, c).attached
    ensures HandedOn(Requests.Exit(w, c), Head(w.desk.filing, UPDATE_LIST))
  {
    hide Coherent, Drop, Vacate, Progress, Minus, DoomedBelow, SlotLeft;
    SteadyParts(w);
    var v := w.(desk := Drop(w.desk, c), lock := Vacate(w.lock, c, ClientAt(w.clients, c).generation),
                waiting := Put(w.waiting, c, false));
    DroppedCoherent(w, c);
    VacateHolder(w, c);
    DropDone(w.desk, c);
    OwnerContends(w, c);
    assert Fifo(v.desk.filing, UPDATE_LIST) == Fifo(w.desk.filing, UPDATE_LIST);
    assert Head(v.desk.filing, UPDATE_LIST) == Head(w.desk.filing, UPDATE_LIST);
    ProgressHands(v);
    ProgressWaiting(w.(desk := v.desk, lock := v.lock), v.waiting);
    assert Progress(v) == Progress(w.(desk := v.desk, lock := v.lock)).(waiting := v.waiting);
  }

  /** The owner is not waiting for what it has. */
  lemma OwnerContends(w: World, c: int)
    requires Steady(w) && Channel(c) && w.lock.owner == c
    ensures Shaped(w.desk.filing) && Minus(w.desk.filing.fifos[UPDATE_LIST], c) == w.desk.filing.fifos[UPDATE_LIST]
  {
    hide Coherent;
    SteadyParts(w);
    BoundContending(w);
    MinusAbsent(w.desk.filing.fifos[UPDATE_LIST], c);
  }

  lemma AbsentExit(w: World, c: int)
    requires Steady(w) && !Channel(c)
    ensures Requests.Exit(w, c) == w
  {
    hide Sane, Progress;
    SteadyParts(w);
  }
}
