/** The calls of clients that may be parked, as steps of one state: message queues, the screen lock, the end of a
    client. */
module Requests {
  import opened Links
  import opened Mail
  import opened Parking
  import opened ScreenLock
  import opened Wrappers

  const MESSAGE_BYTES := 16

  datatype Client = Client(attached: bool, generation: int)

  const NOBODY := Client(false, 0)

  /** `waiting` is the socket server's own record of who it owes a reply. */
  datatype World = World(desk: Desk, clients: seq<Client>, lock: Lock, waiting: seq<bool>)

  function ClientAt(clients: seq<Client>, c: int): Client {
    if 0 <= c < |clients| then clients[c] else NOBODY
  }

  datatype Answer = Done(result: int) | Deferred

  // APPL_READ and APPL_WRITE

  /** The slot of a call that has to wait. */
  function Waiter(operation: Operation, target: int, buffer: int, length: int, generation: int): Parked {
    Parked(Waiting, operation, target, buffer, length, generation, 0)
  }

  /** A read or write on a queue: refused, done at once, or parked. */
  ghost function ReadWrite(d: Desk, clients: seq<Client>, c: int, target: int, operation: Operation, buffer: int,
                           length: int): (Desk, Answer)
  {
    var memory := BytesAt(d.post.memory, c);
    if !ClientAt(clients, c).attached || !ClientAt(clients, target).attached then (d, Done(FAILED))
    else if length < 0 || length > QUEUE_BYTES
        || (length > 0 && !InRange(|memory|, buffer, length)) then (d, Done(FAILED))
    else if length == 0 then (d, Done(TRUE))
    else if SlotAt(d.filing, c).phase != Free then (d, Done(FAILED))
    else if operation == Write && length <= QUEUE_BYTES - Level(d, target) then
      (Pump(d.(post := Accept(d.post, target, Fetched(memory, buffer, length))), target, CHANNELS), Done(TRUE))
    else if operation != Write && length <= Level(d, target) then
      (Pump(d.(post := Deliver(d.post, target, c, buffer, length)), target, CHANNELS), Done(TRUE))
    else (d.(filing := Park(d.filing, c, Waiter(operation, target, buffer, length, 0))), Deferred)
  }

  lemma ReadWriteKeeps(d: Desk, clients: seq<Client>, c: int, target: int, operation: Operation, buffer: int,
                       length: int)
    requires Sane(d) && |clients| == CHANNELS && (operation == Read || operation == Write)
    ensures Sane(ReadWrite(d, clients, c, target, operation, buffer, length).0)
  {
    hide Orderly, Refiled, Pump, Conserved, Ranged;
    SaneParts(d);
    var answer := ReadWrite(d, clients, c, target, operation, buffer, length);
    if answer.1 == Deferred {
      var p := Waiter(operation, target, buffer, length, 0);
      ParkKeeps(d.filing, c, p);
      ParkRanged(d, c, p);
      assert answer.0 == d.(filing := Park(d.filing, c, p));
    } else if answer.1 == Done(TRUE) && length > 0 {
      var d' := Moved(d, c, target, operation, buffer, length);
      MovedKeeps(d, c, target, operation, buffer, length);
      PumpKeeps(d', target, CHANNELS);
    }
  }

  /** The state after a read or write that needs not wait, before the pump runs. */
  ghost function Moved(d: Desk, c: int, target: int, operation: Operation, buffer: int, length: int): Desk
    requires length >= 0
  {
    d.(post := if operation == Write then Accept(d.post, target, Fetched(BytesAt(d.post.memory, c), buffer, length))
               else Deliver(d.post, target, c, buffer, length))
  }

  lemma MovedKeeps(d: Desk, c: int, target: int, operation: Operation, buffer: int, length: int)
    requires Sane(d) && Channel(c) && Channel(target) && length >= 0
             && InRange(|BytesAt(d.post.memory, c)|, buffer, length)
    requires operation == Write ==> length <= QUEUE_BYTES - Level(d, target)
    ensures Sane(Moved(d, c, target, operation, buffer, length))
  {
    hide Orderly;
    SaneParts(d);
    if operation == Write {
      AcceptConserves(d.post, target, Fetched(BytesAt(d.post.memory, c), buffer, length));
    } else {
      DeliverConserves(d.post, target, c, buffer, length);
    }
    MovedRanged(d, Moved(d, c, target, operation, buffer, length));
  }

  lemma MovedRanged(d: Desk, d': Desk)
    requires Ranged(d) && d'.filing == d.filing && |d'.post.memory| == |d.post.memory|
    requires forall c | 0 <= c < |d.post.memory| :: |d'.post.memory[c]| == |d.post.memory[c]|
    ensures Ranged(d')
  {
    forall c | Channel(c)
      ensures Fitting(SlotAt(d'.filing, c), |BytesAt(d'.post.memory, c)|)
    {
      assert Fitting(SlotAt(d.filing, c), |BytesAt(d.post.memory, c)|);
    }
  }

  lemma ParkRanged(d: Desk, c: int, p: Parked)
    requires Ranged(d) && Shaped(d.filing) && Fitting(p, |BytesAt(d.post.memory, c)|)
    ensures Ranged(d.(filing := Park(d.filing, c, p)))
  {
    var d' := d.(filing := Park(d.filing, c, p));
    forall b | Channel(b)
      ensures Fitting(SlotAt(d'.filing, b), |BytesAt(d'.post.memory, b)|)
    {
      assert Fitting(SlotAt(d.filing, b), |BytesAt(d.post.memory, b)|);
    }
  }

  /** Neither the oldest reader nor the oldest writer of any queue can move. */
  ghost predicate Calm(d: Desk) {
    forall q | Channel(q) :: Settled(d, q)
  }

  /** What decides whether a queue is settled. */
  lemma SettledSame(d: Desk, d': Desk, q: int)
    requires Settled(d, q) && Level(d', q) == Level(d, q)
    requires Head(d'.filing, ReadList(q)) == Head(d.filing, ReadList(q))
    requires Head(d'.filing, WriteList(q)) == Head(d.filing, WriteList(q))
    requires forall c | c == Head(d.filing, ReadList(q)) || c == Head(d.filing, WriteList(q)) ::
               SlotAt(d'.filing, c).length == SlotAt(d.filing, c).length
    ensures Settled(d', q)
  {
  }

  lemma StepElse(d: Desk, t: int, q: int)
    requires Sane(d) && Channel(t) && Channel(q) && q != t
    ensures BytesAt(Step(d, t).post.queues, q) == BytesAt(d.post.queues, q)
    ensures forall c :: SlotAt(Step(d, t).filing, c).length == SlotAt(d.filing, c).length
  {
    hide Sane, Complete, Settled, Stored, Fetched;
    if !Settled(d, t) {
      ServedIs(d, t);
      CompleteSlots(d.filing, Served(d, t), TRUE);
    } else {
      SettledStep(d, t);
    }
  }

  lemma SettledStep(d: Desk, t: int)
    requires Settled(d, t)
    ensures Step(d, t) == d
  {
  }

  /** The pump on one queue does not touch the others. */
  lemma {:induction false} PumpElse(d: Desk, t: int, passes: nat, q: int)
    requires Sane(d) && Channel(t) && Channel(q) && q != t
    ensures BytesAt(Pump(d, t, passes).post.queues, q) == BytesAt(d.post.queues, q)
    ensures forall c :: SlotAt(Pump(d, t, passes).filing, c).length == SlotAt(d.filing, c).length
    decreases passes
  {
    hide Sane, Step, Settled;
    if passes > 0 && !Settled(d, t) {
      StepElse(d, t, q);
      StepKeeps(d, t);
      PumpElse(Step(d, t), t, passes - 1, q);
    }
  }

  lemma PumpCalm(d: Desk, t: int)
    requires Sane(d) && Channel(t) && forall q | Channel(q) && q != t :: Settled(d, q)
    ensures Calm(Pump(d, t, CHANNELS))
  {
    hide Sane, Pump, Settled;
    PumpSettles(d, t);
    forall q | Channel(q) && q != t
      ensures Settled(Pump(d, t, CHANNELS), q)
    {
      PumpOthers(d, t, q);
    }
  }

  lemma HeadsElse(f: Filing, g: Filing, moves: seq<int>, t: int, q: int)
    requires Shaped(f) && Shaped(g) && Channel(t) && Channel(q) && q != t && FirstCome(f, g, moves, t)
    ensures Head(g, ReadList(q)) == Head(f, ReadList(q)) && Head(g, WriteList(q)) == Head(f, WriteList(q))
  {
  }

  /** Reads and writes leave every queue settled: who is parked could not be served. */
  lemma ReadWriteCalm(d: Desk, clients: seq<Client>, c: int, target: int, operation: Operation, buffer: int,
                      length: int)
    requires Sane(d) && Calm(d) && |clients| == CHANNELS && (operation == Read || operation == Write)
    ensures Calm(ReadWrite(d, clients, c, target, operation, buffer, length).0)
  {
    hide Sane, Orderly, Refiled, Pump, Conserved, Ranged, Calm, Park;
    SaneParts(d);
    var answer := ReadWrite(d, clients, c, target, operation, buffer, length);
    if answer.1 == Deferred {
      ParkCalm(d, c, target, operation, buffer, length);
    } else if answer.1 == Done(TRUE) && length > 0 {
      MovedKeeps(d, c, target, operation, buffer, length);
      MovedCalm(d, c, target, operation, buffer, length);
      PumpCalm(Moved(d, c, target, operation, buffer, length), target);
    }
  }

  lemma MovedCalm(d: Desk, c: int, target: int, operation: Operation, buffer: int, length: int)
    requires Sane(d) && Calm(d) && Channel(c) && Channel(target) && length >= 0
    ensures forall q | Channel(q) && q != target :: Settled(Moved(d, c, target, operation, buffer, length), q)
  {
    hide Sane, Orderly, Conserved, Ranged, Stored, Fetched, Settled;
    var d' := Moved(d, c, target, operation, buffer, length);
    forall q | Channel(q) && q != target
      ensures Settled(d', q)
    {
      SettledSame(d, d', q);
    }
  }

  lemma ParkCalm(d: Desk, c: int, target: int, operation: Operation, buffer: int, length: int)
    requires Sane(d) && Calm(d) && Channel(c) && Channel(target) && d.filing.slots[c].phase == Free
    requires operation == Read || operation == Write
    requires if operation == Write then length > QUEUE_BYTES - Level(d, target) else length > Level(d, target)
    ensures Calm(d.(filing := Park(d.filing, c, Waiter(operation, target, buffer, length, 0))))
  {
    hide Sane, Settled, Park;
    SaneParts(d);
    forall q | Channel(q)
      ensures Settled(d.(filing := Park(d.filing, c, Waiter(operation, target, buffer, length, 0))), q)
    {
      ParkSettled(d, c, target, operation, buffer, length, q);
    }
  }

  lemma ParkSettled(d: Desk, c: int, target: int, operation: Operation, buffer: int, length: int, q: int)
    requires Sane(d) && Settled(d, q) && Channel(q) && Channel(c) && Channel(target) && d.filing.slots[c].phase == Free
    requires operation == Read || operation == Write
    requires if operation == Write then length > QUEUE_BYTES - Level(d, target) else length > Level(d, target)
    ensures Settled(d.(filing := Park(d.filing, c, Waiter(operation, target, buffer, length, 0))), q)
  {
    hide Sane, Orderly, Filed, Refiled, Park;
    var p := Waiter(operation, target, buffer, length, 0);
    SaneParts(d);
    ParkLists(d.filing, c, p, ReadList(q));
    ParkLists(d.filing, c, p, WriteList(q));
    assert Head(d.filing, ReadList(q)) != NIL ==> Head(d.filing, ReadList(q)) in d.filing.fifos[ReadList(q)];
    assert Head(d.filing, WriteList(q)) != NIL ==> Head(d.filing, WriteList(q)) in d.filing.fifos[WriteList(q)];
  }

  lemma ParkLists(f: Filing, c: int, p: Parked, l: int)
    requires Filed(f) && Channel(c) && f.slots[c].phase == Free && 0 <= l < LISTS
    ensures Shaped(f) && Shaped(Park(f, c, p)) && Park(f, c, p).slots == f.slots[c := p]
    ensures Park(f, c, p).fifos[l] == if Home(p) == l then f.fifos[l] + [c] else f.fifos[l]
    ensures c !in f.fifos[l] && forall d | d in f.fifos[l] :: Channel(d)
  {
    FiledMembers(f, c, l);
    var g := f.(tickets := Put(f.tickets, c, |f.askers|), askers := f.askers + [c]);
    RefiledShape(g, c, p);
    assert Unlisted(g, c) == f.fifos;
  }

  lemma FiledMembers(f: Filing, c: int, l: int)
    requires Filed(f) && Channel(c) && f.slots[c].phase == Free && 0 <= l < LISTS
    ensures c !in f.fifos[l] && (forall d | d in f.fifos[l] :: Channel(d)) && Home(SlotAt(f, c)) == NIL && Shaped(f)
  {
  }

  // Messages of the window manager

  type Words = w: seq<Byte> | |w| == MESSAGE_BYTES witness seq(MESSAGE_BYTES, _ => 0)

  /** One message for one generation of a channel's clients. */
  datatype Notice = Notice(owner: int, generation: int, words: Words)

  /** The room the messages need in queue q. */
  function Reserved(notices: seq<Notice>, q: int): nat {
    if notices == [] then 0
    else (if notices[0].owner == q then MESSAGE_BYTES else 0) + Reserved(notices[1..], q)
  }

  /** What the messages add to queue q. */
  function Texts(notices: seq<Notice>, q: int): seq<Byte> {
    if notices == [] then []
    else (if notices[0].owner == q then notices[0].words else []) + Texts(notices[1..], q)
  }

  lemma TextsReserved(notices: seq<Notice>, q: int)
    ensures |Texts(notices, q)| == Reserved(notices, q)
  {
  }

  /** Every addressee is the client the message is meant for, and has room for all its messages. */
  ghost predicate Deliverable(d: Desk, clients: seq<Client>, notices: seq<Notice>) {
    && (forall i | 0 <= i < |notices| ::
          Channel(notices[i].owner) && ClientAt(clients, notices[i].owner) == Client(true, notices[i].generation))
    && (forall q | Channel(q) :: Reserved(notices, q) <= QUEUE_BYTES - Level(d, q))
  }

  ghost function PostAll(m: Post, notices: seq<Notice>): Post
    decreases |notices|
  {
    if notices == [] then m else PostAll(Accept(m, notices[0].owner, notices[0].words), notices[1..])
  }

  /** Pumps every queue that got a message, from channel q on. */
  ghost function PumpAll(d: Desk, notices: seq<Notice>, q: nat): Desk
    decreases CHANNELS - q
  {
    if q >= CHANNELS then d
    else PumpAll(if Reserved(notices, q) > 0 then Pump(d, q, CHANNELS) else d, notices, q + 1)
  }

  /** The messages of one window operation: all are queued, or none. */
  ghost function Notify(d: Desk, clients: seq<Client>, notices: seq<Notice>, drawn: bool): (Desk, bool) {
    if Deliverable(d, clients, notices) && drawn
    then (PumpAll(d.(post := PostAll(d.post, notices)), notices, 0), true)
    else (d, false)
  }

  lemma {:induction false} PostAllIs(m: Post, notices: seq<Notice>, q: int)
    requires Conserved(m) && Channel(q)
    requires forall p | Channel(p) :: Reserved(notices, p) <= QUEUE_BYTES - |BytesAt(m.queues, p)|
    ensures Conserved(PostAll(m, notices)) && PostAll(m, notices).memory == m.memory
    ensures PostAll(m, notices).accepted[q] == BytesAt(m.accepted, q) + Texts(notices, q)
    ensures BytesAt(PostAll(m, notices).queues, q) == BytesAt(m.queues, q) + Texts(notices, q)
    decreases |notices|
  {
    if notices != [] {
      var n := notices[0];
      if Channel(n.owner) {
        assert Reserved(notices, n.owner) >= MESSAGE_BYTES;
        AcceptConserves(m, n.owner, n.words);
      }
      PostAllIs(Accept(m, n.owner, n.words), notices[1..], q);
    }
  }

  lemma PostAllSane(d: Desk, clients: seq<Client>, notices: seq<Notice>)
    requires Sane(d) && Deliverable(d, clients, notices)
    ensures Sane(d.(post := PostAll(d.post, notices)))
  {
    hide Orderly;
    SaneParts(d);
    PostAllIs(d.post, notices, 0);
    MovedRanged(d, d.(post := PostAll(d.post, notices)));
  }

  lemma {:induction false} PumpAllKeeps(d: Desk, notices: seq<Notice>, q: nat)
    requires Sane(d)
    ensures Sane(PumpAll(d, notices, q))
    decreases CHANNELS - q
  {
    hide Sane, Pump;
    if q < CHANNELS {
      var d' := if Reserved(notices, q) > 0 then Pump(d, q, CHANNELS) else d;
      PumpKeeps(d, q, CHANNELS);
      PumpAllKeeps(d', notices, q + 1);
    }
  }

  lemma NotifyKeeps(d: Desk, clients: seq<Client>, notices: seq<Notice>, drawn: bool)
    requires Sane(d)
    ensures Sane(Notify(d, clients, notices, drawn).0)
  {
    hide Sane;
    if Notify(d, clients, notices, drawn).1 {
      PostAllSane(d, clients, notices);
      PumpAllKeeps(d.(post := PostAll(d.post, notices)), notices, 0);
    }
  }

  /** A pump only adds to what a queue accepted. */
  lemma {:induction false} PumpAccepts(d: Desk, t: int, passes: nat, q: int)
    requires Sane(d) && Channel(t) && Channel(q)
    ensures BytesAt(d.post.accepted, q) <= BytesAt(Pump(d, t, passes).post.accepted, q)
    decreases passes
  {
    hide Sane, Settled, Complete, Fetched;
    if passes > 0 && !Settled(d, t) {
      StepKeeps(d, t);
      PumpAccepts(Step(d, t), t, passes - 1, q);
    }
  }

  lemma {:induction false} PumpAllAccepts(d: Desk, notices: seq<Notice>, t: nat, q: int)
    requires Sane(d) && Channel(q)
    ensures BytesAt(d.post.accepted, q) <= BytesAt(PumpAll(d, notices, t).post.accepted, q)
    decreases CHANNELS - t
  {
    hide Sane, Pump;
    if t < CHANNELS {
      var d' := if Reserved(notices, t) > 0 then Pump(d, t, CHANNELS) else d;
      PumpAccepts(d, t, CHANNELS, q);
      PumpKeeps(d, t, CHANNELS);
      PumpAllAccepts(d', notices, t + 1, q);
    }
  }

  /** All or nothing: when the call reports success every addressee's queue took all its messages, in order and right
      behind what was there; otherwise nothing changed at all. */
  lemma NotifyAllOrNone(d: Desk, clients: seq<Client>, notices: seq<Notice>, drawn: bool, q: int)
    requires Sane(d) && Channel(q)
    ensures var (d', ok) := Notify(d, clients, notices, drawn);
            if ok then BytesAt(d.post.accepted, q) + Texts(notices, q) <= BytesAt(d'.post.accepted, q) else d' == d
  {
    hide Sane;
    SaneParts(d);
    if Notify(d, clients, notices, drawn).1 {
      PostAllSane(d, clients, notices);
      PostAllIs(d.post, notices, q);
      PumpAllAccepts(d.(post := PostAll(d.post, notices)), notices, 0, q);
    }
  }

  /** Pumping the queues that got messages settles them all again. */
  lemma {:induction false} PumpAllCalm(d: Desk, notices: seq<Notice>, t: nat)
    requires Sane(d) && t <= CHANNELS
    requires forall q | Channel(q) && (q < t || Reserved(notices, q) == 0) :: Settled(d, q)
    ensures Calm(PumpAll(d, notices, t))
    decreases CHANNELS - t
  {
    hide Sane, Pump, Settled;
    if t < CHANNELS {
      var d' := if Reserved(notices, t) > 0 then Pump(d, t, CHANNELS) else d;
      PumpKeeps(d, t, CHANNELS);
      forall q | Channel(q) && (q < t + 1 || Reserved(notices, q) == 0)
        ensures Settled(d', q)
      {
        if q == t {
          PumpSettles(d, t);
        } else {
          PumpOthers(d, t, q);
        }
      }
      PumpAllCalm(d', notices, t + 1);
    }
  }

  lemma PumpOthers(d: Desk, t: int, q: int)
    requires Sane(d) && Channel(t) && Channel(q) && q != t && Settled(d, q)
    ensures Settled(Pump(d, t, CHANNELS), q)
  {
    hide Sane, Pump, Settled, Shaped;
    PumpFirstCome(d, t, CHANNELS);
    PumpElse(d, t, CHANNELS, q);
    HeadsElse(d.filing, Pump(d, t, CHANNELS).filing, Moves(d, t, CHANNELS), t, q);
    SettledSame(d, Pump(d, t, CHANNELS), q);
  }

  lemma NotifyCalm(d: Desk, clients: seq<Client>, notices: seq<Notice>, drawn: bool)
    requires Sane(d) && Calm(d)
    ensures Calm(Notify(d, clients, notices, drawn).0)
  {
    hide Sane, Settled;
    SaneParts(d);
    if Notify(d, clients, notices, drawn).1 {
      var d' := d.(post := PostAll(d.post, notices));
      PostAllSane(d, clients, notices);
      forall q | Channel(q) && Reserved(notices, q) == 0
        ensures Settled(d', q)
      {
        PostAllIs(d.post, notices, q);
        TextsReserved(notices, q);
        SettledSame(d, d', q);
      }
      PumpAllCalm(d', notices, 0);
    }
  }

  // Event messages

  /** Hands the oldest 16-byte message of its queue to a client, if there is one and its buffer can take it. */
  ghost function EventMessage(d: Desk, c: int, buffer: int): (Desk, bool) {
    if InRange(|BytesAt(d.post.memory, c)|, buffer, MESSAGE_BYTES) && Level(d, c) >= MESSAGE_BYTES
    then (Pump(Moved(d, c, c, Read, buffer, MESSAGE_BYTES), c, CHANNELS), true) else (d, false)
  }

  /** Ends a parked wait for events; `message` is the buffer for the message it waited for, if it did. */
  ghost function FinishWait(d: Desk, c: int, message: Option<int>, result: int): Desk {
    if message.None? then d.(filing := Complete(d.filing, c, result))
    else
      var (d', ok) := EventMessage(d, c, message.value);
      d'.(filing := Complete(d'.filing, c, if ok then result else FAILED))
  }

  // Passing on the screen lock

  /** The contender is not the client any more that asked for the lock. */
  predicate Stale(f: Filing, clients: seq<Client>, c: int) {
    !ClientAt(clients, c).attached || ClientAt(clients, c).generation != SlotAt(f, c).generation
  }

  /** Gives the lock to the oldest contender, failing those whose client is gone; n is how many there are. */
  ghost function Handover(f: Filing, l: Lock, clients: seq<Client>, n: nat): (Filing, Lock)
    decreases n
  {
    var c := Head(f, UPDATE_LIST);
    if n == 0 || c == NIL then (f, l)
    else if Stale(f, clients, c) then Handover(Complete(f, c, FAILED), l, clients, n - 1)
    else
      var (l', outcome) := Begin(l, c, ClientAt(clients, c).generation);
      (if outcome.Taken? then Complete(f, c, TRUE) else f, l')
  }

  ghost function Progress(w: World): World {
    var (f, l) := Handover(w.desk.filing, w.lock, w.clients, |Fifo(w.desk.filing, UPDATE_LIST)|);
    w.(desk := w.desk.(filing := f), lock := l)
  }

  /** WIND_UPDATE: taking the lock may have to wait, giving it back hands it on. */
  ghost function UpdateCall(w: World, c: int, begin: bool): (World, Answer) {
    var g := ClientAt(w.clients, c).generation;
    if !ClientAt(w.clients, c).attached then (w, Done(FAILED))
    else if begin then
      var (l, outcome) := Begin(w.lock, c, g);
      var w' := w.(lock := l);
      if outcome.Taken? then (w', Done(TRUE))
      else if outcome.Full? then (w', Done(FALSE))
      else if SlotAt(w.desk.filing, c).phase != Free then (w', Done(FAILED))
      else (w'.(desk := w.desk.(filing := Park(w.desk.filing, c, Waiter(Operation.Update, c, 0, 0, g)))), Deferred)
    else
      var (l, ok) := End(w.lock, c, g);
      var w' := w.(lock := l);
      if ok then (Progress(w'), Done(TRUE)) else (w', Done(FALSE))
  }

  // The end of a client

  /** What the death of client c means for slot i. */
  ghost function SweepOne(f: Filing, c: int, i: int): Filing {
    var p := SlotAt(f, i);
    if i == c then Cancel(f, i)
    else if p.phase == Waiting && p.target == c then Complete(f, i, FAILED)
    else f
  }

  ghost function Sweep(f: Filing, c: int, i: nat): Filing
    decreases CHANNELS - i
  {
    if i >= CHANNELS then f else Sweep(SweepOne(f, c, i), c, i + 1)
  }

  /** The queue of a dead client is emptied, and its history starts anew. */
  function Emptied(m: Post, c: int): Post {
    m.(queues := Put(m.queues, c, []), accepted := Put(m.accepted, c, []), delivered := Put(m.delivered, c, []))
  }

  ghost function Drop(d: Desk, c: int): Desk {
    var f := Sweep(d.filing, c, 0);
    Desk(f.(fifos := Put(Put(f.fifos, ReadList(c), []), WriteList(c), [])), Emptied(d.post, c))
  }

  ghost function Exit(w: World, c: int): World {
    if !ClientAt(w.clients, c).attached then w
    else
      var w' := Progress(w.(desk := Drop(w.desk, c), lock := Vacate(w.lock, c, ClientAt(w.clients, c).generation)));
      w'.(clients := Put(w.clients, c, NOBODY), waiting := Put(w.waiting, c, false))
  }

  /** Queues and the lists of their readers and writers are the same, and so is what those want. */
  ghost predicate SameTraffic(d: Desk, d': Desk) {
    && (forall q | Channel(q) :: Level(d', q) == Level(d, q))
    && (forall l | 0 <= l < UPDATE_LIST :: Fifo(d'.filing, l) == Fifo(d.filing, l))
    && (forall l, c | 0 <= l < UPDATE_LIST && c in Fifo(d.filing, l) ::
          SlotAt(d'.filing, c).length == SlotAt(d.filing, c).length)
  }

  lemma TrafficCalm(d: Desk, d': Desk)
    requires Calm(d) && SameTraffic(d, d')
    ensures Calm(d')
  {
    forall q | Channel(q)
      ensures Settled(d', q)
    {
      var (r, w) := (Fifo(d.filing, ReadList(q)), Fifo(d.filing, WriteList(q)));
      assert (r != [] ==> r[0] in r) && (w != [] ==> w[0] in w);
      SettledSame(d, d', q);
    }
  }
}
