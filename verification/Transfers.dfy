/** What the calls that move bytes do to queues and memory, byte by byte. */
module Transfers {
  import opened Links
  import opened Mail
  import opened Parking
  import opened Protocol
  import opened Requests
  import opened ScreenLock
  import opened Wrappers

  /** Memory as before but for this data at this place. */
  ghost predicate Overlaid(memory: seq<Byte>, memory': seq<Byte>, offset: int, data: seq<Byte>) {
    && |memory'| == |memory| && 0 <= offset && offset + |data| <= |memory|
    && (forall k | 0 <= k < |data| :: memory'[offset + k] == data[k])
    && forall k | 0 <= k < |memory| && !(offset <= k < offset + |data|) :: memory'[k] == memory[k]
  }

  lemma StoredIs(memory: seq<Byte>, offset: int, data: seq<Byte>)
    requires InRange(|memory|, offset, |data|)
    ensures Overlaid(memory, Stored(memory, offset, data), offset, data)
  {
  }

  /** Memory as before outside these bytes. */
  ghost predicate OnlyIn(memory: seq<Byte>, memory': seq<Byte>, offset: int, count: int) {
    |memory'| == |memory| && forall k | 0 <= k < |memory| && !(offset <= k < offset + count) :: memory'[k] == memory[k]
  }

  /** Client b was left alone, or its parked call on queue q was finished with TRUE; only a read wrote to its memory,
      and only to its buffer. */
  ghost predicate LeftOrServed(d: Desk, d': Desk, q: int, b: int) {
    var (p, p') := (SlotAt(d.filing, b), SlotAt(d'.filing, b));
    var (m, m') := (BytesAt(d.post.memory, b), BytesAt(d'.post.memory, b));
    if p' == p then m' == m
    else
      && p.phase == Waiting && p.target == q && p' == p.(phase := Ready, result := 1)
      && (p.operation == Read || (p.operation == Write && m' == m)) && OnlyIn(m, m', p.buffer, p.length)
  }

  lemma StepServes(d: Desk, q: int, b: int)
    requires Sane(d) && Channel(q) && Channel(b) && !Settled(d, q)
    ensures LeftOrServed(d, Step(d, q), q, b)
    ensures b != Served(d, q) ==> SlotAt(Step(d, q).filing, b) == SlotAt(d.filing, b)
    ensures b == Served(d, q) ==> SlotAt(d.filing, b).phase == Waiting && SlotAt(Step(d, q).filing, b).phase == Ready
  {
    hide Orderly, Filed, Complete;
    SaneParts(d);
    ServedIs(d, q);
    var c := Served(d, q);
    var p := d.filing.slots[c];
    CompleteSlots(d.filing, c, TRUE);
    assert Fitting(SlotAt(d.filing, c), |BytesAt(d.post.memory, c)|);
    if ReaderCan(d, q) {
      StoredIs(d.post.memory[c], p.buffer, d.post.queues[q][..p.length]);
    }
  }

  /** The pump leaves a client alone or serves it once. */
  lemma {:induction false} PumpServes(d: Desk, q: int, passes: nat, b: int)
    requires Sane(d) && Channel(q) && Channel(b)
    ensures LeftOrServed(d, Pump(d, q, passes), q, b)
    ensures SlotAt(d.filing, b).phase != Waiting ==> SlotAt(Pump(d, q, passes).filing, b) == SlotAt(d.filing, b)
    decreases passes
  {
    hide Sane, Step, Settled, Served;
    if passes > 0 && !Settled(d, q) {
      StepKeeps(d, q);
      StepServes(d, q, b);
      PumpServes(Step(d, q), q, passes - 1, b);
    }
  }

  /** Queue q took `sent` and gave `got`, and then what the writers and readers in `served` sent and got, all of whom
      are now on the ready list in that order; other queues are as they were. */
  ghost predicate QueueMoved(d: Desk, d': Desk, q: int, sent: seq<Byte>, got: seq<Byte>, served: seq<int>) {
    && BytesAt(d'.post.accepted, q)
       == BytesAt(d.post.accepted, q) + sent + Chunks(d.filing.slots, d'.post.memory, served, Write)
    && BytesAt(d'.post.delivered, q)
       == BytesAt(d.post.delivered, q) + got + Chunks(d.filing.slots, d'.post.memory, served, Read)
    && Fifo(d'.filing, READY_LIST) == Fifo(d.filing, READY_LIST) + served
    && BytesAt(d'.post.accepted, q) == BytesAt(d'.post.delivered, q) + BytesAt(d'.post.queues, q)
    && forall p | Channel(p) && p != q ::
         && BytesAt(d'.post.queues, p) == BytesAt(d.post.queues, p)
         && BytesAt(d'.post.accepted, p) == BytesAt(d.post.accepted, p)
         && BytesAt(d'.post.delivered, p) == BytesAt(d.post.delivered, p)
  }

  ghost predicate Carried(d: Desk, d': Desk, q: int, sent: seq<Byte>, got: seq<Byte>) {
    exists served :: QueueMoved(d, d', q, sent, got, served)
  }

  /** Client c wrote these bytes of its memory to queue q at once. */
  ghost predicate Written(d: Desk, d': Desk, c: int, q: int, buffer: int, length: int) {
    var memory := BytesAt(d.post.memory, c);
    && 0 <= buffer && 0 <= length && buffer + length <= |memory|
    && Carried(d, d', q, memory[buffer..buffer + length], [])
    && BytesAt(d'.post.memory, c) == memory && SlotAt(d'.filing, c) == SlotAt(d.filing, c)
    && forall b | Channel(b) && b != c :: LeftOrServed(d, d', q, b)
  }

  /** Client c read so many bytes from the front of queue q at once, to its buffer and nowhere else. */
  ghost predicate ReadIn(d: Desk, d': Desk, c: int, q: int, buffer: int, length: int) {
    var queue := BytesAt(d.post.queues, q);
    && 0 <= length <= |queue| && Carried(d, d', q, [], queue[..length])
    && Overlaid(BytesAt(d.post.memory, c), BytesAt(d'.post.memory, c), buffer, queue[..length])
    && SlotAt(d'.filing, c) == SlotAt(d.filing, c)
    && forall b | Channel(b) && b != c :: LeftOrServed(d, d', q, b)
  }

  /** The client has no read or write parked. */
  predicate Idle(f: Filing, c: int) {
    SlotAt(f, c).phase != Waiting || (SlotAt(f, c).operation != Read && SlotAt(f, c).operation != Write)
  }

  lemma QueueOthers(d: Desk, d1: Desk, q: int, p: int)
    requires Sane(d1) && Channel(q) && Channel(p) && p != q
    requires BytesAt(d1.post.queues, p) == BytesAt(d.post.queues, p)
    requires BytesAt(d1.post.accepted, p) == BytesAt(d.post.accepted, p)
    requires BytesAt(d1.post.delivered, p) == BytesAt(d.post.delivered, p)
    ensures var d' := Pump(d1, q, CHANNELS);
            && BytesAt(d'.post.queues, p) == BytesAt(d.post.queues, p)
            && BytesAt(d'.post.accepted, p) == BytesAt(d.post.accepted, p)
            && BytesAt(d'.post.delivered, p) == BytesAt(d.post.delivered, p)
  {
    PumpPosts(d1, q, CHANNELS, p);
  }

  lemma {:induction false} PumpPosts(d: Desk, q: int, passes: nat, p: int)
    requires Sane(d) && Channel(q) && p != q
    ensures var d' := Pump(d, q, passes);
            && BytesAt(d'.post.queues, p) == BytesAt(d.post.queues, p)
            && BytesAt(d'.post.accepted, p) == BytesAt(d.post.accepted, p)
            && BytesAt(d'.post.delivered, p) == BytesAt(d.post.delivered, p)
    decreases passes
  {
    hide Sane, Settled, Complete;
    if passes > 0 && !Settled(d, q) {
      StepKeeps(d, q);
      PumpPosts(Step(d, q), q, passes - 1, p);
    }
  }

  lemma PumpQueue(d: Desk, q: int)
    requires Sane(d) && Channel(q)
    ensures var d' := Pump(d, q, CHANNELS);
            var served := Moves(d, q, CHANNELS);
            && BytesAt(d'.post.accepted, q)
               == BytesAt(d.post.accepted, q) + Chunks(d.filing.slots, d'.post.memory, served, Write)
            && BytesAt(d'.post.delivered, q)
               == BytesAt(d.post.delivered, q) + Chunks(d.filing.slots, d'.post.memory, served, Read)
            && Fifo(d'.filing, READY_LIST) == Fifo(d.filing, READY_LIST) + served
            && BytesAt(d'.post.accepted, q) == BytesAt(d'.post.delivered, q) + BytesAt(d'.post.queues, q)
  {
    hide Sane, Pump, Moves, Chunks;
    PumpBytes(d, q, CHANNELS);
    PumpFirstCome(d, q, CHANNELS);
  }

  lemma WritesNow(d: Desk, c: int, q: int, buffer: int, length: int)
    requires Sane(d) && Channel(c) && Channel(q) && Idle(d.filing, c) && 0 <= length <= QUEUE_BYTES - Level(d, q)
    requires InRange(|BytesAt(d.post.memory, c)|, buffer, length)
    ensures Written(d, Pump(Moved(d, c, q, Write, buffer, length), q, CHANNELS), c, q, buffer, length)
  {
    hide Orderly, Pump, Moves, Chunks;
    var d1 := Moved(d, c, q, Write, buffer, length);
    SaneParts(d);
    MovedKeeps(d, c, q, Write, buffer, length);
    PumpQueue(d1, q);
    forall p | Channel(p) && p != q
      ensures BytesAt(Pump(d1, q, CHANNELS).post.queues, p) == BytesAt(d.post.queues, p)
      ensures BytesAt(Pump(d1, q, CHANNELS).post.accepted, p) == BytesAt(d.post.accepted, p)
      ensures BytesAt(Pump(d1, q, CHANNELS).post.delivered, p) == BytesAt(d.post.delivered, p)
    {
      QueueOthers(d, d1, q, p);
    }
    assert QueueMoved(d, Pump(d1, q, CHANNELS), q, d.post.memory[c][buffer..buffer + length], [],
                      Moves(d1, q, CHANNELS));
    forall b | Channel(b)
      ensures LeftOrServed(d, Pump(d1, q, CHANNELS), q, b)
    {
      PumpServes(d1, q, CHANNELS, b);
    }
  }

  lemma ReadsNow(d: Desk, c: int, q: int, buffer: int, length: int)
    requires Sane(d) && Channel(c) && Channel(q) && Idle(d.filing, c) && 0 <= length <= Level(d, q)
    requires InRange(|BytesAt(d.post.memory, c)|, buffer, length)
    ensures ReadIn(d, Pump(Moved(d, c, q, Read, buffer, length), q, CHANNELS), c, q, buffer, length)
  {
    hide Orderly, Pump, Stored, Moves, Chunks;
    var d1 := Moved(d, c, q, Read, buffer, length);
    SaneParts(d);
    MovedKeeps(d, c, q, Read, buffer, length);
    PumpQueue(d1, q);
    StoredIs(d.post.memory[c], buffer, d.post.queues[q][..length]);
    forall p | Channel(p) && p != q
      ensures BytesAt(Pump(d1, q, CHANNELS).post.queues, p) == BytesAt(d.post.queues, p)
      ensures BytesAt(Pump(d1, q, CHANNELS).post.accepted, p) == BytesAt(d.post.accepted, p)
      ensures BytesAt(Pump(d1, q, CHANNELS).post.delivered, p) == BytesAt(d.post.delivered, p)
    {
      QueueOthers(d, d1, q, p);
    }
    PumpServes(d1, q, CHANNELS, c);
    assert QueueMoved(d, Pump(d1, q, CHANNELS), q, [], d.post.queues[q][..length], Moves(d1, q, CHANNELS));
    forall b | Channel(b) && b != c
      ensures LeftOrServed(d, Pump(d1, q, CHANNELS), q, b)
    {
      PumpServes(d1, q, CHANNELS, b);
    }
  }

  // Which calls are refused, done or parked

  /** Both clients are there, a queue could hold the bytes, and the buffer is in the caller's memory. */
  ghost predicate Admissible(d: Desk, clients: seq<Client>, c: int, target: int, buffer: int, length: int) {
    && ClientAt(clients, c).attached && ClientAt(clients, target).attached && 0 <= length <= 128
    && (length == 0 || (0 <= buffer && buffer + length <= |BytesAt(d.post.memory, c)|))
  }

  /** The queue has room for all of a write, or all bytes of a read. */
  ghost predicate AtOnce(d: Desk, target: int, operation: Operation, length: int) {
    var queue := BytesAt(d.post.queues, target);
    if operation == Write then |queue| + length <= 128 else length <= |queue|
  }

  /** A request is parked behind those that wait for the same. */
  ghost predicate ParkedLast(f: Filing, f': Filing, c: int, p: Parked, l: int) {
    && Shaped(f) && Shaped(f') && Channel(c) && 0 <= l < LISTS
    && f'.slots == f.slots[c := p] && f'.tickets == f.tickets[c := |f.askers|] && f'.askers == f.askers + [c]
    && f'.fifos == f.fifos[l := f.fifos[l] + [c]] && f'.replies == f.replies && f'.cancelled == f.cancelled
  }

  lemma ParksLast(f: Filing, c: int, p: Parked)
    requires Orderly(f) && Channel(c) && f.slots[c].phase == Free && p.phase == Waiting && 0 <= Home(p) < LISTS
    ensures ParkedLast(f, Park(f, c, p), c, p, Home(p))
  {
    hide Orderly, Park;
    OrderlyParts(f);
    forall l | 0 <= l < LISTS
      ensures |Park(f, c, p).fifos| == LISTS
      ensures Park(f, c, p).fifos[l] == if Home(p) == l then f.fifos[l] + [c] else f.fifos[l]
    {
      ParkLists(f, c, p, l);
    }
    ParkRecords(f, c, p);
  }

  lemma ParkRecords(f: Filing, c: int, p: Parked)
    requires Shaped(f) && Channel(c)
    ensures var f' := Park(f, c, p);
            && Shaped(f') && f'.slots == f.slots[c := p] && f'.tickets == f.tickets[c := |f.askers|]
            && f'.askers == f.askers + [c] && f'.replies == f.replies && f'.cancelled == f.cancelled
  {
  }

  /** Every read or write: refused with -1, done at once with 1, or parked; what it does in each case. */
  lemma TransferIs(d: Desk, clients: seq<Client>, c: int, target: int, operation: Operation, buffer: int, length: int)
    requires Sane(d) && |clients| == CHANNELS && (operation == Read || operation == Write)
    ensures var (d', answer) := ReadWrite(d, clients, c, target, operation, buffer, length);
            if !Admissible(d, clients, c, target, buffer, length) || (length > 0 && SlotAt(d.filing, c).phase != Free)
            then d' == d && answer == Done(-1)
            else if length == 0 then d' == d && answer == Done(1)
            else if AtOnce(d, target, operation, length) then
              && answer == Done(1)
              && if operation == Write then Written(d, d', c, target, buffer, length)
                 else ReadIn(d, d', c, target, buffer, length)
            else
              && answer == Deferred && d'.post == d.post
              && ParkedLast(d.filing, d'.filing, c, Parked(Waiting, operation, target, buffer, length, 0, 0),
                            if operation == Write then 6 + target else target)
  {
    hide Orderly, Pump, Park, Written, ReadIn, ParkedLast;
    SaneParts(d);
    if Admissible(d, clients, c, target, buffer, length) && length > 0 && SlotAt(d.filing, c).phase == Free {
      if AtOnce(d, target, operation, length) {
        if operation == Write {
          WritesNow(d, c, target, buffer, length);
        } else {
          ReadsNow(d, c, target, buffer, length);
        }
      } else {
        ParksLast(d.filing, c, Waiter(operation, target, buffer, length, 0));
      }
    }
  }

  lemma CallsFree(w: World, c: int)
    requires Steady(w) && Calls(w, c)
    ensures SlotAt(w.desk.filing, c).phase == Free && Sane(w.desk) && |w.clients| == |w.waiting| == CHANNELS
    ensures ClientAt(w.clients, c).attached
  {
    SteadyParts(w);
    assert Bound(w, c);
  }

  /** The same for the step of a client in any reachable state: it is owed a reply exactly when its call was parked. */
  lemma ActTransfers(w: World, c: int, operation: Operation, target: int, buffer: int, length: int)
    requires Steady(w) && Calls(w, c) && (operation == Read || operation == Write)
    ensures var w' := Act(w, Transfer(c, operation, target, buffer, length));
            var (d, d') := (w.desk, w'.desk);
            && w'.clients == w.clients && w'.lock == w.lock && |w.waiting| == 6
            && if !Admissible(d, w.clients, c, target, buffer, length) || length == 0 then w' == w
               else if AtOnce(d, target, operation, length) then
                 && w'.waiting == w.waiting
                 && if operation == Write then Written(d, d', c, target, buffer, length)
                    else ReadIn(d, d', c, target, buffer, length)
               else
                 && w'.waiting == w.waiting[c := true] && d'.post == d.post
                 && ParkedLast(d.filing, d'.filing, c, Parked(Waiting, operation, target, buffer, length, 0, 0),
                               if operation == Write then 6 + target else target)
  {
    hide Coherent, ReadWrite, Written, ReadIn, ParkedLast;
    CallsFree(w, c);
    TransferIs(w.desk, w.clients, c, target, operation, buffer, length);
  }

  // Messages of events

  lemma MessageIs(d: Desk, c: int, buffer: int)
    requires Sane(d) && Channel(c) && Idle(d.filing, c)
    ensures var (d', ok) := EventMessage(d, c, buffer);
            && (ok <==> |BytesAt(d.post.queues, c)| >= 16 && 0 <= buffer
                        && buffer + 16 <= |BytesAt(d.post.memory, c)|)
            && if ok then ReadIn(d, d', c, c, buffer, 16) else d' == d
  {
    hide Sane, Pump, ReadIn;
    if EventMessage(d, c, buffer).1 {
      ReadsNow(d, c, c, buffer, 16);
    }
  }

  /** EVNT_MESAG with a whole message at hand reads sixteen bytes; else it does nothing. */
  lemma ActReadsMessage(w: World, c: int, buffer: int)
    requires Steady(w) && Calls(w, c)
    ensures var (w', d) := (Act(w, ReadMessage(c, buffer)), w.desk);
            if |BytesAt(d.post.queues, c)| >= 16 && 0 <= buffer && buffer + 16 <= |BytesAt(d.post.memory, c)|
            then w' == w.(desk := w'.desk) && ReadIn(d, w'.desk, c, c, buffer, 16) else w' == w
  {
    hide Coherent, EventMessage, ReadIn;
    CallsFree(w, c);
    MessageIs(w.desk, c, buffer);
  }

  /** A parked call was finished with this result and is last on the ready list; nothing else changed. */
  ghost predicate FinishedLast(d: Desk, d': Desk, c: int, result: int) {
    && Shaped(d.filing) && Channel(c) && d'.post == d.post
    && d'.filing == d.filing.(slots := d.filing.slots[c := d.filing.slots[c].(phase := Ready, result := result)],
                              fifos := d.filing.fifos[READY_LIST := d.filing.fifos[READY_LIST] + [c]])
  }

  lemma FinishesLast(d: Desk, c: int, result: int)
    requires Sane(d) && Channel(c) && Held(SlotAt(d.filing, c))
    ensures FinishedLast(d, d.(filing := Complete(d.filing, c, result)), c, result)
  {
    hide Orderly, Minus;
    SaneParts(d);
    var f := d.filing;
    var p := f.slots[c].(phase := Ready, result := result);
    assert Refiled(f, c, p).fifos == f.fifos[READY_LIST := f.fifos[READY_LIST] + [c]];
  }

  /** The input tick finishes a wait: one that waited for a message gets sixteen bytes of it first, and fails with -1
      when it cannot. */
  lemma ActFinishes(w: World, c: int, message: Option<int>, result: int)
    requires Steady(w) && Channel(c) && Held(SlotAt(w.desk.filing, c))
    ensures var (w', d) := (Act(w, Finish(c, message, result)), w.desk);
            w' == w.(desk := w'.desk)
            && if message.None? then FinishedLast(d, w'.desk, c, result)
               else if |BytesAt(d.post.queues, c)| >= 16 && 0 <= message.value
                       && message.value + 16 <= |BytesAt(d.post.memory, c)| then
                 exists d1 :: ReadIn(d, d1, c, c, message.value, 16) && FinishedLast(d1, w'.desk, c, result)
               else FinishedLast(d, w'.desk, c, -1)
  {
    hide Coherent, EventMessage, ReadIn, Complete, FinishedLast;
    SteadyParts(w);
    if message.None? {
      FinishesLast(w.desk, c, result);
    } else {
      MessageIs(w.desk, c, message.value);
      var (d1, ok) := EventMessage(w.desk, c, message.value);
      if ok {
        EventMessageKeeps(w.desk, c, message.value);
        assert ReadIn(w.desk, d1, c, c, message.value, 16);
        ReadInSlot(w.desk, d1, c, message.value);
        FinishesLast(d1, c, result);
      } else {
        FinishesLast(w.desk, c, FAILED);
      }
    }
  }

  lemma ReadInSlot(d: Desk, d1: Desk, c: int, buffer: int)
    requires ReadIn(d, d1, c, c, buffer, 16)
    ensures SlotAt(d1.filing, c) == SlotAt(d.filing, c)
  {
  }

  lemma EventMessageKeeps(d: Desk, c: int, buffer: int)
    requires Sane(d) && Channel(c)
    ensures Sane(EventMessage(d, c, buffer).0)
  {
    hide Sane, Pump;
    if EventMessage(d, c, buffer).1 {
      MovedKeeps(d, c, c, Read, buffer, MESSAGE_BYTES);
      PumpKeeps(Moved(d, c, c, Read, buffer, MESSAGE_BYTES), c, CHANNELS);
    }
  }

  // What a settled queue means

  /** The oldest reader of the queue wants more than is there, and the oldest writer sends more than there is room
      for. */
  ghost predicate Starved(d: Desk, q: int) {
    var (level, readers, writers) := (|BytesAt(d.post.queues, q)|, Fifo(d.filing, q), Fifo(d.filing, 6 + q));
    && (readers != [] ==> SlotAt(d.filing, readers[0]).length > level)
    && (writers != [] ==> level + SlotAt(d.filing, writers[0]).length > 128)
  }

  lemma SettledStarved(d: Desk, q: int)
    requires Sane(d) && Channel(q)
    ensures Settled(d, q) <==> Starved(d, q)
  {
    hide Orderly;
    SaneParts(d);
    HeadNone(d.filing, ReadList(q));
    HeadNone(d.filing, WriteList(q));
  }

  // Messages of window operations

  /** How many of the messages are for channel q. */
  function Count(notices: seq<Notice>, q: int): nat {
    if notices == [] then 0 else (if notices[0].owner == q then 1 else 0) + Count(notices[1..], q)
  }

  lemma {:induction false} ReservedCount(notices: seq<Notice>, q: int)
    ensures Reserved(notices, q) == 16 * Count(notices, q)
  {
    if notices != [] {
      ReservedCount(notices[1..], q);
    }
  }

  /** The messages are sent exactly when drawing went well, each is for the client that now has its channel, and every
      queue has room for sixteen bytes for each of its messages; otherwise nothing changes. */
  lemma NotifySucceeds(d: Desk, clients: seq<Client>, notices: seq<Notice>, drawn: bool)
    requires |clients| == CHANNELS
    ensures var (d', ok) := Notify(d, clients, notices, drawn);
            && (ok <==>
                && drawn
                && (forall n | n in notices ::
                      0 <= n.owner < 6 && clients[n.owner].attached && clients[n.owner].generation == n.generation)
                && forall q | 0 <= q < 6 :: |BytesAt(d.post.queues, q)| + 16 * Count(notices, q) <= 128)
            && (!ok ==> d' == d)
  {
    hide PumpAll, PostAll;
    forall q
      ensures Reserved(notices, q) == 16 * Count(notices, q)
    {
      ReservedCount(notices, q);
    }
    assert forall i | 0 <= i < |notices| :: notices[i] in notices;
  }

  // One pass of the pump

  /** The oldest reader is served if the queue holds what it wants; else the oldest writer if there is room; else
      nobody. */
  lemma PassIs(d: Desk, q: int)
    requires Sane(d) && Channel(q)
    ensures var (level, readers, writers) := (|BytesAt(d.post.queues, q)|, Fifo(d.filing, q), Fifo(d.filing, 6 + q));
            Moves(d, q, 1) == if readers != [] && SlotAt(d.filing, readers[0]).length <= level then [readers[0]]
                              else if writers != [] && level + SlotAt(d.filing, writers[0]).length <= 128
                                  then [writers[0]]
                              else []
  {
    hide Orderly, Step;
    SaneParts(d);
    HeadNone(d.filing, ReadList(q));
    HeadNone(d.filing, WriteList(q));
    assert Moves(d, q, 1) == if Settled(d, q) then [] else [Served(d, q)] + Moves(Step(d, q), q, 0);
  }

  /** The pump is its passes one after the other. */
  lemma PumpPasses(d: Desk, q: int, n: nat)
    ensures Pump(d, q, n + 1) == Pump(Pump(d, q, 1), q, n)
  {
  }
}
