/** The resident server's request tables in place: slots, queues, client memory, attachments and the screen lock. */
module Exchange {
  import opened Departure
  import opened Links
  import opened Mail
  import opened Parking
  import opened Pending
  import opened Protocol
  import opened Queues
  import opened Requests
  import opened ScreenLock
  import opened Wrappers

  class Exchange {
    const slots: Slots
    const queues: Queues
    const memory: array<seq<Byte>>
    const clients: array<Client>
    const holders: array<Holder>
    const waiting: array<bool>
    var owner: int
    ghost var grants: seq<Grant>

    /** Slots, queues and the memory of the clients. */
    ghost function DeskNow(): (d: Desk)
      reads slots, slots.slots, queues, queues.bytes, queues.fill, memory
    {
      Desk(slots.State(), Post(queues.Held(), memory[..], queues.accepted, queues.delivered))
    }

    ghost function LockNow(): Lock
      reads this`owner, this`grants, holders
    {
      Lock(owner, holders[..], grants)
    }

    ghost function WorldNow(): (w: World)
      reads this`owner, this`grants, holders, slots, slots.slots, queues, queues.bytes, queues.fill, memory, clients,
            waiting
    {
      World(DeskNow(), clients[..], LockNow(), waiting[..])
    }

    /** The tables are well formed and the requests in them in order. */
    ghost predicate Ready()
      reads slots, slots.slots, slots.ends, queues, queues.bytes, queues.fill, memory
    {
      slots.Valid() && queues.Valid() && memory.Length == CHANNELS && Sane(DeskNow())
    }

    ghost predicate Valid()
      reads this`owner, this`grants, holders, slots, slots.slots, slots.ends, queues, queues.bytes, queues.fill, memory,
            clients, waiting
    {
      Ready() && Steady(WorldNow())
    }

    constructor ()
      ensures Valid() && WorldNow() == Start()
    {
      slots := new Slots();
      queues := new Queues();
      memory := new seq<Byte>[CHANNELS](_ => []);
      clients := new Client[CHANNELS](_ => Requests.NOBODY);
      holders := new Holder[CHANNELS](_ => NOT_BOUND);
      waiting := new bool[CHANNELS](_ => false);
      owner, grants := NIL, [];
      new;
      Begun();
    }

    lemma Begun()
      requires slots.Valid() && queues.Valid() && slots.State() == Start().desk.filing
      requires queues.Held() == queues.accepted == queues.delivered == seq(CHANNELS, _ => [])
      requires memory.Length == clients.Length == holders.Length == waiting.Length == CHANNELS && owner == NIL
               && grants == []
      requires forall c | Channel(c) ::
                 memory[c] == [] && clients[c] == Requests.NOBODY && holders[c] == NOT_BOUND && !waiting[c]
      ensures Valid() && WorldNow() == Start()
    {
      hide Steady, Sane, Threads, Contents, Orderly;
      assert memory[..] == seq(CHANNELS, _ => []);
      assert clients[..] == seq(CHANNELS, _ => Requests.NOBODY);
      assert holders[..] == seq(CHANNELS, _ => NOT_BOUND);
      assert waiting[..] == seq(CHANNELS, _ => false);
      assert DeskNow() == Start().desk && LockNow() == Start().lock;
      StartSteady();
      StartSane();
    }

    lemma ReadyParts(c: int)
      requires Ready() && Channel(c)
      ensures slots.Valid() && queues.Valid() && memory.Length == CHANNELS && slots.slots.Length == CHANNELS
      ensures Sane(DeskNow()) && Filed(DeskNow().filing) && Conserved(DeskNow().post)
      ensures SlotAt(DeskNow().filing, c) == slots.slots[c].data && BytesAt(DeskNow().post.memory, c) == memory[c]
      ensures queues.fill.Length == CHANNELS && queues.fill[c] == Level(DeskNow(), c)
    {
      slots.SlotNow(c);
      queues.Filled(c);
      SaneParts(DeskNow());
    }

    lemma ReadyHead(l: int)
      requires Ready() && 0 <= l < LISTS
      ensures slots.ends.Length == LISTS && slots.ends[l].head == Head(DeskNow().filing, l)
      ensures slots.ends[l].head != NIL ==> Channel(slots.ends[l].head)
    {
      slots.HeadNow(l);
    }

    // The pump

    /** Serves the oldest parked reader of a queue, if the queue holds enough for it. */
    method ServeReader(q: int) returns (moved: bool)
      requires Ready() && Channel(q)
      modifies slots, slots.slots, slots.ends, queues, queues.bytes, queues.fill, memory
      ensures Ready() && moved == ReaderCan(old(DeskNow()), q)
      ensures DeskNow() == if moved then ReadDone(old(DeskNow()), q) else old(DeskNow())
    {
      hide Sane, Home, Filed, Threads, Contents, Complete, Deliver, ReadDone, ReaderCan, Stored, Loose, Conserved,
           Refiled;
      ReadyParts(q);
      ReadyHead(ReadList(q));
      var c := slots.ends[ReadList(q)].head;
      ReaderCanIs(DeskNow(), q);
      moved := false;
      if c != NIL {
        ReadyParts(c);
        var p := slots.slots[c].data;
        moved := p.length <= queues.fill[q];
        if moved {
          ghost var d := DeskNow();
          StepKeeps(d, q);
          ReadDoneIs(d, q);
          var _ := slots.Pop(ReadList(q));
          var data := queues.Dequeue(q, p.length);
          memory[c] := Stored(memory[c], p.buffer, data);
          slots.Finish(c, TRUE);
          assert memory[..] == Put(d.post.memory, c, memory[c]);
        }
      }
    }

    /** Serves the oldest parked writer of a queue, if the queue has room for what it sends. */
    method ServeWriter(q: int) returns (moved: bool)
      requires Ready() && Channel(q)
      modifies slots, slots.slots, slots.ends, queues, queues.bytes, queues.fill
      ensures Ready() && moved == WriterCan(old(DeskNow()), q)
      ensures DeskNow() == if moved then WriteDone(old(DeskNow()), q) else old(DeskNow())
    {
      hide Sane, Home, Filed, Threads, Contents, Complete, Accept, WriteDone, WriterCan, Loose, Conserved, Refiled;
      ReadyParts(q);
      ReadyHead(WriteList(q));
      var c := slots.ends[WriteList(q)].head;
      WriterCanIs(DeskNow(), q);
      moved := false;
      if c != NIL {
        ReadyParts(c);
        var p := slots.slots[c].data;
        moved := p.length <= QUEUE_BYTES - queues.fill[q];
        if moved {
          ghost var d := DeskNow();
          WriterKeeps(d, q);
          WriteDoneIs(d, q);
          var _ := slots.Pop(WriteList(q));
          queues.Enqueue(q, Fetched(memory[c], p.buffer, p.length));
          slots.Finish(c, TRUE);
        }
      }
    }

    /** Finishes parked reads and writes of a queue in turn, until neither the oldest reader nor the oldest writer can
        move; at most six passes, for no more than six clients can wait. */
    method QueueProgress(q: int)
      requires Ready() && Channel(q)
      modifies slots, slots.slots, slots.ends, queues, queues.bytes, queues.fill, memory
      ensures Ready() && DeskNow() == Pump(old(DeskNow()), q, CHANNELS)
    {
      hide Ready, DeskNow, Pump, Settled, Step;
      var passes, moved := CHANNELS, true;
      while passes > 0 && moved
        invariant 0 <= passes <= CHANNELS && Ready()
        invariant Pump(old(DeskNow()), q, CHANNELS) == if moved then Pump(DeskNow(), q, passes) else DeskNow()
      {
        PumpOnce(DeskNow(), q, passes);
        moved := ServeReader(q);
        if !moved {
          moved := ServeWriter(q);
        }
        passes := passes - 1;
      }
      PumpNone(DeskNow(), q);
    }

    // APPL_READ and APPL_WRITE

    /** A client reads from or writes to the queue of another: refused, done at once, or parked. */
    method MoveBytes(c: int, operation: Operation, target: int, buffer: int, length: int) returns (answer: Answer)
      requires Ready() && clients.Length == CHANNELS && Channel(c) && (operation == Read || operation == Write)
      modifies slots, slots.slots, slots.ends, queues, queues.bytes, queues.fill, memory
      ensures Ready()
      ensures (DeskNow(), answer) == ReadWrite(old(DeskNow()), clients[..], c, target, operation, buffer, length)
    {
      hide Ready, DeskNow, Pump, Sane, Parking.Park, Accept, Deliver, Stored, Fetched, InRange;
      ReadyParts(c);
      ghost var d := DeskNow();
      ReadWriteKeeps(d, clients[..], c, target, operation, buffer, length);
      if !clients[c].attached || !(0 <= target < CHANNELS) || !clients[target].attached || length < 0
          || length > QUEUE_BYTES
         || (length > 0 && !InRange(|memory[c]|, buffer, length)) {
        return Done(FAILED);
      }
      if length == 0 {
        return Done(TRUE);
      }
      if slots.slots[c].data.phase != Free {
        return Done(FAILED);
      }
      ReadyParts(target);
      if operation == Write && length <= QUEUE_BYTES - queues.fill[target] {
        Send(c, target, buffer, length);
        QueueProgress(target);
        return Done(TRUE);
      }
      if operation == Read && length <= queues.fill[target] {
        Receive(c, target, buffer, length);
        QueueProgress(target);
        return Done(TRUE);
      }
      Defer(c, Waiter(operation, target, buffer, length, 0));
      return Deferred;
    }

    /** Copies a client's buffer to the end of a queue. */
    method Send(c: int, target: int, buffer: int, length: nat)
      requires Ready() && Channel(c) && Channel(target) && InRange(|BytesAt(DeskNow().post.memory, c)|, buffer, length)
      requires length <= QUEUE_BYTES - Level(DeskNow(), target)
      modifies queues, queues.bytes, queues.fill
      ensures Ready() && DeskNow() == Moved(old(DeskNow()), c, target, Write, buffer, length)
    {
      hide Sane, Contents, Stored, Deliver;
      ReadyParts(c);
      ReadyParts(target);
      MovedKeeps(DeskNow(), c, target, Write, buffer, length);
      queues.Enqueue(target, Fetched(memory[c], buffer, length));
    }

    /** Moves the front of a queue to a client's buffer. */
    method Receive(c: int, target: int, buffer: int, length: nat)
      requires Ready() && Channel(c) && Channel(target) && InRange(|BytesAt(DeskNow().post.memory, c)|, buffer, length)
      requires length <= Level(DeskNow(), target)
      modifies queues, queues.bytes, queues.fill, memory
      ensures Ready() && DeskNow() == Moved(old(DeskNow()), c, target, Read, buffer, length)
    {
      hide Sane, Contents, Stored, Accept;
      ReadyParts(c);
      ReadyParts(target);
      ghost var d := DeskNow();
      MovedKeeps(d, c, target, Read, buffer, length);
      var data := queues.Dequeue(target, length);
      memory[c] := Stored(memory[c], buffer, data);
      assert memory[..] == Put(d.post.memory, c, memory[c]);
    }

    /** Parks a call, on the list it belongs on. */
    method Defer(c: int, p: Parked)
      requires Ready() && Channel(c) && SlotAt(DeskNow().filing, c).phase == Free && p.phase == Waiting
               && Targeted(p, c)
      requires Fitting(p, |BytesAt(DeskNow().post.memory, c)|)
      modifies slots, slots.slots, slots.ends
      ensures Ready()
      ensures DeskNow() == old(DeskNow()).(filing := Parking.Park(old(DeskNow()).filing, c, p))
    {
      hide Sane, Contents, Threads, Filed, Parking.Park;
      ReadyParts(c);
      ghost var d := DeskNow();
      DeferKeeps(d, c, p);
      slots.Park(c, p, Home(p));
    }

    /** Takes the oldest slot off a list and finishes it. */
    method PopFinish(l: int, c: int, result: int)
      requires Ready() && 0 <= l < READY_LIST && c == Head(DeskNow().filing, l) && c != NIL
      modifies slots, slots.slots, slots.ends
      ensures Ready() && DeskNow() == old(DeskNow()).(filing := Complete(old(DeskNow()).filing, c, result))
    {
      hide Sane, Home, Filed, Threads, Contents, Complete, Loose, Conserved, Refiled;
      ReadyParts(0);
      ReadyHead(l);
      HeadComplete(DeskNow().filing, l, c, result);
      HeadFinishKeeps(DeskNow(), l, c, result);
      var _ := slots.Pop(l);
      slots.Finish(c, result);
    }

    // The screen lock

    method BindHolder(c: int, generation: int)
      requires holders.Length == CHANNELS && Channel(c)
      modifies this`owner, this`grants, holders
      ensures LockNow() == Bind(old(LockNow()), c, generation)
    {
      if !(holders[c].active && holders[c].generation == generation) {
        if owner == c {
          owner := NIL;
        }
        holders[c] := Holder(true, generation, 0);
        grants := grants + [Vacated(c)];
      }
    }

    method BeginLock(c: int, generation: int) returns (outcome: Outcome)
      requires holders.Length == CHANNELS && Channel(c)
      modifies this`owner, this`grants, holders
      ensures (LockNow(), outcome) == Begin(old(LockNow()), c, generation)
    {
      BindHolder(c, generation);
      if owner != NIL && owner != c {
        return Refused;
      }
      if holders[c].depth == DEPTH_MAX {
        return Full;
      }
      owner := c;
      holders[c] := holders[c].(depth := holders[c].depth + 1);
      grants := grants + [Granted(c)];
      return Taken;
    }

    method EndLock(c: int, generation: int) returns (ok: bool)
      requires holders.Length == CHANNELS && Channel(c)
      modifies this`owner, this`grants, holders
      ensures (LockNow(), ok) == End(old(LockNow()), c, generation)
    {
      BindHolder(c, generation);
      if owner != c || holders[c].depth == 0 {
        return false;
      }
      holders[c] := holders[c].(depth := holders[c].depth - 1);
      if holders[c].depth == 0 {
        owner := NIL;
      }
      grants := grants + [Ended(c)];
      return true;
    }

    method VacateLock(c: int, generation: int)
      requires holders.Length == CHANNELS && Channel(c)
      modifies this`owner, this`grants, holders
      ensures LockNow() == Vacate(old(LockNow()), c, generation)
    {
      if holders[c].active && holders[c].generation == generation {
        if owner == c {
          owner := NIL;
        }
        holders[c] := NOT_BOUND;
        grants := grants + [Vacated(c)];
      }
    }

    /** Gives the lock to the oldest contender whose client is still the one that asked; the others are failed. */
    method UpdateProgress()
      requires Ready() && clients.Length == holders.Length == CHANNELS
      modifies slots, slots.slots, slots.ends, this`owner, this`grants, holders
      ensures Ready()
      ensures WorldNow() == Progress(old(WorldNow()))
    {
      hide Ready, Sane, Handover, Complete, Begin, Stale;
      ghost var w := WorldNow();
      ghost var n := |Fifo(DeskNow().filing, UPDATE_LIST)|;
      ghost var goal := Handover(DeskNow().filing, LockNow(), clients[..], n);
      var more := true;
      while more
        invariant Ready() && clients[..] == w.clients && waiting[..] == w.waiting && DeskNow().post == w.desk.post
        invariant more ==> n == |Fifo(DeskNow().filing, UPDATE_LIST)|
        invariant goal == if more then Handover(DeskNow().filing, LockNow(), clients[..], n)
                          else (DeskNow().filing, LockNow())
        decreases more, n
      {
        more := Offer(n);
        n := if more then n - 1 else n;
      }
    }

    /** Offers the lock to the oldest contender; whether the next one is to be asked. */
    method Offer(ghost n: nat) returns (more: bool)
      requires Ready() && clients.Length == holders.Length == CHANNELS && n == |Fifo(DeskNow().filing, UPDATE_LIST)|
      modifies slots, slots.slots, slots.ends, this`owner, this`grants, holders
      ensures Ready() && DeskNow().post == old(DeskNow().post)
      ensures more ==> n > 0 && n - 1 == |Fifo(DeskNow().filing, UPDATE_LIST)|
      ensures old(Handover(DeskNow().filing, LockNow(), clients[..], n))
              == if more then Handover(DeskNow().filing, LockNow(), clients[..], n - 1)
                  else (DeskNow().filing, LockNow())
    {
      hide Ready, Sane, Complete, Begin;
      ReadyHead(UPDATE_LIST);
      ReadyParts(0);
      var c := slots.ends[UPDATE_LIST].head;
      HeadNone(DeskNow().filing, UPDATE_LIST);
      if c == NIL {
        return false;
      }
      ReadyParts(c);
      if !clients[c].attached || clients[c].generation != slots.slots[c].data.generation {
        HeadFinished(DeskNow().filing, UPDATE_LIST, FAILED);
        PopFinish(UPDATE_LIST, c, FAILED);
        return true;
      }
      var outcome := BeginLock(c, clients[c].generation);
      if outcome.Taken? {
        PopFinish(UPDATE_LIST, c, TRUE);
      }
      return false;
    }

    // The steps of the protocol

    lemma ValidParts(c: int)
      requires Valid()
      ensures Ready() && Steady(WorldNow()) && Coherent(WorldNow())
      ensures clients.Length == holders.Length == waiting.Length == CHANNELS
      ensures Channel(c) ==> ClientAt(WorldNow().clients, c) == clients[c] && WorldNow().waiting[c] == waiting[c]
    {
      SteadyParts(WorldNow());
      assert |WorldNow().clients| == clients.Length && |WorldNow().waiting| == waiting.Length;
      assert |WorldNow().lock.holders| == holders.Length;
    }

    /** APPL_INIT of a client that has just connected. */
    method AttachClient(c: int, generation: int, segment: seq<Byte>) returns (ok: bool)
      requires Valid()
      modifies clients, memory
      ensures Valid() && WorldNow() == Act(old(WorldNow()), Attach(c, generation, segment))
      ensures ok == (Channel(c) && c != AES_CHANNEL && !ClientAt(old(clients[..]), c).attached)
    {
      hide Sane, Steady, Contents, Threads;
      ValidParts(c);
      ok := false;
      if Channel(c) && c != AES_CHANNEL && !clients[c].attached {
        ghost var w := WorldNow();
        AttachSteady(w, c, generation, segment);
        ReadyParts(c);
        clients[c] := Client(true, generation);
        memory[c] := segment;
        assert memory[..] == Put(w.desk.post.memory, c, segment);
        assert clients[..] == Put(w.clients, c, Client(true, generation));
        SteadySane(WorldNow());
        ok := true;
      }
    }

    /** APPL_READ or APPL_WRITE, as the socket server takes it from a client. */
    method ReadOrWrite(c: int, operation: Operation, target: int, buffer: int, length: int) returns (answer: Answer)
      requires Valid() && Calls(WorldNow(), c) && (operation == Read || operation == Write)
      modifies slots, slots.slots, slots.ends, queues, queues.bytes, queues.fill, memory, waiting
      ensures Valid() && WorldNow() == Act(old(WorldNow()), Transfer(c, operation, target, buffer, length))
      ensures answer == ReadWrite(old(DeskNow()), old(clients[..]), c, target, operation, buffer, length).1
    {
      hide Ready, Steady, DeskNow, ReadWrite;
      ValidParts(c);
      TransferSteady(WorldNow(), c, target, operation, buffer, length);
      answer := MoveBytes(c, operation, target, buffer, length);
      Owe(c, answer);
    }

    /** The server notes whether it owes a client a reply. */
    method Owe(c: int, answer: Answer)
      requires waiting.Length == CHANNELS && Channel(c)
      modifies waiting
      ensures waiting[..] == if answer.Deferred? then Put(old(waiting[..]), c, true) else old(waiting[..])
    {
      if answer.Deferred? {
        waiting[c] := true;
      }
    }

    /** A message a client waits for, when its queue holds one. */
    method Message(c: int, buffer: int) returns (ok: bool)
      requires Ready() && Channel(c)
      modifies slots, slots.slots, slots.ends, queues, queues.bytes, queues.fill, memory
      ensures Ready() && (DeskNow(), ok) == EventMessage(old(DeskNow()), c, buffer)
    {
      hide Ready, DeskNow, Sane, Moved, Pump;
      ReadyParts(c);
      ok := InRange(|memory[c]|, buffer, MESSAGE_BYTES) && queues.fill[c] >= MESSAGE_BYTES;
      if ok {
        Receive(c, c, buffer, MESSAGE_BYTES);
        QueueProgress(c);
      }
    }

    /** EVNT_MESAG with a message at hand. */
    method MessageNow(c: int, buffer: int) returns (ok: bool)
      requires Valid() && Calls(WorldNow(), c)
      modifies slots, slots.slots, slots.ends, queues, queues.bytes, queues.fill, memory
      ensures Valid() && WorldNow() == Act(old(WorldNow()), ReadMessage(c, buffer))
      ensures ok == EventMessage(old(DeskNow()), c, buffer).1
    {
      hide Ready, Steady, DeskNow, EventMessage;
      ValidParts(c);
      ReadMessageSteady(WorldNow(), c, buffer);
      ok := Message(c, buffer);
    }

    /** Parks a call that only the input tick can finish. */
    method HoldCall(c: int, operation: Operation)
      requires Valid() && Calls(WorldNow(), c) && Held(Waiter(operation, c, 0, 0, 0))
      requires SlotAt(WorldNow().desk.filing, c).phase == Free
      modifies slots, slots.slots, slots.ends, waiting
      ensures Valid() && WorldNow() == Act(old(WorldNow()), Hold(c, operation))
    {
      hide Ready, Steady, DeskNow, Parking.Park, Fitting;
      ValidParts(c);
      HoldSteady(WorldNow(), c, operation);
      HeldFits(operation, c, |BytesAt(DeskNow().post.memory, c)|);
      Defer(c, Waiter(operation, c, 0, 0, 0));
      Owe(c, Deferred);
    }

    /** The input tick finishes a parked wait; one that waited for a message gets it, or a failure. */
    method FinishCall(c: int, message: Option<int>, result: int)
      requires Valid() && Channel(c) && Held(SlotAt(WorldNow().desk.filing, c))
      modifies slots, slots.slots, slots.ends, queues, queues.bytes, queues.fill, memory
      ensures Valid() && WorldNow() == Act(old(WorldNow()), Finish(c, message, result))
    {
      hide Ready, Steady, DeskNow, EventMessage, Complete, Held;
      ValidParts(c);
      FinishSteady(WorldNow(), c, message, result);
      ghost var w := WorldNow();
      var outcome := result;
      if message.Some? {
        var ok := Message(c, message.value);
        if !ok {
          outcome := FAILED;
        }
        MessageSpares(w, c, message.value);
      }
      FinishHeld(c, outcome);
    }

    /** A request that is on no list but the ready list is finished. */
    method FinishHeld(c: int, result: int)
      requires Ready() && Channel(c) && Held(SlotAt(DeskNow().filing, c))
      modifies slots, slots.slots, slots.ends
      ensures Ready() && DeskNow() == old(DeskNow()).(filing := Complete(old(DeskNow()).filing, c, result))
    {
      hide Sane, Filed, Threads, Contents, Complete, Conserved, Refiled;
      ReadyParts(c);
      HeldComplete(DeskNow(), c, result);
      slots.Finish(c, result);
    }

    /** WIND_UPDATE. */
    method UpdateLock(c: int, begin: bool) returns (answer: Answer)
      requires Valid() && Calls(WorldNow(), c)
      modifies slots, slots.slots, slots.ends, this`owner, this`grants, holders, waiting
      ensures Valid() && WorldNow() == Act(old(WorldNow()), WindUpdate(c, begin))
      ensures answer == UpdateCall(old(WorldNow()), c, begin).1
    {
      hide Ready, Steady, DeskNow, Begin, End, Progress, Parking.Park, Fitting;
      ValidParts(c);
      UpdateSteady(WorldNow(), c, begin);
      if begin {
        answer := BeginOrWait(c);
        Owe(c, answer);
      } else {
        answer := EndUpdate(c);
      }
    }

    method BeginOrWait(c: int) returns (answer: Answer)
      requires Ready() && clients.Length == holders.Length == CHANNELS && Channel(c) && clients[c].attached
      modifies slots, slots.slots, slots.ends, this`owner, this`grants, holders
      ensures Ready() && (WorldNow(), answer) == UpdateCall(old(WorldNow()), c, true)
    {
      hide Ready, DeskNow, Begin, Parking.Park, Fitting;
      var generation := clients[c].generation;
      var outcome := BeginLock(c, generation);
      if outcome.Taken? {
        return Done(TRUE);
      }
      if outcome.Full? {
        return Done(FALSE);
      }
      ReadyParts(c);
      if slots.slots[c].data.phase != Free {
        return Done(FAILED);
      }
      UpdateFits(c, generation, |BytesAt(DeskNow().post.memory, c)|);
      Defer(c, Waiter(Operation.Update, c, 0, 0, generation));
      return Deferred;
    }

    method EndUpdate(c: int) returns (answer: Answer)
      requires Ready() && clients.Length == holders.Length == CHANNELS && Channel(c) && clients[c].attached
      modifies slots, slots.slots, slots.ends, this`owner, this`grants, holders
      ensures Ready() && (WorldNow(), answer) == UpdateCall(old(WorldNow()), c, false)
    {
      hide Ready, DeskNow, End, Progress;
      var ok := EndLock(c, clients[c].generation);
      if ok {
        UpdateProgress();
        return Done(TRUE);
      }
      return Done(FALSE);
    }

    /** The form and tracker managers take and release the lock for a client; they do not wait for it. */
    method InnerUpdate(c: int, begin: bool) returns (ok: bool)
      requires Valid() && Channel(c) && ClientAt(WorldNow().clients, c).attached
      modifies slots, slots.slots, slots.ends, this`owner, this`grants, holders
      ensures Valid() && WorldNow() == Act(old(WorldNow()), Inner(c, begin))
      ensures ok == if begin then Begin(old(LockNow()), c, ClientAt(old(clients[..]), c).generation).1.Taken?
                    else UpdateCall(old(WorldNow()), c, false).1 == Done(TRUE)
    {
      hide Ready, Steady, DeskNow, Begin, UpdateCall;
      ValidParts(c);
      if begin {
        BeginSteady(WorldNow(), c);
        var outcome := BeginLock(c, clients[c].generation);
        return outcome.Taken?;
      }
      EndSteady(WorldNow(), c);
      var answer := EndUpdate(c);
      return answer == Done(TRUE);
    }

    /** The server sends the oldest finished reply. */
    method SendReply() returns (c: int, result: int)
      requires Valid()
      modifies slots, slots.slots, slots.ends, waiting
      ensures Valid() && WorldNow() == Act(old(WorldNow()), TakeReply)
      ensures c == Head(old(DeskNow()).filing, READY_LIST)
      ensures c != NIL ==> result == SlotAt(old(DeskNow()).filing, c).result
    {
      hide *;
      ChannelIs(0);
      ValidParts(0);
      WorldIs();
      ghost var w := WorldNow();
      TakeReplySteady(w);
      TakeReplyIs(w);
      c, result := TakeFiling();
      WorldIs();
      if c != NIL {
        PutIs(waiting[..], c, false);
        waiting[c] := false;
        WorldIs();
      }
      Conclude(Act(w, TakeReply));
    }

    method TakeFiling() returns (c: int, result: int)
      requires Ready()
      modifies slots, slots.slots, slots.ends
      ensures Ready() && c == Head(old(DeskNow()).filing, READY_LIST) && (c != NIL ==> 0 <= c < CHANNELS)
      ensures c != NIL ==> result == SlotAt(old(DeskNow()).filing, c).result
      ensures DeskNow() == if c == NIL then old(DeskNow())
                           else old(DeskNow()).(filing := Parking.TakeReady(old(DeskNow()).filing))
    {
      hide Sane, Contents, Threads, Filed, Parking.TakeReady;
      ReadyParts(0);
      ReadyHead(READY_LIST);
      TakenSane(DeskNow());
      TakeNone(DeskNow().filing);
      c, result := slots.TakeReady();
    }

    // Messages of the window manager

    /** Sends the messages of one window operation: first room is reserved for all of them, then, if drawing went
        well, they are queued and the queues pumped. */
    method ApplyEffects(notices: seq<Notice>, drawn: bool) returns (ok: bool)
      requires Valid()
      modifies slots, slots.slots, slots.ends, queues, queues.bytes, queues.fill, memory
      ensures Valid() && WorldNow() == Act(old(WorldNow()), Notices(notices, drawn))
      ensures ok == Notify(old(DeskNow()), old(clients[..]), notices, drawn).1
    {
      hide Ready, Steady, DeskNow, Deliverable, PostAll, PumpAll;
      ValidParts(0);
      NoticesSteady(WorldNow(), notices, drawn);
      var reserved;
      ok, reserved := Reserve(notices);
      ok := ok && drawn;
      if ok {
        ghost var d := DeskNow();
        QueueNotices(notices);
        PumpNotices(notices, reserved, d);
      }
    }

    /** The room each queue needs for the messages, and whether all of them can be delivered. */
    method Reserve(notices: seq<Notice>) returns (ok: bool, reserved: array<int>)
      requires Ready() && clients.Length == CHANNELS
      ensures ok == Deliverable(DeskNow(), clients[..], notices)
      ensures fresh(reserved) && reserved.Length == CHANNELS
      ensures ok ==> forall q | 0 <= q < CHANNELS :: reserved[q] == Reserved(notices, q)
    {
      hide *;
      ChannelIs(0);
      reserved := new int[CHANNELS](_ => 0);
      LevelsFit();
      ReserveStart(DeskNow(), clients[..], notices, reserved[..]);
      ok := true;
      var i := 0;
      while i < |notices| && ok
        modifies reserved
        invariant 0 <= i <= |notices|
        invariant ok ==> Reserving(DeskNow(), clients[..], notices, i, reserved[..])
        invariant !ok ==> !Deliverable(DeskNow(), clients[..], notices)
      {
        var n := notices[i];
        ChannelIs(n.owner);
        ReserveStep(DeskNow(), clients[..], notices, i, reserved[..]);
        if !Channel(n.owner) || clients[n.owner] != Client(true, n.generation) {
          ok := false;
        } else {
          ReadyParts(n.owner);
          ghost var was := reserved[..];
          reserved[n.owner] := reserved[n.owner] + MESSAGE_BYTES;
          assert reserved[..] == was[n.owner := was[n.owner] + MESSAGE_BYTES];
          ok := reserved[n.owner] <= QUEUE_BYTES - queues.fill[n.owner];
        }
        i := i + 1;
      }
      if ok {
        ReserveEnd(DeskNow(), clients[..], notices, reserved[..]);
      }
    }

    lemma LevelsFit()
      requires Ready()
      ensures forall q | 0 <= q < CHANNELS :: Level(DeskNow(), q) <= QUEUE_BYTES
    {
      ReadyParts(0);
    }

    method QueueNotices(notices: seq<Notice>)
      requires Ready() && clients.Length == CHANNELS && Deliverable(DeskNow(), clients[..], notices)
      modifies queues, queues.bytes, queues.fill
      ensures Ready() && DeskNow() == old(DeskNow()).(post := PostAll(old(DeskNow()).post, notices))
    {
      hide Ready, DeskNow, PostAll;
      ghost var d := DeskNow();
      for i := 0 to |notices|
        invariant Ready() && Deliverable(DeskNow(), clients[..], notices[i..])
        invariant DeskNow().filing == d.filing && PostAll(DeskNow().post, notices[i..]) == PostAll(d.post, notices)
      {
        QueueStep(DeskNow(), clients[..], notices[i..]);
        assert notices[i..][1..] == notices[i + 1..];
        QueueOne(notices[i].owner, notices[i].words);
      }
      PostNone(DeskNow().post);
    }

    method QueueOne(q: int, words: Words)
      requires Ready() && Channel(q) && MESSAGE_BYTES <= QUEUE_BYTES - Level(DeskNow(), q)
      modifies queues, queues.bytes, queues.fill
      ensures Ready() && DeskNow() == old(DeskNow()).(post := Accept(old(DeskNow()).post, q, words))
    {
      hide Sane, Contents;
      ReadyParts(q);
      ghost var d := DeskNow();
      AcceptConserves(d.post, q, words);
      AcceptSane(d, q, words);
      queues.Enqueue(q, words);
    }

    method PumpNotices(notices: seq<Notice>, reserved: array<int>, ghost d: Desk)
      requires Ready() && reserved.Length == CHANNELS && forall q | 0 <= q < CHANNELS ::
                 reserved[q] == Reserved(notices, q)
      requires (reserved as object) != queues.bytes && reserved != queues.fill
      modifies slots, slots.slots, slots.ends, queues, queues.bytes, queues.fill, memory
      ensures Ready() && DeskNow() == PumpAll(old(DeskNow()), notices, 0)
    {
      hide Ready, DeskNow, Pump, PumpAll;
      for q := 0 to CHANNELS
        invariant Ready() && PumpAll(DeskNow(), notices, q) == PumpAll(old(DeskNow()), notices, 0)
      {
        PumpAllStep(DeskNow(), notices, q);
        if reserved[q] > 0 {
          QueueProgress(q);
        }
      }
      PumpAllEnd(DeskNow(), notices);
    }

    // The end of a client

    /** Takes a dying client out of all tables: its own call is cancelled, calls waiting on its queues fail. */
    method DropChannel(c: int)
      requires Ready() && Channel(c) && OwnTargets(DeskNow().filing)
      modifies slots, slots.slots, slots.ends, queues, queues.bytes, queues.fill
      ensures Ready() && DeskNow() == Drop(old(DeskNow()), c)
    {
      hide Sane, Sweep, Swept, Threads, Contents, OwnTargets;
      ReadyParts(c);
      ghost var d := DeskNow();
      SaneParts(d);
      SweepAll(c);
      DropKeeps(d, c);
      ListsNow(d, slots.State(), c);
      slots.InitList(ReadList(c));
      slots.InitList(WriteList(c));
      queues.Clear(c);
    }

    method SweepAll(c: int)
      requires slots.Valid() && Channel(c) && Orderly(slots.State()) && OwnTargets(slots.State())
      modifies slots, slots.slots, slots.ends
      ensures slots.Valid() && slots.State() == Sweep(old(slots.State()), c, 0)
      ensures Swept(old(slots.State()), slots.State(), c, CHANNELS)
    {
      hide Sweep, Swept, SweepOne, Threads, OwnTargets, Orderly, Filed, SlotLeft;
      ghost var f := slots.State();
      SweptStart(f, c);
      for i := 0 to CHANNELS
        invariant slots.Valid() && Swept(f, slots.State(), c, i) && Sweep(slots.State(), c, i) == Sweep(f, c, 0)
      {
        SweptStep(f, slots.State(), c, i);
        SweepUnroll(slots.State(), c, i);
        SweepSlot(c, i, f);
      }
      SweepEnd(slots.State(), c);
    }

    method SweepSlot(c: int, i: nat, ghost f: Filing)
      requires slots.Valid() && i < CHANNELS && Channel(c) && Swept(f, slots.State(), c, i)
      modifies slots, slots.slots, slots.ends
      ensures slots.Valid() && slots.State() == SweepOne(old(slots.State()), c, i)
    {
      hide Swept, Threads, Orderly, Filed, Complete, Cancel, OwnTargets;
      SweptParts(f, slots.State(), c, i);
      OwnTarget(f, i);
      slots.SlotNow(i);
      var p := slots.slots[i].data;
      if i == c {
        slots.Clear(i);
      } else if p.phase == Waiting && p.target == c {
        slots.Fail(i, FAILED);
      }
    }

    /** The socket of a client closed, or the client called APPL_EXIT. */
    method ExitClient(c: int)
      requires Valid()
      modifies slots, slots.slots, slots.ends, queues, queues.bytes, queues.fill, clients, waiting, this`owner,
               this`grants, holders
      ensures Valid() && WorldNow() == Act(old(WorldNow()), Exit(c))
    {
      hide *;
      ChannelIs(c);
      ValidParts(c);
      WorldIs();
      ghost var w := WorldNow();
      ExitSteady(w, c);
      ExitIs(w, c);
      if Channel(c) && clients[c].attached {
        SteadyParts(w);
        DropChannel(c);
        VacateLock(c, clients[c].generation);
        WorldIs();
        UpdateProgress();
        WorldIs();
        PutIs(clients[..], c, Requests.NOBODY);
        PutIs(waiting[..], c, false);
        clients[c], waiting[c] := Requests.NOBODY, false;
        WorldIs();
      }
      Conclude(Act(w, Exit(c)));
    }

    lemma WorldIs()
      ensures WorldNow() == World(DeskNow(), clients[..], LockNow(), waiting[..])
    {
    }

    lemma Conclude(w: World)
      requires Ready() && WorldNow() == w && Steady(w)
      ensures Valid()
    {
    }
  }

  lemma ChannelIs(c: int)
    ensures Channel(c) <==> 0 <= c < CHANNELS
    ensures CHANNELS == 6
  {
  }

  lemma PutIs<T>(s: seq<T>, i: int, v: T)
    requires 0 <= i < |s|
    ensures Put(s, i, v) == s[i := v]
  {
  }

  lemma ExitIs(w: World, c: int)
    requires Steady(w)
    ensures Act(w, Exit(c)) ==
            if !Channel(c) || !ClientAt(w.clients, c).attached then w
            else
              var v := w.(desk := Drop(w.desk, c), lock := Vacate(w.lock, c, ClientAt(w.clients, c).generation));
              Progress(v).(clients := Put(w.clients, c, Requests.NOBODY), waiting := Put(w.waiting, c, false))
  {
    hide Drop, Vacate, Progress;
    SteadyParts(w);
    ProgressFrame(w.(desk := Drop(w.desk, c), lock := Vacate(w.lock, c, ClientAt(w.clients, c).generation)));
  }

  lemma OwnTarget(f: Filing, i: int)
    requires OwnTargets(f) && Channel(i)
    ensures Targeted(SlotAt(f, i), i)
  {
  }

  lemma SweepUnroll(f: Filing, c: int, i: nat)
    requires i < CHANNELS
    ensures Sweep(f, c, i) == Sweep(SweepOne(f, c, i), c, i + 1)
  {
  }

  lemma SweepEnd(f: Filing, c: int)
    ensures Sweep(f, c, CHANNELS) == f
  {
  }

  lemma ListsNow(d: Desk, f: Filing, c: int)
    requires Sane(d) && OwnTargets(d.filing) && Channel(c) && f == Sweep(d.filing, c, 0)
             && Swept(d.filing, f, c, CHANNELS)
    ensures Fifo(f, ReadList(c)) == [] && Fifo(f, WriteList(c)) == [] && |f.fifos| == LISTS
    ensures Drop(d, c) == Desk(f, Emptied(d.post, c))
  {
    hide Sane, Sweep, Swept;
    ListsEmpty(d.filing, f, c);
  }

  /** Every message is for the client that is attached now. */
  predicate Addressed(clients: seq<Client>, notices: seq<Notice>) {
    forall i | 0 <= i < |notices| ::
      Channel(notices[i].owner) && ClientAt(clients, notices[i].owner) == Client(true, notices[i].generation)
  }

  lemma {:induction false} ReservedConcat(a: seq<Notice>, b: seq<Notice>, q: int)
    ensures Reserved(a + b, q) == Reserved(a, q) + Reserved(b, q)
  {
    if a == [] {
      assert a + b == b;
    } else {
      assert (a + b)[1..] == a[1..] + b;
      ReservedConcat(a[1..], b, q);
    }
  }

  /** The reservations for the first i messages, all of which can be delivered. */
  ghost predicate Reserving(d: Desk, clients: seq<Client>, notices: seq<Notice>, i: nat, reserved: seq<int>) {
    && i <= |notices| && |reserved| == CHANNELS && Addressed(clients, notices[..i])
    && (forall q | Channel(q) :: Level(d, q) <= QUEUE_BYTES)
    && (forall q | Channel(q) ::
          reserved[q] == Reserved(notices[..i], q)
              && (reserved[q] == 0 || reserved[q] <= QUEUE_BYTES - Level(d, q)))
  }

  lemma ReserveStart(d: Desk, clients: seq<Client>, notices: seq<Notice>, reserved: seq<int>)
    requires |reserved| == CHANNELS && (forall q | 0 <= q < CHANNELS :: reserved[q] == 0)
    requires forall q | 0 <= q < CHANNELS :: Level(d, q) <= QUEUE_BYTES
    ensures Reserving(d, clients, notices, 0, reserved)
  {
    assert notices[..0] == [];
  }

  lemma ReserveStep(d: Desk, clients: seq<Client>, notices: seq<Notice>, i: nat, reserved: seq<int>)
    requires Reserving(d, clients, notices, i, reserved) && i < |notices|
    ensures var n := notices[i];
            && |reserved| == CHANNELS
            && (!Channel(n.owner) || ClientAt(clients, n.owner) != Client(true, n.generation) ==>
                  !Deliverable(d, clients, notices))
            && (Channel(n.owner) && |clients| == CHANNELS ==> ClientAt(clients, n.owner) == clients[n.owner])
            && (Channel(n.owner) && ClientAt(clients, n.owner) == Client(true, n.generation) ==>
                  var more := reserved[n.owner] + MESSAGE_BYTES;
                  if more <= QUEUE_BYTES - Level(d, n.owner)
                  then Reserving(d, clients, notices, i + 1, reserved[n.owner := more])
                  else !Deliverable(d, clients, notices))
  {
    ReservedTake(clients, notices, i);
  }

  lemma ReserveEnd(d: Desk, clients: seq<Client>, notices: seq<Notice>, reserved: seq<int>)
    requires Reserving(d, clients, notices, |notices|, reserved)
    ensures Deliverable(d, clients, notices) && |reserved| == CHANNELS
    ensures forall q | 0 <= q < CHANNELS :: reserved[q] == Reserved(notices, q)
  {
    assert notices[..|notices|] == notices;
  }

  /** What one more message adds to the reservations. */
  lemma ReservedTake(clients: seq<Client>, notices: seq<Notice>, i: nat)
    requires i < |notices|
    ensures forall q :: Reserved(notices[..i + 1], q) ==
                        Reserved(notices[..i], q) + if notices[i].owner == q then MESSAGE_BYTES else 0
    ensures forall q :: Reserved(notices[..i + 1], q) <= Reserved(notices, q)
    ensures Addressed(clients, notices[..i + 1]) <==>
              Addressed(clients, notices[..i]) && Channel(notices[i].owner)
              && ClientAt(clients, notices[i].owner) == Client(true, notices[i].generation)
  {
    assert notices[..i + 1] == notices[..i] + [notices[i]];
    assert notices == notices[..i + 1] + notices[i + 1..];
    forall q
      ensures Reserved(notices[..i + 1], q) ==
              Reserved(notices[..i], q) + if notices[i].owner == q then MESSAGE_BYTES else 0
      ensures Reserved(notices[..i + 1], q) <= Reserved(notices, q)
    {
      ReservedConcat(notices[..i], [notices[i]], q);
      ReservedConcat(notices[..i + 1], notices[i + 1..], q);
    }
    assert forall k | 0 <= k < i + 1 :: notices[..i + 1][k] == notices[k];
  }

  lemma QueueStep(d: Desk, clients: seq<Client>, notices: seq<Notice>)
    requires Deliverable(d, clients, notices) && notices != []
    ensures Channel(notices[0].owner) && MESSAGE_BYTES <= QUEUE_BYTES - Level(d, notices[0].owner)
    ensures PostAll(d.post, notices) == PostAll(Accept(d.post, notices[0].owner, notices[0].words), notices[1..])
    ensures |d.post.queues| == CHANNELS ==>
              Deliverable(d.(post := Accept(d.post, notices[0].owner, notices[0].words)), clients, notices[1..])
  {
    var n := notices[0];
    assert Reserved(notices, n.owner) >= MESSAGE_BYTES;
    assert forall i | 0 <= i < |notices| - 1 :: notices[1..][i] == notices[i + 1];
  }

  lemma PostNone(m: Post)
    ensures PostAll(m, []) == m
  {
  }

  lemma AcceptSane(d: Desk, q: int, data: seq<Byte>)
    requires Sane(d) && Conserved(Accept(d.post, q, data))
    ensures Sane(d.(post := Accept(d.post, q, data)))
  {
    hide Orderly, Conserved;
    MovedRanged(d, d.(post := Accept(d.post, q, data)));
  }

  lemma PumpAllStep(d: Desk, notices: seq<Notice>, q: nat)
    requires q < CHANNELS
    ensures PumpAll(d, notices, q)
            == PumpAll(if Reserved(notices, q) > 0 then Pump(d, q, CHANNELS) else d, notices, q + 1)
  {
  }

  lemma PumpAllEnd(d: Desk, notices: seq<Notice>)
    ensures PumpAll(d, notices, CHANNELS) == d
  {
  }

  lemma SteadySane(w: World)
    requires Steady(w)
    ensures Sane(w.desk)
  {
    SteadyParts(w);
  }

  lemma TakeReplyIs(w: World)
    requires Steady(w)
    ensures var c := Head(w.desk.filing, READY_LIST);
            Act(w, TakeReply) == if c == NIL then w
                                 else w.(desk := w.desk.(filing := Parking.TakeReady(w.desk.filing)),
                                         waiting := Put(w.waiting, c, false))
  {
  }

  lemma TakenSane(d: Desk)
    requires Sane(d)
    ensures Sane(d.(filing := Parking.TakeReady(d.filing)))
  {
    hide Orderly;
    SaneParts(d);
    TakeReadyKeeps(d.filing);
    TakeNone(d.filing);
    var d' := d.(filing := Parking.TakeReady(d.filing));
    if d' != d {
      var c := Head(d.filing, READY_LIST);
      HeadIs(d.filing, READY_LIST);
      TakenLists(d.filing, c);
      forall b | Channel(b)
        ensures Fitting(SlotAt(d'.filing, b), |BytesAt(d'.post.memory, b)|)
      {
        assert Fitting(SlotAt(d.filing, b), |BytesAt(d.post.memory, b)|);
      }
    }
  }

  lemma TakeNone(f: Filing)
    requires Filed(f)
    ensures Head(f, READY_LIST) == NIL ==> Parking.TakeReady(f) == f
  {
    HeadNone(f, READY_LIST);
  }

  lemma HeldFits(operation: Operation, c: int, limit: int)
    requires Held(Waiter(operation, c, 0, 0, 0))
    ensures var p := Waiter(operation, c, 0, 0, 0); Fitting(p, limit) && Targeted(p, c)
  {
  }

  lemma UpdateFits(c: int, generation: int, limit: int)
    ensures var p := Waiter(Operation.Update, c, 0, 0, generation); Fitting(p, limit) && Targeted(p, c)
  {
  }

  lemma MessageSpares(w: World, c: int, buffer: int)
    requires Steady(w) && Channel(c) && Held(SlotAt(w.desk.filing, c))
    ensures Held(SlotAt(EventMessage(w.desk, c, buffer).0.filing, c))
  {
    hide Steady, Sane, Pump, Held;
    SteadySane(w);
    if EventMessage(w.desk, c, buffer).1 {
      MovedKeeps(w.desk, c, c, Read, buffer, MESSAGE_BYTES);
      PumpSpares(Moved(w.desk, c, c, Read, buffer, MESSAGE_BYTES), c, CHANNELS, c);
    }
  }

  lemma HeldComplete(d: Desk, c: int, result: int)
    requires Sane(d) && Channel(c) && Held(SlotAt(d.filing, c))
    ensures Sane(d.(filing := Complete(d.filing, c, result))) && Shaped(d.filing) && Loose(d.filing.fifos, c)
    ensures Complete(d.filing, c, result) ==
            d.filing.(slots := Put(d.filing.slots, c, SlotAt(d.filing, c).(phase := Ready, result := result)),
                      fifos := d.filing.fifos[READY_LIST := d.filing.fifos[READY_LIST] + [c]])
  {
    hide Orderly;
    SaneParts(d);
    OrderlyParts(d.filing);
    CompleteKeeps(d.filing, c, result);
    CompleteRanged(d, c, result);
  }

  lemma HeadFinished(f: Filing, l: int, result: int)
    requires Filed(f) && 0 <= l < READY_LIST && Head(f, l) != NIL
    ensures |Fifo(Complete(f, Head(f, l), result), l)| == |Fifo(f, l)| - 1
  {
    HeadComplete(f, l, Head(f, l), result);
  }

  lemma HeadFinishKeeps(d: Desk, l: int, c: int, result: int)
    requires Sane(d) && 0 <= l < READY_LIST && c == Head(d.filing, l) && c != NIL
    ensures Sane(d.(filing := Complete(d.filing, c, result)))
  {
    hide Orderly, Filed, Complete;
    SaneParts(d);
    HeadIs(d.filing, l);
    CompleteKeeps(d.filing, c, result);
    CompleteRanged(d, c, result);
  }

  lemma DeferKeeps(d: Desk, c: int, p: Parked)
    requires Sane(d) && Channel(c) && SlotAt(d.filing, c).phase == Free && p.phase == Waiting && Targeted(p, c)
    requires Fitting(p, |BytesAt(d.post.memory, c)|)
    ensures Sane(d.(filing := Parking.Park(d.filing, c, p))) && (Home(p) == NIL || 0 <= Home(p) < LISTS)
  {
    hide Orderly, Parking.Park;
    SaneParts(d);
    ParkKeeps(d.filing, c, p);
    ParkRanged(d, c, p);
  }

  lemma PumpOnce(d: Desk, q: int, passes: nat)
    requires passes > 0
    ensures Pump(d, q, passes) == if ReaderCan(d, q) then Pump(ReadDone(d, q), q, passes - 1)
                                  else if WriterCan(d, q) then Pump(WriteDone(d, q), q, passes - 1) else d
  {
  }

  lemma PumpNone(d: Desk, q: int)
    ensures Pump(d, q, 0) == d
  {
  }

  lemma WriterCanIs(d: Desk, q: int)
    ensures var c := Head(d.filing, WriteList(q));
            WriterCan(d, q) == (c != NIL && SlotAt(d.filing, c).length <= QUEUE_BYTES - Level(d, q))
  {
  }

  /** Serving a writer keeps the desk sane, whether or not a reader could be served first. */
  lemma WriterKeeps(d: Desk, q: int)
    requires Sane(d) && Channel(q) && WriterCan(d, q)
    ensures Sane(WriteDone(d, q))
  {
    hide Orderly, Filed, Refiled;
    SaneParts(d);
    var c := Head(d.filing, WriteList(q));
    HeadIs(d.filing, WriteList(q));
    assert Fitting(SlotAt(d.filing, c), |BytesAt(d.post.memory, c)|);
    var p := SlotAt(d.filing, c);
    CompleteKeeps(d.filing, c, TRUE);
    CompleteRanged(d, c, TRUE);
    AcceptConserves(d.post, q, Fetched(BytesAt(d.post.memory, c), p.buffer, p.length));
    MovedRanged(d.(filing := Complete(d.filing, c, TRUE)), WriteDone(d, q));
  }

  /** What serving a writer comes to, piece by piece. */
  lemma WriteDoneIs(d: Desk, q: int)
    requires Sane(d) && Channel(q) && WriterCan(d, q)
    ensures Shaped(d.filing)
    ensures var (f, l, c) := (d.filing, WriteList(q), Head(d.filing, WriteList(q)));
            var p := SlotAt(f, c);
            var data := Fetched(BytesAt(d.post.memory, c), p.buffer, p.length);
            && Channel(c) && f.fifos[l] == [c] + f.fifos[l][1..] && Loose(f.fifos[l := f.fifos[l][1..]], c)
            && |data| == p.length <= QUEUE_BYTES - |BytesAt(d.post.queues, q)|
            && WriteDone(d, q) ==
               Desk(f.(slots := Put(f.slots, c, p.(phase := Ready, result := TRUE)),
                       fifos := f.fifos[l := f.fifos[l][1..]][READY_LIST := f.fifos[READY_LIST] + [c]]),
                    d.post.(queues := Put(d.post.queues, q, BytesAt(d.post.queues, q) + data),
                            accepted := Put(d.post.accepted, q, BytesAt(d.post.accepted, q) + data)))
  {
    hide Filed, Refiled;
    SaneParts(d);
    var c := Head(d.filing, WriteList(q));
    HeadComplete(d.filing, WriteList(q), c, TRUE);
    assert Fitting(SlotAt(d.filing, c), |BytesAt(d.post.memory, c)|);
    HeadIs(d.filing, WriteList(q));
  }

  lemma ReaderCanIs(d: Desk, q: int)
    ensures var c := Head(d.filing, ReadList(q));
            ReaderCan(d, q) == (c != NIL && SlotAt(d.filing, c).length <= Level(d, q))
    ensures ReaderCan(d, q) ==> Step(d, q) == ReadDone(d, q)
  {
  }

  /** What serving a reader comes to, piece by piece. */
  lemma ReadDoneIs(d: Desk, q: int)
    requires Sane(d) && Channel(q) && ReaderCan(d, q)
    ensures Shaped(d.filing)
    ensures var (f, l, c) := (d.filing, ReadList(q), Head(d.filing, ReadList(q)));
            var (p, queue) := (SlotAt(f, c), BytesAt(d.post.queues, q));
            && Channel(c) && f.fifos[l] == [c] + f.fifos[l][1..] && Loose(f.fifos[l := f.fifos[l][1..]], c)
            && 0 < p.length <= |queue|
            && ReadDone(d, q) ==
               Desk(f.(slots := Put(f.slots, c, p.(phase := Ready, result := TRUE)),
                       fifos := f.fifos[l := f.fifos[l][1..]][READY_LIST := f.fifos[READY_LIST] + [c]]),
                    d.post.(queues := Put(d.post.queues, q, queue[p.length..]),
                            memory := Put(d.post.memory, c,
                                          Stored(BytesAt(d.post.memory, c), p.buffer, queue[..p.length])),
                            delivered := Put(d.post.delivered, q, BytesAt(d.post.delivered, q) + queue[..p.length])))
  {
    hide Filed, Refiled;
    SaneParts(d);
    var c := Head(d.filing, ReadList(q));
    HeadComplete(d.filing, ReadList(q), c, TRUE);
    assert Fitting(SlotAt(d.filing, c), |BytesAt(d.post.memory, c)|);
    HeadIs(d.filing, ReadList(q));
  }
}
