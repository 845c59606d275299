/** Message queues and the pump that finishes parked reads and writes on them. */
module Mail {
  import opened Links
  import opened Parking
  import WordMath

  const QUEUE_BYTES := 128
  const FALSE := 0
  const TRUE := 1
  const FAILED := -1

  type Byte = WordMath.Byte

  /** Each channel's queue and its client's data segment, and the history of what went in and out of the queues. */
  datatype Post = Post(queues: seq<seq<Byte>>, memory: seq<seq<Byte>>, accepted: seq<seq<Byte>>,
                       delivered: seq<seq<Byte>>)

  datatype Desk = Desk(filing: Filing, post: Post)

  function BytesAt(s: seq<seq<Byte>>, c: int): seq<Byte> {
    if 0 <= c < |s| then s[c] else []
  }

  predicate InRange(limit: int, offset: int, count: int) {
    0 <= offset <= limit && 0 <= count <= limit - offset
  }

  function Fetched(memory: seq<Byte>, offset: int, count: int): seq<Byte> {
    if InRange(|memory|, offset, count) then memory[offset..offset + count] else []
  }

  function Stored(memory: seq<Byte>, offset: int, data: seq<Byte>): (memory': seq<Byte>)
    ensures |memory'| == |memory|
  {
    if InRange(|memory|, offset, |data|) then memory[..offset] + data + memory[offset + |data|..] else memory
  }

  /** Data joins the end of a queue. */
  function Accept(m: Post, q: int, data: seq<Byte>): Post {
    m.(queues := Put(m.queues, q, BytesAt(m.queues, q) + data),
       accepted := Put(m.accepted, q, BytesAt(m.accepted, q) + data))
  }

  /** The first n bytes of queue q go to client c's memory. */
  function Deliver(m: Post, q: int, c: int, offset: int, n: nat): Post {
    var queue := BytesAt(m.queues, q);
    if n > |queue| then m
    else m.(queues := Put(m.queues, q, queue[n..]),
            memory := Put(m.memory, c, Stored(BytesAt(m.memory, c), offset, queue[..n])),
            delivered := Put(m.delivered, q, BytesAt(m.delivered, q) + queue[..n]))
  }

  /** Nothing is lost, invented or reordered: what a queue accepted is what it delivered and what it still holds. */
  ghost predicate Conserved(m: Post) {
    && |m.queues| == |m.memory| == |m.accepted| == |m.delivered| == CHANNELS
    && forall q | Channel(q) :: m.accepted[q] == m.delivered[q] + m.queues[q] && |m.queues[q]| <= QUEUE_BYTES
  }

  lemma AcceptConserves(m: Post, q: int, data: seq<Byte>)
    requires Conserved(m) && Channel(q) && |data| <= QUEUE_BYTES - |m.queues[q]|
    ensures Conserved(Accept(m, q, data))
  {
    assert m.accepted[q] + data == m.delivered[q] + (m.queues[q] + data);
  }

  lemma DeliverConserves(m: Post, q: int, c: int, offset: int, n: nat)
    requires Conserved(m) && Channel(q)
    ensures Conserved(Deliver(m, q, c, offset, n))
  {
    if n <= |m.queues[q]| {
      assert m.delivered[q] + m.queues[q] == m.delivered[q] + m.queues[q][..n] + m.queues[q][n..];
    }
  }

  /** Parked reads and writes have a length a queue can hold and a buffer inside their client's segment. */
  ghost predicate Ranged(d: Desk) {
    forall c | Channel(c) :: Fitting(SlotAt(d.filing, c), |BytesAt(d.post.memory, c)|)
  }

  ghost predicate Fitting(p: Parked, limit: int) {
    p.phase == Waiting && (p.operation == Read || p.operation == Write) ==>
      Channel(p.target) && 0 < p.length <= QUEUE_BYTES && InRange(limit, p.buffer, p.length)
  }

  /** What every step keeps. */
  ghost predicate Sane(d: Desk) {
    Orderly(d.filing) && Conserved(d.post) && Ranged(d)
  }

  // The pump

  function Head(f: Filing, l: int): int {
    if Fifo(f, l) == [] then NIL else Fifo(f, l)[0]
  }

  function Level(d: Desk, q: int): nat {
    |BytesAt(d.post.queues, q)|
  }

  /** The queue holds enough for the oldest parked reader. */
  predicate ReaderCan(d: Desk, q: int) {
    Head(d.filing, ReadList(q)) != NIL && SlotAt(d.filing, Head(d.filing, ReadList(q))).length <= Level(d, q)
  }

  /** The queue has room for what the oldest parked writer sends. */
  predicate WriterCan(d: Desk, q: int) {
    Head(d.filing, WriteList(q)) != NIL
    && SlotAt(d.filing, Head(d.filing, WriteList(q))).length <= QUEUE_BYTES - Level(d, q)
  }

  predicate Settled(d: Desk, q: int) {
    !ReaderCan(d, q) && !WriterCan(d, q)
  }

  ghost function ReadDone(d: Desk, q: int): Desk {
    var c := Head(d.filing, ReadList(q));
    var p := SlotAt(d.filing, c);
    Desk(Complete(d.filing, c, TRUE), if p.length < 0 then d.post else Deliver(d.post, q, c, p.buffer, p.length))
  }

  ghost function WriteDone(d: Desk, q: int): Desk {
    var c := Head(d.filing, WriteList(q));
    var p := SlotAt(d.filing, c);
    Desk(Complete(d.filing, c, TRUE), Accept(d.post, q, Fetched(BytesAt(d.post.memory, c), p.buffer, p.length)))
  }

  /** One pass: the oldest reader goes first. */
  ghost function Step(d: Desk, q: int): Desk {
    if ReaderCan(d, q) then ReadDone(d, q) else if WriterCan(d, q) then WriteDone(d, q) else d
  }

  ghost function Pump(d: Desk, q: int, passes: nat): Desk
    decreases passes
  {
    if passes == 0 || Settled(d, q) then d else Pump(Step(d, q), q, passes - 1)
  }

  /** The client a pass serves. */
  ghost function Served(d: Desk, q: int): int {
    if ReaderCan(d, q) then Head(d.filing, ReadList(q)) else Head(d.filing, WriteList(q))
  }

  lemma HeadIs(f: Filing, l: int)
    requires Filed(f) && 0 <= l < LISTS && Head(f, l) != NIL
    ensures Channel(Head(f, l)) && f.fifos[l] == [Head(f, l)] + f.fifos[l][1..] && Home(SlotAt(f, Head(f, l))) == l
    ensures Shaped(f) && SlotAt(f, Head(f, l)) == f.slots[Head(f, l)]
  {
    assert f.fifos[l][0] in f.fifos[l];
  }

  lemma ServedIs(d: Desk, q: int)
    requires Sane(d) && Channel(q) && !Settled(d, q)
    ensures var c := Served(d, q);
            && Channel(c) && Shaped(d.filing) && d.filing.slots[c].phase == Waiting
            && d.filing.slots[c].target == q && Step(d, q).filing == Complete(d.filing, c, TRUE)
            && (ReaderCan(d, q) ==> Home(d.filing.slots[c]) == ReadList(q) && d.filing.slots[c].operation == Read)
            && (!ReaderCan(d, q) ==> Home(d.filing.slots[c]) == WriteList(q) && d.filing.slots[c].operation == Write)
  {
    OrderlyParts(d.filing);
    HeadIs(d.filing, if ReaderCan(d, q) then ReadList(q) else WriteList(q));
    assert Fitting(SlotAt(d.filing, Served(d, q)), |BytesAt(d.post.memory, Served(d, q))|);
  }

  lemma StepKeeps(d: Desk, q: int)
    requires Sane(d) && Channel(q)
    ensures Sane(Step(d, q))
  {
    if !Settled(d, q) {
      ServedIs(d, q);
      var c := Served(d, q);
      CompleteKeeps(d.filing, c, TRUE);
      var p := d.filing.slots[c];
      assert Fitting(SlotAt(d.filing, c), |BytesAt(d.post.memory, c)|);
      if ReaderCan(d, q) {
        DeliverConserves(d.post, q, c, p.buffer, p.length);
      } else {
        AcceptConserves(d.post, q, Fetched(BytesAt(d.post.memory, c), p.buffer, p.length));
      }
      StepRanged(d, q);
    }
  }

  lemma StepRanged(d: Desk, q: int)
    requires Sane(d) && Channel(q) && !Settled(d, q)
    ensures Ranged(Step(d, q))
  {
    ServedIs(d, q);
    var d' := Step(d, q);
    forall c | Channel(c)
      ensures Fitting(SlotAt(d'.filing, c), |BytesAt(d'.post.memory, c)|)
    {
      assert Fitting(SlotAt(d.filing, c), |BytesAt(d.post.memory, c)|);
    }
  }

  /** A pass takes the head off its list, puts it at the end of the ready list and leaves the other lists alone. */
  lemma StepLists(d: Desk, q: int)
    requires Sane(d) && Channel(q) && !Settled(d, q)
    ensures Shaped(d.filing)
    ensures var (f, g, c) := (d.filing, Step(d, q).filing, Served(d, q));
            var l := if ReaderCan(d, q) then ReadList(q) else WriteList(q);
            && Fifo(f, l) == [c] + Fifo(g, l) && g.fifos[READY_LIST] == f.fifos[READY_LIST] + [c]
            && g.fifos == f.fifos[l := g.fifos[l]][READY_LIST := g.fifos[READY_LIST]]
  {
    hide Orderly, Accounted, Sorted;
    OrderlyParts(d.filing);
    ServedIs(d, q);
    var (f, g, c) := (d.filing, Step(d, q).filing, Served(d, q));
    var l := if ReaderCan(d, q) then ReadList(q) else WriteList(q);
    HeadIs(f, l);
    var p := f.slots[c].(phase := Ready, result := TRUE);
    forall k | 0 <= k < LISTS
      ensures g.fifos[k] == if k == l then f.fifos[l][1..] else if k == READY_LIST then f.fifos[k] + [c] else f.fifos[k]
    {
      RefiledLists(f, c, p, k);
      if k != l {
        MinusAbsent(f.fifos[k], c);
      }
    }
  }

  /** As many slots wait on a queue's two lists as there are passes left; then the pump ends with the queue settled. */
  lemma {:induction false} PumpEnough(d: Desk, q: int, passes: nat)
    requires Sane(d) && Channel(q) && |Fifo(d.filing, ReadList(q))| + |Fifo(d.filing, WriteList(q))| <= passes
    ensures Settled(Pump(d, q, passes), q)
    decreases passes
  {
    hide Sane, Orderly, Step, Settled, ReaderCan, WriterCan, Served, Filed, Refiled;
    if !Settled(d, q) {
      StepLists(d, q);
      StepKeeps(d, q);
      PumpEnough(Step(d, q), q, passes - 1);
    }
  }

  /** Six passes are always enough: no more than six slots can wait. */
  lemma PumpSettles(d: Desk, q: int)
    requires Sane(d) && Channel(q)
    ensures Settled(Pump(d, q, CHANNELS), q)
  {
    OrderlyParts(d.filing);
    var (r, w) := (d.filing.fifos[ReadList(q)], d.filing.fifos[WriteList(q)]);
    assert Apart(r, w);
    DistinctJoin(r, w);
    assert forall i | 0 <= i < |r + w| :: (r + w)[i] in r || (r + w)[i] in w;
    DistinctBound(r + w, 0, CHANNELS);
    PumpEnough(d, q, CHANNELS);
  }

  lemma {:induction false} PumpKeeps(d: Desk, q: int, passes: nat)
    requires Sane(d) && Channel(q)
    ensures Sane(Pump(d, q, passes))
    decreases passes
  {
    hide Sane, Orderly, Step, Settled, ReaderCan, WriterCan, Served, Filed, Refiled;
    if passes > 0 && !Settled(d, q) {
      StepKeeps(d, q);
      PumpKeeps(Step(d, q), q, passes - 1);
    }
  }

  /** The clients the pump serves, in turn. */
  ghost function Moves(d: Desk, q: int, passes: nat): seq<int>
    decreases passes
  {
    if passes == 0 || Settled(d, q) then [] else [Served(d, q)] + Moves(Step(d, q), q, passes - 1)
  }

  /** The members of a list among the moves, in the order of the moves. */
  ghost function Among(moves: seq<int>, list: seq<int>): seq<int> {
    if moves == [] then []
    else (if moves[0] in list then [moves[0]] else []) + Among(moves[1..], list)
  }

  lemma {:induction false} AmongMore(moves: seq<int>, list: seq<int>, c: int)
    requires c !in moves
    ensures Among(moves, [c] + list) == Among(moves, list)
  {
    if moves != [] {
      AmongMore(moves[1..], list, c);
    }
  }

  lemma {:induction false} PumpMoves(d: Desk, q: int, passes: nat)
    requires Sane(d) && Channel(q)
    ensures forall c | c in Moves(d, q, passes) :: c in Fifo(d.filing, ReadList(q)) || c in Fifo(d.filing, WriteList(q))
    decreases passes
  {
    hide Sane, Orderly, Step, Settled, ReaderCan, WriterCan, Served, Filed, Refiled;
    if passes > 0 && !Settled(d, q) {
      StepLists(d, q);
      StepKeeps(d, q);
      PumpMoves(Step(d, q), q, passes - 1);
    }
  }

  /** Between f and g the moves were taken off the front of queue q's two lists and put on the ready list; no other
      list changed. */
  ghost predicate FirstCome(f: Filing, g: Filing, moves: seq<int>, q: int)
    requires Shaped(f) && Shaped(g) && Channel(q)
  {
    && f.fifos[ReadList(q)] == Among(moves, f.fifos[ReadList(q)]) + g.fifos[ReadList(q)]
    && f.fifos[WriteList(q)] == Among(moves, f.fifos[WriteList(q)]) + g.fifos[WriteList(q)]
    && g.fifos[READY_LIST] == f.fifos[READY_LIST] + moves
    && forall l | 0 <= l < READY_LIST && l != ReadList(q) && l != WriteList(q) :: g.fifos[l] == f.fifos[l]
  }

  /** First come, first served: the readers served are the oldest ones, in their order, and likewise the writers; every
      client served goes to the ready list, no other list changes. */
  lemma {:induction false} PumpFirstCome(d: Desk, q: int, passes: nat)
    requires Sane(d) && Channel(q)
    ensures Shaped(d.filing) && Shaped(Pump(d, q, passes).filing)
    ensures FirstCome(d.filing, Pump(d, q, passes).filing, Moves(d, q, passes), q)
    decreases passes
  {
    hide Sane, Orderly, Step, Settled, ReaderCan, WriterCan, Served, Refiled, Filed, Among;
    SaneParts(d);
    if passes > 0 && !Settled(d, q) {
      var d' := Step(d, q);
      StepLists(d, q);
      StepKeeps(d, q);
      SaneParts(d');
      PumpFirstCome(d', q, passes - 1);
      ServedOnce(d, q, passes - 1);
      FirstComeStep(d.filing, d'.filing, Pump(d', q, passes - 1).filing, Moves(d', q, passes - 1), q, Served(d, q),
                    if ReaderCan(d, q) then ReadList(q) else WriteList(q));
    } else {
      FirstComeNone(d.filing, q);
    }
  }

  lemma SaneParts(d: Desk)
    requires Sane(d)
    ensures Orderly(d.filing) && Filed(d.filing) && Shaped(d.filing) && Conserved(d.post) && Ranged(d)
  {
  }

  lemma FirstComeNone(f: Filing, q: int)
    requires Shaped(f) && Channel(q)
    ensures FirstCome(f, f, [], q)
  {
  }

  lemma FirstComeStep(f: Filing, f': Filing, g: Filing, moves: seq<int>, q: int, c: int, l: int)
    requires Shaped(f) && Shaped(f') && Shaped(g) && Channel(q) && Filed(f) && FirstCome(f', g, moves, q)
    requires (l == ReadList(q) || l == WriteList(q)) && c !in moves && f.fifos[l] == [c] + f'.fifos[l]
    requires f'.fifos[READY_LIST] == f.fifos[READY_LIST] + [c]
    requires f'.fifos == f.fifos[l := f'.fifos[l]][READY_LIST := f'.fifos[READY_LIST]]
    ensures FirstCome(f, g, [c] + moves, q)
  {
    hide Filed;
    var other := if l == ReadList(q) then WriteList(q) else ReadList(q);
    assert ([c] + moves)[1..] == moves;
    assert c in f.fifos[l];
    OneList(f, c, l, other);
    AmongMore(moves, f'.fifos[l], c);
    assert Among([c] + moves, f.fifos[l]) == [c] + Among(moves, f'.fifos[l]);
    assert Among([c] + moves, f.fifos[other]) == Among(moves, f'.fifos[other]);
  }

  /** A client served has left the queue's lists, so it is not served again. */
  lemma ServedOnce(d: Desk, q: int, passes: nat)
    requires Sane(d) && Channel(q) && !Settled(d, q)
    ensures Served(d, q) !in Moves(Step(d, q), q, passes)
  {
    hide Step, Settled, ReaderCan, WriterCan, Served, Refiled, Moves, Conserved, Ranged, InArrivalOrder, Accounted;
    StepKeeps(d, q);
    PumpMoves(Step(d, q), q, passes);
    StepLists(d, q);
    var g := Step(d, q).filing;
    OrderlyParts(g);
    var c := Served(d, q);
    assert c == g.fifos[READY_LIST][|g.fifos[READY_LIST]| - 1] && c in g.fifos[READY_LIST];
    OneList(g, c, READY_LIST, ReadList(q));
    OneList(g, c, READY_LIST, WriteList(q));
  }

  // What the pump moves, byte by byte

  /** The buffers of those served by an operation, one after the other, as memory has them. */
  ghost function Chunks(slots: seq<Parked>, memory: seq<seq<Byte>>, moves: seq<int>, operation: Operation): seq<Byte> {
    if moves == [] then []
    else ChunkOf(slots, memory, moves[0], operation) + Chunks(slots, memory, moves[1..], operation)
  }

  ghost function ChunkOf(slots: seq<Parked>, memory: seq<seq<Byte>>, c: int, operation: Operation): seq<Byte> {
    if 0 <= c < |slots| && slots[c].operation == operation
    then Fetched(BytesAt(memory, c), slots[c].buffer, slots[c].length) else []
  }

  lemma {:induction false} ChunksFrame(slots: seq<Parked>, slots': seq<Parked>, memory: seq<seq<Byte>>, moves: seq<int>,
                                       operation: Operation)
    requires |slots| == |slots'|
    requires forall c | c in moves && 0 <= c < |slots| :: slots'[c] == slots[c]
    ensures Chunks(slots', memory, moves, operation) == Chunks(slots, memory, moves, operation)
  {
    if moves != [] {
      assert forall c | c in moves[1..] :: c in moves;
      ChunksFrame(slots, slots', memory, moves[1..], operation);
      assert moves[0] in moves;
    }
  }

  lemma StoredFetched(memory: seq<Byte>, offset: int, data: seq<Byte>)
    requires InRange(|memory|, offset, |data|)
    ensures Fetched(Stored(memory, offset, data), offset, |data|) == data
  {
  }

  /** One pass, byte by byte: a reader's buffer is filled from the front of the queue, a writer's buffer joins its
      end. */
  lemma StepBytes(d: Desk, q: int)
    requires Sane(d) && Channel(q) && !Settled(d, q)
    ensures var (m, m', c) := (d.post, Step(d, q).post, Served(d, q));
            && Shaped(d.filing) && Conserved(m) && Conserved(m') && Channel(c)
            && m'.delivered[q] == m.delivered[q] + ChunkOf(d.filing.slots, m'.memory, c, Read)
            && m'.accepted[q] == m.accepted[q] + ChunkOf(d.filing.slots, m'.memory, c, Write)
            && m'.memory == m.memory[c := m'.memory[c]]
  {
    hide Orderly, Filed, Refiled, Accounted, InArrivalOrder;
    SaneParts(d);
    StepKeeps(d, q);
    SaneParts(Step(d, q));
    ServedIs(d, q);
    var c := Served(d, q);
    var p := d.filing.slots[c];
    assert Fitting(SlotAt(d.filing, c), |BytesAt(d.post.memory, c)|);
    if ReaderCan(d, q) {
      StoredFetched(d.post.memory[c], p.buffer, d.post.queues[q][..p.length]);
    }
  }

  /** All passes, byte by byte: what the queue delivered now fills the buffers of the readers served, in their order,
      and what it accepted are the buffers of the writers served; no other memory changes. */
  lemma {:induction false} PumpBytes(d: Desk, q: int, passes: nat)
    requires Sane(d) && Channel(q)
    ensures var (m, m', moves) := (d.post, Pump(d, q, passes).post, Moves(d, q, passes));
            && Shaped(d.filing) && Conserved(m) && Conserved(m')
            && m'.delivered[q] == m.delivered[q] + Chunks(d.filing.slots, m'.memory, moves, Read)
            && m'.accepted[q] == m.accepted[q] + Chunks(d.filing.slots, m'.memory, moves, Write)
            && forall c | Channel(c) && c !in moves :: m'.memory[c] == m.memory[c]
    decreases passes
  {
    hide Sane, Orderly, Step, Settled, ReaderCan, WriterCan, Served, Filed, Refiled, ChunkOf, Complete;
    SaneParts(d);
    if passes > 0 && !Settled(d, q) {
      var (d', c, rest) := (Step(d, q), Served(d, q), Moves(Step(d, q), q, passes - 1));
      var m' := Pump(d, q, passes).post;
      ServedIs(d, q);
      StepKeeps(d, q);
      StepBytes(d, q);
      SaneParts(d');
      ServedOnce(d, q, passes - 1);
      PumpBytes(d', q, passes - 1);
      CompleteSlots(d.filing, c, TRUE);
      ChunksFrame(d.filing.slots, d'.filing.slots, m'.memory, rest, Read);
      ChunksFrame(d.filing.slots, d'.filing.slots, m'.memory, rest, Write);
      ChunkFrame(d.filing.slots, m'.memory, d'.post.memory, c, Read);
      ChunkFrame(d.filing.slots, m'.memory, d'.post.memory, c, Write);
      assert ([c] + rest)[1..] == rest;
    }
  }

  lemma CompleteSlots(f: Filing, c: int, result: int)
    requires Shaped(f) && Channel(c)
    ensures Shaped(Complete(f, c, result))
    ensures Complete(f, c, result).slots == f.slots[c := f.slots[c].(phase := Ready, result := result)]
  {
  }

  lemma ChunkFrame(slots: seq<Parked>, memory: seq<seq<Byte>>, memory': seq<seq<Byte>>, c: int, operation: Operation)
    requires BytesAt(memory, c) == BytesAt(memory', c)
    ensures ChunkOf(slots, memory, c, operation) == ChunkOf(slots, memory', c, operation)
  {
  }
}
