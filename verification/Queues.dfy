/** The message queues in place: 128 bytes for each channel, filled from the front and shifted down when read. */
module Queues {
  import opened Mail
  import opened Parking

  /** The bytes in use of queue q, out of all queues one behind the other. */
  ghost function Content(bytes: seq<Byte>, fill: seq<int>, q: int): seq<Byte> {
    if 0 <= q < |fill| && 0 <= fill[q] <= QUEUE_BYTES && QUEUE_BYTES * q + fill[q] <= |bytes|
    then bytes[QUEUE_BYTES * q..QUEUE_BYTES * q + fill[q]] else []
  }

  ghost function Contents(bytes: seq<Byte>, fill: seq<int>): (queues: seq<seq<Byte>>)
    ensures |queues| == |fill|
  {
    seq(|fill|, q => Content(bytes, fill, q))
  }

  /** Writing inside one queue's bytes only changes that queue. */
  lemma ContentsChange(bytes: seq<Byte>, fill: seq<int>, q: int, bytes': seq<Byte>, n: int, queue: seq<Byte>)
    requires |bytes| == |bytes'| == QUEUE_BYTES * CHANNELS && |fill| == CHANNELS && Channel(q)
    requires forall i | 0 <= i < |bytes| && !(QUEUE_BYTES * q <= i < QUEUE_BYTES * (q + 1)) :: bytes'[i] == bytes[i]
    requires Content(bytes', fill[q := n], q) == queue
    ensures Contents(bytes', fill[q := n]) == Contents(bytes, fill)[q := queue]
  {
    forall p | Channel(p) && p != q
      ensures Content(bytes', fill[q := n], p) == Content(bytes, fill, p)
    {
    }
  }

  lemma Appended(was: seq<Byte>, level: seq<int>, q: int, bytes: seq<Byte>, data: seq<Byte>)
    requires |was| == |bytes| == QUEUE_BYTES * CHANNELS && |level| == CHANNELS && Channel(q)
    requires 0 <= level[q] && level[q] + |data| <= QUEUE_BYTES
    requires var from := QUEUE_BYTES * q + level[q];
             && (forall k | from <= k < from + |data| :: bytes[k] == data[k - from])
             && forall k | 0 <= k < |bytes| && !(from <= k < from + |data|) :: bytes[k] == was[k]
    ensures Content(bytes, level[q := level[q] + |data|], q) == Content(was, level, q) + data
  {
  }

  lemma Shifted(was: seq<Byte>, level: seq<int>, q: int, bytes: seq<Byte>, n: nat)
    requires |was| == |bytes| == QUEUE_BYTES * CHANNELS && |level| == CHANNELS && Channel(q)
    requires n <= level[q] <= QUEUE_BYTES
    requires var base := QUEUE_BYTES * q;
             forall k | base <= k < base + level[q] - n :: bytes[k] == was[k + n]
    ensures |Content(was, level, q)| == level[q]
    ensures Content(bytes, level[q := level[q] - n], q) == Content(was, level, q)[n..]
  {
  }

  class Queues {
    const bytes: array<Byte>
    const fill: array<int>
    ghost var accepted: seq<seq<Byte>>
    ghost var delivered: seq<seq<Byte>>

    ghost predicate Valid()
      reads this, fill
    {
      (bytes as object) != fill && bytes.Length == QUEUE_BYTES * CHANNELS
      && fill.Length == |accepted| == |delivered| == CHANNELS
      && forall q | Channel(q) :: 0 <= fill[q] <= QUEUE_BYTES
    }

    ghost function Held(): (queues: seq<seq<Byte>>)
      reads bytes, fill
    {
      Contents(bytes[..], fill[..])
    }

    constructor ()
      ensures Valid() && fresh(bytes) && fresh(fill)
      ensures Held() == accepted == delivered == seq(CHANNELS, _ => [])
    {
      bytes := new Byte[QUEUE_BYTES * CHANNELS](_ => 0);
      fill := new int[CHANNELS](_ => 0);
      accepted, delivered := seq(CHANNELS, _ => []), seq(CHANNELS, _ => []);
    }

    /** What each queue holds, in full. */
    lemma Filled(q: int)
      requires Valid() && Channel(q)
      ensures (bytes as object) != fill && bytes.Length == QUEUE_BYTES * CHANNELS && fill.Length == CHANNELS == |Held()|
      ensures 0 <= fill[q] <= QUEUE_BYTES && QUEUE_BYTES * q + fill[q] <= bytes.Length
      ensures Held()[q] == bytes[QUEUE_BYTES * q..QUEUE_BYTES * q + fill[q]] && |Held()[q]| == fill[q]
    {
    }

    method Enqueue(q: int, data: seq<Byte>)
      requires Valid() && Channel(q) && |data| <= QUEUE_BYTES - |BytesAt(Held(), q)|
      modifies this`accepted, bytes, fill
      ensures Valid() && Held() == Put(old(Held()), q, BytesAt(old(Held()), q) + data)
      ensures accepted == Put(old(accepted), q, BytesAt(old(accepted), q) + data)
    {
      hide Content;
      Filled(q);
      ghost var (was, level) := (bytes[..], fill[..]);
      var from := QUEUE_BYTES * q + fill[q];
      for i := 0 to |data|
        modifies bytes
        invariant forall k | from <= k < from + i :: bytes[k] == data[k - from]
        invariant forall k | 0 <= k < bytes.Length && !(from <= k < from + i) :: bytes[k] == was[k]
      {
        bytes[from + i] := data[i];
      }
      fill[q] := fill[q] + |data|;
      assert fill[..] == level[q := fill[q]];
      Appended(was, level, q, bytes[..], data);
      ContentsChange(was, level, q, bytes[..], fill[q], Content(was, level, q) + data);
      accepted := Put(accepted, q, BytesAt(accepted, q) + data);
    }

    /** Takes n bytes from the front of a queue and moves the rest down. */
    method Dequeue(q: int, n: nat) returns (data: seq<Byte>)
      requires Valid() && Channel(q) && n <= |BytesAt(Held(), q)|
      modifies this`delivered, bytes, fill
      ensures Valid() && data == BytesAt(old(Held()), q)[..n]
              && Held() == Put(old(Held()), q, BytesAt(old(Held()), q)[n..])
      ensures delivered == Put(old(delivered), q, BytesAt(old(delivered), q) + data)
    {
      hide Content;
      Filled(q);
      ghost var (was, level) := (bytes[..], fill[..]);
      var base, rest := QUEUE_BYTES * q, fill[q] - n;
      data := bytes[base..base + n];
      assert data == BytesAt(Held(), q)[..n];
      for i := 0 to rest
        modifies bytes
        invariant forall k | base <= k < base + i :: bytes[k] == was[k + n]
        invariant forall k | 0 <= k < bytes.Length && !(base <= k < base + i) :: bytes[k] == was[k]
      {
        assert bytes[base + i + n] == was[base + i + n];
        bytes[base + i] := bytes[base + n + i];
      }
      fill[q] := rest;
      assert fill[..] == level[q := rest];
      Shifted(was, level, q, bytes[..], n);
      ContentsChange(was, level, q, bytes[..], rest, Content(was, level, q)[n..]);
      delivered := Put(delivered, q, BytesAt(delivered, q) + data);
    }

    /** Forgets what a queue holds, and starts its history anew. */
    method Clear(q: int)
      requires Valid() && Channel(q)
      modifies this, fill
      ensures Valid() && Held() == Put(old(Held()), q, [])
      ensures accepted == Put(old(accepted), q, []) && delivered == Put(old(delivered), q, [])
    {
      ghost var (was, level) := (bytes[..], fill[..]);
      fill[q] := 0;
      ContentsChange(was, level, q, bytes[..], 0, []);
      assert fill[..] == level[q := 0];
      accepted, delivered := Put(accepted, q, []), Put(delivered, q, []);
    }
  }
}
