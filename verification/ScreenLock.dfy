/** The recursive WIND_UPDATE lock: who holds the screen, how deep, and the history of grants. */
module ScreenLock {
  import opened Links
  import opened Parking

  const DEPTH_MAX := 65535

  /** The lock record of a channel, bound to one generation of its clients. */
  datatype Holder = Holder(active: bool, generation: int, depth: nat)

  const NOT_BOUND := Holder(false, 0, 0)

  datatype Grant = Granted(channel: int) | Ended(channel: int) | Vacated(channel: int)

  datatype Lock = Lock(owner: int, holders: seq<Holder>, grants: seq<Grant>)

  /** How often a channel began and did not end, by the history, since it last lost all it held. */
  function Holding(grants: seq<Grant>, c: int): int
    decreases |grants|
  {
    if grants == [] then 0
    else
      var (before, last) := (grants[..|grants| - 1], grants[|grants| - 1]);
      if last.channel != c then Holding(before, c)
      else match last
        case Granted(_) => Holding(before, c) + 1
        case Ended(_) => Holding(before, c) - 1
        case Vacated(_) => 0
  }

  lemma HoldingStep(grants: seq<Grant>, g: Grant, c: int)
    ensures Holding(grants + [g], c) == if g.channel != c then Holding(grants, c)
                                        else if g.Granted? then Holding(grants, c) + 1
                                        else if g.Ended? then Holding(grants, c) - 1 else 0
  {
    assert (grants + [g])[..|grants|] == grants;
  }

  /** At every moment of the history at most one channel held the screen. */
  ghost predicate Exclusive(grants: seq<Grant>) {
    forall k, c, d | 0 <= k <= |grants| && Channel(c) && Channel(d) && c != d ::
      Holding(grants[..k], c) <= 0 || Holding(grants[..k], d) <= 0
  }

  lemma ExclusiveStep(grants: seq<Grant>, g: Grant, owner: int)
    requires Exclusive(grants) && forall c | Channel(c) && c != owner :: Holding(grants + [g], c) <= 0
    ensures Exclusive(grants + [g])
  {
    var all := grants + [g];
    forall k, c, d | 0 <= k <= |all| && Channel(c) && Channel(d) && c != d
      ensures Holding(all[..k], c) <= 0 || Holding(all[..k], d) <= 0
    {
      if k <= |grants| {
        assert all[..k] == grants[..k];
      } else {
        assert all[..k] == all;
      }
    }
  }

  /** Only the owner has a depth, which fits a word, and the depths are what the history says. */
  ghost predicate Locked(l: Lock) {
    && |l.holders| == CHANNELS && (l.owner == NIL || Channel(l.owner))
    && (forall c | Channel(c) :: Consistent(l, c))
    && Exclusive(l.grants)
  }

  ghost predicate Consistent(l: Lock, c: int)
    requires Channel(c) && |l.holders| == CHANNELS
  {
    && l.holders[c].depth == Holding(l.grants, c)
    && (l.holders[c].depth > 0 <==> c == l.owner)
    && (l.holders[c].depth > 0 ==> l.holders[c].active) && l.holders[c].depth <= DEPTH_MAX
  }

  function HolderAt(l: Lock, c: int): Holder {
    if 0 <= c < |l.holders| then l.holders[c] else NOT_BOUND
  }

  /** Finds the lock record of a channel. A new generation means the old client is gone: what it held is released. */
  function Bind(l: Lock, c: int, generation: int): Lock {
    if HolderAt(l, c).active && HolderAt(l, c).generation == generation then l
    else Lock(if l.owner == c then NIL else l.owner, Put(l.holders, c, Holder(true, generation, 0)),
              l.grants + [Vacated(c)])
  }

  datatype Outcome = Taken | Refused | Full

  /** Begins one level. Refused when another channel owns the lock. */
  function Begin(l: Lock, c: int, generation: int): (Lock, Outcome) {
    var b := Bind(l, c, generation);
    if b.owner != NIL && b.owner != c then (b, Refused)
    else if HolderAt(b, c).depth == DEPTH_MAX then (b, Full)
    else (Lock(c, Put(b.holders, c, HolderAt(b, c).(depth := HolderAt(b, c).depth + 1)), b.grants + [Granted(c)]),
          Taken)
  }

  /** Ends one level; the last level gives the lock up. */
  function End(l: Lock, c: int, generation: int): (Lock, bool) {
    var b := Bind(l, c, generation);
    if b.owner != c || HolderAt(b, c).depth == 0 then (b, false)
    else
      var depth := HolderAt(b, c).depth - 1;
      (Lock(if depth == 0 then NIL else b.owner, Put(b.holders, c, HolderAt(b, c).(depth := depth)),
            b.grants + [Ended(c)]), true)
  }

  /** A client is gone: its record is cleared, and with it what it held. */
  function Vacate(l: Lock, c: int, generation: int): Lock {
    if !HolderAt(l, c).active || HolderAt(l, c).generation != generation then l
    else Lock(if l.owner == c then NIL else l.owner, Put(l.holders, c, NOT_BOUND), l.grants + [Vacated(c)])
  }

  /** A change of one channel's record, told in the history, that leaves it the only owner or none. */
  lemma LockStep(l: Lock, c: int, h: Holder, owner: int, g: Grant)
    requires Locked(l) && Channel(c) && g.channel == c && (l.owner == c || l.owner == NIL || l.owner == owner)
    requires owner == c <==> h.depth > 0
    requires owner != c ==> owner == if l.owner == c then NIL else l.owner
    requires (h.depth > 0 ==> h.active) && h.depth <= DEPTH_MAX
    requires h.depth == if g.Granted? then l.holders[c].depth + 1 else if g.Ended? then l.holders[c].depth - 1 else 0
    ensures Locked(Lock(owner, l.holders[c := h], l.grants + [g]))
  {
    var l' := Lock(owner, l.holders[c := h], l.grants + [g]);
    assert Consistent(l, c);
    forall d | Channel(d)
      ensures Consistent(l', d)
    {
      assert Consistent(l, d);
      HoldingStep(l.grants, g, d);
    }
    forall d | Channel(d) && d != owner
      ensures Holding(l'.grants, d) <= 0
    {
      assert Consistent(l', d);
    }
    ExclusiveStep(l.grants, g, owner);
  }

  lemma BindKeeps(l: Lock, c: int, generation: int)
    requires Locked(l) && Channel(c)
    ensures Locked(Bind(l, c, generation))
  {
    if !(l.holders[c].active && l.holders[c].generation == generation) {
      LockStep(l, c, Holder(true, generation, 0), if l.owner == c then NIL else l.owner, Vacated(c));
    }
  }

  /** Beginning keeps the lock exclusive, and succeeds when nobody else has it. */
  lemma BeginKeeps(l: Lock, c: int, generation: int)
    requires Locked(l) && Channel(c)
    ensures Locked(Begin(l, c, generation).0)
    ensures Begin(l, c, generation).1.Refused? <==> l.owner != NIL && l.owner != c
    ensures Begin(l, c, generation).1.Taken? ==> Begin(l, c, generation).0.owner == c
    ensures !Begin(l, c, generation).1.Taken? ==> Begin(l, c, generation).0.owner == Bind(l, c, generation).owner
    ensures l.owner == NIL ==> Begin(l, c, generation).1.Taken? && Begin(l, c, generation).0.holders[c].depth == 1
  {
    BindKeeps(l, c, generation);
    var b := Bind(l, c, generation);
    assert Consistent(b, c) && Consistent(l, c);
    if Begin(l, c, generation).1.Taken? {
      LockStep(b, c, b.holders[c].(depth := b.holders[c].depth + 1), c, Granted(c));
    }
  }

  lemma EndKeeps(l: Lock, c: int, generation: int)
    requires Locked(l) && Channel(c)
    ensures Locked(End(l, c, generation).0)
    ensures !End(l, c, generation).1 ==> End(l, c, generation).0 == Bind(l, c, generation)
    ensures End(l, c, generation).1 ==> l.owner == c
  {
    BindKeeps(l, c, generation);
    var b := Bind(l, c, generation);
    assert Consistent(b, c) && Consistent(l, c);
    if End(l, c, generation).1 {
      var h := b.holders[c].(depth := b.holders[c].depth - 1);
      LockStep(b, c, h, if h.depth == 0 then NIL else c, Ended(c));
    }
  }

  lemma VacateKeeps(l: Lock, c: int, generation: int)
    requires Locked(l) && Channel(c)
    ensures Locked(Vacate(l, c, generation))
  {
    if l.holders[c].active && l.holders[c].generation == generation {
      LockStep(l, c, NOT_BOUND, if l.owner == c then NIL else l.owner, Vacated(c));
    }
  }

  /** The channel's record is that of this generation of its clients. */
  predicate BoundTo(l: Lock, c: int, generation: int) {
    HolderAt(l, c).active && HolderAt(l, c).generation == generation
  }

  /** The lock with another owner and depth of channel c, and a history that says so. */
  ghost predicate Deepened(l: Lock, l': Lock, c: int, owner: int, depth: nat) {
    && l'.owner == owner && HolderAt(l', c) == HolderAt(l, c).(depth := depth)
    && forall d :: d != c ==> HolderAt(l', d) == HolderAt(l, d)
  }

  /** Who may begin: anybody while the lock is free, and the owner again and again, 65535 levels deep. */
  lemma BeginIs(l: Lock, c: int, generation: int)
    requires Locked(l) && Channel(c) && BoundTo(l, c, generation)
    ensures var (l', outcome) := Begin(l, c, generation);
            var depth := HolderAt(l, c).depth;
            && (outcome.Taken? <==> l.owner == NIL || (l.owner == c && depth < 65535))
            && (outcome.Full? <==> l.owner == c && depth == 65535)
            && if outcome.Taken? then Deepened(l, l', c, c, depth + 1) else l' == l
    ensures l.owner == NIL ==> HolderAt(l, c).depth == 0
  {
    assert Consistent(l, c);
  }

  /** Only the owner can end, and the last level frees the lock. */
  lemma EndIs(l: Lock, c: int, generation: int)
    requires Locked(l) && Channel(c) && BoundTo(l, c, generation)
    ensures var (l', ok) := End(l, c, generation);
            var depth := HolderAt(l, c).depth;
            && (ok <==> l.owner == c) && (ok ==> depth > 0)
            && if ok then Deepened(l, l', c, if depth == 1 then NIL else c, depth - 1) else l' == l
  {
    assert Consistent(l, c);
  }

  /** A channel with no record of this generation gets one; whatever an older one held is released. */
  lemma BindIs(l: Lock, c: int, generation: int)
    requires Locked(l) && Channel(c)
    ensures var b := Bind(l, c, generation);
            if BoundTo(l, c, generation) then b == l
            else HolderAt(b, c) == Holder(true, generation, 0) && b.owner == (if l.owner == c then NIL else l.owner)
                 && forall d :: d != c ==> HolderAt(b, d) == HolderAt(l, d)
  {
  }
}
