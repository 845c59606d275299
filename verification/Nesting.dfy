/** Taking the screen lock again and again, and giving it back as often. */
module Nesting {
  import opened Links
  import opened Mail
  import opened Parking
  import opened Promises
  import opened Protocol
  import opened Requests
  import opened ScreenLock
  import opened Transfers

  /** The lock record of a client is its own, or it has none and no level. */
  lemma HolderBound(w: World, c: int)
    requires Steady(w) && Channel(c) && ClientAt(w.clients, c).attached
    ensures Locked(w.lock) && HolderAt(w.lock, c).depth <= 65535
    ensures BoundTo(w.lock, c, ClientAt(w.clients, c).generation)
            || (!HolderAt(w.lock, c).active && HolderAt(w.lock, c).depth == 0 && w.lock.owner != c)
  {
    SteadyParts(w);
    assert Bound(w, c) && Consistent(w.lock, c);
  }

  /** What beginning comes to for the client of a channel: free, or its own below the last level. */
  lemma Begins(w: World, c: int)
    requires Steady(w) && Channel(c) && ClientAt(w.clients, c).attached
    ensures var (l', outcome) := Begin(w.lock, c, ClientAt(w.clients, c).generation);
            var (owner, depth) := (w.lock.owner, HolderAt(w.lock, c).depth);
            && (outcome.Taken? <==> owner == NIL || (owner == c && depth < 65535))
            && (outcome.Full? <==> owner == c && depth == 65535)
            && l'.owner == (if outcome.Taken? then c else owner)
            && HolderAt(l', c).depth == (if outcome.Taken? then depth + 1 else depth)
            && (owner == NIL ==> depth == 0) && depth <= 65535
            && forall d :: d != c ==> HolderAt(l', d) == HolderAt(w.lock, d)
  {
    hide Coherent, Locked, Begin;
    var g := ClientAt(w.clients, c).generation;
    HolderBound(w, c);
    if BoundTo(w.lock, c, g) {
      BeginIs(w.lock, c, g);
    } else {
      BindIs(w.lock, c, g);
      BindKeeps(w.lock, c, g);
      BeginIs(Bind(w.lock, c, g), c, g);
      BeginBound(w.lock, c, g);
    }
  }

  lemma BeginBound(l: Lock, c: int, generation: int)
    requires Locked(l) && Channel(c)
    ensures Begin(Bind(l, c, generation), c, generation) == Begin(l, c, generation)
  {
  }

  /** WIND_UPDATE begins for a client that is not waiting: granted while the lock is free or its own below level 65535,
      refused with 0 at that level, and else parked behind the other contenders. */
  lemma ActBegins(w: World, c: int)
    requires Steady(w) && Calls(w, c)
    ensures var (w', answer) := (Act(w, WindUpdate(c, true)), UpdateCall(w, c, true).1);
            var (owner, depth) := (w.lock.owner, HolderAt(w.lock, c).depth);
            && |w.waiting| == 6
            && if owner == NIL || (owner == c && depth < 65535) then
                 && answer == Done(1) && w'.desk == w.desk && w'.waiting == w.waiting && w'.clients == w.clients
                 && w'.lock.owner == c && HolderAt(w'.lock, c).depth == depth + 1
               else if owner == c then
                 && answer == Done(0) && w'.desk == w.desk && w'.waiting == w.waiting && w'.clients == w.clients
                 && w'.lock.owner == c && HolderAt(w'.lock, c).depth == depth
               else
                 && answer == Deferred && w'.waiting == w.waiting[c := true] && w'.desk.post == w.desk.post
                 && w'.lock.owner == owner && HolderAt(w'.lock, owner) == HolderAt(w.lock, owner)
                 && ParkedLast(w.desk.filing, w'.desk.filing, c,
                               Parked(Waiting, Operation.Update, c, 0, 0, ClientAt(w.clients, c).generation, 0), 12)
  {
    hide Coherent, Begin, Park, ParkedLast;
    CallsFree(w, c);
    Begins(w, c);
    if UpdateCall(w, c, true).1.Deferred? {
      SaneParts(w.desk);
      ParksLast(w.desk.filing, c, Waiter(Operation.Update, c, 0, 0, ClientAt(w.clients, c).generation));
    }
  }

  /** A begin for forms and trackers has the same effect on the lock, and never waits. */
  lemma ActBeginsInner(w: World, c: int)
    requires Steady(w) && Channel(c) && ClientAt(w.clients, c).attached
    ensures var w' := Act(w, Protocol.Inner(c, true));
            var (owner, depth) := (w.lock.owner, HolderAt(w.lock, c).depth);
            && w' == w.(lock := w'.lock)
            && if owner == NIL || (owner == c && depth < 65535)
               then w'.lock.owner == c && HolderAt(w'.lock, c).depth == depth + 1
               else w'.lock.owner == owner && HolderAt(w'.lock, c).depth == depth
  {
    hide Coherent, Begin;
    Begins(w, c);
  }

  /** WIND_UPDATE ends for a client that does not own the lock: refused with 0. */
  lemma ActEndsOthers(w: World, c: int)
    requires Steady(w) && Calls(w, c) && w.lock.owner != c
    ensures var w' := Act(w, WindUpdate(c, false));
            && UpdateCall(w, c, false).1 == Done(0) && w'.desk == w.desk && w'.waiting == w.waiting
            && w'.lock.owner == w.lock.owner && forall d :: HolderAt(w'.lock, d).depth == HolderAt(w.lock, d).depth
  {
    hide Coherent, Locked;
    var g := ClientAt(w.clients, c).generation;
    CallsFree(w, c);
    HolderBound(w, c);
    if BoundTo(w.lock, c, g) {
      EndIs(w.lock, c, g);
    } else {
      BindIs(w.lock, c, g);
    }
  }

  // Runs of begins and ends

  function Often(a: Action, n: nat): seq<Action> {
    seq(n, _ => a)
  }

  lemma OftenStep(w: World, a: Action, n: nat)
    requires n > 0
    ensures RunOf(w, Often(a, n)) == RunOf(Act(w, a), Often(a, n - 1))
  {
    assert Often(a, n)[1..] == Often(a, n - 1);
  }

  /** n begins of the owner, or on a free lock, take n levels. */
  lemma {:induction false} BeginsRun(w: World, c: int, n: nat)
    requires Steady(w) && Calls(w, c) && (w.lock.owner == c || (w.lock.owner == NIL && n > 0))
    requires HolderAt(w.lock, c).depth + n <= 65535
    ensures var w' := RunOf(w, Often(WindUpdate(c, true), n));
            && Steady(w') && Calls(w', c) && w'.desk == w.desk && w'.waiting == w.waiting && w'.clients == w.clients
            && w'.lock.owner == c && HolderAt(w'.lock, c).depth == HolderAt(w.lock, c).depth + n
    decreases n
  {
    hide Steady, Act;
    if n > 0 {
      var a := WindUpdate(c, true);
      OftenStep(w, a, n);
      ActBegins(w, c);
      ActSteady(w, a);
      BeginsRun(Act(w, a), c, n - 1);
    }
  }

  lemma ActEnds(w: World, c: int)
    requires Steady(w) && Calls(w, c) && w.lock.owner == c
    ensures var (w', depth) := (Act(w, WindUpdate(c, false)), HolderAt(w.lock, c).depth);
            && Steady(w') && UpdateCall(w, c, false).1 == Done(1)
            && if depth > 1 then Calls(w', c) && w'.desk == w.desk && w'.lock.owner == c
                                 && HolderAt(w'.lock, c).depth == depth - 1
               else depth == 1 && HandedOn(w', Head(w.desk.filing, UPDATE_LIST))
  {
    hide Coherent, Progress, Locked;
    var g := ClientAt(w.clients, c).generation;
    CallsFree(w, c);
    ActSteady(w, WindUpdate(c, false));
    HolderBound(w, c);
    EndIs(w.lock, c, g);
    EndHandsOn(w, c);
    ProgressFrame(w.(lock := End(w.lock, c, g).0));
  }

  /** Fewer ends than levels leave the lock with its owner and all requests as they are; the last one hands the lock
      on. */
  lemma {:induction false} EndsRun(w: World, c: int, n: nat)
    requires Steady(w) && Calls(w, c) && w.lock.owner == c && 0 < n <= HolderAt(w.lock, c).depth
    ensures var w' := RunOf(w, Often(WindUpdate(c, false), n));
            if n < HolderAt(w.lock, c).depth
            then w'.desk == w.desk && w'.lock.owner == c && HolderAt(w'.lock, c).depth == HolderAt(w.lock, c).depth - n
            else HandedOn(w', Head(w.desk.filing, UPDATE_LIST))
    decreases n
  {
    hide Steady, Act, Calls, HandedOn;
    var a := WindUpdate(c, false);
    OftenStep(w, a, n);
    ActEnds(w, c);
    if n > 1 {
      EndsRun(Act(w, a), c, n - 1);
    }
  }

  /** On a free lock, n begins followed by k ends: the client still has the lock before the n-th end, and with it the
      oldest contender has it, or nobody. */
  lemma NestedRun(w: World, c: int, n: nat, k: nat)
    requires Steady(w) && Calls(w, c) && w.lock.owner == NIL && 0 < k <= n <= 65535
    ensures var w' := RunOf(RunOf(w, Often(WindUpdate(c, true), n)), Often(WindUpdate(c, false), k));
            if k < n then w'.lock.owner == c && HolderAt(w'.lock, c).depth == n - k
            else HandedOn(w', Head(w.desk.filing, UPDATE_LIST))
  {
    hide Coherent, Act, Calls, HandedOn, Locked;
    FreeDepth(w, c);
    BeginsRun(w, c, n);
    EndsRun(RunOf(w, Often(WindUpdate(c, true), n)), c, k);
  }

  lemma FreeDepth(w: World, c: int)
    requires Steady(w) && Calls(w, c) && w.lock.owner == NIL
    ensures HolderAt(w.lock, c).depth == 0
  {
    CallsFree(w, c);
    Begins(w, c);
  }
}
