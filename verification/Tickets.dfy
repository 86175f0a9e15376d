/** Who may use an entity: the 15-bit ticket counters that pass it from a holder to the threads waiting for
    it, one atomic step per section under a lock. */
module Tickets {
  import opened Options

  /** Which list of its branch the entity is on; `Gone` if it was removed from the branch. */
  datatype Place = Free | Busy | Loaded | Gone

  /** INT16_MAX + 1: the counters run from 0 to INT16_MAX and start over. */
  const TICKETS: nat := 32768

  /** What a thread that is not idle is doing with the entity. `blocker` marks a thread that waits in
      block_until_free and will set the entity free whoever else waits. */
  datatype Role =
    | Holding(blocker: bool)
    | Releasing                                // found waiters in set_free, not yet under the waitlock
    | Drawing(blocker: bool)                   // has the waitlock, about to take a ticket
    | Waiting(ticket: nat, blocker: bool)

  datatype Entity = Entity(
    place: Place,
    head: nat,               // waiters_head
    bottom: nat,             // waiters_bottom
    waitlock: Option<nat>,   // the thread that keeps the waitlock from one step to the next
    roles: map<nat, Role>)

  const FRESH := Entity(Free, 0, 0, None, map[])

  /** ADD_SAFELY_INT16T */
  function Bump(x: nat): nat {
    if x == TICKETS - 1 then 0 else x + 1
  }

  datatype Action =
    | GetFree(t: nat)                     // get_free, and get_specific on a free entity
    | GetLoaded(t: nat)                   // get_loaded on a loaded entity
    | Queue(t: nat, blocker: bool)        // busy, or loaded for get_specific: take the waitlock
    | Draw(t: nat)                        // take a ticket and wait for it
    | Leave(t: nat)                       // the ticket came up
    | SetFree(t: nat)                     // the section of set_free under the branch lock
    | HandOver(t: nat)                    // the section of set_free under the waitlock
    | SetLoaded(t: nat)
    | Unblock(t: nat)                     // block_until_free after its ticket came up
    | FreeLoaded(t: nat)                  // block_until_free on a loaded entity
    | Remove(t: nat)                      // remove_from_branch by its user: a broken recorder, a buffer without one
    | Close(t: nat)                       // shutdown, whoever has the entity

  predicate Is(e: Entity, t: nat, r: Role) {
    t in e.roles && e.roles[t] == r
  }

  /** The thread has the entity, or its ticket is up. */
  predicate Has(e: Entity, t: nat) {
    t in e.roles && match e.roles[t]
      case Holding(_) => true
      case Releasing => true
      case Drawing(_) => false
      case Waiting(k, _) => k == e.bottom
  }

  /** A thread that was handed the entity by an API call and gives it back by set_free or set_loaded. */
  predicate IsUser(e: Entity, t: nat) {
    Is(e, t, Holding(false))
  }

  /** No thread's ticket came up that has not noticed yet. */
  predicate NobodyCalled(e: Entity) {
    forall u :: u in e.roles && e.roles[u].Waiting? ==> e.roles[u].ticket != e.bottom
  }

  /** Whether the code can take this step now. */
  predicate Enabled(e: Entity, a: Action) {
    match a
    case GetFree(t) => e.place == Free && t !in e.roles
    case GetLoaded(t) => e.place == Loaded && t !in e.roles
    case Queue(t, blocker) =>
      (e.place == Busy || (e.place == Loaded && !blocker)) && t !in e.roles && e.waitlock.None?
    case Draw(t) => t in e.roles && e.roles[t].Drawing? && e.waitlock == Some(t)
    case Leave(t) => t in e.roles && e.roles[t].Waiting? && e.roles[t].ticket == e.bottom && e.waitlock.None?
    case SetFree(t) => IsUser(e, t)
    case HandOver(t) => Is(e, t, Releasing) && e.waitlock.None?
    case SetLoaded(t) => IsUser(e, t) && e.waitlock.None?
    case Unblock(t) => Is(e, t, Holding(true))
    case FreeLoaded(t) => e.place == Loaded && t !in e.roles
    case Remove(t) => IsUser(e, t)
    case Close(t) => e.place != Gone && t !in e.roles && NobodyCalled(e)
  }

  function Step(e: Entity, a: Action): Entity
    requires Enabled(e, a)
  {
    match a
    case GetFree(t) => e.(place := Busy, roles := e.roles[t := Holding(false)])
    case GetLoaded(t) => e.(place := Busy, roles := e.roles[t := Holding(false)])
    case Queue(t, blocker) => e.(waitlock := Some(t), roles := e.roles[t := Drawing(blocker)])
    case Draw(t) =>
      var ticket := Bump(e.head);
      e.(head := ticket, waitlock := None, roles := e.roles[t := Waiting(ticket, e.roles[t].blocker)])
    case Leave(t) => e.(roles := e.roles[t := Holding(e.roles[t].blocker)])
    case SetFree(t) =>
      if e.bottom != e.head
      then e.(roles := e.roles[t := Releasing])
      else e.(place := Free, roles := e.roles - {t})
    case HandOver(t) => e.(bottom := Bump(e.bottom), roles := e.roles - {t})
    case SetLoaded(t) =>
      if e.head != e.bottom
      then e.(bottom := Bump(e.bottom), roles := e.roles - {t})
      else e.(place := Loaded, roles := e.roles - {t})
    case Unblock(t) => e.(place := Free, roles := e.roles - {t})
    case FreeLoaded(t) => e.(place := Free)
    case Remove(t) => e.(place := Gone, roles := e.roles - {t})
    case Close(t) => e.(place := Gone, roles := map u | u in e.roles && !Has(e, u) :: e.roles[u])
  }

  // ---------- What the counters stand for ----------

  /** Who has the entity, who waits for it in which order, and who was ever let in from the line. */
  datatype Line = Line(owner: Option<nat>, queue: seq<nat>, granted: seq<nat>)

  const NOBODY := Line(None, [], [])

  /** Drawing a ticket is joining the line; every way of passing the entity on serves its front. */
  function StepLine(e: Entity, l: Line, a: Action): Line
    requires Enabled(e, a)
  {
    match a
    case GetFree(t) => l.(owner := Some(t))
    case GetLoaded(t) => l.(owner := Some(t))
    case Draw(t) => l.(queue := l.queue + [t])
    case SetFree(t) => if l.queue != [] then l else l.(owner := None)
    case HandOver(t) => Serve(l)
    case SetLoaded(t) => if l.queue != [] then Serve(l) else l.(owner := None)
    case Unblock(t) => l.(owner := None)
    case Remove(t) => l.(owner := None)
    case Close(t) => l.(owner := None)
    case _ => l
  }

  function Serve(l: Line): Line {
    if l.queue == [] then l else Line(Some(l.queue[0]), l.queue[1..], l.granted + [l.queue[0]])
  }

  function Ticket(bottom: nat, i: nat): nat {
    (bottom + 1 + i) % TICKETS
  }

  /** What thread t may be doing, given the line. */
  predicate RoleOk(e: Entity, l: Line, t: nat) {
    t in e.roles ==>
      match e.roles[t]
      case Holding(_) => l.owner == Some(t)
      case Releasing => l.owner == Some(t) && l.queue != []
      case Drawing(_) => e.waitlock == Some(t) && l.owner != Some(t) && t !in l.queue
      case Waiting(k, _) =>
        if l.owner == Some(t) then k == e.bottom else t in l.queue
  }

  predicate Queued(e: Entity, l: Line, i: nat)
    requires i < |l.queue|
  {
    var t := l.queue[i];
    t in e.roles && e.roles[t].Waiting? && e.roles[t].ticket == Ticket(e.bottom, i) && l.owner != Some(t)
  }

  ghost predicate Matches(e: Entity, l: Line) {
    && e.bottom < TICKETS && |l.queue| < TICKETS && e.head == (e.bottom + |l.queue|) % TICKETS
    && (e.place == Busy <==> l.owner.Some?)
    && (l.owner.Some? ==> l.owner.value in e.roles)
    && (e.waitlock.Some? ==> e.waitlock.value in e.roles && e.roles[e.waitlock.value].Drawing?)
    && (forall t :: t in e.roles ==> RoleOk(e, l, t))
    && (forall i :: 0 <= i < |l.queue| ==> Queued(e, l, i))
    && (forall i, j :: 0 <= i < j < |l.queue| ==> l.queue[i] != l.queue[j])
  }

  // ---------- One step ----------

  lemma OneTurn(x: nat, d: nat)
    requires x < TICKETS && d < TICKETS
    ensures (x + d) % TICKETS == if x + d < TICKETS then x + d else x + d - TICKETS
  {
  }

  /** The next ticket is the one at the end of the line, and it is not up yet. */
  lemma NextTicket(e: Entity, l: Line)
    requires Matches(e, l)
    ensures Bump(e.head) == Ticket(e.bottom, |l.queue|) == (e.bottom + (|l.queue| + 1)) % TICKETS
    ensures Bump(e.head) == e.bottom <==> |l.queue| == TICKETS - 1
  {
    OneTurn(e.bottom, |l.queue|);
  }

  /** Serving the front of the line moves everybody one ticket closer. */
  lemma TicketsShift(bottom: nat, i: nat)
    requires bottom < TICKETS && i + 1 < TICKETS
    ensures Ticket(Bump(bottom), i) == Ticket(bottom, i + 1)
  {
  }

  lemma QueuedIsNotUp(e: Entity, l: Line, i: nat)
    requires Matches(e, l) && i < |l.queue|
    ensures var t := l.queue[i];
      t in e.roles && e.roles[t].Waiting? && e.roles[t].ticket != e.bottom
  {
    assert Queued(e, l, i);
    OneTurn(e.bottom, i + 1);
  }

  /** A thread whose ticket is up owns the entity. */
  lemma OnlyTheOwnerLeaves(e: Entity, l: Line, t: nat)
    requires Matches(e, l) && Enabled(e, Leave(t))
    ensures l.owner == Some(t)
  {
    assert RoleOk(e, l, t);
    forall i | 0 <= i < |l.queue|
      ensures l.queue[i] != t
    {
      QueuedIsNotUp(e, l, i);
    }
  }

  lemma TakeMatches(e: Entity, l: Line, t: nat)
    requires Matches(e, l) && e.place != Busy && t !in e.roles
    ensures Matches(e.(place := Busy, roles := e.roles[t := Holding(false)]), l.(owner := Some(t)))
  {
    var e', l' := e.(place := Busy, roles := e.roles[t := Holding(false)]), l.(owner := Some(t));
    forall u | u in e'.roles
      ensures RoleOk(e', l', u)
    {
      assert u != t ==> RoleOk(e, l, u);
    }
    forall i | 0 <= i < |l'.queue|
      ensures Queued(e', l', i)
    {
      assert Queued(e, l, i);
    }
  }

  lemma QueueMatches(e: Entity, l: Line, t: nat, blocker: bool)
    requires Matches(e, l) && t !in e.roles && e.waitlock.None?
    ensures Matches(e.(waitlock := Some(t), roles := e.roles[t := Drawing(blocker)]), l)
  {
    var e', l' := e.(waitlock := Some(t), roles := e.roles[t := Drawing(blocker)]), l;
    forall i | 0 <= i < |l.queue|
      ensures l.queue[i] != t
    {
      assert Queued(e, l, i);
    }
    forall u | u in e'.roles
      ensures RoleOk(e', l', u)
    {
      assert u != t ==> RoleOk(e, l, u);
    }
    forall i | 0 <= i < |l'.queue|
      ensures Queued(e', l', i)
    {
      assert Queued(e, l, i);
    }
  }

  lemma DrawMatches(e: Entity, l: Line, t: nat)
    requires Matches(e, l) && Enabled(e, Draw(t)) && |l.queue| + 1 < TICKETS
    ensures Matches(Step(e, Draw(t)), StepLine(e, l, Draw(t)))
  {
    var e', l' := Step(e, Draw(t)), StepLine(e, l, Draw(t));
    NextTicket(e, l);
    assert RoleOk(e, l, t);
    forall u | u in e'.roles
      ensures RoleOk(e', l', u)
    {
      assert u != t ==> RoleOk(e, l, u);
    }
    forall i | 0 <= i < |l'.queue|
      ensures Queued(e', l', i)
    {
      assert i < |l.queue| ==> Queued(e, l, i);
    }
  }

  lemma LeaveMatches(e: Entity, l: Line, t: nat)
    requires Matches(e, l) && Enabled(e, Leave(t))
    ensures Matches(Step(e, Leave(t)), l)
  {
    var e', l' := Step(e, Leave(t)), l;
    OnlyTheOwnerLeaves(e, l, t);
    forall u | u in e'.roles
      ensures RoleOk(e', l', u)
    {
      assert u != t ==> RoleOk(e, l, u);
    }
    forall i | 0 <= i < |l'.queue|
      ensures Queued(e', l', i)
    {
      assert Queued(e, l, i);
    }
  }

  lemma ReleasingMatches(e: Entity, l: Line, t: nat)
    requires Matches(e, l) && l.owner == Some(t) && l.queue != [] && IsUser(e, t)
    ensures Matches(e.(roles := e.roles[t := Releasing]), l)
  {
    var e', l' := e.(roles := e.roles[t := Releasing]), l;
    forall u | u in e'.roles
      ensures RoleOk(e', l', u)
    {
      assert u != t ==> RoleOk(e, l, u);
    }
    forall i | 0 <= i < |l'.queue|
      ensures Queued(e', l', i)
    {
      assert Queued(e, l, i);
    }
  }

  lemma GiveUpMatches(e: Entity, l: Line, t: nat, place: Place)
    requires Matches(e, l) && l.owner == Some(t) && t in e.roles && e.roles[t].Holding? && place != Busy
    ensures Matches(e.(place := place, roles := e.roles - {t}), l.(owner := None))
  {
    var e', l' := e.(place := place, roles := e.roles - {t}), l.(owner := None);
    forall u | u in e'.roles
      ensures RoleOk(e', l', u)
    {
      assert u != t ==> RoleOk(e, l, u);
    }
    forall i | 0 <= i < |l'.queue|
      ensures Queued(e', l', i)
    {
      assert Queued(e, l, i);
    }
  }

  lemma ServeMatches(e: Entity, l: Line, t: nat)
    requires Matches(e, l) && l.owner == Some(t) && t in e.roles && !e.roles[t].Waiting? && l.queue != []
    requires e.waitlock != Some(t)
    ensures Matches(e.(bottom := Bump(e.bottom), roles := e.roles - {t}), Serve(l))
  {
    var e', l' := e.(bottom := Bump(e.bottom), roles := e.roles - {t}), Serve(l);
    OneTurn(e.bottom, |l.queue|);
    OneTurn(e'.bottom, |l'.queue|);
    assert Queued(e, l, 0);
    forall u | u in e'.roles
      ensures RoleOk(e', l', u)
    {
      assert u != t ==> RoleOk(e, l, u);
    }
    forall i | 0 <= i < |l'.queue|
      ensures Queued(e', l', i)
    {
      assert Queued(e, l, i + 1);
      TicketsShift(e.bottom, i);
    }
  }

  /** Nobody has the entity before and after. */
  lemma MoveMatches(e: Entity, l: Line, place: Place)
    requires Matches(e, l) && e.place != Busy && place != Busy
    ensures Matches(e.(place := place), l)
  {
    var e', l' := e.(place := place), l;
    forall u | u in e'.roles
      ensures RoleOk(e', l', u)
    {
      assert RoleOk(e, l, u);
    }
    forall i | 0 <= i < |l'.queue|
      ensures Queued(e', l', i)
    {
      assert Queued(e, l, i);
    }
  }

  lemma CloseMatches(e: Entity, l: Line, t: nat)
    requires Matches(e, l) && Enabled(e, Close(t))
    ensures Matches(Step(e, Close(t)), StepLine(e, l, Close(t)))
  {
    var e', l' := Step(e, Close(t)), StepLine(e, l, Close(t));
    forall u | u in e'.roles
      ensures RoleOk(e', l', u)
    {
      assert RoleOk(e, l, u);
    }
    forall i | 0 <= i < |l'.queue|
      ensures Queued(e', l', i)
    {
      assert Queued(e, l, i);
    }
  }

  lemma EmptyLine(e: Entity, l: Line)
    requires Matches(e, l)
    ensures e.bottom == e.head <==> l.queue == []
  {
    OneTurn(e.bottom, |l.queue|);
  }

  /** With fewer than 32768 threads in the line, the wrapping counters are a first-come-first-served line. */
  lemma StepMatches(e: Entity, l: Line, a: Action)
    requires Matches(e, l) && Enabled(e, a) && (a.Draw? ==> |l.queue| + 1 < TICKETS)
    ensures Matches(Step(e, a), StepLine(e, l, a))
  {
    EmptyLine(e, l);
    match a
    case GetFree(t) => TakeMatches(e, l, t);
    case GetLoaded(t) => TakeMatches(e, l, t);
    case Queue(t, blocker) => QueueMatches(e, l, t, blocker);
    case Draw(t) => DrawMatches(e, l, t);
    case Leave(t) => LeaveMatches(e, l, t);
    case SetFree(t) =>
      if l.queue == [] {
        GiveUpMatches(e, l, t, Free);
      } else {
        ReleasingMatches(e, l, t);
      }
    case HandOver(t) => ServeMatches(e, l, t);
    case SetLoaded(t) =>
      if l.queue == [] {
        GiveUpMatches(e, l, t, Loaded);
      } else {
        ServeMatches(e, l, t);
      }
    case Unblock(t) => GiveUpMatches(e, l, t, Free);
    case FreeLoaded(t) => MoveMatches(e, l, Free);
    case Remove(t) => GiveUpMatches(e, l, t, Gone);
    case Close(t) => CloseMatches(e, l, t);
  }

  // ---------- What one call makes possible for the next ----------

  /** The thread can take the entity by this step and is then the one that uses it. */
  predicate CanTake(e: Entity, a: Action) {
    Enabled(e, a) && IsUser(Step(e, a), a.t) && Step(e, a).place == Busy
  }

  /** With nobody in the line, what a user sets free can be had by any idle thread, and what it sets loaded can be
      had as loaded, or freed and then had. */
  lemma GivenBackIsTaken(e: Entity, l: Line, t: nat, u: nat)
    requires Matches(e, l) && l.queue == [] && e.waitlock.None? && IsUser(e, t) && (u == t || u !in e.roles)
    ensures CanTake(Step(e, SetFree(t)), GetFree(u))
    ensures CanTake(Step(e, SetLoaded(t)), GetLoaded(u))
    ensures Enabled(Step(e, SetLoaded(t)), FreeLoaded(u))
         && CanTake(Step(Step(e, SetLoaded(t)), FreeLoaded(u)), GetFree(u))
  {
    EmptyLine(e, l);
  }

  /** The thread's ticket is up, and when it leaves the line it has the entity. */
  predicate CanLeave(e: Entity, u: nat) {
    Enabled(e, Leave(u)) && u in Step(e, Leave(u)).roles && Step(e, Leave(u)).roles[u].Holding?
  }

  /** With threads in the line, what a user sets free or loaded goes to the first of them. */
  lemma PassedToFirst(e: Entity, l: Line, t: nat)
    requires Matches(e, l) && l.queue != [] && e.waitlock.None? && IsUser(e, t)
    ensures Enabled(Step(e, SetFree(t)), HandOver(t))
    ensures CanLeave(Step(Step(e, SetFree(t)), HandOver(t)), l.queue[0])
    ensures CanLeave(Step(e, SetLoaded(t)), l.queue[0])
  {
    EmptyLine(e, l);
    assert Queued(e, l, 0) && RoleOk(e, l, t);
    OneTurn(e.bottom, 1);
  }

  /** A thread that blocks until the entity is free has freed it afterwards; one that was removed is not taken,
      freed or waited for any more. */
  lemma FreedOrGone(e: Entity, l: Line, t: nat, u: nat, a: Action)
    requires Matches(e, l) && (u == t || u !in e.roles)
    ensures Enabled(e, Unblock(t)) ==> CanTake(Step(e, Unblock(t)), GetFree(u))
    ensures (a.Remove? || a.Close?) && Enabled(e, a) ==>
      forall b :: Enabled(Step(e, a), b) ==> !(b.GetFree? || b.GetLoaded? || b.Queue? || b.FreeLoaded? || b.Close?)
  {
  }

  /** Whether the thread can go on: shutdown aside, an idle one unless the entity is gone, or is busy while the
      waitlock is taken; one in the line when its ticket is up. */
  ghost predicate MayGoOn(e: Entity, t: nat) {
    if t !in e.roles then e.place == Free || e.place == Loaded || (e.place == Busy && e.waitlock.None?)
    else match e.roles[t]
      case Holding(_) => true
      case Drawing(_) => true
      case Releasing => e.waitlock.None?
      case Waiting(_, _) => Has(e, t) && e.waitlock.None?
  }

  function SomeStep(e: Entity, t: nat): Action {
    if t !in e.roles then
      (match e.place
       case Free => GetFree(t)
       case Loaded => GetLoaded(t)
       case _ => Queue(t, false))
    else match e.roles[t]
      case Holding(blocker) => if blocker then Unblock(t) else SetFree(t)
      case Releasing => HandOver(t)
      case Drawing(_) => Draw(t)
      case Waiting(_, _) => Leave(t)
  }

  /** Exactly the threads that may go on have a step they can take, and who has the waitlock is one of them: a
      thread waits only for its ticket, for the waitlock, or for a removed entity. */
  lemma GoesOnIff(e: Entity, l: Line, t: nat)
    requires Matches(e, l)
    ensures (exists a: Action :: a.t == t && !a.Close? && Enabled(e, a)) <==> MayGoOn(e, t)
    ensures e.waitlock.Some? ==> MayGoOn(e, e.waitlock.value)
  {
    if MayGoOn(e, t) {
      if t in e.roles {
        assert RoleOk(e, l, t);
      }
      assert Enabled(e, SomeStep(e, t));
    }
  }

  // ---------- Whole runs ----------

  /** The entity after these steps, if each was possible when it was taken. */
  function Run(actions: seq<Action>): Option<Entity> {
    if actions == [] then Some(FRESH) else
      var e := Run(actions[..|actions| - 1]);
      if e.Some? && Enabled(e.value, actions[|actions| - 1])
      then Some(Step(e.value, actions[|actions| - 1])) else None
  }

  function LineOf(actions: seq<Action>): Line
    requires Run(actions).Some?
  {
    if actions == [] then NOBODY else
      var init := actions[..|actions| - 1];
      StepLine(Run(init).value, LineOf(init), actions[|actions| - 1])
  }

  /** At no time did 32768 threads wait. */
  predicate InBounds(actions: seq<Action>)
    requires Run(actions).Some?
  {
    |LineOf(actions).queue| < TICKETS && (actions != [] ==> InBounds(actions[..|actions| - 1]))
  }

  /** Every interleaving of the lock sections keeps the counters in step with the line. */
  lemma {:induction false} RunMatches(actions: seq<Action>)
    requires Run(actions).Some? && InBounds(actions)
    ensures Matches(Run(actions).value, LineOf(actions))
  {
    if actions != [] {
      var init, a := actions[..|actions| - 1], actions[|actions| - 1];
      RunMatches(init);
      StepMatches(Run(init).value, LineOf(init), a);
    }
  }

  lemma OnlyTheOwnerHas(e: Entity, l: Line, t: nat)
    requires Matches(e, l)
    ensures Has(e, t) <==> l.owner == Some(t)
  {
    if t in e.roles {
      assert RoleOk(e, l, t);
      if l.owner != Some(t) && e.roles[t].Waiting? {
        var i :| 0 <= i < |l.queue| && l.queue[i] == t;
        QueuedIsNotUp(e, l, i);
      }
    }
  }

  /** At most one thread ever has the entity: nobody while it is on the free or the loaded list, exactly one
      while it is busy. */
  lemma OneOwner(actions: seq<Action>, t: nat, u: nat)
    requires Run(actions).Some? && InBounds(actions)
    ensures var e := Run(actions).value;
      && (Has(e, t) && Has(e, u) ==> t == u)
      && (e.place == Busy <==> exists x :: Has(e, x))
  {
    RunMatches(actions);
    var e, l := Run(actions).value, LineOf(actions);
    OnlyTheOwnerHas(e, l, t);
    OnlyTheOwnerHas(e, l, u);
    if l.owner.Some? {
      OnlyTheOwnerHas(e, l, l.owner.value);
    } else {
      forall x
        ensures !Has(e, x)
      {
        OnlyTheOwnerHas(e, l, x);
      }
    }
  }

  lemma DistinctTickets(bottom: nat, i: nat, j: nat)
    requires bottom < TICKETS && i < j < TICKETS - 1
    ensures Ticket(bottom, i) != Ticket(bottom, j)
  {
    OneTurn(bottom, i + 1);
    OneTurn(bottom, j + 1);
  }

  /** The i-th thread of the line waits for the i-th ticket after bottom, and head is the last one drawn. */
  ghost predicate TicketLine(e: Entity, q: seq<nat>) {
    && (forall i :: 0 <= i < |q| ==>
          q[i] in e.roles && e.roles[q[i]].Waiting? && e.roles[q[i]].ticket == Ticket(e.bottom, i))
    && e.head == if q == [] then e.bottom else Ticket(e.bottom, |q| - 1)
  }

  lemma MatchesTicketLine(e: Entity, l: Line)
    requires Matches(e, l)
    ensures TicketLine(e, l.queue)
  {
    forall i | 0 <= i < |l.queue|
      ensures l.queue[i] in e.roles && e.roles[l.queue[i]].Waiting? && e.roles[l.queue[i]].ticket == Ticket(e.bottom, i)
    {
      assert Queued(e, l, i);
    }
  }

  /** Waiting threads hold the tickets from bottom + 1 to head, each another one, in the order they drew them. */
  lemma TicketsAreTheLine(actions: seq<Action>)
    requires Run(actions).Some? && InBounds(actions)
    ensures var e, q := Run(actions).value, LineOf(actions).queue;
      && TicketLine(e, q)
      && forall i, j :: 0 <= i < j < |q| ==> e.roles[q[i]].ticket != e.roles[q[j]].ticket
  {
    RunMatches(actions);
    var e, q := Run(actions).value, LineOf(actions).queue;
    MatchesTicketLine(e, LineOf(actions));
    forall i, j | 0 <= i < j < |q|
      ensures Ticket(e.bottom, i) != Ticket(e.bottom, j)
    {
      DistinctTickets(e.bottom, i, j);
    }
  }

  // ---------- First come, first served ----------

  function Drawn(actions: seq<Action>): seq<nat> {
    if actions == [] then [] else
      Drawn(actions[..|actions| - 1])
      + match actions[|actions| - 1]
        case Draw(t) => [t]
        case _ => []
  }

  function Left(actions: seq<Action>): seq<nat> {
    if actions == [] then [] else
      Left(actions[..|actions| - 1])
      + match actions[|actions| - 1]
        case Leave(t) => [t]
        case _ => []
  }

  /** Whom the entity was passed to, but who did not wake up yet. */
  function Pending(e: Entity, l: Line): seq<nat> {
    if l.owner.Some? && l.owner.value in e.roles && e.roles[l.owner.value].Waiting? then [l.owner.value] else []
  }

  lemma PassHistory(e: Entity, l: Line, t: nat, e': Entity, left: seq<nat>)
    requires Matches(e, l) && l.owner == Some(t) && t in e.roles && !e.roles[t].Waiting? && l.queue != []
    requires l.granted == left && e'.roles == e.roles - {t}
    ensures Serve(l).granted + Serve(l).queue == l.granted + l.queue
    ensures Serve(l).granted == left + Pending(e', Serve(l))
  {
    assert Queued(e, l, 0);
    assert l.queue == [l.queue[0]] + l.queue[1..];
  }

  lemma LeaveHistory(e: Entity, l: Line, t: nat, left: seq<nat>)
    requires Matches(e, l) && Enabled(e, Leave(t)) && l.granted == left + Pending(e, l)
    ensures l.granted == left + [t] + Pending(Step(e, Leave(t)), l)
  {
    OnlyTheOwnerLeaves(e, l, t);
  }

  lemma StepHistory(e: Entity, l: Line, a: Action, drawn: seq<nat>, left: seq<nat>)
    requires Matches(e, l) && Enabled(e, a)
    requires drawn == l.granted + l.queue && l.granted == left + Pending(e, l)
    ensures var e', l' := Step(e, a), StepLine(e, l, a);
      && drawn + (if a.Draw? then [a.t] else []) == l'.granted + l'.queue
      && l'.granted == left + (if a.Leave? then [a.t] else []) + Pending(e', l')
  {
    EmptyLine(e, l);
    if a.Leave? {
      LeaveHistory(e, l, a.t, left);
    } else if a.SetFree? || a.HandOver? || a.SetLoaded? {
      assert RoleOk(e, l, a.t);
      if l.queue != [] {
        PassHistory(e, l, a.t, e.(roles := e.roles - {a.t}), left);
      }
    } else if a.Draw? {
      assert RoleOk(e, l, a.t);
    }
  }

  lemma {:induction false} RunHistory(actions: seq<Action>)
    requires Run(actions).Some? && InBounds(actions)
    ensures var e, l := Run(actions).value, LineOf(actions);
      && Drawn(actions) == l.granted + l.queue
      && l.granted == Left(actions) + Pending(e, l)
  {
    if actions != [] {
      var init, a := actions[..|actions| - 1], actions[|actions| - 1];
      RunHistory(init);
      RunMatches(init);
      StepHistory(Run(init).value, LineOf(init), a, Drawn(init), Left(init));
    }
  }

  /** Threads get the entity in the order in which they drew tickets, and no ticket comes up before the
      owner of the one before has left: at most one is up and not left. */
  lemma FirstComeFirstServed(actions: seq<Action>)
    requires Run(actions).Some? && InBounds(actions)
    ensures Left(actions) <= Drawn(actions)
    ensures |LineOf(actions).granted| <= |Left(actions)| + 1
  {
    RunHistory(actions);
  }

  // ---------- Exactly when it fails ----------

  /** Drawing a ticket is wrong exactly when 32767 threads wait already: then the ticket drawn is the one
      that is up, and the thread walks in on the owner. */
  lemma DrawIsSafeUnlessFull(e: Entity, l: Line, t: nat)
    requires Matches(e, l) && Enabled(e, Draw(t))
    ensures Enabled(Step(e, Draw(t)), Leave(t)) <==> |l.queue| + 1 == TICKETS
  {
    NextTicket(e, l);
  }

  /** One thread takes the entity, and threads 1 to n queue up behind it. */
  function Crowd(n: nat): seq<Action> {
    if n == 0 then [GetFree(0)] else Crowd(n - 1) + [Queue(n, false)] + [Draw(n)]
  }

  lemma RunOneMore(actions: seq<Action>, a: Action)
    requires Run(actions).Some? && Enabled(Run(actions).value, a)
    ensures Run(actions + [a]) == Some(Step(Run(actions).value, a))
  {
    assert (actions + [a])[..|actions|] == actions;
  }

  lemma {:induction false} CrowdWaits(n: nat)
    requires n <= TICKETS
    ensures Run(Crowd(n)).Some?
    ensures var e := Run(Crowd(n)).value;
      && e.place == Busy && e.waitlock.None? && e.bottom == 0 && e.head == (if n == TICKETS then 0 else n)
      && Is(e, 0, Holding(false)) && (n > 0 ==> Is(e, n, Waiting(e.head, false)))
      && forall t :: t in e.roles ==> t <= n
  {
    if n == 0 {
      assert Run([]) == Some(FRESH);
      RunOneMore([], GetFree(0));
      assert [] + [GetFree(0)] == [GetFree(0)];
    } else {
      CrowdWaits(n - 1);
      RunOneMore(Crowd(n - 1), Queue(n, false));
      RunOneMore(Crowd(n - 1) + [Queue(n, false)], Draw(n));
    }
  }

  /** With 32768 threads waiting two threads hold the entity at once. */
  lemma TooManyWaiters()
    ensures var e := Run(Crowd(TICKETS) + [Leave(TICKETS)]);
      e.Some? && Is(e.value, 0, Holding(false)) && Is(e.value, TICKETS, Holding(false))
  {
    CrowdWaits(TICKETS);
    RunOneMore(Crowd(TICKETS), Leave(TICKETS));
  }

  /** Nobody has the entity who could pass it on, but a thread waits for it or is about to. */
  predicate Stranded(e: Entity, l: Line) {
    e.place != Busy && (l.queue != [] || e.waitlock.Some?)
  }

  /** The steps that strand a thread: set_free looks at the counters without the waitlock, so it misses a
      thread that has the waitlock but no ticket yet; block_until_free frees the entity whoever waits behind
      it, and remove_from_branch and shutdown remove it; and get_specific waits for an entity on the loaded list. */
  predicate Strands(e: Entity, l: Line, a: Action) {
    || (a.SetFree? && l.queue == [] && e.waitlock.Some?)
    || ((a.Unblock? || a.Remove? || a.Close?) && (l.queue != [] || e.waitlock.Some?))
    || (a.Queue? && e.place == Loaded)
  }

  /** Those steps and no others. */
  lemma StrandedIff(e: Entity, l: Line, a: Action)
    requires Matches(e, l) && Enabled(e, a) && !Stranded(e, l)
    ensures Stranded(Step(e, a), StepLine(e, l, a)) <==> Strands(e, l, a)
  {
    EmptyLine(e, l);
    if a.t in e.roles {
      assert RoleOk(e, l, a.t);
    }
  }

  predicate EverStranded(actions: seq<Action>)
    requires Run(actions).Some?
  {
    Stranded(Run(actions).value, LineOf(actions)) || (actions != [] && EverStranded(actions[..|actions| - 1]))
  }

  predicate SomeStepStrands(actions: seq<Action>)
    requires Run(actions).Some?
  {
    actions != [] &&
    var init := actions[..|actions| - 1];
    SomeStepStrands(init) || Strands(Run(init).value, LineOf(init), actions[|actions| - 1])
  }

  /** On every interleaving in bounds a thread is left waiting for an entity nobody has if and only if one of
      the steps was taken that strand it. */
  lemma {:induction false} EverStrandedIff(actions: seq<Action>)
    requires Run(actions).Some? && InBounds(actions)
    ensures EverStranded(actions) <==> SomeStepStrands(actions)
  {
    if actions != [] {
      var init, a := actions[..|actions| - 1], actions[|actions| - 1];
      EverStrandedIff(init);
      RunMatches(init);
      if !EverStranded(init) {
        NotStrandedNow(init);
        StrandedIff(Run(init).value, LineOf(init), a);
      }
    }
  }

  lemma NotStrandedNow(actions: seq<Action>)
    requires Run(actions).Some? && !EverStranded(actions)
    ensures !Stranded(Run(actions).value, LineOf(actions))
  {
  }

  /** Without set_loaded nothing is on the loaded list, so there the last of these cannot happen. */
  lemma {:induction false} NeverLoaded(actions: seq<Action>)
    requires Run(actions).Some? && forall a :: a in actions ==> !a.SetLoaded?
    ensures Run(actions).value.place != Loaded
  {
    if actions != [] {
      assert actions[|actions| - 1] in actions;
      NeverLoaded(actions[..|actions| - 1]);
    }
  }

  /** Who waits for a removed entity waits for good: it never comes back, and nobody is served any more. */
  lemma GoneForGood(e: Entity, l: Line, a: Action)
    requires Matches(e, l) && e.place == Gone && Enabled(e, a)
    ensures Step(e, a).place == Gone
    ensures StepLine(e, l, a).granted == l.granted && l.queue <= StepLine(e, l, a).queue
  {
    if a.t in e.roles {
      assert RoleOk(e, l, a.t);
    }
  }

  lemma RunTwoMore(actions: seq<Action>, a: Action, b: Action)
    requires Run(actions).Some? && Enabled(Run(actions).value, a) && Enabled(Step(Run(actions).value, a), b)
    ensures Run(actions + [a] + [b]) == Some(Step(Step(Run(actions).value, a), b))
  {
    RunOneMore(actions, a);
    RunOneMore(actions + [a], b);
  }

  lemma FirstTaken()
    ensures Run([GetFree(0)]) == Some(Entity(Busy, 0, 0, None, map[0 := Holding(false)]))
  {
    assert Run([]) == Some(FRESH);
    RunOneMore([], GetFree(0));
    assert [] + [GetFree(0)] == [GetFree(0)];
  }

  /** set_free misses thread 1. */
  lemma WaiterMissed()
    ensures var e := Run([GetFree(0)] + [Queue(1, false)] + [SetFree(0)] + [Draw(1)]);
      e.Some? && e.value.place == Free && Is(e.value, 1, Waiting(1, false))
  {
    FirstTaken();
    RunTwoMore([GetFree(0)], Queue(1, false), SetFree(0));
    RunOneMore([GetFree(0)] + [Queue(1, false)] + [SetFree(0)], Draw(1));
  }

  /** Thread 1 blocks until the entity is free, and thread 2 queues up behind it. */
  function BlockerAndWaiter(): seq<Action> {
    [GetFree(0)] + [Queue(1, true)] + [Draw(1)] + [Queue(2, false)] + [Draw(2)]
  }

  lemma BlockerQueued()
    ensures Run([GetFree(0)] + [Queue(1, true)] + [Draw(1)])
         == Some(Entity(Busy, 1, 0, None, map[0 := Holding(false), 1 := Waiting(1, true)]))
  {
    FirstTaken();
    RunTwoMore([GetFree(0)], Queue(1, true), Draw(1));
    assert map[0 := Holding(false)][1 := Drawing(true)][1 := Waiting(1, true)]
        == map[0 := Holding(false), 1 := Waiting(1, true)];
  }

  lemma BothQueued()
    ensures Run(BlockerAndWaiter())
         == Some(Entity(Busy, 2, 0, None, map[0 := Holding(false), 1 := Waiting(1, true), 2 := Waiting(2, false)]))
  {
    BlockerQueued();
    RunTwoMore([GetFree(0)] + [Queue(1, true)] + [Draw(1)], Queue(2, false), Draw(2));
    assert map[0 := Holding(false), 1 := Waiting(1, true)][2 := Drawing(false)][2 := Waiting(2, false)]
        == map[0 := Holding(false), 1 := Waiting(1, true), 2 := Waiting(2, false)];
  }

  lemma BlockerServed()
    ensures Run(BlockerAndWaiter() + [SetFree(0)] + [HandOver(0)])
         == Some(Entity(Busy, 2, 1, None, map[1 := Waiting(1, true), 2 := Waiting(2, false)]))
  {
    BothQueued();
    RunTwoMore(BlockerAndWaiter(), SetFree(0), HandOver(0));
    assert map[0 := Holding(false), 1 := Waiting(1, true), 2 := Waiting(2, false)][0 := Releasing] - {0}
        == map[1 := Waiting(1, true), 2 := Waiting(2, false)];
  }

  /** Thread 1 then frees it over thread 2. */
  lemma WaiterFreedOver()
    ensures var e := Run(BlockerAndWaiter() + [SetFree(0)] + [HandOver(0)] + [Leave(1)] + [Unblock(1)]);
      e.Some? && e.value.place == Free && e.value.waitlock.None? && Is(e.value, 2, Waiting(2, false))
  {
    BlockerServed();
    RunTwoMore(BlockerAndWaiter() + [SetFree(0)] + [HandOver(0)], Leave(1), Unblock(1));
  }

  /** The holder removes the entity under thread 1: a recorder fails to open the file it was acquired for while
      another buffer waits for the same recorder. */
  lemma WaiterOfRemoved()
    ensures var actions := [GetFree(0)] + [Queue(1, false)] + [Draw(1)] + [Remove(0)];
      && Run(actions).Some? && Run(actions).value.place == Gone && Is(Run(actions).value, 1, Waiting(1, false))
      && forall a: Action :: !Enabled(Run(actions).value, a)
  {
    FirstTaken();
    var b := [GetFree(0)] + [Queue(1, false)] + [Draw(1)];
    RunTwoMore([GetFree(0)], Queue(1, false), Draw(1));
    RunOneMore(b, Remove(0));
  }

  /** Thread 1 waits for a loaded entity, although nobody has it who could pass it on. */
  lemma LoadedIsWaitedFor()
    ensures var e := Run([GetFree(0)] + [SetLoaded(0)] + [Queue(1, false)] + [Draw(1)]);
      e.Some? && e.value.place == Loaded && Is(e.value, 1, Waiting(1, false)) && forall t :: !Has(e.value, t)
  {
    FirstTaken();
    RunTwoMore([GetFree(0)], SetLoaded(0), Queue(1, false));
    RunOneMore([GetFree(0)] + [SetLoaded(0)] + [Queue(1, false)], Draw(1));
  }
}
