/** Concurrent booking transactions on one room, interleaved statement by statement around its row lock. */
module BookingLock {
  import opened Models
  import opened Lifecycle
  import opened OneHolder

  /** Where a transaction stands: it waits for the row lock, then goes through its statements while holding it. */
  datatype Phase = Waiting | Locked | Checked | Inserted | Marked | Committed | Refused(outcome: Outcome)
  {
    predicate Finished() { Committed? || Refused? }
    predicate HoldsLock() { Locked? || Checked? || Inserted? || Marked? }
    function StepsLeft(): nat {
      match this
      case Waiting => 5
      case Locked => 4
      case Checked => 3
      case Inserted => 2
      case Marked => 1
      case _ => 0
    }
  }

  datatype Request = Request(tenant: Id, booking: Id, surveyDay: int, now: Time, hold: int)

  /** `inserted` and `marks` are the writes that others cannot see before the commit. */
  datatype Txn = Txn(request: Request, phase: Phase, inserted: Option<Booking>, marks: bool)

  /** `db` holds what has been committed. */
  datatype Server = Server(db: Tables, lock: Option<nat>, txns: seq<Txn>)

  function Opening(db: Tables, requests: seq<Request>): Server {
    Server(db, None, seq(|requests|, i requires 0 <= i < |requests| => Txn(requests[i], Waiting, None, false)))
  }

  function Refuse(s: Server, i: nat, outcome: Outcome): Server
    requires i < |s.txns|
  {
    Server(s.db, None, s.txns[i := s.txns[i].(phase := Refused(outcome), inserted := None, marks := false)])
  }

  function Advance(s: Server, i: nat, t: Txn): Server
    requires i < |s.txns|
  {
    Server(s.db, Some(i), s.txns[i := t])
  }

  /** The next statement of transaction `i`. One that waits for a lock another transaction holds stays where it is. */
  function Step(s: Server, room: Id, i: nat): Server
    requires i < |s.txns|
  {
    var t := s.txns[i];
    match t.phase
    case Waiting =>
      if s.lock.Some? then s
      else if room !in s.db.rooms then Refuse(s, i, NotFound)
      else if !s.db.rooms[room].status.Available? then Refuse(s, i, Conflict)
      else Advance(s, i, t.(phase := Locked))
    case Locked =>
      if room !in s.db.rooms || s.db.rooms[room].kost !in s.db.kosts
         || !s.db.kosts[s.db.rooms[room].kost].status.KostVerified? then Refuse(s, i, NotFound)
      else Advance(s, i, t.(phase := Checked))
    case Checked =>
      if t.request.booking in s.db.bookings || HasPending(s.db, room) then Refuse(s, i, Conflict)
      else
        var b := Booking(room, t.request.tenant, Pending, t.request.surveyDay, t.request.now,
                         t.request.now + t.request.hold, None, None, None);
        Advance(s, i, t.(phase := Inserted, inserted := Some(b)))
    case Inserted =>
      Advance(s, i, t.(phase := Marked, marks := room in s.db.rooms && s.db.rooms[room].status.Available?))
    case Marked =>
      Server(Publish(s.db, room, t), None, s.txns[i := t.(phase := Committed)])
    case _ => s
  }

  function Publish(db: Tables, room: Id, t: Txn): Tables {
    db.(bookings := if t.inserted.Some? then db.bookings[t.request.booking := t.inserted.value] else db.bookings,
        rooms := if t.marks then SetRoom(db.rooms, room, Reserved) else db.rooms)
  }

  function Schedule(s: Server, room: Id, turns: seq<nat>): Server
    requires forall k :: 0 <= k < |turns| ==> turns[k] < |s.txns|
    ensures |Schedule(s, room, turns).txns| == |s.txns|
    decreases |turns|
  {
    if turns == [] then s
    else Step(Schedule(s, room, turns[..|turns| - 1]), room, turns[|turns| - 1])
  }

  /** The transaction's request, made alone on the tables `db`. */
  function Alone(db: Tables, room: Id, r: Request): Reply {
    Book(db, r.tenant, room, r.surveyDay, r.booking, r.now, r.hold)
  }

  /** The outcome of a transaction that has finished. */
  function Result(phase: Phase): Outcome
    requires phase.Finished()
  {
    if phase.Committed? then Done else phase.outcome
  }

  /** How far a transaction on its own has come in what the booking transaction does as a whole. */
  ghost predicate OnItsWay(db: Tables, room: Id, r: Request, s: Server) {
    && |s.txns| == 1 && s.txns[0].request == r
    && var t := s.txns[0];
    if t.phase.Finished() then s.lock.None? && Reply(s.db, Result(t.phase)) == Alone(db, room, r)
    else
      && s.db == db && s.lock == (if t.phase.Waiting? then None else Some(0))
      && (!t.phase.Waiting? ==> room in db.rooms && db.rooms[room].status.Available?)
      && (t.phase.Checked? || t.phase.Inserted? || t.phase.Marked? ==>
            db.rooms[room].kost in db.kosts && db.kosts[db.rooms[room].kost].status.KostVerified?)
      && (t.phase.Inserted? || t.phase.Marked? ==>
            && r.booking !in db.bookings && !HasPending(db, room)
            && Publish(db, room, t.(marks := true)) == Alone(db, room, r).db)
      && (t.phase.Marked? ==> t.marks)
  }

  lemma OneTurn(db: Tables, room: Id, r: Request, s: Server)
    requires OnItsWay(db, room, r, s)
    ensures OnItsWay(db, room, r, Step(s, room, 0))
    ensures var left := s.txns[0].phase.StepsLeft();
            Step(s, room, 0).txns[0].phase.StepsLeft() <= if left == 0 then 0 else left - 1
  {
  }

  /** A transaction that nothing interleaves with does what the booking transaction does as a whole, whatever the tables
      hold, and has finished after five turns. */
  lemma {:induction false} UndisturbedIsAlone(db: Tables, room: Id, r: Request, turns: seq<nat>)
    requires forall k :: 0 <= k < |turns| ==> turns[k] == 0
    ensures var s := Schedule(Opening(db, [r]), room, turns);
            && |s.txns| == 1 && OnItsWay(db, room, r, s)
            && (s.txns[0].phase.Finished() ==> Reply(s.db, Result(s.txns[0].phase)) == Alone(db, room, r))
            && (|turns| >= 5 ==> s.txns[0].phase.Finished())
            && (s.txns[0].phase.Finished() || s.txns[0].phase.StepsLeft() + |turns| <= 5)
    decreases |turns|
  {
    hide Step;
    if turns == [] {
    } else {
      var init := turns[..|turns| - 1];
      UndisturbedIsAlone(db, room, r, init);
      OneTurn(db, room, r, Schedule(Opening(db, [r]), room, init));
    }
  }

  /** A room that can be booked, and requests that will store bookings of their own. */
  ghost predicate Bookable(db: Tables, room: Id, requests: seq<Request>) {
    && room in db.rooms && db.rooms[room].status.Available?
    && db.rooms[room].kost in db.kosts && db.kosts[db.rooms[room].kost].status.KostVerified?
    && !HasPending(db, room)
    && forall i :: 0 <= i < |requests| ==> requests[i].booking !in db.bookings
  }

  /** In a state that calls have reached, an available room of a verified kost can be booked. */
  lemma AvailableIsBookable(db: Tables, room: Id, requests: seq<Request>)
    requires Inv(db) && room in db.rooms && db.rooms[room].status.Available?
    requires db.kosts[db.rooms[room].kost].status.KostVerified?
    requires forall i :: 0 <= i < |requests| ==> requests[i].booking !in db.bookings
    ensures Bookable(db, room, requests)
  {
    forall b | b in db.bookings && db.bookings[b].room == room
      ensures !db.bookings[b].status.Pending?
    {
      assert db.bookings[b].status.Pending? ==> Holds(db, ByBooking(b), room);
    }
  }

  ghost predicate LockInv(db: Tables, room: Id, requests: seq<Request>, s: Server) {
    && |s.txns| == |requests|
    && (forall i :: 0 <= i < |s.txns| ==> s.txns[i].request == requests[i])
    && (forall i :: 0 <= i < |s.txns| ==> (s.txns[i].phase.HoldsLock() <==> s.lock == Some(i)))
    && (s.lock.Some? ==> s.lock.value < |s.txns|)
    && (forall i :: 0 <= i < |s.txns| ==> TxnInv(db, room, s, i))
    && (forall i, j | 0 <= i < |s.txns| && 0 <= j < |s.txns| ::
          s.txns[i].phase.Committed? && s.txns[j].phase.Committed? ==> i == j)
    && (!Decided(s) ==> s.db == db)
  }

  ghost predicate AllFinished(s: Server) {
    forall i :: 0 <= i < |s.txns| ==> s.txns[i].phase.Finished()
  }

  ghost predicate Decided(s: Server) {
    exists i :: 0 <= i < |s.txns| && s.txns[i].phase.Committed?
  }

  ghost predicate TxnInv(db: Tables, room: Id, s: Server, i: nat)
    requires i < |s.txns|
  {
    var t := s.txns[i];
    && (t.phase.Committed? ==> s.db == Alone(db, room, t.request).db)
    && (t.phase.Refused? ==> t.phase.outcome.Conflict? && Decided(s))
    && (t.phase.HoldsLock() ==> !Decided(s))
    && (t.phase.Inserted? || t.phase.Marked? ==> Publish(db, room, t.(marks := true)) == Alone(db, room, t.request).db)
    && (t.phase.Marked? ==> t.marks)
  }

  lemma OpeningInv(db: Tables, room: Id, requests: seq<Request>)
    ensures LockInv(db, room, requests, Opening(db, requests))
  {
  }

  /** While a transaction has committed the room is reserved, and stays so. */
  lemma DecidedReserved(db: Tables, room: Id, requests: seq<Request>, s: Server)
    requires Bookable(db, room, requests) && LockInv(db, room, requests, s) && Decided(s)
    ensures room in s.db.rooms && s.db.rooms[room].status.Reserved?
  {
    var w :| 0 <= w < |s.txns| && s.txns[w].phase.Committed?;
    assert TxnInv(db, room, s, w);
  }

  /** A transaction gets the lock and finds the room available, or is refused because another has committed. */
  lemma WaitingStepInv(db: Tables, room: Id, requests: seq<Request>, s: Server, i: nat)
    requires Bookable(db, room, requests) && LockInv(db, room, requests, s) && i < |s.txns|
    requires s.txns[i].phase.Waiting?
    ensures LockInv(db, room, requests, Step(s, room, i))
  {
    var after := Step(s, room, i);
    if Decided(s) {
      DecidedReserved(db, room, requests, s);
      var w :| 0 <= w < |s.txns| && s.txns[w].phase.Committed?;
      assert after.txns[w].phase.Committed?;
    }
    forall j | 0 <= j < |after.txns| ensures TxnInv(db, room, after, j) {
      assert TxnInv(db, room, s, j);
    }
  }

  /** The holder of the lock makes a statement of its own, which none of the others can see. */
  lemma LockedStepInv(db: Tables, room: Id, requests: seq<Request>, s: Server, i: nat)
    requires Bookable(db, room, requests) && LockInv(db, room, requests, s) && i < |s.txns|
    requires s.txns[i].phase.Locked? || s.txns[i].phase.Checked? || s.txns[i].phase.Inserted?
    ensures LockInv(db, room, requests, Step(s, room, i))
  {
    var after := Step(s, room, i);
    assert TxnInv(db, room, s, i) && !Decided(s) && s.db == db;
    assert after.txns[i].phase.HoldsLock() && !Decided(after);
    forall j | 0 <= j < |after.txns| ensures TxnInv(db, room, after, j) {
      assert TxnInv(db, room, s, j);
    }
  }

  /** The holder commits: it is the first, and nobody else holds the lock. */
  lemma MarkedStepInv(db: Tables, room: Id, requests: seq<Request>, s: Server, i: nat)
    requires Bookable(db, room, requests) && LockInv(db, room, requests, s) && i < |s.txns|
    requires s.txns[i].phase.Marked?
    ensures LockInv(db, room, requests, Step(s, room, i))
  {
    var after := Step(s, room, i);
    assert TxnInv(db, room, s, i) && !Decided(s) && s.db == db;
    assert after.txns[i].phase.Committed?;
    forall j | 0 <= j < |after.txns| ensures TxnInv(db, room, after, j) {
      assert TxnInv(db, room, s, j);
    }
  }

  lemma StepInv(db: Tables, room: Id, requests: seq<Request>, s: Server, i: nat)
    requires Bookable(db, room, requests) && LockInv(db, room, requests, s) && i < |s.txns|
    ensures LockInv(db, room, requests, Step(s, room, i))
  {
    hide LockInv, Bookable, TxnInv;
    match s.txns[i].phase
    case Waiting => WaitingStepInv(db, room, requests, s, i);
    case Marked => MarkedStepInv(db, room, requests, s, i);
    case Committed =>
    case Refused(_) =>
    case _ => LockedStepInv(db, room, requests, s, i);
  }

  lemma {:induction false} ScheduleInv(db: Tables, room: Id, requests: seq<Request>, turns: seq<nat>)
    requires Bookable(db, room, requests) && forall k :: 0 <= k < |turns| ==> turns[k] < |requests|
    ensures LockInv(db, room, requests, Schedule(Opening(db, requests), room, turns))
    decreases |turns|
  {
    if turns == [] {
      OpeningInv(db, room, requests);
    } else {
      ScheduleInv(db, room, requests, turns[..|turns| - 1]);
      StepInv(db, room, requests, Schedule(Opening(db, requests), room, turns[..|turns| - 1]), turns[|turns| - 1]);
    }
  }

  /** Whatever the schedule, once all transactions have finished exactly one has booked the room, just as if it had run
      alone, and all the others were refused with a conflict. */
  lemma OneBooking(db: Tables, room: Id, requests: seq<Request>, turns: seq<nat>)
    returns (winner: nat)
    requires Bookable(db, room, requests) && requests != []
    requires forall k :: 0 <= k < |turns| ==> turns[k] < |requests|
    requires AllFinished(Schedule(Opening(db, requests), room, turns))
    ensures var s := Schedule(Opening(db, requests), room, turns);
            && winner < |requests| && s.txns[winner].phase.Committed?
            && (forall i :: 0 <= i < |requests| && i != winner ==> s.txns[i].phase == Refused(Conflict))
            && s.db == Alone(db, room, requests[winner]).db && Alone(db, room, requests[winner]).outcome.Done?
            && s.db.rooms[room].status.Reserved?
            && s.db.bookings.Keys == db.bookings.Keys + {requests[winner].booking}
  {
    var s := Schedule(Opening(db, requests), room, turns);
    ScheduleInv(db, room, requests, turns);
    assert TxnInv(db, room, s, 0) && s.txns[0].phase.Finished();
    assert Decided(s);
    winner :| 0 <= winner < |s.txns| && s.txns[winner].phase.Committed?;
    assert TxnInv(db, room, s, winner);
    forall i | 0 <= i < |requests| && i != winner
      ensures s.txns[i].phase == Refused(Conflict)
    {
      assert TxnInv(db, room, s, i) && s.txns[i].phase.Finished();
    }
  }

  // ----- They do finish -----

  function StepsLeft(txns: seq<Txn>): nat {
    if txns == [] then 0 else StepsLeft(txns[..|txns| - 1]) + txns[|txns| - 1].phase.StepsLeft()
  }

  lemma {:induction false} UpdateStepsLeft(txns: seq<Txn>, i: nat, t: Txn)
    requires i < |txns|
    ensures StepsLeft(txns[i := t]) + txns[i].phase.StepsLeft() == StepsLeft(txns) + t.phase.StepsLeft()
  {
    var last := |txns| - 1;
    if i == last {
      assert txns[i := t][..last] == txns[..last];
    } else {
      UpdateStepsLeft(txns[..last], i, t);
      assert txns[i := t][..last] == txns[..last][i := t];
    }
  }

  predicate CanMove(s: Server, i: nat)
    requires i < |s.txns|
  {
    !s.txns[i].phase.Finished() && (s.txns[i].phase.Waiting? ==> s.lock.None?)
  }

  lemma MoveUsesUpStep(s: Server, room: Id, i: nat)
    requires i < |s.txns| && CanMove(s, i)
    ensures StepsLeft(Step(s, room, i).txns) < StepsLeft(s.txns)
  {
    UpdateStepsLeft(s.txns, i, Step(s, room, i).txns[i]);
  }

  /** Nobody waits forever: every move of a transaction that is not blocked uses up one of at most five steps for each
      transaction, and while some transaction is unfinished one of them is not blocked. */
  lemma NoDeadlock(db: Tables, room: Id, requests: seq<Request>, s: Server)
    requires LockInv(db, room, requests, s)
    ensures forall i :: 0 <= i < |s.txns| && CanMove(s, i) ==>
              StepsLeft(Step(s, room, i).txns) < StepsLeft(s.txns)
    ensures AllFinished(s) <==> forall i :: 0 <= i < |s.txns| ==> !CanMove(s, i)
  {
    forall i | 0 <= i < |s.txns| && CanMove(s, i)
      ensures StepsLeft(Step(s, room, i).txns) < StepsLeft(s.txns)
    {
      MoveUsesUpStep(s, room, i);
    }
    hide Step, StepsLeft, TxnInv;
    if !AllFinished(s) {
      var i :| 0 <= i < |s.txns| && !s.txns[i].phase.Finished();
      var mover := if s.lock.Some? then s.lock.value else i;
      assert CanMove(s, mover);
    }
  }
}
