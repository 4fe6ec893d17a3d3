/** What a room's status says about its holders, and when a room can become available again. */
module Availability {
  import opened Models
  import opened Lifecycle
  import opened OneHolder
  import opened Frames

  // ----- Owners who leave "reserved" and "occupied" to the booking flow -----

  /** The call does not have an owner write "reserved" or "occupied". */
  predicate Disciplined(call: Call) {
    match call
    case CreateRoom(_, _, _, initial) => initial.Some? ==> !Busy(initial.value)
    case UpdateRoom(_, _, wanted) => wanted.Some? ==> !Busy(wanted.value)
    case _ => true
  }

  ghost predicate ExactRoom(db: Tables, room: Id) {
    room in db.rooms ==>
      && (db.rooms[room].status.Reserved? <==> LiveBookings(db, room) != {})
      && (db.rooms[room].status.Occupied? <==> ActiveContracts(db, room) != {})
  }

  ghost predicate Exact(db: Tables) {
    forall r :: ExactRoom(db, r)
  }

  lemma SameRoomSameHolders(db: Tables, after: Tables, room: Id)
    requires SameRoom(db, after, room)
    ensures LiveBookings(after, room) == LiveBookings(db, room)
    ensures ActiveContracts(after, room) == ActiveContracts(db, room)
  {
  }

  /** The only live booking of a room. */
  lemma OnlyLive(db: Tables, booking: Id)
    requires Inv(db) && booking in db.bookings && db.bookings[booking].status.Live()
    ensures LiveBookings(db, db.bookings[booking].room) == {booking}
    ensures ActiveContracts(db, db.bookings[booking].room) == {}
  {
    var room := db.bookings[booking].room;
    assert Holds(db, ByBooking(booking), room);
    forall b | b in LiveBookings(db, room) ensures b == booking { assert Holds(db, ByBooking(b), room); }
    forall c | c in ActiveContracts(db, room) ensures false { assert Holds(db, ByContract(c), room); }
  }

  lemma OnlyActive(db: Tables, contract: Id)
    requires Inv(db) && contract in db.contracts && db.contracts[contract].status.Active?
    ensures ActiveContracts(db, db.contracts[contract].room) == {contract}
    ensures LiveBookings(db, db.contracts[contract].room) == {}
  {
    var room := db.contracts[contract].room;
    assert Holds(db, ByContract(contract), room);
    forall c | c in ActiveContracts(db, room) ensures c == contract { assert Holds(db, ByContract(c), room); }
    forall b | b in LiveBookings(db, room) ensures false { assert Holds(db, ByBooking(b), room); }
  }

  lemma DecisionExact(db: Tables, call: Call)
    requires Inv(db) && Exact(db) && Read(db, call).Go?
    requires call.Cancel? || call.MarkProcessing? || call.Reject?
    ensures ExactRoom(Apply(db, call).db, Read(db, call).plan.room)
  {
    var plan := Read(db, call).plan;
    var after := Apply(db, call).db;
    OnlyLive(db, plan.booking);
    assert ExactRoom(db, plan.room);
    assert plan.booking in LiveBookings(db, plan.room);
    assert ActiveContracts(after, plan.room) == ActiveContracts(db, plan.room);
    if call.MarkProcessing? {
      assert plan.booking in LiveBookings(after, plan.room);
    } else {
      assert plan.booking !in LiveBookings(after, plan.room) && LiveBookings(after, plan.room) <= LiveBookings(db, plan.room);
    }
  }

  lemma ApprovalExact(db: Tables, call: Call)
    requires Inv(db) && Exact(db) && Read(db, call).Go? && call.Approve?
    ensures ExactRoom(Apply(db, call).db, Read(db, call).plan.room)
  {
    var plan := Read(db, call).plan;
    var reply := Apply(db, call);
    if reply.outcome.Done? {
      OnlyLive(db, plan.booking);
      assert plan.booking !in LiveBookings(reply.db, plan.room) && LiveBookings(reply.db, plan.room) <= LiveBookings(db, plan.room);
      assert plan.contract in ActiveContracts(reply.db, plan.room);
    } else {
      assert ExactRoom(db, plan.room);
    }
  }

  lemma EndingExact(db: Tables, call: Call)
    requires Inv(db) && Exact(db) && Read(db, call).Go? && call.EndContract?
    ensures ExactRoom(Apply(db, call).db, Read(db, call).plan.room)
  {
    var plan := Read(db, call).plan;
    var after := Apply(db, call).db;
    OnlyActive(db, plan.contract);
    assert LiveBookings(after, plan.room) == LiveBookings(db, plan.room);
    assert plan.contract !in ActiveContracts(after, plan.room) && ActiveContracts(after, plan.room) <= ActiveContracts(db, plan.room);
  }

  lemma RoomEditExact(db: Tables, call: Call)
    requires Inv(db) && Exact(db) && Read(db, call).Go? && call.UpdateRoom? && Disciplined(call)
    ensures ExactRoom(Apply(db, call).db, call.room)
  {
    var after := Apply(db, call).db;
    assert ExactRoom(db, call.room);
    assert LiveBookings(after, call.room) == LiveBookings(db, call.room);
    assert ActiveContracts(after, call.room) == ActiveContracts(db, call.room);
  }

  lemma BookingExact(db: Tables, call: Call)
    requires Inv(db) && Exact(db) && call.CreateBooking? && Apply(db, call).outcome.Done?
    ensures ExactRoom(Apply(db, call).db, call.room)
  {
    var after := Apply(db, call).db;
    assert ExactRoom(db, call.room);
    assert call.booking in LiveBookings(after, call.room);
    assert ActiveContracts(after, call.room) == ActiveContracts(db, call.room);
  }

  lemma NewRoomExact(db: Tables, call: Call)
    requires Inv(db) && call.CreateRoom? && Apply(db, call).outcome.Done? && Disciplined(call)
    ensures ExactRoom(Apply(db, call).db, call.room)
  {
    var after := Apply(db, call).db;
    assert LiveBookings(after, call.room) == {} && ActiveContracts(after, call.room) == {};
  }

  lemma SweepExact(db: Tables, now: Time, room: Id)
    requires Inv(db) && Exact(db) && room in Touched(db, Sweep(now))
    ensures ExactRoom(Expire(db, now), room)
  {
    var after := Expire(db, now);
    var b :| b in OverdueBookings(db, now) && db.bookings[b].room == room;
    OnlyLive(db, b);
    assert ExactRoom(db, room);
    assert b !in LiveBookings(after, room) && LiveBookings(after, room) <= LiveBookings(db, room);
    assert ActiveContracts(after, room) == ActiveContracts(db, room);
  }

  lemma TouchedExact(db: Tables, call: Call, room: Id)
    requires Inv(db) && Exact(db) && Disciplined(call) && room in Touched(db, call)
    ensures ExactRoom(Apply(db, call).db, room)
  {
    match call
    case CreateRoom(_, _, _, _) => NewRoomExact(db, call);
    case CreateBooking(_, _, _, _, _, _) => BookingExact(db, call);
    case Sweep(now) => SweepExact(db, now, room);
    case Approve(_, _, _, _, _, _, _) => ApprovalExact(db, call);
    case EndContract(_, _, _) => EndingExact(db, call);
    case UpdateRoom(_, _, _) => RoomEditExact(db, call);
    case DeleteRoom(_, _) =>
    case _ => DecisionExact(db, call);
  }

  lemma StepExact(db: Tables, call: Call)
    requires Inv(db) && Exact(db) && Disciplined(call)
    ensures Exact(Apply(db, call).db)
  {
    var after := Apply(db, call).db;
    forall r ensures ExactRoom(after, r) {
      if r in Touched(db, call) {
        TouchedExact(db, call, r);
      } else {
        ApplyFrame(db, call, r);
        SameRoomSameHolders(db, after, r);
        assert ExactRoom(db, r);
      }
    }
  }

  lemma {:induction false} RunExact(calls: seq<Call>)
    requires forall i :: 0 <= i < |calls| ==> Disciplined(calls[i])
    ensures Inv(Run(EMPTY_TABLES, calls)) && Exact(Run(EMPTY_TABLES, calls))
    decreases |calls|
  {
    if calls == [] {
    } else {
      var init := calls[..|calls| - 1];
      RunExact(init);
      StepKeeps(Run(EMPTY_TABLES, init), calls[|calls| - 1]);
      StepExact(Run(EMPTY_TABLES, init), calls[|calls| - 1]);
    }
  }

  /** If owners never write "reserved" or "occupied" themselves, a room is reserved exactly while it has one live
      booking, and occupied exactly while it has one active contract. */
  lemma StatusTellsHolder(calls: seq<Call>, room: Id)
    requires forall i :: 0 <= i < |calls| ==> Disciplined(calls[i])
    requires room in Run(EMPTY_TABLES, calls).rooms
    ensures var db := Run(EMPTY_TABLES, calls);
            && (db.rooms[room].status.Reserved? <==> |LiveBookings(db, room)| == 1)
            && (db.rooms[room].status.Occupied? <==> |ActiveContracts(db, room)| == 1)
  {
    RunExact(calls);
    var db := Run(EMPTY_TABLES, calls);
    assert ExactRoom(db, room);
    CountHolders(db, room);
  }

  // ----- Getting a room back -----

  /** Marked reserved or occupied, with nothing that holds it. */
  predicate Orphaned(db: Tables, room: Id) {
    room in db.rooms && Busy(db.rooms[room].status) && LiveBookings(db, room) == {} && ActiveContracts(db, room) == {}
  }

  lemma OrphanStep(db: Tables, call: Call, room: Id)
    requires Orphaned(db, room)
    ensures Orphaned(Apply(db, call).db, room)
  {
    if room in Touched(db, call) {
      OrphanTouched(db, call, room);
    } else {
      ApplyFrame(db, call, room);
      SameRoomSameHolders(db, Apply(db, call).db, room);
    }
  }

  /** Only its owner can still write to an orphaned room, and then only "reserved" or "occupied". */
  lemma OrphanTouched(db: Tables, call: Call, room: Id)
    requires Orphaned(db, room) && room in Touched(db, call)
    ensures call.UpdateRoom? && Orphaned(Apply(db, call).db, room)
  {
    forall b | b in db.bookings && db.bookings[b].room == room
      ensures !db.bookings[b].status.Live()
    {
      assert b !in LiveBookings(db, room);
    }
    forall c | c in db.contracts && db.contracts[c].room == room
      ensures !db.contracts[c].status.Active?
    {
      assert c !in ActiveContracts(db, room);
    }
    if call.UpdateRoom? {
      var after := Apply(db, call).db;
      assert LiveBookings(after, room) == {} && ActiveContracts(after, room) == {};
    }
  }

  lemma {:induction false} OrphanForever(db: Tables, calls: seq<Call>, room: Id)
    requires Orphaned(db, room)
    ensures Orphaned(Run(db, calls), room)
    decreases |calls|
  {
    if calls == [] {
    } else {
      OrphanForever(db, calls[..|calls| - 1], room);
      OrphanStep(Run(db, calls[..|calls| - 1]), calls[|calls| - 1], room);
    }
  }

  /** Calls that return a room with a holder, or one in maintenance, to available. */
  ghost function Release(db: Tables, room: Id): seq<Call>
    requires Inv(db) && room in db.rooms
  {
    var owner := db.kosts[db.rooms[room].kost].owner;
    if db.rooms[room].status.Maintenance? then [UpdateRoom(owner, room, Some(Available))]
    else if ActiveContracts(db, room) != {} then
      var c :| c in ActiveContracts(db, room);
      [EndContract(owner, c, 0)]
    else if LiveBookings(db, room) != {} then
      var b :| b in LiveBookings(db, room);
      if db.rooms[room].status.Occupied? then
        [UpdateRoom(owner, room, Some(Reserved)), Sweep(db.bookings[b].expiresAt)]
      else [Sweep(db.bookings[b].expiresAt)]
    else []
  }

  lemma RunOne(db: Tables, call: Call)
    ensures Run(db, [call]) == Apply(db, call).db
  {
    assert [call][..0] == [];
    assert Run(db, []) == db;
  }

  lemma RunTwo(db: Tables, first: Call, second: Call)
    ensures Run(db, [first, second]) == Apply(Apply(db, first).db, second).db
  {
    assert [first, second][..1] == [first];
    RunOne(db, first);
  }

  lemma SweepFrees(db: Tables, booking: Id, room: Id)
    requires booking in LiveBookings(db, room) && room in db.rooms && db.rooms[room].status.Reserved?
    ensures var after := Run(db, [Sweep(db.bookings[booking].expiresAt)]);
            room in after.rooms && after.rooms[room].status.Available?
  {
    var now := db.bookings[booking].expiresAt;
    RunOne(db, Sweep(now));
    assert booking in OverdueBookings(db, now);
    assert room in FreedRooms(db, now);
  }

  lemma ReleaseWorks(db: Tables, room: Id)
    requires Inv(db) && room in db.rooms && !Orphaned(db, room)
    ensures var after := Run(db, Release(db, room));
            room in after.rooms && after.rooms[room].status.Available?
  {
    var owner := db.kosts[db.rooms[room].kost].owner;
    var calls := Release(db, room);
    if db.rooms[room].status.Maintenance? {
      RunOne(db, calls[0]);
    } else if ActiveContracts(db, room) != {} {
      RunOne(db, calls[0]);
    } else if LiveBookings(db, room) != {} {
      var b :| b in LiveBookings(db, room) && calls[|calls| - 1] == Sweep(db.bookings[b].expiresAt);
      assert Holds(db, ByBooking(b), room);
      if db.rooms[room].status.Occupied? {
        var edited := Apply(db, calls[0]).db;
        assert calls == [calls[0], calls[1]];
        RunTwo(db, calls[0], calls[1]);
        RunOne(edited, calls[1]);
        SweepFrees(edited, b, room);
      } else {
        SweepFrees(db, b, room);
      }
    } else {
      assert Run(db, []) == db;
    }
  }

  /** From a reachable state some run makes the room available exactly when it is not orphaned. An orphaned room can
      never again be booked, freed or deleted. */
  lemma CanReturn(db: Tables, room: Id)
    requires Inv(db) && room in db.rooms
    ensures (exists calls :: room in Run(db, calls).rooms && Run(db, calls).rooms[room].status.Available?)
            <==> !Orphaned(db, room)
  {
    if Orphaned(db, room) {
      forall calls ensures Orphaned(Run(db, calls), room) {
        OrphanForever(db, calls, room);
      }
    } else {
      ReleaseWorks(db, room);
    }
  }

  /** Owners who leave the two statuses alone never orphan a room, and can always get it back that way. */
  lemma DisciplinedReturn(calls: seq<Call>, room: Id)
    requires forall i :: 0 <= i < |calls| ==> Disciplined(calls[i])
    requires room in Run(EMPTY_TABLES, calls).rooms
    ensures exists more: seq<Call> ::
              && (forall i :: 0 <= i < |more| ==> Disciplined(more[i]))
              && room in Run(EMPTY_TABLES, calls + more).rooms
              && Run(EMPTY_TABLES, calls + more).rooms[room].status.Available?
  {
    RunExact(calls);
    var db := Run(EMPTY_TABLES, calls);
    assert ExactRoom(db, room);
    CountHolders(db, room);
    ReleaseWorks(db, room);
    var more := Release(db, room);
    RunConcat(EMPTY_TABLES, calls, more);
    assert forall i :: 0 <= i < |more| ==> Disciplined(more[i]);
  }

  /** A room that an owner creates as occupied is orphaned from the start. */
  lemma OwnersCanOrphan()
    ensures Orphaned(Run(EMPTY_TABLES, [AddKost(0, 7, KostVerified), CreateRoom(7, 0, 1, Some(Occupied))]), 1)
  {
    RunTwo(EMPTY_TABLES, AddKost(0, 7, KostVerified), CreateRoom(7, 0, 1, Some(Occupied)));
  }
}
