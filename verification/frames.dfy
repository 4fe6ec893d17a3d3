/** Which rooms a call commits to, and that it leaves every other room, with its bookings and contracts, alone. */
module Frames {
  import opened Models
  import opened Lifecycle

  ghost predicate SameRoom(db: Tables, after: Tables, room: Id) {
    && (room in db.rooms <==> room in after.rooms)
    && (room in db.rooms ==> after.rooms[room] == db.rooms[room])
    && (forall b :: b in db.bookings && db.bookings[b].room == room ==>
          b in after.bookings && after.bookings[b] == db.bookings[b])
    && (forall b :: b in after.bookings && after.bookings[b].room == room ==>
          b in db.bookings && after.bookings[b] == db.bookings[b])
    && (forall c :: c in db.contracts && db.contracts[c].room == room ==>
          c in after.contracts && after.contracts[c] == db.contracts[c])
    && (forall c :: c in after.contracts && after.contracts[c].room == room ==>
          c in db.contracts && after.contracts[c] == db.contracts[c])
  }

  /** No call removes a kost or changes its owner. */
  ghost predicate OwnersKept(db: Tables, after: Tables) {
    forall k :: k in db.kosts ==> k in after.kosts && after.kosts[k].owner == db.kosts[k].owner
  }

  /** The rooms whose row, bookings or contracts the call commits to. */
  function Touched(db: Tables, call: Call): set<Id> {
    match call
    case AddKost(_, _, _) => {}
    case JudgeKost(_, _) => {}
    case CreateRoom(_, _, room, _) => if Apply(db, call).outcome.Done? then {room} else {}
    case CreateBooking(_, room, _, _, _, _) => if Apply(db, call).outcome.Done? then {room} else {}
    case Sweep(now) => set b | b in OverdueBookings(db, now) :: db.bookings[b].room
    case _ => if Read(db, call).Go? then {Read(db, call).plan.room} else {}
  }

  lemma SweepFrame(db: Tables, now: Time, room: Id)
    requires room !in Touched(db, Sweep(now))
    ensures SameRoom(db, Expire(db, now), room)
    ensures OwnersKept(db, Expire(db, now))
  {
  }

  lemma WholeFrame(db: Tables, call: Call, room: Id)
    requires call.Whole() && room !in Touched(db, call)
    ensures SameRoom(db, Apply(db, call).db, room)
    ensures OwnersKept(db, Apply(db, call).db)
  {
    if call.Sweep? {
      SweepFrame(db, call.now, room);
    }
    hide Expire;
  }

  lemma ApproveFrame(db: Tables, call: Call, room: Id)
    requires call.Approve? && room !in Touched(db, call)
    ensures SameRoom(db, Apply(db, call).db, room)
    ensures OwnersKept(db, Apply(db, call).db)
  {
  }

  lemma RemovalFrame(db: Tables, call: Call, room: Id)
    requires call.DeleteRoom? && room !in Touched(db, call)
    ensures SameRoom(db, Apply(db, call).db, room)
    ensures OwnersKept(db, Apply(db, call).db)
  {
  }

  lemma PlanFrame(db: Tables, call: Call, room: Id)
    requires !call.Whole() && room !in Touched(db, call)
    ensures SameRoom(db, Apply(db, call).db, room)
    ensures OwnersKept(db, Apply(db, call).db)
  {
    if call.Approve? {
      ApproveFrame(db, call, room);
    } else if call.DeleteRoom? {
      RemovalFrame(db, call, room);
    }
  }

  lemma ApplyFrame(db: Tables, call: Call, room: Id)
    requires room !in Touched(db, call)
    ensures SameRoom(db, Apply(db, call).db, room)
    ensures OwnersKept(db, Apply(db, call).db)
  {
    if call.Whole() {
      WholeFrame(db, call, room);
    } else {
      PlanFrame(db, call, room);
    }
  }

  /** A reading depends only on the room its plan is about. */
  lemma ReadIsLocal(db: Tables, after: Tables, call: Call)
    requires !call.Whole() && Read(db, call).Go?
    requires SameRoom(db, after, Read(db, call).plan.room) && OwnersKept(db, after)
    ensures Read(after, call) == Read(db, call)
  {
  }
}
