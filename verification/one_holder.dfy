/** No room is let twice: the invariant of every run of service calls, each taken as one step. */
module OneHolder {
  import opened Models
  import opened Lifecycle
  import opened Sets

  /** What claims a room: a live booking or an active contract. */
  datatype Holder = ByBooking(booking: Id) | ByContract(contract: Id)

  ghost predicate Holds(db: Tables, h: Holder, room: Id) {
    match h
    case ByBooking(b) => b in db.bookings && db.bookings[b].room == room && db.bookings[b].status.Live()
    case ByContract(c) => c in db.contracts && db.contracts[c].room == room && db.contracts[c].status.Active?
  }

  /** The foreign keys, and the agreement of each contract with its booking. */
  ghost predicate Linked(db: Tables) {
    && (forall r :: r in db.rooms ==> db.rooms[r].kost in db.kosts)
    && (forall b :: b in db.bookings ==> db.bookings[b].room in db.rooms)
    && (forall c :: c in db.contracts ==>
          && db.contracts[c].room in db.rooms
          && db.contracts[c].booking in db.bookings
          && db.contracts[c].room == db.bookings[db.contracts[c].booking].room
          && db.contracts[c].tenant == db.bookings[db.contracts[c].booking].tenant)
    && (forall c, d :: c in db.contracts && d in db.contracts && db.contracts[c].booking == db.contracts[d].booking
                       ==> c == d)
  }

  predicate Busy(status: RoomStatus) { status.Reserved? || status.Occupied? }

  ghost predicate SingleHolder(db: Tables) {
    && (forall h, r :: Holds(db, h, r) ==> r in db.rooms && Busy(db.rooms[r].status))
    && (forall h, k, r :: Holds(db, h, r) && Holds(db, k, r) ==> h == k)
  }

  ghost predicate Inv(db: Tables) {
    Linked(db) && SingleHolder(db)
  }

  lemma BookKeeps(db: Tables, tenant: Id, room: Id, surveyDay: int, id: Id, now: Time, hold: int)
    requires Inv(db)
    ensures Inv(Book(db, tenant, room, surveyDay, id, now, hold).db)
  {
    var reply := Book(db, tenant, room, surveyDay, id, now, hold);
    if reply.outcome.Done? {
      forall h, r | Holds(reply.db, h, r)
        ensures if r == room then h == ByBooking(id) else Holds(db, h, r)
      {
        assert h != ByBooking(id) ==> Holds(db, h, r);
      }
    }
  }

  lemma MarkingKeeps(db: Tables, call: Call)
    requires Inv(db) && call.MarkProcessing? && Read(db, call).Go?
    ensures Inv(Commit(db, Read(db, call).plan).db)
  {
    var after := Commit(db, Read(db, call).plan).db;
    forall h, r ensures Holds(after, h, r) <==> Holds(db, h, r) {}
  }

  lemma DroppingKeeps(db: Tables, call: Call)
    requires Inv(db) && (call.Cancel? || call.Reject?) && Read(db, call).Go?
    ensures Inv(Commit(db, Read(db, call).plan).db)
  {
    var plan := Read(db, call).plan;
    var after := Commit(db, plan).db;
    assert Holds(db, ByBooking(plan.booking), plan.room);
    HoldersShrink(db, after, ByBooking(plan.booking), plan.room);
  }

  lemma EndingKeeps(db: Tables, call: Call)
    requires Inv(db) && call.EndContract? && Read(db, call).Go?
    ensures Inv(Commit(db, Read(db, call).plan).db)
  {
    var SaveEnding(id, ended, room) := Read(db, call).plan;
    var after := Commit(db, Read(db, call).plan).db;
    assert Holds(db, ByContract(id), room);
    HoldersShrink(db, after, ByContract(id), room);
  }

  lemma RoomEditKeeps(db: Tables, call: Call)
    requires Inv(db) && call.UpdateRoom? && Read(db, call).Go?
    ensures Inv(Commit(db, Read(db, call).plan).db)
  {
    var after := Commit(db, Read(db, call).plan).db;
    forall h, r ensures Holds(after, h, r) <==> Holds(db, h, r) {}
  }

  lemma RemovalKeeps(db: Tables, call: Call)
    requires Inv(db) && call.DeleteRoom? && Read(db, call).Go?
    ensures Inv(Commit(db, Read(db, call).plan).db)
  {
    var after := Commit(db, Read(db, call).plan).db;
    forall h, r ensures Holds(after, h, r) ==> Holds(db, h, r) && r != call.room {}
  }

  /** A step after which `gone` no longer holds `room`, whose status alone may have changed, keeps single holders. */
  lemma HoldersShrink(db: Tables, after: Tables, gone: Holder, room: Id)
    requires SingleHolder(db) && Holds(db, gone, room)
    requires forall h, r :: Holds(after, h, r) ==> Holds(db, h, r) && h != gone
    requires forall r :: r in db.rooms ==> r in after.rooms && (r != room ==> after.rooms[r] == db.rooms[r])
    ensures SingleHolder(after)
  {
  }

  lemma ApprovalKeeps(db: Tables, call: Call)
    requires Inv(db) && call.Approve? && Read(db, call).Go?
    ensures Inv(Commit(db, Read(db, call).plan).db)
  {
    var SaveApproval(id, decided, contract, signed, room) := Read(db, call).plan;
    var reply := Commit(db, Read(db, call).plan);
    if reply.outcome.Done? {
      assert Holds(db, ByBooking(id), room);
      forall h, r | Holds(reply.db, h, r)
        ensures if r == room then h == ByContract(contract) else Holds(db, h, r)
      {
        assert h != ByContract(contract) ==> Holds(db, h, r);
      }
    }
  }

  lemma ExpireKeeps(db: Tables, now: Time)
    requires Inv(db)
    ensures Inv(Expire(db, now))
  {
    var after := Expire(db, now);
    forall h, r | Holds(after, h, r)
      ensures Holds(db, h, r) && r in after.rooms && after.rooms[r] == db.rooms[r]
    {
      assert Holds(db, h, r);
      forall b | b in OverdueBookings(db, now)
        ensures db.bookings[b].room != r
      {
        assert db.bookings[b].room == r ==> Holds(db, ByBooking(b), r);
      }
    }
  }

  lemma StepKeeps(db: Tables, call: Call)
    requires Inv(db)
    ensures Inv(Apply(db, call).db)
  {
    match call
    case CreateBooking(tenant, room, survey, id, now, hold) =>
      if survey.Some? {
        BookKeeps(db, tenant, room, Calendar.UtcDay(survey.value), id, now, hold);
      }
    case Sweep(now) =>
      ExpireKeeps(db, now);
    case AddKost(_, _, _) =>
      KostOnly(db, call);
    case JudgeKost(_, _) =>
      KostOnly(db, call);
    case CreateRoom(_, _, room, _) =>
      var after := Apply(db, call).db;
      forall h, r ensures Holds(after, h, r) <==> Holds(db, h, r) {}
    case Approve(_, _, _, _, _, _, _) =>
      if Read(db, call).Go? { ApprovalKeeps(db, call); }
    case EndContract(_, _, _) =>
      if Read(db, call).Go? { EndingKeeps(db, call); }
    case UpdateRoom(_, _, _) =>
      if Read(db, call).Go? { RoomEditKeeps(db, call); }
    case DeleteRoom(_, _) =>
      if Read(db, call).Go? { RemovalKeeps(db, call); }
    case MarkProcessing(_, _) =>
      if Read(db, call).Go? { MarkingKeeps(db, call); }
    case _ =>
      if Read(db, call).Go? { DroppingKeeps(db, call); }
  }

  lemma KostOnly(db: Tables, call: Call)
    requires Inv(db) && (call.AddKost? || call.JudgeKost?)
    ensures Inv(Apply(db, call).db)
  {
    var after := Apply(db, call).db;
    forall h, r ensures Holds(after, h, r) <==> Holds(db, h, r) {}
  }

  lemma {:induction false} RunKeeps(db: Tables, calls: seq<Call>)
    requires Inv(db)
    ensures Inv(Run(db, calls))
    decreases |calls|
  {
    if calls == [] {
    } else {
      RunKeeps(db, calls[..|calls| - 1]);
      StepKeeps(Run(db, calls[..|calls| - 1]), calls[|calls| - 1]);
    }
  }

  // ----- The invariant in numbers -----

  lemma CountHolders(db: Tables, room: Id)
    requires SingleHolder(db)
    ensures |LiveBookings(db, room)| + |ActiveContracts(db, room)| <= 1
    ensures |LiveBookings(db, room)| + |ActiveContracts(db, room)| == 1 ==>
              room in db.rooms && Busy(db.rooms[room].status)
  {
    var live, active := LiveBookings(db, room), ActiveContracts(db, room);
    forall b | b in live ensures Holds(db, ByBooking(b), room) {}
    forall c | c in active ensures Holds(db, ByContract(c), room) {}
    AtMostOne(live);
    AtMostOne(active);
    assert live == {} || active == {};
  }

  /** In every state that any calls reach, every room has at most one holder, a held room is reserved or occupied,
      and so no room ever has two active contracts. */
  lemma NeverLetTwice(calls: seq<Call>, room: Id)
    ensures var db := Run(EMPTY_TABLES, calls);
            && |LiveBookings(db, room)| + |ActiveContracts(db, room)| <= 1
            && (|LiveBookings(db, room)| + |ActiveContracts(db, room)| == 1 ==>
                  room in db.rooms && Busy(db.rooms[room].status))
  {
    RunKeeps(EMPTY_TABLES, calls);
    CountHolders(Run(EMPTY_TABLES, calls), room);
  }
}
