/** When calls succeed in states that calls have reached, and what they undo. */
module Outcomes {
  import opened Models
  import opened Lifecycle
  import opened OneHolder
  import Calendar

  /** A booking with a contract has been approved, and nothing changes that. */
  ghost predicate SignedApproved(db: Tables) {
    forall c :: c in db.contracts ==>
      && db.contracts[c].booking in db.bookings
      && db.bookings[db.contracts[c].booking].status.Approved?
      && db.bookings[db.contracts[c].booking].room == db.contracts[c].room
  }

  lemma ApprovalSigns(db: Tables, call: Call)
    requires SignedApproved(db) && call.Approve?
    ensures SignedApproved(Apply(db, call).db)
  {
  }

  lemma StepSigned(db: Tables, call: Call)
    requires SignedApproved(db)
    ensures SignedApproved(Apply(db, call).db)
  {
    if call.Approve? {
      ApprovalSigns(db, call);
    } else if call.Sweep? {
      hide FreedRooms;
    } else if !call.Whole() && Read(db, call).Go? {
      PlanSigned(db, call);
    }
  }

  lemma PlanSigned(db: Tables, call: Call)
    requires SignedApproved(db) && !call.Whole() && !call.Approve? && Read(db, call).Go?
    ensures SignedApproved(Commit(db, Read(db, call).plan).db)
  {
  }

  lemma {:induction false} RunSigned(calls: seq<Call>)
    ensures SignedApproved(Run(EMPTY_TABLES, calls)) && Inv(Run(EMPTY_TABLES, calls))
    decreases |calls|
  {
    if calls == [] {
    } else {
      RunSigned(calls[..|calls| - 1]);
      StepSigned(Run(EMPTY_TABLES, calls[..|calls| - 1]), calls[|calls| - 1]);
    }
    RunKeeps(EMPTY_TABLES, calls);
  }

  /** A booking goes through exactly when the survey date is accepted and the room is available in a verified kost: the
      unique index on pending bookings has nothing left to refuse. */
  lemma BookingSucceedsIff(calls: seq<Call>, tenant: Id, room: Id, survey: Option<Time>, id: Id, now: Time, hold: int)
    ensures var db := Run(EMPTY_TABLES, calls);
            Apply(db, CreateBooking(tenant, room, survey, id, now, hold)).outcome.Done? <==>
              && survey.Some? && Calendar.SurveyAccepted(now, survey.value)
              && room in db.rooms && db.rooms[room].status.Available?
              && db.rooms[room].kost in db.kosts && db.kosts[db.rooms[room].kost].status.KostVerified?
              && id !in db.bookings
  {
    RunKeeps(EMPTY_TABLES, calls);
    var db := Run(EMPTY_TABLES, calls);
    hide Run;
    if room in db.rooms && db.rooms[room].status.Available? {
      forall b | b in db.bookings && db.bookings[b].room == room ensures !db.bookings[b].status.Live() {
        assert db.bookings[b].status.Live() ==> Holds(db, ByBooking(b), room);
      }
      assert !HasPending(db, room);
    }
  }

  /** An approval goes through exactly when the owner approves a live booking that has not expired, for at least a month:
      neither the unique index on a contract's booking nor a foreign key has anything left to refuse. */
  lemma ApprovalSucceedsIff(calls: seq<Call>, owner: Id, id: Id, contract: Id, start: Calendar.Date, months: int,
                            now: Time, at: Time)
    ensures var db := Run(EMPTY_TABLES, calls);
            Apply(db, Approve(owner, id, contract, start, months, now, at)).outcome.Done? <==>
              && OwnsBooking(db, owner, id)
              && db.bookings[id].status.Live() && now <= db.bookings[id].expiresAt
              && months >= 1 && contract !in db.contracts
  {
    RunSigned(calls);
    var db := Run(EMPTY_TABLES, calls);
    Calendar.CheckConstraint(start, months);
    hide Run, Calendar.EndDay, Calendar.DayNumber;
    if OwnsBooking(db, owner, id) && db.bookings[id].status.Live() {
      assert !HasContract(db, id);
    }
  }

  /** Cancelling a booking that has just been made leaves no trace but the cancelled row. */
  lemma CancelUndoesBooking(db: Tables, tenant: Id, room: Id, survey: Option<Time>, id: Id, now: Time, hold: int)
    requires Apply(db, CreateBooking(tenant, room, survey, id, now, hold)).outcome.Done?
    ensures var booked := Apply(db, CreateBooking(tenant, room, survey, id, now, hold)).db;
            var reply := Apply(booked, Cancel(tenant, id));
            && reply.outcome.Done?
            && reply.db == db.(bookings := db.bookings[id := booked.bookings[id].(status := Cancelled)])
  {
    var booked := Apply(db, CreateBooking(tenant, room, survey, id, now, hold)).db;
    var reply := Apply(booked, Cancel(tenant, id));
    assert reply.db.rooms == db.rooms;
  }

  /** Ending a contract takes the room of the approved booking back to available, and leaves the contract ended and the
      rest of the tables as the approval left them. */
  lemma EndUndoesApproval(db: Tables, owner: Id, id: Id, contract: Id, start: Calendar.Date, months: int, now: Time,
                          at: Time, later: Time)
    requires Apply(db, Approve(owner, id, contract, start, months, now, at)).outcome.Done?
    ensures var signed := Apply(db, Approve(owner, id, contract, start, months, now, at)).db;
            var reply := Apply(signed, EndContract(owner, contract, later));
            var room := db.bookings[id].room;
            && reply.outcome.Done?
            && signed.rooms == SetRoom(db.rooms, room, Occupied)
            && reply.db.rooms == SetRoom(db.rooms, room, Available)
            && reply.db.contracts.Keys == db.contracts.Keys + {contract}
            && reply.db.contracts[contract].status.Ended? && reply.db.contracts[contract].tenant == db.bookings[id].tenant
            && reply.db.bookings == signed.bookings && signed.bookings[id].status.Approved?
            && forall c :: c in db.contracts ==> reply.db.contracts[c] == db.contracts[c]
  {
    hide Calendar.EndDay, Calendar.DayNumber;
    var signed := Apply(db, Approve(owner, id, contract, start, months, now, at)).db;
    assert signed.rooms == SetRoom(db.rooms, db.bookings[id].room, Occupied);
  }

  /** Every move a booking can make, and the call that makes it. In particular one in processing leaves that state only
      by approval or expiry: it can be neither cancelled nor rejected. A booking's row goes only with its room, and then
      it was not live. */
  lemma BookingMoves(db: Tables, call: Call, id: Id)
    requires Inv(db) && id in db.bookings
    ensures var before, after := db.bookings[id].status, Apply(db, call).db;
            if id in after.bookings then
              || after.bookings[id].status == before
              || (before.Pending? && call.Cancel? && after.bookings[id].status.Cancelled?)
              || (before.Pending? && call.MarkProcessing? && after.bookings[id].status.Processing?)
              || (before.Pending? && call.Reject? && after.bookings[id].status.Rejected?)
              || (before.Live() && call.Approve? && after.bookings[id].status.Approved?)
              || (before.Live() && call.Sweep? && after.bookings[id].status.Expired?)
            else
              call.DeleteRoom? && !before.Live()
  {
    if call.DeleteRoom? {
      assert db.bookings[id].status.Live() ==> Holds(db, ByBooking(id), db.bookings[id].room);
    }
  }
}
