/** The expiry sweep, and how long a booking can hold a room. */
module Expiry {
  import opened Models
  import opened Lifecycle
  import Calendar

  // ----- One statement, or one booking at a time -----

  datatype Progress = Progress(db: Tables, freed: nat)

  /** Expire one booking if it is overdue, free its room if that is reserved, and count the room if it was. */
  function ExpireOne(p: Progress, id: Id, now: Time): Progress {
    if id in p.db.bookings && Overdue(p.db.bookings[id], now) then
      var room := p.db.bookings[id].room;
      var frees := room in p.db.rooms && p.db.rooms[room].status.Reserved?;
      Progress(p.db.(bookings := p.db.bookings[id := p.db.bookings[id].(status := Expired)],
                     rooms := FreeIfReserved(p.db.rooms, room)),
               if frees then p.freed + 1 else p.freed)
    else p
  }

  function ExpireEach(db: Tables, order: seq<Id>, now: Time): Progress {
    if order == [] then Progress(db, 0)
    else ExpireOne(ExpireEach(db, order[..|order| - 1], now), order[|order| - 1], now)
  }

  function FreedBy(db: Tables, done: set<Id>): set<Id>
    requires done <= db.bookings.Keys
  {
    var rooms := set b | b in done :: db.bookings[b].room;
    set r | r in db.rooms && db.rooms[r].status.Reserved? && r in rooms
  }

  /** The tables after the overdue bookings in `done` have been expired. */
  ghost predicate Expiring(db: Tables, p: Progress, done: set<Id>)
    requires done <= db.bookings.Keys
  {
    && p.db.kosts == db.kosts && p.db.contracts == db.contracts
    && p.db.bookings.Keys == db.bookings.Keys && p.db.rooms.Keys == db.rooms.Keys
    && (forall b :: b in db.bookings ==>
          p.db.bookings[b] == if b in done then db.bookings[b].(status := Expired) else db.bookings[b])
    && (forall r :: r in db.rooms ==>
          p.db.rooms[r] == if r in FreedBy(db, done) then db.rooms[r].(status := Available) else db.rooms[r])
    && p.freed == |FreedBy(db, done)|
  }

  lemma FreedByOneMore(db: Tables, done: set<Id>, id: Id)
    requires done <= db.bookings.Keys && id in db.bookings
    ensures var room := db.bookings[id].room;
            FreedBy(db, done + {id}) ==
            FreedBy(db, done) + if room in db.rooms && db.rooms[room].status.Reserved? then {room} else {}
  {
  }

  lemma FreedByMeans(db: Tables, done: set<Id>, room: Id)
    requires done <= db.bookings.Keys && room in FreedBy(db, done)
    ensures room in db.rooms && db.rooms[room].status.Reserved?
  {
  }

  lemma OneReaches(db: Tables, p: Progress, done: set<Id>, id: Id, now: Time)
    requires done <= db.bookings.Keys && Expiring(db, p, done)
    requires id in db.bookings && Overdue(db.bookings[id], now)
    ensures Expiring(db, ExpireOne(p, id, now), done + {id})
  {
    hide FreedBy;
    var room := db.bookings[id].room;
    FreedByOneMore(db, done, id);
    if id in done {
      assert done + {id} == done;
    } else if room in FreedBy(db, done) {
      FreedByMeans(db, done, room);
      assert FreedBy(db, done + {id}) == FreedBy(db, done);
    }
  }

  /** Those of the listed bookings that are overdue. */
  function OverdueIn(db: Tables, order: seq<Id>, now: Time): (done: set<Id>)
    ensures done <= db.bookings.Keys
  {
    set b | b in order && b in db.bookings && Overdue(db.bookings[b], now)
  }

  lemma {:induction false} EachReaches(db: Tables, order: seq<Id>, now: Time)
    ensures Expiring(db, ExpireEach(db, order, now), OverdueIn(db, order, now))
  {
    if order == [] {
      assert FreedBy(db, OverdueIn(db, order, now)) == {};
    } else {
      hide FreedBy;
      var init, id := order[..|order| - 1], order[|order| - 1];
      EachReaches(db, init, now);
      assert order == init + [id];
      if id in db.bookings && Overdue(db.bookings[id], now) {
        assert OverdueIn(db, order, now) == OverdueIn(db, init, now) + {id};
        OneReaches(db, ExpireEach(db, init, now), OverdueIn(db, init, now), id, now);
      } else {
        assert OverdueIn(db, order, now) == OverdueIn(db, init, now);
      }
    }
  }

  ghost predicate Covers(order: seq<Id>, overdue: set<Id>) {
    forall b :: b in overdue ==> b in order
  }

  /** The one-statement sweep is the same as expiring the overdue bookings one at a time, in any order, with or
      without others listed among them; and it returns the number of rooms that this moves to available. */
  lemma SweepIsOneAtATime(db: Tables, order: seq<Id>, now: Time)
    requires Covers(order, OverdueBookings(db, now))
    ensures ExpireEach(db, order, now) == Progress(Expire(db, now), |FreedRooms(db, now)|)
  {
    EachReaches(db, order, now);
    var done := OverdueIn(db, order, now);
    assert done == OverdueBookings(db, now);
    assert FreedBy(db, done) == FreedRooms(db, now);
    var p := ExpireEach(db, order, now);
    assert p.db.bookings == Expire(db, now).bookings;
    assert p.db.rooms == Expire(db, now).rooms;
  }

  lemma FreedEarlyOrLate(db: Tables, early: Time, late: Time, room: Id)
    requires early <= late
    ensures room in FreedRooms(db, late) <==>
            room in FreedRooms(db, early) || room in FreedRooms(Expire(db, early), late)
    ensures !(room in FreedRooms(db, early) && room in FreedRooms(Expire(db, early), late))
  {
    var middle := Expire(db, early);
    if room in FreedRooms(db, early) {
      var b :| b in OverdueBookings(db, early) && db.bookings[b].room == room;
      assert b in OverdueBookings(db, late);
    } else if room in FreedRooms(db, late) {
      var b :| b in OverdueBookings(db, late) && db.bookings[b].room == room;
      assert b in OverdueBookings(middle, late) && middle.bookings[b].room == room;
    }
  }

  lemma SweptTwiceBookings(db: Tables, early: Time, late: Time)
    requires early <= late
    ensures Expire(Expire(db, early), late).bookings == Expire(db, late).bookings
  {
  }

  lemma SweptTwiceRoom(db: Tables, early: Time, late: Time, room: Id)
    requires early <= late && room in db.rooms
    ensures Expire(Expire(db, early), late).rooms[room] == Expire(db, late).rooms[room]
  {
    FreedEarlyOrLate(db, early, late, room);
    hide FreedRooms;
  }

  lemma SweptTwiceTables(db: Tables, early: Time, late: Time)
    requires early <= late
    ensures Expire(Expire(db, early), late) == Expire(db, late)
  {
    SweptTwiceBookings(db, early, late);
    forall r | r in db.rooms ensures Expire(Expire(db, early), late).rooms[r] == Expire(db, late).rooms[r] {
      SweptTwiceRoom(db, early, late, r);
    }
    hide FreedRooms, OverdueBookings;
    assert Expire(Expire(db, early), late).rooms == Expire(db, late).rooms;
  }

  lemma CountsAdd(db: Tables, early: Time, late: Time)
    requires early <= late
    ensures |FreedRooms(db, early)| + |FreedRooms(Expire(db, early), late)| == |FreedRooms(db, late)|
  {
    hide FreedRooms, Expire;
    var first, second := FreedRooms(db, early), FreedRooms(Expire(db, early), late);
    forall r ensures (r in FreedRooms(db, late) <==> r in first || r in second) && !(r in first && r in second) {
      FreedEarlyOrLate(db, early, late, r);
    }
    assert FreedRooms(db, late) == first + second && first !! second;
  }

  /** A sweep followed by a later one is the later one alone, and their counts add up. */
  lemma SweepsCompose(db: Tables, early: Time, late: Time)
    requires early <= late
    ensures Expire(Expire(db, early), late) == Expire(db, late)
    ensures |FreedRooms(db, early)| + |FreedRooms(Expire(db, early), late)| == |FreedRooms(db, late)|
  {
    hide FreedRooms, Expire;
    SweptTwiceTables(db, early, late);
    CountsAdd(db, early, late);
  }

  /** A sweep whose clock is behind that of one before it finds nothing left. */
  lemma SweptAlready(db: Tables, early: Time, late: Time)
    requires early <= late
    ensures Expire(Expire(db, late), early) == Expire(db, late)
  {
    var swept := Expire(db, late);
    assert OverdueBookings(swept, early) == {};
    assert FreedRooms(swept, early) == {};
    assert Expire(swept, early).bookings == swept.bookings && Expire(swept, early).rooms == swept.rooms;
  }

  /** A second sweep at the same instant changes nothing and returns zero. */
  lemma SweepIsIdempotent(db: Tables, now: Time)
    ensures Expire(Expire(db, now), now) == Expire(db, now)
    ensures |FreedRooms(Expire(db, now), now)| == 0
  {
    SweepsCompose(db, now, now);
  }

  // ----- Bounded hold -----

  datatype Timed = Timed(at: Time, call: Call)

  /** The call reads the clock at `at`, and new bookings expire after `hold`. An approval reads it twice: when it checks
      the expiry, and in its transaction for the time of the decision. */
  predicate Stamped(t: Timed, hold: int) {
    match t.call
    case CreateBooking(_, _, _, _, now, h) => now == t.at && h == hold
    case Approve(_, _, _, _, _, now, decidedAt) => now <= decidedAt
    case Sweep(now) => now == t.at
    case _ => true
  }

  predicate Clocked(trace: seq<Timed>, start: Time, hold: int) {
    && (forall i :: 0 <= i < |trace| ==> start <= trace[i].at && Stamped(trace[i], hold))
    && (forall i, j :: 0 <= i < j < |trace| ==> trace[i].at <= trace[j].at)
  }

  function Calls(trace: seq<Timed>): seq<Call> {
    seq(|trace|, i requires 0 <= i < |trace| => trace[i].call)
  }

  function RunTimed(trace: seq<Timed>): Tables {
    Run(EMPTY_TABLES, Calls(trace))
  }

  /** The time of the latest sweep, or of the start if there has been none. */
  function LastSweep(trace: seq<Timed>, start: Time): Time {
    if trace == [] then start
    else if trace[|trace| - 1].call.Sweep? then trace[|trace| - 1].at
    else LastSweep(trace[..|trace| - 1], start)
  }

  ghost predicate TimeInv(db: Tables, hold: int, swept: Time) {
    && (forall b :: b in db.bookings ==>
          && db.bookings[b].expiresAt == db.bookings[b].createdAt + hold
          && (db.bookings[b].status.Live() ==> db.bookings[b].expiresAt > swept))
  }

  lemma WholeTimeStep(db: Tables, t: Timed, hold: int, swept: Time)
    requires hold > 0 && swept <= t.at && Stamped(t, hold) && TimeInv(db, hold, swept) && t.call.Whole()
    ensures TimeInv(Apply(db, t.call).db, hold, if t.call.Sweep? then t.at else swept)
  {
    hide FreedRooms;
  }

  lemma PlanTimeStep(db: Tables, t: Timed, hold: int, swept: Time)
    requires TimeInv(db, hold, swept) && !t.call.Whole()
    ensures TimeInv(Apply(db, t.call).db, hold, swept)
  {
  }

  lemma TimeStep(db: Tables, t: Timed, hold: int, swept: Time)
    requires hold > 0 && swept <= t.at && Stamped(t, hold) && TimeInv(db, hold, swept)
    ensures TimeInv(Apply(db, t.call).db, hold, if t.call.Sweep? then t.at else swept)
  {
    if t.call.Whole() {
      WholeTimeStep(db, t, hold, swept);
    } else {
      PlanTimeStep(db, t, hold, swept);
    }
  }

  lemma {:induction false} TimeRun(trace: seq<Timed>, start: Time, hold: int)
    requires hold > 0 && Clocked(trace, start, hold)
    ensures TimeInv(RunTimed(trace), hold, LastSweep(trace, start))
    ensures start <= LastSweep(trace, start)
    ensures trace != [] ==> LastSweep(trace, start) <= trace[|trace| - 1].at
  {
    if trace == [] {
    } else {
      var init := trace[..|trace| - 1];
      TimeRun(init, start, hold);
      assert Calls(trace)[..|trace| - 1] == Calls(init);
      TimeStep(RunTimed(init), trace[|trace| - 1], hold, LastSweep(init, start));
    }
  }

  /** While the latest sweep is at most `gap` old, every live booking is younger than the expiry time plus `gap`, and
      expires after that sweep. */
  lemma BoundedHold(trace: seq<Timed>, start: Time, hold: int, now: Time, gap: int, booking: Id)
    requires hold > 0 && Clocked(trace, start, hold)
    requires now - LastSweep(trace, start) <= gap
    requires booking in RunTimed(trace).bookings && RunTimed(trace).bookings[booking].status.Live()
    ensures RunTimed(trace).bookings[booking].expiresAt > LastSweep(trace, start)
    ensures now - RunTimed(trace).bookings[booking].createdAt < hold + gap
  {
    TimeRun(trace, start, hold);
  }

  // ----- Approval before expiry -----

  /** The call approved booking `b` with the contract `c`, and found it in time when it checked. */
  predicate ApprovedBy(call: Call, c: Id, b: Booking) {
    && call.Approve? && call.contract == c && call.now <= b.expiresAt
    && b.status.Approved? && b.decidedAt == Some(call.at)
  }

  ghost predicate ApprovedIn(trace: seq<Timed>, c: Id, b: Booking) {
    exists i :: 0 <= i < |trace| && ApprovedBy(trace[i].call, c, b)
  }

  ghost predicate ContractsApproved(db: Tables, trace: seq<Timed>) {
    forall c :: c in db.contracts ==>
      && db.contracts[c].booking in db.bookings
      && db.contracts[c].room == db.bookings[db.contracts[c].booking].room
      && ApprovedIn(trace, c, db.bookings[db.contracts[c].booking])
  }

  lemma ApprovedInLonger(trace: seq<Timed>, t: Timed, c: Id, b: Booking)
    requires ApprovedIn(trace, c, b)
    ensures ApprovedIn(trace + [t], c, b) && b.status.Approved?
  {
    var i :| 0 <= i < |trace| && ApprovedBy(trace[i].call, c, b);
    assert (trace + [t])[i] == trace[i];
  }

  /** A call other than an approval leaves contracts' bookings as they are, if it leaves them at all. */
  lemma ApprovalsStay(db: Tables, call: Call, c: Id)
    requires !call.Approve? && c in Apply(db, call).db.contracts
    requires forall d :: d in db.contracts ==>
               && db.contracts[d].booking in db.bookings
               && db.contracts[d].room == db.bookings[db.contracts[d].booking].room
               && db.bookings[db.contracts[d].booking].status.Approved?
    ensures var after := Apply(db, call).db;
            && c in db.contracts && after.contracts[c].booking == db.contracts[c].booking
            && after.contracts[c].room == db.contracts[c].room
            && after.contracts[c].booking in after.bookings
            && after.bookings[after.contracts[c].booking] == db.bookings[db.contracts[c].booking]
  {
    hide FreedRooms;
  }

  lemma ApprovalApproves(db: Tables, call: Call, c: Id)
    requires call.Approve? && c in Apply(db, call).db.contracts
    requires forall d :: d in db.contracts ==>
               && db.contracts[d].booking in db.bookings
               && db.contracts[d].room == db.bookings[db.contracts[d].booking].room
               && db.bookings[db.contracts[d].booking].status.Approved?
    ensures var after := Apply(db, call).db;
            && after.contracts[c].booking in after.bookings
            && var b := after.bookings[after.contracts[c].booking];
            && after.contracts[c].room == b.room
            && (ApprovedBy(call, c, b) ||
                (c in db.contracts && db.contracts[c] == after.contracts[c]
                 && b == db.bookings[db.contracts[c].booking]))
  {
  }

  lemma {:induction false} EveryContractApproved(trace: seq<Timed>)
    ensures ContractsApproved(RunTimed(trace), trace)
  {
    if trace == [] {
    } else {
      var init, t := trace[..|trace| - 1], trace[|trace| - 1];
      EveryContractApproved(init);
      assert Calls(trace)[..|trace| - 1] == Calls(init) && trace == init + [t];
      var before, after := RunTimed(init), RunTimed(trace);
      assert after == Apply(before, t.call).db;
      forall d | d in before.contracts ensures before.bookings[before.contracts[d].booking].status.Approved? {
        ApprovedInLonger(init, t, d, before.bookings[before.contracts[d].booking]);
      }
      forall c | c in after.contracts
        ensures after.contracts[c].booking in after.bookings
        ensures after.contracts[c].room == after.bookings[after.contracts[c].booking].room
        ensures ApprovedIn(trace, c, after.bookings[after.contracts[c].booking])
      {
        ContractApproved(init, t, c);
      }
    }
  }

  lemma ContractApproved(init: seq<Timed>, t: Timed, c: Id)
    requires ContractsApproved(RunTimed(init), init) && c in Apply(RunTimed(init), t.call).db.contracts
    ensures var after := Apply(RunTimed(init), t.call).db;
            && after.contracts[c].booking in after.bookings
            && after.contracts[c].room == after.bookings[after.contracts[c].booking].room
            && ApprovedIn(init + [t], c, after.bookings[after.contracts[c].booking])
  {
    hide Apply;
    var before := RunTimed(init);
    forall d | d in before.contracts
      ensures before.bookings[before.contracts[d].booking].status.Approved?
      ensures ApprovedIn(init + [t], d, before.bookings[before.contracts[d].booking])
    {
      ApprovedInLonger(init, t, d, before.bookings[before.contracts[d].booking]);
    }
    assert (init + [t])[|init|] == t;
    if t.call.Approve? {
      ApprovalApproves(before, t.call, c);
    } else {
      ApprovalsStay(before, t.call, c);
    }
  }

  /** Every contract was approved by a call that checked the expiry, of the clock it read then, before the booking had
      expired. So the decision is stamped later than the expiry by at most the time `lag` between check and stamp. */
  lemma ApprovedBeforeExpiry(trace: seq<Timed>, contract: Id, lag: int)
    requires contract in RunTimed(trace).contracts
    requires forall i :: 0 <= i < |trace| && trace[i].call.Approve? ==> trace[i].call.at <= trace[i].call.now + lag
    ensures var db := RunTimed(trace);
            && db.contracts[contract].booking in db.bookings
            && var b := db.bookings[db.contracts[contract].booking];
            && ApprovedIn(trace, contract, b)
            && b.decidedAt.Some? && b.decidedAt.value <= b.expiresAt + lag
  {
    EveryContractApproved(trace);
    var db := RunTimed(trace);
    var b := db.bookings[db.contracts[contract].booking];
    var i :| 0 <= i < |trace| && ApprovedBy(trace[i].call, contract, b);
  }

  /** The bound is met: a check in the last instant, and a stamp one instant later. */
  lemma StampedAfterExpiry(start: Calendar.Date, months: int)
    requires months >= 1
    ensures var b := Booking(2, 3, Pending, 0, 0, 72, None, None, None);
            var db := Tables(map[1 := Kost(9, KostVerified)], map[2 := Room(1, Reserved)], map[4 := b], map[]);
            var reply := Apply(db, Approve(9, 4, 5, start, months, 72, 73));
            && reply.outcome.Done? && 5 in reply.db.contracts
            && reply.db.bookings[4].decidedAt == Some(b.expiresAt + 1)
  {
    Calendar.CheckConstraint(start, months);
    hide Calendar.EndDay, Calendar.DayNumber;
  }
}
