/** The booking, contract and room handlers, as they load rows, set fields and save. Each is proved to be the call of
    the lifecycle that it implements, and so keeps every room to a single holder. */
module BookingService {
  import opened Models
  import opened Lifecycle
  import opened OneHolder
  import Calendar
  import Effects
  import Expiry
  import OwnerStats

  class Database {
    var kosts: map<Id, Kost>
    var rooms: map<Id, Room>
    var bookings: map<Id, Booking>
    var contracts: map<Id, Contract>

    constructor ()
      ensures View() == EMPTY_TABLES
    {
      kosts, rooms, bookings, contracts := map[], map[], map[], map[];
    }

    function View(): Tables
      reads this
    {
      Tables(kosts, rooms, bookings, contracts)
    }

    /** Update a room's status, if the row is there and, where asked for, has the given status. */
    method UpdateRoomStatus(id: Id, only: Option<RoomStatus>, status: RoomStatus)
      modifies this`rooms
      ensures rooms == if id in old(rooms) && (only.Some? ==> old(rooms)[id].status == only.value)
                       then SetRoom(old(rooms), id, status) else old(rooms)
    {
      if id in rooms && (only.None? || rooms[id].status == only.value) {
        rooms := rooms[id := rooms[id].(status := status)];
      }
    }

    /** Update a booking's status where it is still pending. */
    method UpdatePendingBooking(id: Id, status: BookingStatus)
      modifies this`bookings
      ensures bookings == MoveIfPending(old(bookings), id, status)
    {
      if id in bookings && bookings[id].status == Pending {
        bookings := bookings[id := bookings[id].(status := status)];
      }
    }

    /** Insert a pending booking and reserve its room, in one transaction that holds the room's lock. */
    method CreateBookingTx(tenant: Id, roomId: Id, surveyDay: int, id: Id, now: Time, hold: int)
      returns (outcome: Outcome)
      modifies this`rooms, this`bookings
      ensures Reply(View(), outcome) == Book(old(View()), tenant, roomId, surveyDay, id, now, hold)
    {
      if roomId !in rooms {
        return NotFound;
      }
      var room := rooms[roomId];
      if room.status != Available {
        return Conflict;
      }
      if room.kost !in kosts {
        return NotFound;
      }
      var kost := kosts[room.kost];
      if kost.status != KostVerified {
        return NotFound;
      }
      var expiresAt := now + hold;
      if id in bookings || HasPending(View(), roomId) {
        return Conflict;
      }
      bookings := bookings[id := Booking(roomId, tenant, Pending, surveyDay, now, expiresAt, None, None, None)];
      UpdateRoomStatus(roomId, Some(Available), Reserved);
      return Done;
    }

    /** Insert the contract of a booking that has been read, save the booking as approved, and occupy the room. */
    method CreateContractTx(id: Id, read: Booking, contractId: Id, startDay: int, endDay: int, at: Time)
      returns (outcome: Outcome)
      modifies this`rooms, this`bookings, this`contracts
      ensures var signed := Contract(id, read.room, read.tenant, startDay, endDay, Active, None, None);
              var decided := read.(status := Approved, decidedAt := Some(at));
              Reply(View(), outcome)
              == Commit(old(View()), SaveApproval(id, decided, contractId, signed, read.room))
    {
      var c := Contract(id, read.room, read.tenant, startDay, endDay, Active, None, None);
      if c.endDay <= c.startDay {
        return Internal;
      }
      if contractId in contracts || HasContract(View(), id) {
        return Conflict;
      }
      if id !in bookings || read.room !in rooms {
        return Internal;
      }
      contracts := contracts[contractId := c];
      var booking := read;
      booking := booking.(status := Approved);
      booking := booking.(decidedAt := Some(at));
      bookings := bookings[id := booking];
      UpdateRoomStatus(booking.room, None, Occupied);
      return Done;
    }

    /** A booking together with the owner of its kost. */
    method GetBookingWithKostOwner(id: Id) returns (found: Option<(Booking, Id)>)
      ensures found == if id in bookings && OwnerOf(View(), bookings[id].room).Some?
                       then Some((bookings[id], OwnerOf(View(), bookings[id].room).value)) else None
    {
      if id !in bookings {
        return None;
      }
      var b := bookings[id];
      if b.room !in rooms || rooms[b.room].kost !in kosts {
        return None;
      }
      return Some((b, kosts[rooms[b.room].kost].owner));
    }

    /** Expire what is overdue and free its rooms, in one statement; the effect and the number returned are those of
        expiring the overdue bookings one at a time, in any order. */
    method ExpirePendingBookings(now: Time) returns (freed: nat)
      modifies this`rooms, this`bookings
      ensures View() == Expire(old(View()), now)
      ensures freed == |FreedRooms(old(View()), now)|
      ensures forall order :: Expiry.Covers(order, OverdueBookings(old(View()), now)) ==>
                Expiry.ExpireEach(old(View()), order, now) == Expiry.Progress(View(), freed)
      ensures Effects.SweepSpec(old(View()), now, View(), freed)
      ensures Inv(old(View())) ==> Inv(View())
    {
      ghost var before := View();
      Effects.SweepEffect(before, now);
      hide Effects.SweepSpec;
      var freedRooms := FreedRooms(View(), now);
      var expired := OverdueBookings(View(), now);
      bookings := map b | b in bookings ::
        if b in expired then bookings[b].(status := Expired) else bookings[b];
      rooms := map r | r in rooms :: if r in freedRooms then rooms[r].(status := Available) else rooms[r];
      freed := |freedRooms|;
      assert View().bookings == Expire(before, now).bookings;
      forall order | Expiry.Covers(order, OverdueBookings(before, now))
        ensures Expiry.ExpireEach(before, order, now) == Expiry.Progress(Expire(before, now), |FreedRooms(before, now)|)
      {
        Expiry.SweepIsOneAtATime(before, order, now);
      }
      if Inv(before) { ExpireKeeps(before, now); }
    }
  }

  class Bookings {
    const db: Database

    constructor (db: Database)
      ensures this.db == db
    {
      this.db := db;
    }

    method Create(tenant: Id, roomId: Id, survey: Option<Time>, id: Id, now: Time, hold: int)
      returns (outcome: Outcome)
      modifies db
      ensures Reply(db.View(), outcome)
              == Apply(old(db.View()), CreateBooking(tenant, roomId, survey, id, now, hold))
      ensures Effects.BookSpec(old(db.View()), tenant, roomId, survey, id, now, hold, Reply(db.View(), outcome))
      ensures Inv(old(db.View())) ==> Inv(db.View())
    {
      ghost var before := db.View();
      Effects.BookEffect(before, tenant, roomId, survey, id, now, hold);
      hide Effects.BookSpec;
      if survey.None? {
        return Invalid;
      }
      var today := Calendar.UtcDay(now);
      var maxDay := today + 5;
      var sd := Calendar.UtcDay(survey.value);
      if sd < today || sd > maxDay {
        return Invalid;
      }
      outcome := db.CreateBookingTx(tenant, roomId, sd, id, now, hold);
      if Inv(before) { StepKeeps(before, CreateBooking(tenant, roomId, survey, id, now, hold)); }
    }

    method Cancel(tenant: Id, id: Id) returns (outcome: Outcome)
      modifies db
      ensures Reply(db.View(), outcome) == Apply(old(db.View()), Call.Cancel(tenant, id))
      ensures Effects.CancelSpec(old(db.View()), tenant, id, Reply(db.View(), outcome))
      ensures Inv(old(db.View())) ==> Inv(db.View())
    {
      ghost var before := db.View();
      Effects.CancelEffect(before, tenant, id);
      hide Effects.CancelSpec;
      if id !in db.bookings {
        return NotFound;
      }
      var b := db.bookings[id];
      if b.tenant != tenant {
        return NotFound;
      }
      if b.status != Pending {
        return Invalid;
      }
      db.UpdatePendingBooking(id, Cancelled);
      db.UpdateRoomStatus(b.room, Some(Reserved), Available);
      outcome := Done;
      if Inv(before) { StepKeeps(before, Call.Cancel(tenant, id)); }
    }

    method MarkProcessing(owner: Id, id: Id) returns (outcome: Outcome)
      modifies db
      ensures Reply(db.View(), outcome) == Apply(old(db.View()), Call.MarkProcessing(owner, id))
      ensures Effects.MarkSpec(old(db.View()), owner, id, Reply(db.View(), outcome))
      ensures Inv(old(db.View())) ==> Inv(db.View())
    {
      ghost var before := db.View();
      Effects.MarkEffect(before, owner, id);
      hide Effects.MarkSpec;
      var found := db.GetBookingWithKostOwner(id);
      if found.None? || found.value.1 != owner {
        return NotFound;
      }
      var b := found.value.0;
      if b.status != Pending {
        return Invalid;
      }
      db.UpdatePendingBooking(id, Processing);
      outcome := Done;
      if Inv(before) { StepKeeps(before, Call.MarkProcessing(owner, id)); }
    }

    method Approve(owner: Id, id: Id, contractId: Id, start: Calendar.Date, months: int, now: Time, at: Time)
      returns (outcome: Outcome)
      modifies db
      ensures Reply(db.View(), outcome)
              == Apply(old(db.View()), Call.Approve(owner, id, contractId, start, months, now, at))
      ensures Effects.ApproveSpec(old(db.View()), owner, id, contractId, start, months, now, at,
                                  Reply(db.View(), outcome))
      ensures Inv(old(db.View())) ==> Inv(db.View())
    {
      ghost var before := db.View();
      Effects.ApproveEffect(before, owner, id, contractId, start, months, now, at);
      hide Effects.ApproveSpec;
      var found := db.GetBookingWithKostOwner(id);
      if found.None? || found.value.1 != owner {
        return NotFound;
      }
      var b := found.value.0;
      if b.status != Pending && b.status != Processing {
        return Invalid;
      }
      if b.expiresAt < now {
        return Invalid;
      }
      var startDay := Calendar.DayNumber(start.month, start.day);
      var endDay := Calendar.EndDay(start, months);
      b := b.(decidedBy := Some(owner));
      outcome := db.CreateContractTx(id, b, contractId, startDay, endDay, at);
      if Inv(before) { StepKeeps(before, Call.Approve(owner, id, contractId, start, months, now, at)); }
    }

    method Reject(owner: Id, id: Id, reason: string, at: Time) returns (outcome: Outcome)
      modifies db
      ensures Reply(db.View(), outcome) == Apply(old(db.View()), Call.Reject(owner, id, reason, at))
      ensures Effects.RejectSpec(old(db.View()), owner, id, reason, at, Reply(db.View(), outcome))
      ensures Inv(old(db.View())) ==> Inv(db.View())
    {
      ghost var before := db.View();
      Effects.RejectEffect(before, owner, id, reason, at);
      hide Effects.RejectSpec;
      var found := db.GetBookingWithKostOwner(id);
      if found.None? || found.value.1 != owner {
        return NotFound;
      }
      var b := found.value.0;
      if b.status != Pending {
        return Invalid;
      }
      b := b.(status := Rejected);
      b := b.(rejectReason := Some(reason));
      b := b.(decidedBy := Some(owner));
      b := b.(decidedAt := Some(at));
      db.bookings := db.bookings[id := b];
      db.UpdateRoomStatus(b.room, Some(Reserved), Available);
      outcome := Done;
      if Inv(before) { StepKeeps(before, Call.Reject(owner, id, reason, at)); }
    }

    method EndContract(owner: Id, id: Id, at: Time) returns (outcome: Outcome)
      modifies db
      ensures Reply(db.View(), outcome) == Apply(old(db.View()), Call.EndContract(owner, id, at))
      ensures Effects.EndSpec(old(db.View()), owner, id, at, Reply(db.View(), outcome))
      ensures Inv(old(db.View())) ==> Inv(db.View())
    {
      ghost var before := db.View();
      Effects.EndEffect(before, owner, id, at);
      hide Effects.EndSpec;
      if id !in db.contracts {
        return NotFound;
      }
      var c := db.contracts[id];
      if c.status != Active {
        return Invalid;
      }
      if c.room !in db.rooms || db.rooms[c.room].kost !in db.kosts {
        return Internal;
      }
      var kost := db.kosts[db.rooms[c.room].kost];
      if kost.owner != owner {
        return NotFound;
      }
      c := c.(status := Ended);
      c := c.(endedBy := Some(owner));
      c := c.(endedAt := Some(at));
      db.contracts := db.contracts[id := c];
      db.UpdateRoomStatus(c.room, None, Available);
      outcome := Done;
      if Inv(before) { StepKeeps(before, Call.EndContract(owner, id, at)); }
    }

    /** The owner's numbers. In a consistent database they fit together. */
    method Stats(owner: Id) returns (stats: OwnerStats.Stats)
      ensures stats == OwnerStats.StatsOf(db.View(), owner)
      ensures Inv(db.View()) ==>
                && stats.pendingBookings + stats.activeContracts <= stats.reserved + stats.occupied
                && stats.reserved + stats.occupied + stats.available <= stats.totalRooms
    {
      var totalRooms := |OwnerStats.RoomsOf(db.View(), owner)|;
      var occupied := |OwnerStats.RoomsWith(db.View(), owner, Occupied)|;
      var available := |OwnerStats.RoomsWith(db.View(), owner, Available)|;
      var reserved := |OwnerStats.RoomsWith(db.View(), owner, Reserved)|;
      var pendingBookings := |OwnerStats.BookingsWith(db.View(), owner, Pending)|;
      var activeContracts := |OwnerStats.ActiveOf(db.View(), owner)|;
      var occupancy := 0.0;
      if totalRooms > 0 {
        occupancy := occupied as real / totalRooms as real * 100.0;
      }
      stats := OwnerStats.Stats(totalRooms, occupied, available, reserved, pendingBookings, activeContracts, occupancy);
      if Inv(db.View()) { OwnerStats.HoldersFitRooms(db.View(), owner); }
    }
  }

  class Kosts {
    const db: Database

    constructor (db: Database)
      ensures this.db == db
    {
      this.db := db;
    }

    method CreateRoom(owner: Id, kostId: Id, id: Id, initial: Option<RoomStatus>) returns (outcome: Outcome)
      modifies db
      ensures Reply(db.View(), outcome) == Apply(old(db.View()), Call.CreateRoom(owner, kostId, id, initial))
      ensures Effects.CreateRoomSpec(old(db.View()), owner, kostId, id, initial, Reply(db.View(), outcome))
      ensures Inv(old(db.View())) ==> Inv(db.View())
    {
      ghost var before := db.View();
      Effects.CreateRoomEffect(before, owner, kostId, id, initial);
      hide Effects.CreateRoomSpec;
      if kostId !in db.kosts {
        return NotFound;
      }
      var k := db.kosts[kostId];
      if k.owner != owner {
        return NotFound;
      }
      var status := Available;
      if initial.Some? {
        status := initial.value;
      }
      if id in db.rooms {
        return Conflict;
      }
      db.rooms := db.rooms[id := Room(kostId, status)];
      outcome := Done;
      if Inv(before) { StepKeeps(before, Call.CreateRoom(owner, kostId, id, initial)); }
    }

    method UpdateRoom(owner: Id, id: Id, wanted: Option<RoomStatus>) returns (outcome: Outcome)
      modifies db
      ensures Reply(db.View(), outcome) == Apply(old(db.View()), Call.UpdateRoom(owner, id, wanted))
      ensures Effects.UpdateRoomSpec(old(db.View()), owner, id, wanted, Reply(db.View(), outcome))
      ensures Inv(old(db.View())) ==> Inv(db.View())
    {
      ghost var before := db.View();
      Effects.UpdateRoomEffect(before, owner, id, wanted);
      hide Effects.UpdateRoomSpec;
      if id !in db.rooms {
        return NotFound;
      }
      var rm := db.rooms[id];
      if rm.kost !in db.kosts {
        return Internal;
      }
      var k := db.kosts[rm.kost];
      if k.owner != owner {
        return NotFound;
      }
      if wanted.Some? {
        var newStatus := wanted.value;
        if newStatus == Maintenance && rm.status != Available {
          return Invalid;
        }
        if rm.status == Maintenance && newStatus != Available {
          return Invalid;
        }
        if rm.status != Available && rm.status != Maintenance && (newStatus == Available || newStatus == Maintenance) {
          return Invalid;
        }
        rm := rm.(status := newStatus);
      }
      db.rooms := db.rooms[id := rm];
      outcome := Done;
      if Inv(before) { StepKeeps(before, Call.UpdateRoom(owner, id, wanted)); }
    }

    method DeleteRoom(owner: Id, id: Id) returns (outcome: Outcome)
      modifies db
      ensures Reply(db.View(), outcome) == Apply(old(db.View()), Call.DeleteRoom(owner, id))
      ensures Effects.DeleteRoomSpec(old(db.View()), owner, id, Reply(db.View(), outcome))
      ensures Inv(old(db.View())) ==> Inv(db.View())
    {
      ghost var before := db.View();
      Effects.DeleteRoomEffect(before, owner, id);
      hide Effects.DeleteRoomSpec;
      if id !in db.rooms {
        return NotFound;
      }
      var rm := db.rooms[id];
      if rm.kost !in db.kosts {
        return Internal;
      }
      var k := db.kosts[rm.kost];
      if k.owner != owner {
        return NotFound;
      }
      if rm.status != Available {
        return Invalid;
      }
      var cnt := |ActiveContracts(db.View(), id)|;
      if cnt > 0 {
        return Conflict;
      }
      db.rooms := db.rooms - {id};
      db.bookings := map b | b in db.bookings && db.bookings[b].room != id :: db.bookings[b];
      db.contracts := map c | c in db.contracts && db.contracts[c].room != id :: db.contracts[c];
      outcome := Done;
      if Inv(before) { StepKeeps(before, Call.DeleteRoom(owner, id)); }
    }
  }

  // ----- The expiry worker -----

  /** What the worker's loop selects on: a tick, at which the statement may fail, or the end of the program. */
  datatype Signal = Tick(now: Time, fails: bool) | Shutdown

  /** The tables after the first `n` signals: one sweep for each tick that did not fail, up to the first stop. */
  function AfterSignals(db: Tables, signals: seq<Signal>, n: nat): Tables
    requires n <= |signals|
  {
    if n == 0 then db
    else
      var before := AfterSignals(db, signals, n - 1);
      if Shutdown in signals[..n] || signals[n - 1].fails then before else Expire(before, signals[n - 1].now)
  }

  lemma {:induction false} NothingAfterStop(db: Tables, signals: seq<Signal>, m: nat, n: nat)
    requires m < n <= |signals| && signals[m] == Shutdown
    ensures AfterSignals(db, signals, n) == AfterSignals(db, signals, m)
    decreases n
  {
    assert Shutdown in signals[..n];
    if m == n - 1 {
    } else {
      NothingAfterStop(db, signals, m, n - 1);
    }
  }

  /** Signal `k` is a tick that sweeps: it does not fail, and no stop comes before it. */
  ghost predicate Sweeps(signals: seq<Signal>, k: int) {
    0 <= k < |signals| && signals[k].Tick? && !signals[k].fails && forall j :: 0 <= j < k ==> signals[j].Tick?
  }

  /** Tick `k` sweeps, and none of the first `n` ticks that do reads a later clock. */
  ghost predicate SweepsLatest(signals: seq<Signal>, k: int, n: nat) {
    Sweeps(signals, k) && k < n && forall j :: Sweeps(signals, j) && j < n ==> signals[j].now <= signals[k].now
  }

  /** All that the worker has done is one sweep, at the latest clock that a sweeping tick has read. */
  lemma {:induction false} WorkerIsOneSweep(db: Tables, signals: seq<Signal>, n: nat) returns (latest: Option<nat>)
    requires n <= |signals|
    ensures latest.None? ==>
              AfterSignals(db, signals, n) == db && forall k :: Sweeps(signals, k) ==> k >= n
    ensures latest.Some? ==>
              && SweepsLatest(signals, latest.value, n)
              && AfterSignals(db, signals, n) == Expire(db, signals[latest.value].now)
  {
    if n == 0 {
      latest := None;
    } else {
      latest := WorkerIsOneSweep(db, signals, n - 1);
      assert Sweeps(signals, n - 1) <==> Shutdown !in signals[..n] && !signals[n - 1].fails;
      if Sweeps(signals, n - 1) {
        hide Expire;
        var now := signals[n - 1].now;
        if latest.None? {
          latest := Some(n - 1);
        } else if signals[latest.value].now <= now {
          Expiry.SweepsCompose(db, signals[latest.value].now, now);
          latest := Some(n - 1);
        } else {
          Expiry.SweptAlready(db, now, signals[latest.value].now);
        }
      }
    }
  }

  /** A tick sweeps if it does not fail, also after one that did, and if no stop comes before it. What the worker leaves
      is a single sweep at the latest clock that such a tick has read, or the tables as they were if there is none. */
  lemma WorkerLeaves(db: Tables, signals: seq<Signal>)
    ensures forall k :: SweepsLatest(signals, k, |signals|) ==>
              AfterSignals(db, signals, |signals|) == Expire(db, signals[k].now)
    ensures (forall k :: !Sweeps(signals, k)) ==> AfterSignals(db, signals, |signals|) == db
  {
    hide Expire, AfterSignals;
    var latest := WorkerIsOneSweep(db, signals, |signals|);
  }

  /** The worker goes on after a tick that failed, and ends at the stop; it never breaks the database. */
  method StartExpiryWorker(db: Database, signals: seq<Signal>)
    modifies db
    ensures db.View() == AfterSignals(old(db.View()), signals, |signals|)
    ensures Inv(old(db.View())) ==> Inv(db.View())
  {
    ghost var before := db.View();
    hide Inv, FreedRooms, OverdueBookings, Effects.SweepSpec, Expiry.Covers;
    var i := 0;
    while i < |signals|
      invariant 0 <= i <= |signals| && Shutdown !in signals[..i]
      invariant db.View() == AfterSignals(before, signals, i)
      invariant Inv(before) ==> Inv(db.View())
    {
      match signals[i]
      case Shutdown =>
        NothingAfterStop(before, signals, i, |signals|);
        return;
      case Tick(now, fails) =>
        assert signals[..i + 1] == signals[..i] + [signals[i]];
        if fails {
          i := i + 1;
          continue;
        }
        var freed := db.ExpirePendingBookings(now);
        i := i + 1;
    }
  }
}
