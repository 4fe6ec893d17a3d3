/** Every service call that moves rooms, bookings and contracts, as a function on the tables.

    A call first reads and checks (`Read`) and, when the checks pass, hands a plan of writes to one transaction
    (`Commit`). Nothing locks the rows in between, so the plan carries what was read. `Apply` runs the two parts back
    to back. Calls that are a single transaction or statement have no read part and appear in `ApplyWhole`. */
module Lifecycle {
  import opened Models
  import Calendar

  datatype Call =
    | AddKost(kost: Id, owner: Id, standing: KostStatus)
    | JudgeKost(kost: Id, standing: KostStatus)
    | CreateRoom(owner: Id, kost: Id, room: Id, initial: Option<RoomStatus>)
    | UpdateRoom(owner: Id, room: Id, wanted: Option<RoomStatus>)
    | DeleteRoom(owner: Id, room: Id)
    | CreateBooking(tenant: Id, room: Id, survey: Option<Time>, booking: Id, now: Time, hold: int)
    | Cancel(tenant: Id, booking: Id)
    | MarkProcessing(owner: Id, booking: Id)
    | Approve(owner: Id, booking: Id, contract: Id, start: Calendar.Date, months: int, now: Time, at: Time)
    | Reject(owner: Id, booking: Id, reason: string, at: Time)
    | EndContract(owner: Id, contract: Id, at: Time)
    | Sweep(now: Time)
  {
    /** A single transaction or statement. What is read before it, the kost of a new room, never changes in what
        matters, its owner. */
    predicate Whole() {
      AddKost? || JudgeKost? || CreateRoom? || CreateBooking? || Sweep?
    }
  }

  /** The writes a call has decided on; `room` is the room whose row, bookings or contracts they touch. */
  datatype Plan =
    | SetCancelled(booking: Id, room: Id)
    | SetProcessing(booking: Id, room: Id)
    | SaveApproval(booking: Id, decided: Booking, contract: Id, signed: Contract, room: Id)
    | SaveRejection(booking: Id, decided: Booking, room: Id)
    | SaveEnding(contract: Id, ended: Contract, room: Id)
    | SaveRoom(room: Id, saved: Room)
    | RemoveRoom(room: Id)

  datatype Reading = Go(plan: Plan) | Stop(outcome: Outcome)

  datatype Reply = Reply(db: Tables, outcome: Outcome)

  // ----- Reading and checking -----

  function OwnerOf(db: Tables, room: Id): Option<Id> {
    if room in db.rooms && db.rooms[room].kost in db.kosts then Some(db.kosts[db.rooms[room].kost].owner) else None
  }

  function Read(db: Tables, call: Call): Reading {
    match call
    case Cancel(tenant, id) => ReadCancel(db, tenant, id)
    case MarkProcessing(owner, id) => ReadMarkProcessing(db, owner, id)
    case Approve(owner, id, contract, start, months, now, at) =>
      ReadApprove(db, owner, id, contract, start, months, now, at)
    case Reject(owner, id, reason, at) => ReadReject(db, owner, id, reason, at)
    case EndContract(owner, id, at) => ReadEndContract(db, owner, id, at)
    case UpdateRoom(owner, id, wanted) => ReadUpdateRoom(db, owner, id, wanted)
    case DeleteRoom(owner, id) => ReadDeleteRoom(db, owner, id)
    case _ => Stop(Internal)
  }

  function ReadCancel(db: Tables, tenant: Id, id: Id): Reading {
    if id !in db.bookings || db.bookings[id].tenant != tenant then Stop(NotFound)
    else if !db.bookings[id].status.Pending? then Stop(Invalid)
    else Go(SetCancelled(id, db.bookings[id].room))
  }

  /** The lookup shared by the owner's decisions: the booking, provided its kost belongs to the caller. */
  predicate OwnsBooking(db: Tables, owner: Id, id: Id) {
    id in db.bookings && OwnerOf(db, db.bookings[id].room) == Some(owner)
  }

  function ReadMarkProcessing(db: Tables, owner: Id, id: Id): Reading {
    if !OwnsBooking(db, owner, id) then Stop(NotFound)
    else if !db.bookings[id].status.Pending? then Stop(Invalid)
    else Go(SetProcessing(id, db.bookings[id].room))
  }

  function ReadApprove(db: Tables, owner: Id, id: Id, contract: Id, start: Calendar.Date, months: int,
                       now: Time, at: Time): Reading
  {
    if !OwnsBooking(db, owner, id) then Stop(NotFound)
    else
      var b := db.bookings[id];
      if !b.status.Live() || b.expiresAt < now then Stop(Invalid)
      else
        var signed := Contract(id, b.room, b.tenant, Calendar.DayNumber(start.month, start.day),
                               Calendar.EndDay(start, months), Active, None, None);
        Go(SaveApproval(id, b.(status := Approved, decidedBy := Some(owner), decidedAt := Some(at)),
                        contract, signed, b.room))
  }

  function ReadReject(db: Tables, owner: Id, id: Id, reason: string, at: Time): Reading {
    if !OwnsBooking(db, owner, id) then Stop(NotFound)
    else
      var b := db.bookings[id];
      if !b.status.Pending? then Stop(Invalid)
      else Go(SaveRejection(id, b.(status := Rejected, rejectReason := Some(reason), decidedBy := Some(owner),
                                   decidedAt := Some(at)), b.room))
  }

  function ReadEndContract(db: Tables, owner: Id, id: Id, at: Time): Reading {
    if id !in db.contracts then Stop(NotFound)
    else
      var c := db.contracts[id];
      if !c.status.Active? then Stop(Invalid)
      else if OwnerOf(db, c.room).None? then Stop(Internal)
      else if OwnerOf(db, c.room) != Some(owner) then Stop(NotFound)
      else Go(SaveEnding(id, c.(status := Ended, endedBy := Some(owner), endedAt := Some(at)), c.room))
  }

  /** Whether an owner may set a room that reads `current` to `wanted`. */
  predicate StatusEditAllowed(current: RoomStatus, wanted: RoomStatus) {
    match current
    case Available => true
    case Maintenance => wanted.Available?
    case Reserved => wanted.Reserved? || wanted.Occupied?
    case Occupied => wanted.Reserved? || wanted.Occupied?
  }

  function ReadUpdateRoom(db: Tables, owner: Id, id: Id, wanted: Option<RoomStatus>): Reading {
    if id !in db.rooms then Stop(NotFound)
    else if OwnerOf(db, id).None? then Stop(Internal)
    else if OwnerOf(db, id) != Some(owner) then Stop(NotFound)
    else if wanted.None? then Go(SaveRoom(id, db.rooms[id]))
    else if !StatusEditAllowed(db.rooms[id].status, wanted.value) then Stop(Invalid)
    else Go(SaveRoom(id, db.rooms[id].(status := wanted.value)))
  }

  function ActiveContracts(db: Tables, room: Id): set<Id> {
    set c | c in db.contracts && db.contracts[c].room == room && db.contracts[c].status.Active?
  }

  function LiveBookings(db: Tables, room: Id): set<Id> {
    set b | b in db.bookings && db.bookings[b].room == room && db.bookings[b].status.Live()
  }

  function ReadDeleteRoom(db: Tables, owner: Id, id: Id): Reading {
    if id !in db.rooms then Stop(NotFound)
    else if OwnerOf(db, id).None? then Stop(Internal)
    else if OwnerOf(db, id) != Some(owner) then Stop(NotFound)
    else if !db.rooms[id].status.Available? then Stop(Invalid)
    else if ActiveContracts(db, id) != {} then Stop(Conflict)
    else Go(RemoveRoom(id))
  }

  // ----- Writing -----

  function SetRoom(rooms: map<Id, Room>, id: Id, status: RoomStatus): map<Id, Room> {
    if id in rooms then rooms[id := rooms[id].(status := status)] else rooms
  }

  /** `UPDATE rooms SET status = 'available' WHERE id = ? AND status = 'reserved'`. */
  function FreeIfReserved(rooms: map<Id, Room>, id: Id): map<Id, Room> {
    if id in rooms && rooms[id].status.Reserved? then SetRoom(rooms, id, Available) else rooms
  }

  /** `UPDATE bookings SET status = ? WHERE id = ? AND status = 'pending'`. */
  function MoveIfPending(bookings: map<Id, Booking>, id: Id, status: BookingStatus): map<Id, Booking> {
    if id in bookings && bookings[id].status.Pending? then bookings[id := bookings[id].(status := status)]
    else bookings
  }

  /** The unique index on a contract's booking. */
  predicate HasContract(db: Tables, booking: Id) {
    exists c :: c in db.contracts && db.contracts[c].booking == booking
  }

  function Commit(db: Tables, plan: Plan): Reply {
    match plan
    case SetCancelled(id, room) =>
      Reply(db.(bookings := MoveIfPending(db.bookings, id, Cancelled), rooms := FreeIfReserved(db.rooms, room)), Done)
    case SetProcessing(id, _) =>
      Reply(db.(bookings := MoveIfPending(db.bookings, id, Processing)), Done)
    case SaveApproval(id, decided, contract, signed, room) =>
      if signed.endDay <= signed.startDay then Reply(db, Internal)
      else if contract in db.contracts || HasContract(db, id) then Reply(db, Conflict)
      else if id !in db.bookings || room !in db.rooms then Reply(db, Internal)
      else Reply(db.(contracts := db.contracts[contract := signed], bookings := db.bookings[id := decided],
                     rooms := SetRoom(db.rooms, room, Occupied)), Done)
    case SaveRejection(id, decided, room) =>
      Reply(db.(bookings := db.bookings[id := decided], rooms := FreeIfReserved(db.rooms, room)), Done)
    case SaveEnding(id, ended, room) =>
      Reply(db.(contracts := db.contracts[id := ended], rooms := SetRoom(db.rooms, room, Available)), Done)
    case SaveRoom(id, saved) =>
      Reply(db.(rooms := db.rooms[id := saved]), Done)
    case RemoveRoom(id) =>
      Reply(Cascade(db, id), Done)
  }

  /** Deleting a room deletes its bookings and contracts with it. */
  function Cascade(db: Tables, room: Id): Tables {
    db.(rooms := db.rooms - {room},
        bookings := map b | b in db.bookings && db.bookings[b].room != room :: db.bookings[b],
        contracts := map c | c in db.contracts && db.contracts[c].room != room :: db.contracts[c])
  }

  // ----- Calls that are one transaction -----

  /** The partial unique index on pending bookings. */
  predicate HasPending(db: Tables, room: Id) {
    exists b :: b in db.bookings && db.bookings[b].room == room && db.bookings[b].status.Pending?
  }

  function Book(db: Tables, tenant: Id, room: Id, surveyDay: int, id: Id, now: Time, hold: int): Reply {
    if room !in db.rooms then Reply(db, NotFound)
    else if !db.rooms[room].status.Available? then Reply(db, Conflict)
    else if db.rooms[room].kost !in db.kosts || !db.kosts[db.rooms[room].kost].status.KostVerified? then
      Reply(db, NotFound)
    else if id in db.bookings || HasPending(db, room) then Reply(db, Conflict)
    else
      var b := Booking(room, tenant, Pending, surveyDay, now, now + hold, None, None, None);
      Reply(db.(bookings := db.bookings[id := b], rooms := SetRoom(db.rooms, room, Reserved)), Done)
  }

  predicate Overdue(b: Booking, now: Time) {
    b.status.Live() && b.expiresAt <= now
  }

  function OverdueBookings(db: Tables, now: Time): set<Id> {
    set b | b in db.bookings && Overdue(db.bookings[b], now)
  }

  /** The rooms the sweep moves back to available; their number is what it returns. */
  function FreedRooms(db: Tables, now: Time): set<Id> {
    var rooms := set b | b in OverdueBookings(db, now) :: db.bookings[b].room;
    set r | r in db.rooms && db.rooms[r].status.Reserved? && r in rooms
  }

  /** The expiry statement: all of its parts see the tables as they were before it. */
  function Expire(db: Tables, now: Time): Tables {
    db.(bookings := map b | b in db.bookings ::
          if Overdue(db.bookings[b], now) then db.bookings[b].(status := Expired) else db.bookings[b],
        rooms := map r | r in db.rooms ::
          if r in FreedRooms(db, now) then db.rooms[r].(status := Available) else db.rooms[r])
  }

  function ApplyWhole(db: Tables, call: Call): Reply
    requires call.Whole()
  {
    match call
    case AddKost(kost, owner, standing) =>
      if kost in db.kosts then Reply(db, Internal)
      else Reply(db.(kosts := db.kosts[kost := Kost(owner, standing)]), Done)
    case JudgeKost(kost, standing) =>
      if kost !in db.kosts then Reply(db, NotFound)
      else Reply(db.(kosts := db.kosts[kost := db.kosts[kost].(status := standing)]), Done)
    case CreateRoom(owner, kost, room, initial) =>
      if kost !in db.kosts || db.kosts[kost].owner != owner then Reply(db, NotFound)
      else if room in db.rooms then Reply(db, Conflict)
      else
        var status := if initial.Some? then initial.value else Available;
        Reply(db.(rooms := db.rooms[room := Room(kost, status)]), Done)
    case CreateBooking(tenant, room, survey, id, now, hold) =>
      if survey.None? || !Calendar.SurveyAccepted(now, survey.value) then Reply(db, Invalid)
      else Book(db, tenant, room, Calendar.UtcDay(survey.value), id, now, hold)
    case Sweep(now) => Reply(Expire(db, now), Done)
  }

  // ----- Runs -----

  function Apply(db: Tables, call: Call): Reply {
    if call.Whole() then ApplyWhole(db, call)
    else
      match Read(db, call)
      case Go(plan) => Commit(db, plan)
      case Stop(outcome) => Reply(db, outcome)
  }

  function Run(db: Tables, calls: seq<Call>): Tables
    decreases |calls|
  {
    if calls == [] then db else Apply(Run(db, calls[..|calls| - 1]), calls[|calls| - 1]).db
  }

  lemma {:induction false} RunConcat(db: Tables, first: seq<Call>, second: seq<Call>)
    ensures Run(db, first + second) == Run(Run(db, first), second)
    decreases |second|
  {
    if second == [] {
      assert first + second == first;
    } else {
      var init := second[..|second| - 1];
      assert (first + second)[..|first + second| - 1] == first + init;
      RunConcat(db, first, init);
    }
  }
}
