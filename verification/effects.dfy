/** What every booking, contract and room call answers, and what it does: stated on the tables before and after it, apart
    from how the handlers find it out. */
module Effects {
  import opened Models
  import opened Lifecycle
  import Calendar

  // ----- Words for the specifications -----

  ghost predicate KostKnown(db: Tables, room: Id) {
    room in db.rooms && db.rooms[room].kost in db.kosts
  }

  ghost predicate OwnsRoom(db: Tables, owner: Id, room: Id) {
    KostKnown(db, room) && db.kosts[db.rooms[room].kost].owner == owner
  }

  ghost predicate Decides(db: Tables, owner: Id, booking: Id) {
    booking in db.bookings && OwnsRoom(db, owner, db.bookings[booking].room)
  }

  /** Only the status of `room` changes, and where `from` names a status, only if it was that. */
  ghost predicate RoomMoves(db: Tables, after: Tables, room: Id, from: Option<RoomStatus>, to: RoomStatus) {
    && after.rooms.Keys == db.rooms.Keys
    && forall r :: r in db.rooms ==>
         after.rooms[r] == if r == room && (from == None || from == Some(db.rooms[r].status))
                           then Room(db.rooms[r].kost, to) else db.rooms[r]
  }

  /** The instant lies on the day of this number, in UTC. */
  ghost predicate OnDay(t: Time, day: int) {
    var length := 24 * 60 * 60 * 1_000_000_000;
    day * length <= t < (day + 1) * length
  }

  /** The survey is today or on one of the five days after it. */
  ghost predicate InWindow(now: Time, survey: Option<Time>) {
    survey.Some? && exists today, day :: OnDay(now, today) && OnDay(survey.value, day) && today <= day <= today + 5
  }

  // ----- Bookings -----

  ghost predicate PendingOn(db: Tables, room: Id) {
    exists b :: b in db.bookings && db.bookings[b].room == room && db.bookings[b].status == Pending
  }

  ghost predicate Lettable(db: Tables, room: Id) {
    KostKnown(db, room) && db.kosts[db.rooms[room].kost].status == KostVerified
  }

  ghost predicate BookSpec(db: Tables, tenant: Id, room: Id, survey: Option<Time>, id: Id, now: Time, hold: int,
                           reply: Reply)
  {
    var available := room in db.rooms && db.rooms[room].status == Available;
    var taken := id in db.bookings || PendingOn(db, room);
    && (reply.outcome == Invalid <==> !InWindow(now, survey))
    && (reply.outcome == NotFound <==>
          InWindow(now, survey) && (room !in db.rooms || (available && !Lettable(db, room))))
    && (reply.outcome == Conflict <==>
          InWindow(now, survey) && room in db.rooms && (!available || (Lettable(db, room) && taken)))
    && (reply.outcome == Done <==> InWindow(now, survey) && available && Lettable(db, room) && !taken)
    && if reply.outcome != Done then reply.db == db
       else
         && reply.db == db.(bookings := reply.db.bookings, rooms := reply.db.rooms)
         && id in reply.db.bookings
         && reply.db.bookings == db.bookings[id := reply.db.bookings[id]]
         && var b := reply.db.bookings[id];
         && b.room == room && b.tenant == tenant && b.status == Pending && OnDay(survey.value, b.surveyDay)
         && b.createdAt == now && b.expiresAt - now == hold
         && b.rejectReason == None && b.decidedBy == None && b.decidedAt == None
         && RoomMoves(db, reply.db, room, Some(Available), Reserved)
  }

  lemma OneDay(t: Time, day: int)
    ensures OnDay(t, day) <==> day == Calendar.UtcDay(t)
  {
  }

  lemma WindowIsAccepted(now: Time, survey: Time)
    ensures InWindow(now, Some(survey)) <==> Calendar.SurveyAccepted(now, survey)
  {
    OneDay(now, Calendar.UtcDay(now));
    OneDay(survey, Calendar.UtcDay(survey));
    if InWindow(now, Some(survey)) {
      var today, day :| OnDay(now, today) && OnDay(survey, day) && today <= day <= today + 5;
      OneDay(now, today);
      OneDay(survey, day);
    }
  }

  /** A booking is refused as invalid outside the window, then by the first obstacle; otherwise it adds one pending row,
      with the day of the survey and the time of its expiry, and reserves the room. */
  lemma BookEffect(db: Tables, tenant: Id, room: Id, survey: Option<Time>, id: Id, now: Time, hold: int)
    ensures BookSpec(db, tenant, room, survey, id, now, hold,
                     Apply(db, CreateBooking(tenant, room, survey, id, now, hold)))
  {
    if survey.Some? {
      WindowIsAccepted(now, survey.value);
      OneDay(survey.value, Calendar.UtcDay(survey.value));
    }
    hide InWindow, OnDay, Calendar.SurveyAccepted, Calendar.UtcDay;
  }

  ghost predicate CancelSpec(db: Tables, tenant: Id, id: Id, reply: Reply) {
    var own := id in db.bookings && db.bookings[id].tenant == tenant;
    && (reply.outcome == NotFound <==> !own)
    && (reply.outcome == Invalid <==> own && db.bookings[id].status != Pending)
    && (reply.outcome == Done <==> own && db.bookings[id].status == Pending)
    && if reply.outcome != Done then reply.db == db
       else
         && reply.db == db.(bookings := db.bookings[id := db.bookings[id].(status := Cancelled)],
                            rooms := reply.db.rooms)
         && RoomMoves(db, reply.db, db.bookings[id].room, Some(Reserved), Available)
  }

  /** Only the tenant cancels, and only a pending booking; its room becomes available if it was reserved. */
  lemma CancelEffect(db: Tables, tenant: Id, id: Id)
    ensures CancelSpec(db, tenant, id, Apply(db, Cancel(tenant, id)))
  {
  }

  ghost predicate MarkSpec(db: Tables, owner: Id, id: Id, reply: Reply) {
    && (reply.outcome == NotFound <==> !Decides(db, owner, id))
    && (reply.outcome == Invalid <==> Decides(db, owner, id) && db.bookings[id].status != Pending)
    && (reply.outcome == Done <==> Decides(db, owner, id) && db.bookings[id].status == Pending)
    && reply.db == if reply.outcome != Done then db
                   else db.(bookings := db.bookings[id := db.bookings[id].(status := Processing)])
  }

  /** Only the kost's owner marks, and only a pending booking; nothing else changes. */
  lemma MarkEffect(db: Tables, owner: Id, id: Id)
    ensures MarkSpec(db, owner, id, Apply(db, MarkProcessing(owner, id)))
  {
  }

  ghost predicate RejectSpec(db: Tables, owner: Id, id: Id, reason: string, at: Time, reply: Reply) {
    && (reply.outcome == NotFound <==> !Decides(db, owner, id))
    && (reply.outcome == Invalid <==> Decides(db, owner, id) && db.bookings[id].status != Pending)
    && (reply.outcome == Done <==> Decides(db, owner, id) && db.bookings[id].status == Pending)
    && if reply.outcome != Done then reply.db == db
       else
         && var b := db.bookings[id].(status := Rejected, rejectReason := Some(reason), decidedBy := Some(owner),
                                      decidedAt := Some(at));
         && reply.db == db.(bookings := db.bookings[id := b], rooms := reply.db.rooms)
         && RoomMoves(db, reply.db, b.room, Some(Reserved), Available)
  }

  /** Only the kost's owner rejects, and only a pending booking; its room becomes available if it was reserved. */
  lemma RejectEffect(db: Tables, owner: Id, id: Id, reason: string, at: Time)
    ensures RejectSpec(db, owner, id, reason, at, Apply(db, Reject(owner, id, reason, at)))
  {
  }

  // ----- Contracts -----

  ghost predicate Approvable(b: Booking, now: Time) {
    (b.status == Pending || b.status == Processing) && now <= b.expiresAt
  }

  ghost predicate Signed(db: Tables, contract: Id, booking: Id) {
    contract in db.contracts || exists c :: c in db.contracts && db.contracts[c].booking == booking
  }

  /** The contract of a booking: it lasts `months` calendar months, counted from the start's month. */
  ghost predicate SignedRow(c: Contract, booking: Id, b: Booking, start: Calendar.Date, months: int)
    requires months >= 1
  {
    && c.booking == booking && c.room == b.room && c.tenant == b.tenant
    && c.startDay == Calendar.DayNumber(start.month, start.day)
    && c.endDay - c.startDay == Calendar.SumOfLengths(start.month, months)
    && c.status == Active && c.endedBy == None && c.endedAt == None
  }

  ghost predicate ApproveAnswer(db: Tables, owner: Id, id: Id, contract: Id, months: int, now: Time, outcome: Outcome) {
    var ready := Decides(db, owner, id) && Approvable(db.bookings[id], now);
    && (outcome == NotFound <==> !Decides(db, owner, id))
    && (outcome == Invalid <==> Decides(db, owner, id) && !Approvable(db.bookings[id], now))
    && (outcome == Internal <==> ready && months < 1)
    && (outcome == Conflict <==> ready && months >= 1 && Signed(db, contract, id))
    && (outcome == Done <==> ready && months >= 1 && !Signed(db, contract, id))
  }

  ghost predicate ApproveTables(db: Tables, owner: Id, id: Id, contract: Id, start: Calendar.Date, months: int, at: Time,
                                after: Tables)
    requires id in db.bookings && months >= 1
  {
    var b := db.bookings[id].(status := Approved, decidedBy := Some(owner), decidedAt := Some(at));
    && after == db.(bookings := db.bookings[id := b], contracts := after.contracts, rooms := after.rooms)
    && contract in after.contracts && after.contracts == db.contracts[contract := after.contracts[contract]]
    && SignedRow(after.contracts[contract], id, db.bookings[id], start, months)
    && RoomMoves(db, after, b.room, None, Occupied)
  }

  ghost predicate ApproveSpec(db: Tables, owner: Id, id: Id, contract: Id, start: Calendar.Date, months: int, now: Time,
                              at: Time, reply: Reply)
  {
    && ApproveAnswer(db, owner, id, contract, months, now, reply.outcome)
    && if reply.outcome != Done then reply.db == db
       else ApproveTables(db, owner, id, contract, start, months, at, reply.db)
  }

  lemma ApprovalAnswers(db: Tables, owner: Id, id: Id, contract: Id, start: Calendar.Date, months: int, now: Time,
                        at: Time)
    ensures var reply := Apply(db, Approve(owner, id, contract, start, months, now, at));
            && ApproveAnswer(db, owner, id, contract, months, now, reply.outcome)
            && (reply.outcome != Done ==> reply.db == db)
  {
    Calendar.CheckConstraint(start, months);
    hide Calendar.EndDay, Calendar.DayNumber;
  }

  lemma ApprovalSigns(db: Tables, owner: Id, id: Id, contract: Id, start: Calendar.Date, months: int, now: Time,
                      at: Time)
    requires months >= 1 && Apply(db, Approve(owner, id, contract, start, months, now, at)).outcome == Done
    ensures id in db.bookings
    ensures ApproveTables(db, owner, id, contract, start, months, at,
                          Apply(db, Approve(owner, id, contract, start, months, now, at)).db)
  {
    Calendar.ContractLength(start, months);
    hide Calendar.EndDay, Calendar.DayNumber, Calendar.SumOfLengths;
  }

  /** Only the kost's owner approves, only a booking that is under way and has not expired, and only for a month or
      more. The contract is of that booking and lasts as many calendar months as were asked for. */
  lemma ApproveEffect(db: Tables, owner: Id, id: Id, contract: Id, start: Calendar.Date, months: int, now: Time,
                      at: Time)
    ensures ApproveSpec(db, owner, id, contract, start, months, now, at,
                        Apply(db, Approve(owner, id, contract, start, months, now, at)))
  {
    ApprovalAnswers(db, owner, id, contract, start, months, now, at);
    if Apply(db, Approve(owner, id, contract, start, months, now, at)).outcome == Done {
      hide Apply;
      ApprovalSigns(db, owner, id, contract, start, months, now, at);
      hide ApproveTables;
    }
  }

  ghost predicate EndSpec(db: Tables, owner: Id, id: Id, at: Time, reply: Reply) {
    var active := id in db.contracts && db.contracts[id].status == Active;
    && (reply.outcome == NotFound <==>
          id !in db.contracts
          || (active && KostKnown(db, db.contracts[id].room) && !OwnsRoom(db, owner, db.contracts[id].room)))
    && (reply.outcome == Invalid <==> id in db.contracts && !active)
    && (reply.outcome == Internal <==> active && !KostKnown(db, db.contracts[id].room))
    && (reply.outcome == Done <==> active && OwnsRoom(db, owner, db.contracts[id].room))
    && if reply.outcome != Done then reply.db == db
       else
         && var c := db.contracts[id].(status := Ended, endedBy := Some(owner), endedAt := Some(at));
         && reply.db == db.(contracts := db.contracts[id := c], rooms := reply.db.rooms)
         && RoomMoves(db, reply.db, c.room, None, Available)
  }

  /** Only the kost's owner ends a contract, and only an active one; the room becomes available whatever it was. */
  lemma EndEffect(db: Tables, owner: Id, id: Id, at: Time)
    ensures EndSpec(db, owner, id, at, Apply(db, EndContract(owner, id, at)))
  {
  }

  // ----- Rooms -----

  ghost predicate CreateRoomSpec(db: Tables, owner: Id, kost: Id, room: Id, initial: Option<RoomStatus>, reply: Reply) {
    var own := kost in db.kosts && db.kosts[kost].owner == owner;
    && (reply.outcome == NotFound <==> !own)
    && (reply.outcome == Conflict <==> own && room in db.rooms)
    && (reply.outcome == Done <==> own && room !in db.rooms)
    && if reply.outcome != Done then reply.db == db
       else
         && reply.db == db.(rooms := reply.db.rooms) && room in reply.db.rooms
         && reply.db.rooms == db.rooms[room := reply.db.rooms[room]] && reply.db.rooms[room].kost == kost
         && reply.db.rooms[room].status == match initial { case None => Available case Some(status) => status }
  }

  /** Only the kost's owner adds rooms to it, with any status. */
  lemma CreateRoomEffect(db: Tables, owner: Id, kost: Id, room: Id, initial: Option<RoomStatus>)
    ensures CreateRoomSpec(db, owner, kost, room, initial, Apply(db, CreateRoom(owner, kost, room, initial)))
  {
  }

  /** What an owner may make of a room: anything of an available one, available of one in maintenance, and of a reserved
      or occupied one only the other of the two. */
  ghost predicate MayBecome(current: RoomStatus, wanted: RoomStatus) {
    || current == Available
    || (current == Maintenance && wanted == Available)
    || (current in {Reserved, Occupied} && wanted in {Reserved, Occupied})
  }

  ghost predicate UpdateRoomSpec(db: Tables, owner: Id, id: Id, wanted: Option<RoomStatus>, reply: Reply) {
    var allowed := id in db.rooms && (wanted.Some? ==> MayBecome(db.rooms[id].status, wanted.value));
    && (reply.outcome == NotFound <==> id !in db.rooms || (KostKnown(db, id) && !OwnsRoom(db, owner, id)))
    && (reply.outcome == Internal <==> id in db.rooms && !KostKnown(db, id))
    && (reply.outcome == Invalid <==> OwnsRoom(db, owner, id) && !allowed)
    && (reply.outcome == Done <==> OwnsRoom(db, owner, id) && allowed)
    && if reply.outcome != Done || wanted.None? then reply.db == db
       else
         && reply.db == db.(rooms := reply.db.rooms)
         && RoomMoves(db, reply.db, id, None, wanted.value)
  }

  /** Only the kost's owner edits a room, within what its status allows. */
  lemma UpdateRoomEffect(db: Tables, owner: Id, id: Id, wanted: Option<RoomStatus>)
    ensures UpdateRoomSpec(db, owner, id, wanted, Apply(db, UpdateRoom(owner, id, wanted)))
  {
  }

  ghost predicate ActiveOn(db: Tables, room: Id) {
    exists c :: c in db.contracts && db.contracts[c].room == room && db.contracts[c].status == Active
  }

  lemma ActiveMeans(db: Tables, room: Id)
    ensures ActiveOn(db, room) <==> ActiveContracts(db, room) != {}
  {
    if c :| c in db.contracts && db.contracts[c].room == room && db.contracts[c].status == Active {
      assert c in ActiveContracts(db, room);
    }
  }

  ghost predicate DeleteRoomSpec(db: Tables, owner: Id, id: Id, reply: Reply) {
    var available := OwnsRoom(db, owner, id) && db.rooms[id].status == Available;
    && (reply.outcome == NotFound <==> id !in db.rooms || (KostKnown(db, id) && !OwnsRoom(db, owner, id)))
    && (reply.outcome == Internal <==> id in db.rooms && !KostKnown(db, id))
    && (reply.outcome == Invalid <==> OwnsRoom(db, owner, id) && !available)
    && (reply.outcome == Conflict <==> available && ActiveOn(db, id))
    && (reply.outcome == Done <==> available && !ActiveOn(db, id))
    && if reply.outcome != Done then reply.db == db
       else
         && reply.db.kosts == db.kosts && reply.db.rooms == db.rooms - {id}
         && (forall b :: b in reply.db.bookings <==> b in db.bookings && db.bookings[b].room != id)
         && (forall c :: c in reply.db.contracts <==> c in db.contracts && db.contracts[c].room != id)
         && (forall b :: b in reply.db.bookings ==> reply.db.bookings[b] == db.bookings[b])
         && (forall c :: c in reply.db.contracts ==> reply.db.contracts[c] == db.contracts[c])
  }

  /** Only the kost's owner deletes a room, only an available one without an active contract, and with it go its bookings
      and contracts, and no others. */
  lemma DeleteRoomEffect(db: Tables, owner: Id, id: Id)
    ensures DeleteRoomSpec(db, owner, id, Apply(db, DeleteRoom(owner, id)))
  {
    ActiveMeans(db, id);
    hide ActiveContracts, ActiveOn;
  }

  /** Kosts come with any owner and standing, and only their standing changes afterwards. */
  lemma KostEffect(db: Tables, kost: Id, owner: Id, standing: KostStatus)
    ensures var reply := Apply(db, AddKost(kost, owner, standing));
            if kost in db.kosts then reply == Reply(db, Internal)
            else reply == Reply(db.(kosts := db.kosts[kost := Kost(owner, standing)]), Done)
    ensures var reply := Apply(db, JudgeKost(kost, standing));
            if kost !in db.kosts then reply == Reply(db, NotFound)
            else reply == Reply(db.(kosts := db.kosts[kost := Kost(db.kosts[kost].owner, standing)]), Done)
  {
  }

  // ----- The sweep -----

  ghost predicate Due(b: Booking, now: Time) {
    (b.status == Pending || b.status == Processing) && b.expiresAt <= now
  }

  ghost predicate DueOn(db: Tables, room: Id, now: Time) {
    exists b :: b in db.bookings && db.bookings[b].room == room && Due(db.bookings[b], now)
  }

  ghost predicate SweepSpec(db: Tables, now: Time, after: Tables, freed: nat) {
    && after == db.(bookings := after.bookings, rooms := after.rooms)
    && after.bookings.Keys == db.bookings.Keys && after.rooms.Keys == db.rooms.Keys
    && (forall b :: b in db.bookings ==>
          after.bookings[b] == if Due(db.bookings[b], now) then db.bookings[b].(status := Expired) else db.bookings[b])
    && (forall r :: r in db.rooms ==>
          after.rooms[r] == if db.rooms[r].status == Reserved && DueOn(db, r, now) then Room(db.rooms[r].kost, Available)
                            else db.rooms[r])
    && freed == |set r | r in db.rooms && db.rooms[r].status == Reserved && DueOn(db, r, now)|
  }

  lemma FreedMeans(db: Tables, now: Time, room: Id)
    ensures room in FreedRooms(db, now) <==>
            room in db.rooms && db.rooms[room].status == Reserved && DueOn(db, room, now)
  {
    if room in FreedRooms(db, now) {
      var b :| b in OverdueBookings(db, now) && db.bookings[b].room == room;
      assert Due(db.bookings[b], now);
    }
    if b :| b in db.bookings && db.bookings[b].room == room && Due(db.bookings[b], now) {
      assert b in OverdueBookings(db, now);
    }
  }

  /** The sweep expires the bookings under way whose expiry has come, and no others; it frees the reserved rooms that one
      of them names, and no others; and it returns their number. */
  lemma SweepEffect(db: Tables, now: Time)
    ensures SweepSpec(db, now, Expire(db, now), |FreedRooms(db, now)|)
  {
    forall r ensures r in FreedRooms(db, now) <==>
                     r in db.rooms && db.rooms[r].status == Reserved && DueOn(db, r, now)
    {
      FreedMeans(db, now, r);
    }
    hide FreedRooms, DueOn;
    assert FreedRooms(db, now) == set r | r in db.rooms && db.rooms[r].status == Reserved && DueOn(db, r, now);
  }
}
