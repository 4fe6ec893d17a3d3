/** The owner's dashboard numbers, and what the holders of rooms imply about them. */
module OwnerStats {
  import opened Models
  import opened Lifecycle
  import opened OneHolder
  import opened Availability
  import opened Sets
  import Effects

  datatype Stats = Stats(
    totalRooms: nat,
    occupied: nat,
    available: nat,
    reserved: nat,
    pendingBookings: nat,
    activeContracts: nat,
    occupancyRate: real)

  predicate Owns(db: Tables, owner: Id, room: Id) {
    OwnerOf(db, room) == Some(owner)
  }

  function RoomsOf(db: Tables, owner: Id): set<Id> {
    set r | r in db.rooms && Owns(db, owner, r)
  }

  function RoomsWith(db: Tables, owner: Id, status: RoomStatus): set<Id> {
    set r | r in db.rooms && Owns(db, owner, r) && db.rooms[r].status == status
  }

  function BookingsWith(db: Tables, owner: Id, status: BookingStatus): set<Id> {
    set b | b in db.bookings && Owns(db, owner, db.bookings[b].room) && db.bookings[b].status == status
  }

  function ActiveOf(db: Tables, owner: Id): set<Id> {
    set c | c in db.contracts && Owns(db, owner, db.contracts[c].room) && db.contracts[c].status.Active?
  }

  function StatsOf(db: Tables, owner: Id): Stats {
    var total, occupied := |RoomsOf(db, owner)|, |RoomsWith(db, owner, Occupied)|;
    Stats(total, occupied, |RoomsWith(db, owner, Available)|, |RoomsWith(db, owner, Reserved)|,
          |BookingsWith(db, owner, Pending)|, |ActiveOf(db, owner)|,
          if total > 0 then occupied as real / total as real * 100.0 else 0.0)
  }

  /** The numbers count what the database holds on the owner's kosts, and the rate is the share of occupied rooms in
      per cent. */
  lemma StatsEffect(db: Tables, owner: Id)
    ensures var stats := StatsOf(db, owner);
            && stats.totalRooms == |set r | r in db.rooms && Effects.OwnsRoom(db, owner, r)|
            && stats.occupied ==
               |set r | r in db.rooms && Effects.OwnsRoom(db, owner, r) && db.rooms[r].status.Occupied?|
            && stats.available ==
               |set r | r in db.rooms && Effects.OwnsRoom(db, owner, r) && db.rooms[r].status.Available?|
            && stats.reserved ==
               |set r | r in db.rooms && Effects.OwnsRoom(db, owner, r) && db.rooms[r].status.Reserved?|
            && stats.pendingBookings ==
               |set b | b in db.bookings && Effects.Decides(db, owner, b) && db.bookings[b].status.Pending?|
            && stats.activeContracts ==
               |set c | c in db.contracts && Effects.OwnsRoom(db, owner, db.contracts[c].room)
                        && db.contracts[c].status.Active?|
            && (stats.totalRooms > 0 ==>
                  stats.occupancyRate * stats.totalRooms as real == 100.0 * stats.occupied as real)
            && (stats.totalRooms == 0 ==> stats.occupancyRate == 0.0)
  {
    assert RoomsOf(db, owner) == set r | r in db.rooms && Effects.OwnsRoom(db, owner, r);
    assert RoomsWith(db, owner, Occupied) ==
           set r | r in db.rooms && Effects.OwnsRoom(db, owner, r) && db.rooms[r].status.Occupied?;
    assert RoomsWith(db, owner, Available) ==
           set r | r in db.rooms && Effects.OwnsRoom(db, owner, r) && db.rooms[r].status.Available?;
    assert RoomsWith(db, owner, Reserved) ==
           set r | r in db.rooms && Effects.OwnsRoom(db, owner, r) && db.rooms[r].status.Reserved?;
    assert BookingsWith(db, owner, Pending) ==
           set b | b in db.bookings && Effects.Decides(db, owner, b) && db.bookings[b].status.Pending?;
    assert ActiveOf(db, owner) ==
           set c | c in db.contracts && Effects.OwnsRoom(db, owner, db.contracts[c].room)
                   && db.contracts[c].status.Active?;
    hide RoomsOf, RoomsWith, BookingsWith, ActiveOf;
    var total, occupied := |RoomsOf(db, owner)| as real, |RoomsWith(db, owner, Occupied)| as real;
    assert total > 0.0 ==> occupied / total * 100.0 * total == 100.0 * occupied;
  }

  /** The owner's live bookings, each with its room, and the active contracts, each with its room. */
  function LiveRooms(db: Tables, owner: Id): map<Id, Id> {
    map b | b in BookingsWith(db, owner, Pending) + BookingsWith(db, owner, Processing) :: db.bookings[b].room
  }

  function ActiveRooms(db: Tables, owner: Id): map<Id, Id> {
    map c | c in ActiveOf(db, owner) :: db.contracts[c].room
  }

  lemma LiveHold(db: Tables, owner: Id, b: Id)
    requires SingleHolder(db) && b in LiveRooms(db, owner)
    ensures Holds(db, ByBooking(b), LiveRooms(db, owner)[b])
    ensures LiveRooms(db, owner)[b] in RoomsWith(db, owner, Reserved) + RoomsWith(db, owner, Occupied)
  {
    assert Holds(db, ByBooking(b), db.bookings[b].room);
  }

  lemma ActiveHold(db: Tables, owner: Id, c: Id)
    requires SingleHolder(db) && c in ActiveRooms(db, owner)
    ensures Holds(db, ByContract(c), ActiveRooms(db, owner)[c])
    ensures ActiveRooms(db, owner)[c] in RoomsWith(db, owner, Reserved) + RoomsWith(db, owner, Occupied)
  {
    assert Holds(db, ByContract(c), db.contracts[c].room);
  }

  lemma HoldersFit(db: Tables, live: map<Id, Id>, active: map<Id, Id>, busy: set<Id>)
    requires SingleHolder(db)
    requires forall b :: b in live ==> Holds(db, ByBooking(b), live[b]) && live[b] in busy
    requires forall c :: c in active ==> Holds(db, ByContract(c), active[c]) && active[c] in busy
    ensures |live.Values| == |live| && |active.Values| == |active|
    ensures live.Values !! active.Values && live.Values + active.Values <= busy
  {
    hide Holds;
    InjectionCounts(live);
    InjectionCounts(active);
  }

  /** Live bookings and active contracts inject, disjointly, into the owner's busy rooms. */
  lemma HoldersInject(db: Tables, owner: Id)
    requires SingleHolder(db)
    ensures |LiveRooms(db, owner).Values| == |LiveRooms(db, owner)|
    ensures |ActiveRooms(db, owner).Values| == |ActiveRooms(db, owner)|
    ensures LiveRooms(db, owner).Values !! ActiveRooms(db, owner).Values
    ensures LiveRooms(db, owner).Values + ActiveRooms(db, owner).Values
            <= RoomsWith(db, owner, Reserved) + RoomsWith(db, owner, Occupied)
  {
    var live, active := LiveRooms(db, owner), ActiveRooms(db, owner);
    forall b | b in live
      ensures Holds(db, ByBooking(b), live[b])
      ensures live[b] in RoomsWith(db, owner, Reserved) + RoomsWith(db, owner, Occupied)
    {
      LiveHold(db, owner, b);
    }
    forall c | c in active
      ensures Holds(db, ByContract(c), active[c])
      ensures active[c] in RoomsWith(db, owner, Reserved) + RoomsWith(db, owner, Occupied)
    {
      ActiveHold(db, owner, c);
    }
    hide LiveRooms, ActiveRooms, RoomsWith, Holds;
    HoldersFit(db, live, active, RoomsWith(db, owner, Reserved) + RoomsWith(db, owner, Occupied));
  }

  lemma BusyRoomsCount(db: Tables, owner: Id)
    ensures |RoomsWith(db, owner, Reserved) + RoomsWith(db, owner, Occupied)|
            == |RoomsWith(db, owner, Reserved)| + |RoomsWith(db, owner, Occupied)|
    ensures |RoomsWith(db, owner, Reserved)| + |RoomsWith(db, owner, Occupied)| + |RoomsWith(db, owner, Available)|
            <= |RoomsOf(db, owner)|
  {
    var reserved, occupied := RoomsWith(db, owner, Reserved), RoomsWith(db, owner, Occupied);
    var available := RoomsWith(db, owner, Available);
    assert reserved !! occupied && reserved + occupied !! available;
    SubsetCounts(reserved + occupied + available, RoomsOf(db, owner));
  }

  lemma LiveCount(db: Tables, owner: Id)
    ensures |LiveRooms(db, owner)| == |BookingsWith(db, owner, Pending)| + |BookingsWith(db, owner, Processing)|
    ensures |ActiveRooms(db, owner)| == |ActiveOf(db, owner)|
  {
    var pending, processing := BookingsWith(db, owner, Pending), BookingsWith(db, owner, Processing);
    assert pending !! processing;
    assert LiveRooms(db, owner).Keys == pending + processing;
    assert ActiveRooms(db, owner).Keys == ActiveOf(db, owner);
  }

  lemma HoldersFitRooms(db: Tables, owner: Id)
    requires SingleHolder(db)
    ensures |BookingsWith(db, owner, Pending)| + |BookingsWith(db, owner, Processing)| + |ActiveOf(db, owner)|
            <= |RoomsWith(db, owner, Reserved)| + |RoomsWith(db, owner, Occupied)|
    ensures |RoomsWith(db, owner, Reserved)| + |RoomsWith(db, owner, Occupied)| + |RoomsWith(db, owner, Available)|
            <= |RoomsOf(db, owner)|
  {
    hide LiveRooms, ActiveRooms, RoomsWith, RoomsOf, BookingsWith, ActiveOf, SingleHolder;
    HoldersInject(db, owner);
    BusyRoomsCount(db, owner);
    LiveCount(db, owner);
    var images := LiveRooms(db, owner).Values + ActiveRooms(db, owner).Values;
    assert |images| == |LiveRooms(db, owner).Values| + |ActiveRooms(db, owner).Values|;
    SubsetCounts(images, RoomsWith(db, owner, Reserved) + RoomsWith(db, owner, Occupied));
  }

  /** In every state that calls reach, bookings under way and active contracts together are no more than the reserved
      and occupied rooms, which with the available ones are no more than all rooms. */
  lemma Conservation(calls: seq<Call>, owner: Id)
    ensures var db := Run(EMPTY_TABLES, calls);
            var stats := StatsOf(db, owner);
            && stats.pendingBookings + |BookingsWith(db, owner, Processing)| + stats.activeContracts
               <= stats.reserved + stats.occupied
            && stats.reserved + stats.occupied + stats.available <= stats.totalRooms
            && 0.0 <= stats.occupancyRate <= 100.0
  {
    var db := Run(EMPTY_TABLES, calls);
    RunKeeps(EMPTY_TABLES, calls);
    HoldersFitRooms(db, owner);
    hide RoomsWith, RoomsOf, BookingsWith, ActiveOf, Run, Inv;
    if |RoomsOf(db, owner)| > 0 {
      Percentage(|RoomsWith(db, owner, Occupied)|, |RoomsOf(db, owner)|);
    }
  }

  lemma Percentage(part: nat, whole: nat)
    requires part <= whole && whole > 0
    ensures 0.0 <= part as real / whole as real * 100.0 <= 100.0
  {
    var p, w := part as real, whole as real;
    assert 0.0 <= p <= w;
    assert p / w * w == p;
    assert 0.0 <= p / w <= 1.0;
  }

  lemma RoomHeldExactly(db: Tables, owner: Id, room: Id)
    requires Inv(db) && Exact(db)
    ensures room in LiveRooms(db, owner).Values <==> room in RoomsWith(db, owner, Reserved)
    ensures room in ActiveRooms(db, owner).Values <==> room in RoomsWith(db, owner, Occupied)
  {
    var live, active := LiveRooms(db, owner), ActiveRooms(db, owner);
    assert ExactRoom(db, room);
    if room in live.Values {
      var b :| b in live && live[b] == room;
      assert b in LiveBookings(db, room);
    }
    if room in active.Values {
      var c :| c in active && active[c] == room;
      assert c in ActiveContracts(db, room);
    }
    if room in RoomsWith(db, owner, Reserved) {
      var b :| b in LiveBookings(db, room);
      assert b in live && live[b] == room;
    }
    if room in RoomsWith(db, owner, Occupied) {
      var c :| c in ActiveContracts(db, room);
      assert c in active && active[c] == room;
    }
  }

  lemma RoomsHeldExactly(db: Tables, owner: Id)
    requires Inv(db) && Exact(db)
    ensures LiveRooms(db, owner).Values == RoomsWith(db, owner, Reserved)
    ensures ActiveRooms(db, owner).Values == RoomsWith(db, owner, Occupied)
  {
    hide LiveRooms, ActiveRooms, RoomsWith, Inv, Exact;
    forall r ensures (r in LiveRooms(db, owner).Values <==> r in RoomsWith(db, owner, Reserved))
                     && (r in ActiveRooms(db, owner).Values <==> r in RoomsWith(db, owner, Occupied))
    {
      RoomHeldExactly(db, owner, r);
    }
  }

  /** If moreover owners leave "reserved" and "occupied" to the booking flow, the numbers agree exactly: as many
      reserved rooms as live bookings, and as many occupied rooms as active contracts. */
  lemma ExactConservation(calls: seq<Call>, owner: Id)
    requires forall i :: 0 <= i < |calls| ==> Disciplined(calls[i])
    ensures var db := Run(EMPTY_TABLES, calls);
            var stats := StatsOf(db, owner);
            && stats.reserved == stats.pendingBookings + |BookingsWith(db, owner, Processing)|
            && stats.occupied == stats.activeContracts
  {
    RunExact(calls);
    var db := Run(EMPTY_TABLES, calls);
    hide LiveRooms, ActiveRooms, RoomsWith, RoomsOf, BookingsWith, ActiveOf, Run, Exact, Linked, SingleHolder;
    HoldersInject(db, owner);
    LiveCount(db, owner);
    RoomsHeldExactly(db, owner);
  }
}
