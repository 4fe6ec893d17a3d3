/** Requests that overlap: each handler split into its unlocked reading and its later commit. */
module Interleaving {
  import opened Models
  import opened Lifecycle
  import opened OneHolder
  import opened Frames
  import Calendar

  datatype Event =
    | Begin(request: Id, call: Call)   // the handler reads and checks
    | Finish(request: Id)              // its transaction commits
    | OneShot(call: Call)              // a call that is a single transaction

  datatype Open = Open(call: Call, plan: Plan)

  datatype System = System(db: Tables, open: map<Id, Open>)

  const START := System(EMPTY_TABLES, map[])

  function Step(s: System, e: Event): System {
    match e
    case Begin(q, call) =>
      if q in s.open || call.Whole() || Read(s.db, call).Stop? then s
      else s.(open := s.open[q := Open(call, Read(s.db, call).plan)])
    case Finish(q) =>
      if q in s.open then System(Commit(s.db, s.open[q].plan).db, s.open - {q}) else s
    case OneShot(call) =>
      if call.Whole() then s.(db := ApplyWhole(s.db, call).db) else s
  }

  /** The system after the first `n` events. */
  function State(events: seq<Event>, n: nat): System
    requires n <= |events|
  {
    if n == 0 then START else Step(State(events, n - 1), events[n - 1])
  }

  // ----- When one commit keeps single holders -----

  /** The plan names a row by the room and tenant that the row has; both never change while the row exists. */
  ghost predicate Fits(db: Tables, plan: Plan) {
    match plan
    case SetCancelled(id, room) => id in db.bookings && db.bookings[id].room == room
    case SetProcessing(id, room) => id in db.bookings && db.bookings[id].room == room
    case SaveApproval(id, decided, _, signed, room) =>
      && FitsBooking(db, id, decided, room) && decided.status.Approved?
      && signed.booking == id && signed.room == room && signed.tenant == decided.tenant && signed.status.Active?
    case SaveRejection(id, decided, room) => FitsBooking(db, id, decided, room) && decided.status.Rejected?
    case SaveEnding(id, ended, room) =>
      && id in db.contracts && db.contracts[id].room == ended.room == room && ended.status.Ended?
      && db.contracts[id].booking == ended.booking && db.contracts[id].tenant == ended.tenant
    case SaveRoom(id, saved) => id in db.rooms && saved.kost == db.rooms[id].kost
    case RemoveRoom(id) => id in db.rooms
  }

  ghost predicate FitsBooking(db: Tables, id: Id, decided: Booking, room: Id) {
    id in db.bookings && db.bookings[id].room == decided.room == room && db.bookings[id].tenant == decided.tenant
  }

  /** The room's only holder, if it has one, is `h`. */
  ghost predicate NoneBut(db: Tables, room: Id, h: Holder) {
    forall k :: Holds(db, k, room) ==> k == h
  }

  /** No holder but the one the plan retires would lose its room, or share it with a new contract. */
  ghost predicate Safe(db: Tables, plan: Plan) {
    match plan
    case SetCancelled(id, room) =>
      room in db.rooms && db.rooms[room].status.Reserved? ==>
        NoneBut(db, room, ByBooking(id)) && !(id in db.bookings && db.bookings[id].status.Processing?)
    case SetProcessing(_, _) => true
    case SaveApproval(id, _, _, _, room) => Commit(db, plan).outcome.Done? ==> NoneBut(db, room, ByBooking(id))
    case SaveRejection(id, _, room) =>
      room in db.rooms && db.rooms[room].status.Reserved? ==> NoneBut(db, room, ByBooking(id))
    case SaveEnding(id, _, room) => NoneBut(db, room, ByContract(id))
    case SaveRoom(id, saved) => Busy(saved.status) || forall h :: !Holds(db, h, id)
    case RemoveRoom(_) => true
  }

  lemma CancelIff(db: Tables, plan: Plan)
    requires Inv(db) && Fits(db, plan) && plan.SetCancelled?
    ensures Inv(Commit(db, plan).db) <==> Safe(db, plan)
  {
    var after := Commit(db, plan).db;
    var id, room := plan.booking, plan.room;
    forall h, r ensures Holds(after, h, r) <==>
                        Holds(db, h, r) && !(h == ByBooking(id) && db.bookings[id].status.Pending?)
    {}
    if !Safe(db, plan) {
      if db.bookings[id].status.Processing? {
        assert Holds(after, ByBooking(id), room);
      } else {
        var h :| Holds(db, h, room) && h != ByBooking(id);
        assert Holds(after, h, room);
      }
    }
  }

  lemma ProcessingIff(db: Tables, plan: Plan)
    requires Inv(db) && Fits(db, plan) && plan.SetProcessing?
    ensures Inv(Commit(db, plan).db) <==> Safe(db, plan)
  {
    var after := Commit(db, plan).db;
    forall h, r ensures Holds(after, h, r) <==> Holds(db, h, r) {}
  }

  lemma RejectionIff(db: Tables, plan: Plan)
    requires Inv(db) && Fits(db, plan) && plan.SaveRejection?
    ensures Inv(Commit(db, plan).db) <==> Safe(db, plan)
  {
    var after := Commit(db, plan).db;
    var id, room := plan.booking, plan.room;
    forall h, r ensures Holds(after, h, r) <==> Holds(db, h, r) && h != ByBooking(id) {}
    if !Safe(db, plan) {
      var h :| Holds(db, h, room) && h != ByBooking(id);
      assert Holds(after, h, room);
    }
  }

  lemma ApprovalIff(db: Tables, plan: Plan)
    requires Inv(db) && Fits(db, plan) && plan.SaveApproval?
    ensures Inv(Commit(db, plan).db) <==> Safe(db, plan)
  {
    var reply := Commit(db, plan);
    var id, contract, room := plan.booking, plan.contract, plan.room;
    if reply.outcome.Done? {
      var after := reply.db;
      forall h, r ensures Holds(after, h, r) <==>
                          (Holds(db, h, r) && h != ByBooking(id)) || (h == ByContract(contract) && r == room)
      {}
      if !Safe(db, plan) {
        var h :| Holds(db, h, room) && h != ByBooking(id);
        assert Holds(after, h, room) && Holds(after, ByContract(contract), room);
      }
    }
  }

  lemma EndingIff(db: Tables, plan: Plan)
    requires Inv(db) && Fits(db, plan) && plan.SaveEnding?
    ensures Inv(Commit(db, plan).db) <==> Safe(db, plan)
  {
    var after := Commit(db, plan).db;
    var id, room := plan.contract, plan.room;
    forall h, r ensures Holds(after, h, r) <==> Holds(db, h, r) && h != ByContract(id) {}
    if !Safe(db, plan) {
      var h :| Holds(db, h, room) && h != ByContract(id);
      assert Holds(after, h, room);
    }
  }

  lemma RoomIff(db: Tables, plan: Plan)
    requires Inv(db) && Fits(db, plan) && (plan.SaveRoom? || plan.RemoveRoom?)
    ensures Inv(Commit(db, plan).db) <==> Safe(db, plan)
  {
    var after := Commit(db, plan).db;
    if plan.SaveRoom? {
      forall h, r ensures Holds(after, h, r) <==> Holds(db, h, r) {}
    } else {
      forall h, r ensures Holds(after, h, r) <==> Holds(db, h, r) && r != plan.room {}
    }
  }

  /** While the rows that its plan names still exist, and however stale the reading behind it is otherwise, a commit
      keeps every room to a single holder exactly when, at the moment it runs, no other holder depends on the room it
      frees or takes. */
  lemma CommitKeepsIff(db: Tables, plan: Plan)
    requires Inv(db) && Fits(db, plan)
    ensures Inv(Commit(db, plan).db) <==> Safe(db, plan)
  {
    match plan
    case SetCancelled(_, _) => CancelIff(db, plan);
    case SetProcessing(_, _) => ProcessingIff(db, plan);
    case SaveApproval(_, _, _, _, _) => ApprovalIff(db, plan);
    case SaveRejection(_, _, _) => RejectionIff(db, plan);
    case SaveEnding(_, _, _) => EndingIff(db, plan);
    case _ => RoomIff(db, plan);
  }

  // ----- What every interleaving keeps -----

  function Rank(status: BookingStatus): nat {
    match status
    case Pending => 2
    case Processing => 1
    case _ => 0
  }

  /** Bookings only move towards a decision, ended contracts stay ended, and neither changes room or tenant. */
  ghost predicate Forward(db: Tables, after: Tables) {
    && (forall b :: b in db.bookings ==>
          && b in after.bookings
          && after.bookings[b].room == db.bookings[b].room
          && after.bookings[b].tenant == db.bookings[b].tenant
          && Rank(after.bookings[b].status) <= Rank(db.bookings[b].status))
    && (forall c :: c in db.contracts ==>
          && c in after.contracts
          && after.contracts[c].booking == db.contracts[c].booking
          && after.contracts[c].room == db.contracts[c].room
          && after.contracts[c].tenant == db.contracts[c].tenant
          && (db.contracts[c].status.Ended? ==> after.contracts[c].status.Ended?))
    && db.rooms.Keys <= after.rooms.Keys
    && (forall r :: r in db.rooms ==> after.rooms[r].kost == db.rooms[r].kost)
  }

  ghost predicate ContractsMatch(db: Tables) {
    && (forall c :: c in db.contracts ==>
          && db.contracts[c].booking in db.bookings
          && db.contracts[c].room == db.bookings[db.contracts[c].booking].room
          && db.contracts[c].tenant == db.bookings[db.contracts[c].booking].tenant)
    && (forall c, d :: c in db.contracts && d in db.contracts && db.contracts[c].booking == db.contracts[d].booking
                       ==> c == d)
  }

  ghost predicate WeakInv(s: System) {
    && ContractsMatch(s.db)
    && forall q :: q in s.open ==> Fits(s.db, s.open[q].plan) && !s.open[q].plan.RemoveRoom?
  }

  /** No request deletes a room. */
  predicate NoDeletion(e: Event) { e.Begin? ==> !e.call.DeleteRoom? }

  lemma ReadFits(db: Tables, call: Call)
    requires !call.Whole() && Read(db, call).Go?
    ensures Fits(db, Read(db, call).plan)
  {
  }

  lemma FitsForward(db: Tables, after: Tables, plan: Plan)
    requires Fits(db, plan) && !plan.RemoveRoom? && Forward(db, after)
    ensures Fits(after, plan)
  {
  }

  lemma ApprovalForward(db: Tables, plan: Plan)
    requires ContractsMatch(db) && Fits(db, plan) && plan.SaveApproval?
    ensures ContractsMatch(Commit(db, plan).db) && Forward(db, Commit(db, plan).db)
  {
    assert Commit(db, plan).outcome.Done? ==> !HasContract(db, plan.booking);
  }

  lemma CommitForward(db: Tables, plan: Plan)
    requires ContractsMatch(db) && Fits(db, plan) && !plan.RemoveRoom?
    ensures ContractsMatch(Commit(db, plan).db) && Forward(db, Commit(db, plan).db)
  {
    if plan.SaveApproval? {
      ApprovalForward(db, plan);
    }
  }

  lemma ExpireForward(db: Tables, now: Time)
    requires ContractsMatch(db)
    ensures ContractsMatch(Expire(db, now)) && Forward(db, Expire(db, now))
  {
    hide FreedRooms;
  }

  lemma BookForward(db: Tables, tenant: Id, room: Id, surveyDay: int, id: Id, now: Time, hold: int)
    requires ContractsMatch(db)
    ensures var after := Book(db, tenant, room, surveyDay, id, now, hold).db;
            ContractsMatch(after) && Forward(db, after)
  {
  }

  lemma WholeForward(db: Tables, call: Call)
    requires ContractsMatch(db) && call.Whole()
    ensures ContractsMatch(ApplyWhole(db, call).db) && Forward(db, ApplyWhole(db, call).db)
  {
    hide Expire, Book;
    match call
    case Sweep(now) =>
      ExpireForward(db, now);
    case CreateBooking(tenant, room, survey, id, now, hold) =>
      if survey.Some? {
        BookForward(db, tenant, room, Calendar.UtcDay(survey.value), id, now, hold);
      }
    case _ =>
  }

  lemma StepForward(s: System, e: Event)
    requires WeakInv(s) && NoDeletion(e)
    ensures WeakInv(Step(s, e)) && Forward(s.db, Step(s, e).db)
  {
    var after := Step(s, e);
    match e
    case Begin(q, call) =>
      if !call.Whole() && Read(s.db, call).Go? { ReadFits(s.db, call); }
    case Finish(q) =>
      if q in s.open {
        CommitForward(s.db, s.open[q].plan);
        forall p | p in after.open ensures Fits(after.db, after.open[p].plan) {
          FitsForward(s.db, after.db, after.open[p].plan);
        }
      }
    case OneShot(call) =>
      if call.Whole() {
        WholeForward(s.db, call);
        forall p | p in after.open ensures Fits(after.db, after.open[p].plan) {
          FitsForward(s.db, after.db, after.open[p].plan);
        }
      }
  }

  lemma ForwardReflexive(db: Tables)
    ensures Forward(db, db)
  {
  }

  lemma ForwardTransitive(first: Tables, second: Tables, third: Tables)
    requires Forward(first, second) && Forward(second, third)
    ensures Forward(first, third)
  {
  }

  /** Under every interleaving without deletions, overlaps included: between any two moments bookings only move towards
      a decision and ended contracts stay ended; and at every moment a booking has at most one contract, whose room and
      tenant are the booking's. */
  lemma {:induction false} EveryInterleaving(events: seq<Event>, m: nat, n: nat)
    requires m <= n <= |events| && forall i :: 0 <= i < |events| ==> NoDeletion(events[i])
    ensures Forward(State(events, m).db, State(events, n).db)
    ensures ContractsMatch(State(events, n).db)
    ensures WeakInv(State(events, n))
    decreases n
  {
    if n == 0 {
    } else {
      hide Forward, ContractsMatch, Fits, Step;
      EveryInterleaving(events, if m < n then m else n - 1, n - 1);
      StepForward(State(events, n - 1), events[n - 1]);
      if m < n {
        ForwardTransitive(State(events, m).db, State(events, n - 1).db, State(events, n).db);
      } else {
        ForwardReflexive(State(events, n).db);
      }
    }
  }

  // ----- When a whole run keeps single holders -----

  ghost predicate SafeFinish(s: System, e: Event) {
    e.Finish? && e.request in s.open ==> Safe(s.db, s.open[e.request].plan)
  }

  lemma StepKeepsIff(s: System, e: Event)
    requires WeakInv(s) && Inv(s.db)
    ensures Inv(Step(s, e).db) <==> SafeFinish(s, e)
  {
    hide Inv, Safe, Commit, ApplyWhole;
    if e.Finish? && e.request in s.open {
      CommitKeepsIff(s.db, s.open[e.request].plan);
    } else if e.OneShot? && e.call.Whole() {
      OneHolder.StepKeeps(s.db, e.call);
    }
  }

  ghost predicate AlwaysSingle(events: seq<Event>, n: nat)
    requires n <= |events|
  {
    forall m :: 0 <= m <= n ==> Inv(State(events, m).db)
  }

  ghost predicate AlwaysSafe(events: seq<Event>, n: nat)
    requires n <= |events|
  {
    forall j :: 0 <= j < n ==> SafeFinish(State(events, j), events[j])
  }

  lemma StartIsSingle()
    ensures Inv(START.db)
  {
  }

  lemma OneMoreEvent(events: seq<Event>, n: nat)
    requires 0 < n <= |events|
    ensures AlwaysSingle(events, n) <==> AlwaysSingle(events, n - 1) && Inv(State(events, n).db)
    ensures AlwaysSafe(events, n) <==> AlwaysSafe(events, n - 1) && SafeFinish(State(events, n - 1), events[n - 1])
    ensures AlwaysSingle(events, n - 1) ==> Inv(State(events, n - 1).db)
  {
    hide Inv, SafeFinish, State;
  }

  /** Under every interleaving without deletions, overlaps included: every room has at most one holder in all states of
      a run if and only if every commit, when it runs, meets no other holder that depends on the room it frees or
      takes. */
  lemma {:induction false} SingleIffSafe(events: seq<Event>, n: nat)
    requires n <= |events| && forall i :: 0 <= i < |events| ==> NoDeletion(events[i])
    ensures AlwaysSingle(events, n) <==> AlwaysSafe(events, n)
  {
    hide Inv, Step, SafeFinish, WeakInv, NoDeletion, Forward, ContractsMatch;
    if n == 0 {
      StartIsSingle();
    } else {
      hide AlwaysSingle, AlwaysSafe;
      SingleIffSafe(events, n - 1);
      EveryInterleaving(events, n - 1, n - 1);
      OneMoreEvent(events, n);
      if AlwaysSingle(events, n - 1) {
        StepKeepsIff(State(events, n - 1), events[n - 1]);
      }
    }
  }

  // ----- Requests that do not disturb each other -----

  /** The position of the event that opened request `q`. */
  function OpenedAt(events: seq<Event>, n: nat, q: Id): (i: nat)
    requires n <= |events| && q in State(events, n).open
    ensures i < n && events[i].Begin? && events[i].request == q
  {
    if q in State(events, n - 1).open then OpenedAt(events, n - 1, q) else n - 1
  }

  /** The rooms an event commits to. */
  function Touches(s: System, e: Event): set<Id> {
    match e
    case Begin(_, _) => {}
    case Finish(q) =>
      if q in s.open && Commit(s.db, s.open[q].plan).outcome.Done? then {s.open[q].plan.room} else {}
    case OneShot(call) => if call.Whole() then Touched(s.db, call) else {}
  }

  /** Between the reading of request `q` and event `n`, nothing commits to the room that `q` is about. */
  ghost predicate Undisturbed(events: seq<Event>, n: nat, q: Id)
    requires n <= |events| && q in State(events, n).open
  {
    forall k :: OpenedAt(events, n, q) < k < n ==>
      State(events, n).open[q].plan.room !in Touches(State(events, k), events[k])
  }

  /** No two overlapping requests commit to the same room. */
  ghost predicate Local(events: seq<Event>) {
    forall j :: 0 <= j < |events| && events[j].Finish? && events[j].request in State(events, j).open ==>
      Undisturbed(events, j, events[j].request)
  }

  /** One event that does not commit to the reading's room leaves the reading as it would be made now. */
  lemma ReadingSurvives(s: System, e: Event, call: Call, plan: Plan)
    requires !call.Whole() && Read(s.db, call) == Go(plan) && plan.room !in Touches(s, e)
    requires e.Finish? && e.request in s.open ==>
               !s.open[e.request].call.Whole() && Read(s.db, s.open[e.request].call) == Go(s.open[e.request].plan)
    ensures Read(Step(s, e).db, call) == Go(plan)
  {
    hide Read, SameRoom;
    match e
    case Begin(_, _) =>
    case OneShot(other) =>
      if other.Whole() {
        ApplyFrame(s.db, other, plan.room);
        ReadIsLocal(s.db, Step(s, e).db, call);
      }
    case Finish(p) =>
      if p in s.open && Commit(s.db, s.open[p].plan).outcome.Done? {
        ApplyFrame(s.db, s.open[p].call, plan.room);
        ReadIsLocal(s.db, Step(s, e).db, call);
      } else if p in s.open {
        RefusalChangesNothing(s.db, s.open[p].plan);
      }
  }

  lemma RefusalChangesNothing(db: Tables, plan: Plan)
    requires !Commit(db, plan).outcome.Done?
    ensures Commit(db, plan).db == db
  {
  }

  lemma UndisturbedEarlier(events: seq<Event>, n: nat, q: Id)
    requires n < |events| && q in State(events, n).open && q in State(events, n + 1).open
    requires Undisturbed(events, n + 1, q)
    ensures State(events, n + 1).open[q] == State(events, n).open[q]
    ensures Undisturbed(events, n, q)
    ensures State(events, n).open[q].plan.room !in Touches(State(events, n), events[n])
  {
    hide Read, Commit, ApplyWhole, Touches;
  }

  lemma JustRead(events: seq<Event>, n: nat, q: Id)
    requires n < |events| && q !in State(events, n).open && q in State(events, n + 1).open
    ensures var s, after := State(events, n), State(events, n + 1);
            && after.db == s.db && !after.open[q].call.Whole()
            && Read(after.db, after.open[q].call) == Go(after.open[q].plan)
  {
    hide Read, Commit, ApplyWhole;
  }

  /** A reading that nothing has disturbed would come out the same if it were made again now. */
  lemma {:induction false} StillCurrent(events: seq<Event>, n: nat, q: Id)
    requires Local(events) && n <= |events| && q in State(events, n).open && Undisturbed(events, n, q)
    ensures !State(events, n).open[q].call.Whole()
    ensures Read(State(events, n).db, State(events, n).open[q].call) == Go(State(events, n).open[q].plan)
    decreases n
  {
    var s, e := State(events, n - 1), events[n - 1];
    if q !in s.open {
      JustRead(events, n - 1, q);
    } else {
      hide Read, Commit, ApplyWhole, Touches, Undisturbed;
      UndisturbedEarlier(events, n - 1, q);
      StillCurrent(events, n - 1, q);
      if e.Finish? && e.request in s.open {
        StillCurrent(events, n - 1, e.request);
      }
      ReadingSurvives(s, e, s.open[q].call, s.open[q].plan);
    }
  }

  /** The calls in the order in which they commit. */
  function Serial(events: seq<Event>, n: nat): seq<Call>
    requires n <= |events|
  {
    if n == 0 then []
    else
      var s, e := State(events, n - 1), events[n - 1];
      match e
      case Begin(_, _) => Serial(events, n - 1)
      case Finish(q) => if q in s.open then Serial(events, n - 1) + [s.open[q].call] else Serial(events, n - 1)
      case OneShot(call) => if call.Whole() then Serial(events, n - 1) + [call] else Serial(events, n - 1)
  }

  lemma RunSnoc(db: Tables, calls: seq<Call>, call: Call)
    ensures Run(db, calls + [call]) == Apply(Run(db, calls), call).db
  {
    assert (calls + [call])[..|calls|] == calls;
  }

  /** A run whose overlapping requests commit to different rooms reaches the same tables as its calls made one after
      another, in the order of their commits. */
  lemma {:induction false} LocalIsSerial(events: seq<Event>, n: nat)
    requires Local(events) && n <= |events|
    ensures State(events, n).db == Run(EMPTY_TABLES, Serial(events, n))
  {
    if n == 0 {
    } else {
      LocalIsSerial(events, n - 1);
      var s, e := State(events, n - 1), events[n - 1];
      match e
      case Begin(_, _) =>
      case Finish(q) =>
        if q in s.open {
          StillCurrent(events, n - 1, q);
          RunSnoc(EMPTY_TABLES, Serial(events, n - 1), s.open[q].call);
        }
      case OneShot(call) =>
        if call.Whole() {
          RunSnoc(EMPTY_TABLES, Serial(events, n - 1), call);
        }
    }
  }

  /** So such a run never lets a room twice. */
  lemma LocalNeverLetsTwice(events: seq<Event>, n: nat, room: Id)
    requires Local(events) && n <= |events|
    ensures Inv(State(events, n).db)
    ensures |LiveBookings(State(events, n).db, room)| + |ActiveContracts(State(events, n).db, room)| <= 1
  {
    LocalIsSerial(events, n);
    NeverLetTwice(Serial(events, n), room);
    RunKeeps(EMPTY_TABLES, Serial(events, n));
  }

  // ----- Two requests that do -----

  /** A tenant's cancellation that has read "pending" overlaps the owner's marking of the same booking. The marking
      commits first, and the cancellation then frees the room of a booking in processing, so another tenant books it. */
  const OVERLAP: seq<Event> := [
    OneShot(AddKost(0, 7, KostVerified)),
    OneShot(CreateRoom(7, 0, 1, None)),
    OneShot(CreateBooking(5, 1, Some(0), 10, 0, 72)),
    Begin(100, Cancel(5, 10)),
    Begin(101, MarkProcessing(7, 10)),
    Finish(101),
    Finish(100),
    OneShot(CreateBooking(6, 1, Some(0), 11, 1, 72))
  ]

  lemma OverlapBooked()
    ensures State(OVERLAP, 3).open == map[]
    ensures State(OVERLAP, 3).db ==
            Tables(map[0 := Kost(7, KostVerified)], map[1 := Room(0, Reserved)],
                   map[10 := Booking(1, 5, Pending, 0, 0, 72, None, None, None)], map[])
  {
    assert State(OVERLAP, 1) == System(EMPTY_TABLES.(kosts := map[0 := Kost(7, KostVerified)]), map[]);
    assert State(OVERLAP, 2).db.rooms == map[1 := Room(0, Available)];
    assert Calendar.SurveyAccepted(0, 0);
  }

  lemma OverlapRead()
    ensures State(OVERLAP, 5).db == State(OVERLAP, 3).db
    ensures State(OVERLAP, 5).open ==
            map[100 := Open(Cancel(5, 10), SetCancelled(10, 1)),
                101 := Open(MarkProcessing(7, 10), SetProcessing(10, 1))]
  {
    OverlapBooked();
    assert State(OVERLAP, 4).open == map[100 := Open(Cancel(5, 10), SetCancelled(10, 1))];
  }

  lemma OverlapCommitted()
    ensures State(OVERLAP, 7).db.rooms == map[1 := Room(0, Available)]
    ensures State(OVERLAP, 7).db.kosts == map[0 := Kost(7, KostVerified)]
    ensures State(OVERLAP, 7).db.bookings == map[10 := Booking(1, 5, Processing, 0, 0, 72, None, None, None)]
  {
    OverlapBooked();
    OverlapRead();
    assert State(OVERLAP, 6).db.bookings == map[10 := Booking(1, 5, Processing, 0, 0, 72, None, None, None)];
    assert State(OVERLAP, 6).open == map[100 := Open(Cancel(5, 10), SetCancelled(10, 1))];
  }

  lemma OverlapBookedTwice()
    ensures State(OVERLAP, 8).db.bookings ==
            map[10 := Booking(1, 5, Processing, 0, 0, 72, None, None, None),
                11 := Booking(1, 6, Pending, 0, 1, 73, None, None, None)]
  {
    OverlapCommitted();
    SecondBooking(State(OVERLAP, 7));
    assert State(OVERLAP, 8) == Step(State(OVERLAP, 7), OVERLAP[7]);
    hide State, Step;
  }

  lemma SecondBooking(s: System)
    requires s.db.rooms == map[1 := Room(0, Available)] && s.db.kosts == map[0 := Kost(7, KostVerified)]
    requires s.db.bookings == map[10 := Booking(1, 5, Processing, 0, 0, 72, None, None, None)]
    ensures Step(s, OneShot(CreateBooking(6, 1, Some(0), 11, 1, 72))).db.bookings ==
            map[10 := Booking(1, 5, Processing, 0, 0, 72, None, None, None),
                11 := Booking(1, 6, Pending, 0, 1, 73, None, None, None)]
  {
    assert Calendar.SurveyAccepted(1, 0);
    assert !HasPending(s.db, 1);
  }

  lemma OverlapLetsTwice()
    ensures {10, 11} <= LiveBookings(State(OVERLAP, 8).db, 1)
    ensures !Inv(State(OVERLAP, 8).db)
  {
    OverlapBookedTwice();
    hide State;
    var db := State(OVERLAP, 8).db;
    assert Holds(db, ByBooking(10), 1) && Holds(db, ByBooking(11), 1);
  }
}
