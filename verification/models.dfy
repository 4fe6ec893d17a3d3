/** The rows of the booking database and the replies of its services. */
module Models {

  datatype Option<+T> = None | Some(value: T)

  /** A uuid primary key. Only equality of keys matters. */
  type Id = nat

  /** An instant, in nanoseconds since the Unix epoch. */
  type Time = int

  datatype KostStatus = KostPending | KostVerified | KostRejected

  datatype RoomStatus = Available | Reserved | Occupied | Maintenance

  datatype BookingStatus = Pending | Processing | Approved | Rejected | Expired | Cancelled
  {
    /** A live booking still claims its room. */
    predicate Live() { Pending? || Processing? }
  }

  datatype ContractStatus = Active | Ended

  datatype Kost = Kost(owner: Id, status: KostStatus)

  datatype Room = Room(kost: Id, status: RoomStatus)

  datatype Booking = Booking(
    room: Id,
    tenant: Id,
    status: BookingStatus,
    surveyDay: int,
    createdAt: Time,
    expiresAt: Time,
    rejectReason: Option<string>,
    decidedBy: Option<Id>,
    decidedAt: Option<Time>)

  datatype Contract = Contract(
    booking: Id,
    room: Id,
    tenant: Id,
    startDay: int,
    endDay: int,
    status: ContractStatus,
    endedBy: Option<Id>,
    endedAt: Option<Time>)

  /** The four tables that the booking lifecycle reads and writes. */
  datatype Tables = Tables(
    kosts: map<Id, Kost>,
    rooms: map<Id, Room>,
    bookings: map<Id, Booking>,
    contracts: map<Id, Contract>)

  const EMPTY_TABLES := Tables(map[], map[], map[], map[])

  /** What a service call answers; every error leaves the tables as they were. */
  datatype Outcome = Done | NotFound | Invalid | Conflict | Internal
}
