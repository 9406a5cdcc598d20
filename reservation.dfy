/**
 * Reservations. The customer, the reservation time and the party size are
 * fixed at creation; the assigned table and the status change in place.
 */
module Reservations {

  datatype ReservationStatus = Confirmed | Seated | Cancelled

  /** LocalDate and LocalDateTime, reduced to what the repository compares. */
  datatype LocalDate = LocalDate(year: int, month: int, day: int)
  datatype LocalDateTime = LocalDateTime(date: LocalDate, hour: int, minute: int, second: int)

  /** The customer record is immutable. */
  datatype Customer = Customer(name: string, phone: string, email: string)

  /** isActive: CONFIRMED and SEATED reservations are active, CANCELLED ones are not. */
  predicate IsActiveStatus(s: ReservationStatus)
  {
    s == Confirmed || s == Seated
  }

  /** The table number of a reservation no table has been assigned to yet. */
  const Unassigned: int := -1

  class Reservation {
    const id: string
    const customer: Customer
    const reservationTime: LocalDateTime
    const partySize: int
    var assignedTable: int
    var status: ReservationStatus

    /** A new reservation is CONFIRMED with no table; the id is drawn fresh by the caller. */
    constructor (id: string, customer: Customer, reservationTime: LocalDateTime, partySize: int)
      ensures this.id == id && this.customer == customer
      ensures this.reservationTime == reservationTime && this.partySize == partySize
      ensures status == Confirmed && assignedTable == Unassigned
      ensures IsActive()
    {
      this.id := id;
      this.customer := customer;
      this.reservationTime := reservationTime;
      this.partySize := partySize;
      status := Confirmed;
      assignedTable := Unassigned;
    }

    /** assignTable: record the table and seat the party. */
    method AssignTable(tableNumber: int)
      modifies this
      ensures assignedTable == tableNumber && status == Seated
      ensures IsActive()
    {
      assignedTable := tableNumber;
      status := Seated;
    }

    /** updateStatus: any status may follow any other; the table is kept. */
    method UpdateStatus(newStatus: ReservationStatus)
      modifies this
      ensures status == newStatus && assignedTable == old(assignedTable)
      ensures IsActive() <==> newStatus != Cancelled
    {
      status := newStatus;
    }

    /** isActive: every status but CANCELLED is active. */
    predicate IsActive()
      reads this
      ensures IsActive() <==> status != Cancelled
    {
      IsActiveStatus(status)
    }
  }
}
