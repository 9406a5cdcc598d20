/**
 * ReservationService: create, cancel and find reservations. Reservation ids
 * are UUID strings: a malformed id is modelled as one that is not stored.
 */
module ReservationServices {
  import opened Common
  import Permissions
  import Reservations
  import Repositories
  import Audit

  class ReservationService {
    const repo: Repositories.ReservationRepo
    const audits: Audit.AuditLog

    constructor (repo: Repositories.ReservationRepo, audits: Audit.AuditLog)
      ensures this.repo == repo && this.audits == audits
    {
      this.repo := repo;
      this.audits := audits;
    }

    /**
     * createReservation: managers and waiters only. On success a new CONFIRMED
     * reservation with no table, for the given customer, time and party size, is
     * saved under its fresh id, and one CREATE_RESERVATION entry is chained onto
     * the log (its entity type is the customer's name).
     */
    method CreateReservation(actor: StaffRole, name: string, phone: string, email: string, partySize: int,
                             time: Reservations.LocalDateTime, newId: string)
      returns (r: Result<Reservations.Reservation>)
      requires repo.Valid()
      modifies repo, audits
      ensures repo.Valid()
      ensures r.Ok? <==> Permissions.Check(Permissions.ReservationChain, actor).Pass?
      ensures r.Err? ==> r.error == Security && unchanged(repo, audits)
      ensures r.Ok? ==>
                && fresh(r.value) && r.value.id == newId
                && r.value.customer == Reservations.Customer(name, phone, email)
                && r.value.reservationTime == time && r.value.partySize == partySize
                && r.value.status == Reservations.Confirmed && r.value.assignedTable == Reservations.Unassigned
                && repo.store == old(repo.store)[newId := r.value]
                && audits.log == old(audits.log) + [Audit.NewEntry(audits.digest, actor.id, RoleName(actor),
                                   "CREATE_RESERVATION", Some(name), newId, Audit.TailOf(old(audits.log)))]
      ensures old(Audit.Linked(audits.log)) ==> Audit.Linked(audits.log)
    {
      var allowed := Permissions.RunChain(Permissions.ReservationChain, actor);
      if allowed.Fail? {
        return Err(allowed.error);
      }
      var customer := Reservations.Customer(name, phone, email);
      var reservation := new Reservations.Reservation(newId, customer, time, partySize);
      repo.Save(reservation);
      audits.Record(actor.id, RoleName(actor), "CREATE_RESERVATION", Some(customer.name), newId);
      return Ok(reservation);
    }

    /**
     * cancelReservation: managers and waiters only. An unknown id returns false
     * and changes nothing; otherwise the reservation is CANCELLED whatever its
     * status was (so cancelling twice leaves it CANCELLED), saved, one
     * CANCEL_RESERVATION entry with a null entity type is chained onto the log,
     * and the result is true.
     */
    method CancelReservation(actor: StaffRole, reservationId: string) returns (r: Result<bool>)
      requires repo.Valid()
      modifies repo, audits
      modifies if reservationId in repo.store then {repo.store[reservationId]} else {}
      ensures repo.Valid()
      ensures Permissions.Check(Permissions.ReservationChain, actor).Fail? ==> r == Err(Security)
      ensures Permissions.Check(Permissions.ReservationChain, actor).Pass? ==>
                r == Ok(reservationId in old(repo.store))
      ensures !(r == Ok(true)) ==> unchanged(repo, audits) && unchanged(repo.store.Values)
      ensures r == Ok(true) ==>
                && repo.store == old(repo.store) && reservationId in repo.store
                && repo.store[reservationId].status == Reservations.Cancelled
                && !repo.store[reservationId].IsActive()
                && repo.store[reservationId].assignedTable == old(repo.store[reservationId].assignedTable)
                && audits.log == old(audits.log) + [Audit.NewEntry(audits.digest, actor.id, RoleName(actor),
                                   "CANCEL_RESERVATION", None, reservationId, Audit.TailOf(old(audits.log)))]
      ensures old(Audit.Linked(audits.log)) ==> Audit.Linked(audits.log)
    {
      var allowed := Permissions.RunChain(Permissions.ReservationChain, actor);
      if allowed.Fail? {
        return Err(allowed.error);
      }
      var found := repo.FindById(reservationId);
      if found.None? {
        return Ok(false);
      }
      var reservation := found.value;
      reservation.UpdateStatus(Reservations.Cancelled);
      repo.Save(reservation);
      audits.Record(actor.id, RoleName(actor), "CANCEL_RESERVATION", None, reservation.id);
      return Ok(true);
    }

    /** findReservation: no permission check; the stored reservation, or IllegalArgumentException. */
    function FindReservation(reservationId: string): (r: Result<Reservations.Reservation>)
      reads this, repo
      ensures r.Ok? <==> reservationId in repo.store
      ensures r.Ok? ==> r.value == repo.store[reservationId]
      ensures r.Err? ==> r.error == IllegalArgument
    {
      match repo.FindById(reservationId)
      case Some(reservation) => Ok(reservation)
      case None => Err(IllegalArgument)
    }
  }
}
