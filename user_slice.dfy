/** The identity store: the anonymous user id and the user's reservation
    (src/features/userSlice.ts). */
module UserSlice {
  import opened Types

  /** A reservation as the store keeps it: its server id, the owning user,
      a snapshot of the reserved spot, the local creation time and the contact email. */
  datatype Reservation = Reservation(id: string, user: string, spot: Spot, date: string, email: string)

  /** The fields of a truthy `setReservation` payload: `_id`, `spot` and
      `email`. A payload fetched from the server carries a `user` field as
      well; the reducer never reads it. */
  datatype ReservationPayload = ReservationPayload(id: string, spot: Spot, email: string, user: Option<string>)

  /** The user slice's state. */
  class UserStore {
    var id: string
    var reservation: Option<Reservation>

    /** The held reservation, if any, belongs to the stored user id. */
    ghost predicate OwnsReservation()
      reads this
    {
      reservation.Some? ==> reservation.value.user == id
    }

    /** `initialState`: an empty id and no reservation. */
    constructor ()
      ensures id == "" && reservation == None
      ensures OwnsReservation()
    {
      id := "";
      reservation := None;
    }

    /** `setUserId`: overwrites the id and keeps the reservation. */
    method SetUserId(x: string)
      modifies this
      ensures id == x
      ensures reservation == old(reservation)
    {
      id := x;
    }

    /** `setReservation`: a truthy payload installs a reservation stamped with
        the store's current id and the time `now` (the caller's
        `new Date().toISOString()`); a falsy one clears the reservation. */
    method SetReservation(payload: Option<ReservationPayload>, now: string)
      modifies this
      ensures id == old(id)
      ensures payload.None? ==> reservation == None
      ensures payload.Some? ==> reservation.Some?
      ensures payload.Some? ==>
        var r := reservation.value;
        r.id == payload.value.id && r.spot == payload.value.spot &&
        r.email == payload.value.email && r.date == now && r.user == old(id)
      ensures OwnsReservation()
    {
      match payload {
        case Some(p) =>
          reservation := Some(Reservation(p.id, id, p.spot, now, p.email));
        case None =>
          reservation := None;
      }
    }
  }
}
