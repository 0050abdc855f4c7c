/** The status badge and the "book" action of one table row (src/components/Spot.tsx). */
module SpotStatus {
  import opened Types
  import opened UserSlice

  /** The badge of a row: its text and its colour. */
  datatype Status = Status(title: string, color: string)

  const Free := Status("Libre", "emerald")
  const Reserved := Status("Réservé", "sky")
  const Taken := Status("Occupé", "red")

  /** `getStatus`: free spots are "Libre"; an occupied spot is "Réservé" when
      it has the number of the user's reserved spot, and "Occupé" otherwise. */
  function GetStatus(occupied: bool, reservation: Option<Reservation>, number: string): (st: Status)
    ensures st == Free || st == Reserved || st == Taken
    ensures st == Free <==> !occupied
    ensures st == Reserved <==> occupied && reservation.Some? && reservation.value.spot.number == number
  {
    if !occupied then Free
    else if reservation.Some? && reservation.value.spot.number == number then Reserved
    else Taken
  }

  /** The row's "Réserver" button: shown when the spot is free and the user holds no reservation. */
  function CanBook(occupied: bool, reservation: Option<Reservation>): (offered: bool)
    ensures forall number :: offered <==> GetStatus(occupied, reservation, number) == Free && reservation.None?
  {
    !occupied && reservation.None?
  }
}
