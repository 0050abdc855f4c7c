/** Values shared by the two stores and the views. */
module Types {

  /** A value that may be absent. Every falsy JavaScript payload (`null`,
      `undefined`, an empty body `""`, `0`, `false`, `NaN`) is `None`. */
  datatype Option<+T> = None | Some(value: T)

  /** A parking spot as the spot list delivers it: its human-facing number,
      its floor, and whether it is taken. */
  datatype Spot = Spot(number: string, floor: int, occupied: bool)
}
