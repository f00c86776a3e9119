/** The pointer events the tools react to, reduced to what they inspect. */
module Input {

  /** pygame's number for the left mouse button. */
  const LeftButton := 1

  datatype MouseEvent =
    | MouseButtonDown(button: int)
    | MouseButtonUp(button: int)
    | OtherMouseEvent

  predicate IsLeftDown(e: MouseEvent) {
    e.MouseButtonDown? && e.button == LeftButton
  }

  predicate IsLeftUp(e: MouseEvent) {
    e.MouseButtonUp? && e.button == LeftButton
  }
}
