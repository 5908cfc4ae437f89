/** Types shared by every part of the menu library: Java's nullable values,
    the exceptions the library throws, and the four results an option action
    can report back to the menu that selected it. */
module Common {

  /** A Java reference that may be null: `None` is null. */
  datatype Option<+T> = None | Some(value: T) {
    function GetOr(default: T): T {
      match this
      case Some(v) => v
      case None => default
    }
  }

  /** A Java call that either returns a value or throws. */
  datatype Result<+T, +E> = Ok(value: T) | Err(error: E)

  /** A Java call that returns nothing or throws. */
  datatype Outcome<+E> = Pass | Fail(error: E)

  /** The exceptions of the library. `InvalidIndex` carries the index the
      caller passed. (The library also declares a duplicate-root exception
      that nothing throws.) */
  datatype MenuError =
    | InvalidIndex(index: int)
    | RootMenuAsSubMenu
    | SubMenuDoesNotExist
    | ActionOnlyForRootMenu
    | IODeviceNotSet

  /** What an option action reports when it finishes. */
  datatype ActionResult = Success | GoUp | ReturnHome | ExitMenu

  /** Treats a null string as the empty string, as the library does with
      labels and names. */
  function OrEmpty(s: Option<string>): string {
    s.GetOr("")
  }
}
