/** The optional value used wherever the program keeps `null` or a missing
    object key (`selectedId`, `draggingEl`, `pinchInitialDist`, a template's
    `layout`, a background bitmap). */
module Wrappers {

  datatype Option<+T> = None | Some(value: T) {

    /** The value, or `default` when absent. */
    function GetOr(default: T): T {
      match this
      case Some(v) => v
      case None => default
    }
  }
}
