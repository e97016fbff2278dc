/** Values shared by every operator of the add-on. */
module Common {

  /** The result set an operator's `execute` returns to the host:
      `{'FINISHED'}` or `{'CANCELLED'}`. */
  datatype Status = Finished | Cancelled

  /** A value that may be absent (Python's `None`). */
  datatype Option<+T> = None | Some(value: T)
}
