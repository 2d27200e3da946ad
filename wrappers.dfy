/** The null-able handle of the half-edge structure: a face handle of a
    boundary halfedge, or the halfedge handle of an isolated node. */
module Wrappers {
  datatype Option<+T> = None | Some(value: T)
}
