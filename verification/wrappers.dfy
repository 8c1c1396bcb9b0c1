/** The absent-or-present values the page code reads from the browser:
    `getAttribute` and `localStorage.getItem` return `null` when nothing is there. */
module Wrappers {

  datatype Option<+T> = None | Some(value: T)
}
