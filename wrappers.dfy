/** The optional value every module uses: `None` stands for the JavaScript `null`
    (no placements) and for `NaN` (a failed `parseInt`). */
module Wrappers {

  datatype Option<T> = None | Some(value: T)
}
