/** Optional values. `None` stands for a result the source cannot produce as a
    finite number (an `f64` division by zero) or for a panic of the node. */
module Wrappers {

  datatype Option<+T> = None | Some(value: T)
}
