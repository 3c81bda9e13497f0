/** A value that may be absent: a JSON key that is not there, a lookup that
    found nothing, a Python function that returned None. */
module Wrappers {

  datatype Option<+T> = None | Some(value: T)
}
