/** The optional value used throughout the model: an absent query parameter,
    a store lookup that found nothing, a bucket a value does not fall into. */
module Wrappers {

  datatype Option<+T> = None | Some(value: T)
}
