/** The optional value used for lookups that may miss (`Array.prototype.find`)
    and for numbers parsed from form fields (`parseInt`, where None is NaN). */
module Wrappers {

  datatype Option<+T> = None | Some(value: T)
}
