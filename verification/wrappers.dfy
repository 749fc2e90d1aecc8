/** The optional-value datatype shared by the controllers: a browser value that may be
    `null` (a storage slot that was never written, a validation that found nothing wrong,
    a file slot that is empty) is `None`. */
module Wrappers {

  datatype Option<+T> = None | Some(value: T)
}
