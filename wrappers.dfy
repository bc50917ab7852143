// Small value wrappers shared by every module of the model.
module Wrappers {
  /** A C pointer that may be NULL, or a lookup that may fail. */
  datatype Option<T> = None | Some(value: T)

  /** Which behaviour a decoder follows where the source has a flaw: the
      code as written, or what the code evidently intends. */
  datatype Reading = AsWritten | Corrected
}
