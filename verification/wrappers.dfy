/** The optional value shared by the model. */
module Wrappers {

  /**
   A value that may be absent: `None` stands for a missing piece of a split key (the
   index exception of `Split("/")[2]`) and for a token that publishes nothing.
   */
  datatype Option<+T> = None | Some(value: T)
}
