/** The optional-value datatype shared by the models: `None` stands for the
    JavaScript `undefined` that a failed lookup produces. */
module Wrappers {

  datatype Option<+T> = None | Some(value: T)
}
