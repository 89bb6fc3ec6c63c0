/** Result shapes shared by the model: an optional value, and the outcome of a
    call into a collaborator that may throw an exception carrying a message. */
module Wrappers {

  datatype Option<+T> = None | Some(value: T)

  /** `Threw(m)` stands for a .NET exception whose `Message` is `m`. */
  datatype Attempt<+T> = Ok(value: T) | Threw(message: string)
}
