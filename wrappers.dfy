/** The optional value used where the bot's code gets `None` back. */
module Wrappers {

  datatype Option<+T> = None | Some(value: T)

}
