/** An optional value: the `null` / `None` of the bot's lookups. */
module Wrappers {

  datatype Option<+T> = None | Some(value: T)
}
