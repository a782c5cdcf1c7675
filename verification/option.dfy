/** The `None`-or-value results of the parsing helpers, and the crash point of
    the solver's tuple unpacking. */
module Optional {

  datatype Option<+T> = None | Some(value: T)
}
