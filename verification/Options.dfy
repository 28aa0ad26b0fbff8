/** The optional value used throughout for Go's zero times, empty strings and absent rows. */
module Options {

  datatype Option<+T> = None | Some(value: T) {
    function GetOr(default: T): T {
      if Some? then value else default
    }
  }
}
