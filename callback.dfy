/** Values that cross the boundary of a Dash callback: the optional control
    values a callback receives, the table it builds, and the three ways a
    callback body can end (no update, a Python exception, new figures). */
module Callback {

  /** A control value that may be Python's `None` (a cleared dropdown). */
  datatype Option<T> = None | Some(value: T)

  /** A closed interval: the value of a two-handled range slider, an axis
      range or a colour range. */
  datatype Interval = Interval(low: int, high: int) {
    predicate Contains(x: int) {
      low <= x <= high
    }
  }

  /** The exceptions a callback body can raise on the inputs it is given. */
  datatype Error =
    | NotSubscriptable       // `None[0]`: the range slider's value is None
    | NotIterable            // `for j in None`: the dropdown's value is None
    | EmptyConcatenation     // `np.concatenate([])`: nothing to join
    | ColumnNotFound         // `df[name]` for a name that is not a numeric column
    | UnboundLocal(name: string)  // a local variable read before it is assigned

  datatype Result<T> = Ok(value: T) | Err(error: Error)

  /** How a callback body ends: `dash.no_update`, an exception, or new figure data. */
  datatype Outcome<T> = NoUpdate | Raised(error: Error) | Updated(value: T)

  /** A data frame: its column list and its rows, in order. */
  datatype Table<R> = Table(columns: seq<string>, rows: seq<R>)

  /** Python truthiness of a list or a string that may be None:
      None and the empty sequence are false, anything else is true. */
  predicate IsTruthy<T>(v: Option<seq<T>>): (truthy: bool)
    ensures !truthy <==> v == None || v == Some([])
  {
    v.Some? && |v.value| > 0
  }
}
