/** Shared vocabulary of the fake-transaction generator. */
module Common {

  /** A cell site's `cel_uid`. */
  type SiteId = string

  /** A subscriber's `sub_uid`. */
  type SubId = string

  /** The ways a run stops with an exception instead of writing any rows. */
  datatype Error =
    /** the start-hour draw from `range(cap_start_hr)` has nothing to draw from */
    | EmptyStartHourRange
    /** the home-site draw from the cell-site column has nothing to draw from */
    | NoCellsites
    /** a move was drawn while standing at `site`, which keeps no destination */
    | NoNeighbours(site: SiteId)
    /** no row was walked, so the output table never got the columns that
        the final column selection asks for */
    | NoTransactions

  datatype Result<T> = Ok(value: T) | Err(error: Error)

  /** No value occurs twice. */
  predicate Distinct<T(==)>(s: seq<T>) {
    forall i, j | 0 <= i < j < |s| :: s[i] != s[j]
  }

  function Min(a: int, b: int): int {
    if a <= b then a else b
  }
}
