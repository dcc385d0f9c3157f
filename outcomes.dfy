/** What an endpoint of the two catalogue services answers, with HTTP stripped away. */
module Outcomes {
  import opened Seqs

  /** An optional query parameter or header (`None` when the request does not give it). */
  datatype Option<T> = None | Some(value: T)

  /** `Ok` is a 200 answer with its body; `BadRequest` is the 400 answer with its JSON body
      (`None` for `null`); `NotFound` is the 404 answer; `ServerError` is an exception the
      handler does not catch, which the framework turns into a 500 answer. */
  datatype Outcome<T> =
    | Ok(value: T)
    | BadRequest(body: Option<string>)
    | NotFound
    | ServerError(reason: string)

  /** The body of a listing endpoint: `{"count": ..., "values": [...]}`. */
  datatype ValuesList<T> = ValuesList(count: int, values: seq<T>)

  /** The body of a listing endpoint built from a column: `sorted(column.unique())` with its
      length. Every value of the column appears once, in ascending order. */
  function Listing<T(==,!new)>(column: seq<T>, le: (T, T) -> bool): (r: ValuesList<T>)
    requires TotalOrder(le)
    ensures r.count == |r.values|
    ensures Sorted(r.values, le)
    ensures NoDup(r.values)
    ensures forall x :: x in r.values <==> x in column
  {
    SortedDistinctStrict(column, le);
    var values := SortedDistinct(column, le);
    ValuesList(|values|, values)
  }
}
