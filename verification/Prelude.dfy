/** Vocabulary shared by every module of the model. */
module Prelude {

  datatype Option<+T> = None | Some(value: T)

  datatype Result<+T, +E> = Ok(value: T) | Err(error: E)

  /** A point on the database clock, in microseconds; `now()` never goes back. */
  type Instant = int

  const SECOND: int := 1_000_000

  /** The risk tier of an automation, which is also the severity of its incidents. */
  datatype Severity = Low | Medium | High | Critical

  /** What the connection does with one transaction; Lost commits and then reports an error. */
  datatype Connection = Healthy | Lost | Refused

  function Min(a: int, b: int): int {
    if a <= b then a else b
  }

  function Max(a: int, b: int): int {
    if a >= b then a else b
  }

  /******* Rows of a table *******/

  /** `where keep(row)`, in the order in which the rows were appended. */
  function Select<T>(rows: seq<T>, keep: T -> bool): seq<T> {
    if rows == [] then []
    else
      var before := Select(rows[..|rows| - 1], keep);
      var last := rows[|rows| - 1];
      if keep(last) then before + [last] else before
  }

  lemma SelectAppend<T>(rows: seq<T>, row: T, keep: T -> bool)
    ensures Select(rows + [row], keep) == if keep(row) then Select(rows, keep) + [row] else Select(rows, keep)
  {
    assert (rows + [row])[..|rows|] == rows;
  }

  lemma {:induction false} SelectIn<T>(rows: seq<T>, keep: T -> bool)
    ensures forall row :: row in Select(rows, keep) <==> row in rows && keep(row)
  {
    if rows != [] {
      var rest := rows[..|rows| - 1];
      assert rows == rest + [rows[|rows| - 1]];
      SelectIn(rest, keep);
    }
  }

  lemma SelectNone<T>(rows: seq<T>, keep: T -> bool)
    requires forall row | row in rows :: !keep(row)
    ensures Select(rows, keep) == []
  {
    SelectIn(rows, keep);
    assert |Select(rows, keep)| > 0 ==> Select(rows, keep)[0] in Select(rows, keep);
  }

  /******* Times *******/

  function Latest(times: seq<Instant>): (latest: Instant)
    requires times != []
    ensures latest in times && forall t | t in times :: t <= latest
  {
    if |times| == 1 then times[0]
    else
      var before := Latest(times[..|times| - 1]);
      assert forall t | t in times :: t in times[..|times| - 1] || t == times[|times| - 1];
      Max(before, times[|times| - 1])
  }

  function Earliest(times: seq<Instant>): (earliest: Instant)
    requires times != []
    ensures earliest in times && forall t | t in times :: earliest <= t
  {
    if |times| == 1 then times[0]
    else
      var before := Earliest(times[..|times| - 1]);
      assert forall t | t in times :: t in times[..|times| - 1] || t == times[|times| - 1];
      Min(before, times[|times| - 1])
  }
}
