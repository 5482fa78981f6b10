/**
  The replay cache around an effectful action. A request stands for its own hash,
  which is taken to be injective; an action is a function of the store that either
  throws or gives a new store and a value.
 */
module Idempotency {
  import opened Prelude

  datatype Record<R, V> = Record(request: R, value: V)

  datatype Response<V> = Response(replayed: bool, value: V)

  /** Errors of the service itself, or of the action it was given. */
  datatype ExecuteError<E> = InvalidKey | KeyReused | ActionFailed(error: E)

  datatype Executed<S, R, V, E> = Executed(
    records: map<string, Record<R, V>>,
    store: S,
    response: Result<Response<V>, ExecuteError<E>>)

  predicate IsKeyCharacter(c: char) {
    'A' <= c <= 'Z' || 'a' <= c <= 'z' || '0' <= c <= '9' || c in {'.', '_', ':', '-'}
  }

  predicate IsValidKey(key: Option<string>) {
    key.Some? && 8 <= |key.value| <= 200 && forall i | 0 <= i < |key.value| :: IsKeyCharacter(key.value[i])
  }

  function RecordKey(operation: string, key: string): string {
    operation + ":" + key
  }

  /** `acted` is what the action gives on this store; it counts only if the key is new. */
  function Execute<S, R(==), V, E>(
      records: map<string, Record<R, V>>, store: S, operation: string, key: Option<string>, request: R,
      acted: Result<(S, V), E>)
    : Executed<S, R, V, E>
  {
    if !IsValidKey(key) then
      Executed(records, store, Err(InvalidKey))
    else
      var recordKey := RecordKey(operation, key.value);
      if recordKey in records then
        if records[recordKey].request != request then Executed(records, store, Err(KeyReused))
        else Executed(records, store, Ok(Response(true, records[recordKey].value)))
      else
        match acted
        case Err(error) => Executed(records, store, Err(ActionFailed(error)))
        case Ok((changed, value)) =>
          Executed(records[recordKey := Record(request, value)], changed, Ok(Response(false, value)))
  }

  /******* Record keys *******/

  /** The first colon splits a string in one way only. */
  lemma FirstColonSplitsOneWay(a: string, x: string, b: string, y: string)
    requires ':' !in a && ':' !in b
    requires a + ":" + x == b + ":" + y
    ensures a == b && x == y
  {
    var whole := a + ":" + x;
    assert whole == b + ":" + y;
    assert whole[|a|] == ':' && whole[|b|] == ':';
    assert forall k | 0 <= k < |a| :: whole[k] == a[k] && a[k] in a;
    assert forall k | 0 <= k < |b| :: whole[k] == b[k] && b[k] in b;
    assert |a| == |b|;
    assert whole[..|a|] == a && whole[..|b|] == b;
    assert whole[|a| + 1..] == x && whole[|b| + 1..] == y;
  }

  /** The operation of deciding an inspection carries the inspection's id. */
  function DecideOperation(prefix: string, id: string): string {
    prefix + ":" + id
  }
}
