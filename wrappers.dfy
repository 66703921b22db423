/** Option and Result, and the combination of a sequence of results. */
module Wrappers {

  datatype Option<+T> = None | Some(value: T)

  datatype Result<+T, +E> = Ok(value: T) | Err(error: E)

  /** Puts `xs` in front of the list a successful computation returns; a failure passes through. */
  function Prefixed<T, E>(xs: seq<T>, r: Result<seq<T>, E>): Result<seq<T>, E> {
    if r.Ok? then Ok(xs + r.value) else r
  }

  lemma PrefixedSnoc<T, E>(xs: seq<T>, x: T, r: Result<seq<T>, E>)
    ensures Prefixed(xs, Prefixed([x], r)) == Prefixed(xs + [x], r)
  {
    assert r.Ok? ==> xs + ([x] + r.value) == (xs + [x]) + r.value;
  }

  /** The values of a sequence of results, in order, or the first failure among them. */
  function Collect<T, E>(rs: seq<Result<T, E>>): Result<seq<T>, E>
    decreases |rs|
  {
    if rs == [] then Ok([])
    else if rs[0].Err? then Err(rs[0].error)
    else Prefixed([rs[0].value], Collect(rs[1..]))
  }

  /** Collecting succeeds when every result does, and then keeps every value in place. */
  lemma {:induction false} CollectOk<T, E>(rs: seq<Result<T, E>>)
    ensures Collect(rs).Ok? <==> forall i :: 0 <= i < |rs| ==> rs[i].Ok?
    ensures Collect(rs).Ok? ==>
      |Collect(rs).value| == |rs| && forall i :: 0 <= i < |rs| ==> rs[i] == Ok(Collect(rs).value[i])
    decreases |rs|
  {
    if rs != [] {
      var rest := rs[1..];
      CollectOk(rest);
      assert forall i :: 1 <= i < |rs| ==> rs[i] == rest[i - 1];
    }
  }

  /** Collecting fails with the failure of the first result that fails. */
  lemma {:induction false} CollectFirstFailure<T, E>(rs: seq<Result<T, E>>)
    requires Collect(rs).Err?
    ensures exists k :: 0 <= k < |rs| && rs[k] == Err(Collect(rs).error) && forall i :: 0 <= i < k ==> rs[i].Ok?
    decreases |rs|
  {
    if rs[0].Ok? {
      var rest := rs[1..];
      CollectFirstFailure(rest);
      var k :| 0 <= k < |rest| && rest[k] == Err(Collect(rest).error) && forall i :: 0 <= i < k ==> rest[i].Ok?;
      assert rs[k + 1] == rest[k];
      assert forall i :: 1 <= i < k + 1 ==> rs[i] == rest[i - 1];
    }
  }
}
