/** Shared result shapes for the services: an optional value, and the outcome
    of an operation that either returns a value or throws. */
module Common {

  datatype Option<+T> = None | Some(value: T) {
    function GetOr(default: T): T {
      match this
      case Some(v) => v
      case None => default
    }
  }

  /** What a service call throws. `Rejected` carries the message the service
      puts in its exception; `NotFound` and `Unauthorized` stand for the
      error constants whose text lies outside this model, followed by the
      detail the service appends; `NullReference` is a dereference of a
      missing field. */
  datatype Error =
    | Rejected(message: string)
    | NotFound(detail: string)
    | Unauthorized(detail: string)
    | NullReference

  /** The message `Optional.get()` throws on an empty optional. */
  const NoValuePresent := "No value present"

  datatype Outcome<+T> = Ok(value: T) | Fail(error: Error)

  /** The position of the first element satisfying `p`, or -1: a repository
      lookup that returns the first matching record. */
  function FirstWhere<T>(xs: seq<T>, p: T -> bool): (k: int)
    ensures -1 <= k < |xs|
    ensures k >= 0 ==> p(xs[k]) && forall j :: 0 <= j < k ==> !p(xs[j])
    ensures k < 0 ==> forall j :: 0 <= j < |xs| ==> !p(xs[j])
  {
    if |xs| == 0 then -1
    else if p(xs[0]) then 0
    else
      var k := FirstWhere(xs[1..], p);
      if k < 0 then -1 else k + 1
  }

  /** The elements satisfying `p`, each as often as it occurs: a repository
      query returning every matching record. */
  function Filter<T>(xs: seq<T>, p: T -> bool): (r: seq<T>)
    ensures |r| <= |xs|
    ensures forall i :: 0 <= i < |r| ==> r[i] in xs && p(r[i])
    ensures forall i :: 0 <= i < |xs| && p(xs[i]) ==> xs[i] in r
  {
    if |xs| == 0 then []
    else
      var init := Filter(xs[..|xs| - 1], p);
      assert forall i :: 0 <= i < |xs| - 1 ==> xs[i] == xs[..|xs| - 1][i];
      if p(xs[|xs| - 1]) then init + [xs[|xs| - 1]] else init
  }

  /** Filtering keeps every matching element as often as it occurs. */
  lemma {:induction false} FilterCounts<T>(xs: seq<T>, p: T -> bool, x: T)
    requires p(x)
    ensures multiset(Filter(xs, p))[x] == multiset(xs)[x]
  {
    if |xs| > 0 {
      var init := xs[..|xs| - 1];
      FilterCounts(init, p, x);
      assert xs == init + [xs[|xs| - 1]];
    }
  }
}
