/** Optional and failing results shared by every module. */
module Wrappers {
  datatype Option<+T> = None | Some(value: T)

  datatype Result<+T, +E> = Ok(value: T) | Err(error: E)

  datatype Outcome<+E> = Pass | Fail(error: E)

  function Unless<E>(good: bool, error: E): Outcome<E> {
    if good then Pass else Fail(error)
  }

  /** The first failure of two checks made in order. */
  function Both<E>(first: Outcome<E>, second: Outcome<E>): Outcome<E> {
    if first.Fail? then first else second
  }

  /** The first failure of a list of checks. */
  function First<E>(checks: seq<Outcome<E>>): (verdict: Outcome<E>)
    ensures verdict.Pass? <==> forall i :: 0 <= i < |checks| ==> checks[i].Pass?
  {
    if checks == [] then Pass else if checks[0].Fail? then checks[0] else First(checks[1..])
  }

  lemma {:induction false} FirstIsEarliest<E>(checks: seq<Outcome<E>>, k: nat)
    requires k < |checks| && checks[k].Fail?
    requires forall i :: 0 <= i < k ==> checks[i].Pass?
    ensures First(checks) == checks[k]
  {
    if k > 0 {
      FirstIsEarliest(checks[1..], k - 1);
    }
  }
}
