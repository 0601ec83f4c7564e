/** Option, Result and the faults the repository raises, shared by every module. */
module Wrappers {

  datatype Option<+T> = None | Some(value: T)

  /** The exceptions the modelled code throws (or the action results it returns early). */
  datatype Fault =
    | InvalidOperation(message: string)
    | BadRequest(message: string)
    | Unauthorized(message: string)
    | NotFound
    | AuthorizationFailure(message: string)
    | NotImplemented
    | NullReference
    | ArgumentOutOfRange
    | DuplicateKey
    | StoreFault

  datatype Result<+T> = Success(value: T) | Failure(error: Fault)

  datatype Outcome = Pass | Fail(error: Fault)

  /** C#'s `a ?? b` on a nullable value. */
  function OrElse<T>(o: Option<T>, default: T): (r: T)
    ensures o.Some? ==> r == o.value
    ensures o.None? ==> r == default
  {
    match o
    case Some(v) => v
    case None => default
  }

  // ---------------------------------------------------------------- lists of results

  /** `front` put before a successful list; a failure passes through. */
  function Prepend<T>(front: seq<T>, r: Result<seq<T>>): (p: Result<seq<T>>)
    ensures p.Success? <==> r.Success?
    ensures p.Success? ==> p.value == front + r.value
    ensures p.Failure? ==> p == r
  {
    if r.Success? then Success(front + r.value) else r
  }

  /** `f` applied to every key in order; the first failure is the result. */
  function Collect<K, V>(keys: seq<K>, f: K -> Result<V>): (r: Result<seq<V>>)
    ensures r.Success? <==> forall i :: 0 <= i < |keys| ==> f(keys[i]).Success?
    ensures r.Success? ==> |r.value| == |keys| && forall i :: 0 <= i < |keys| ==> f(keys[i]) == Success(r.value[i])
    ensures r.Failure? ==> exists i :: 0 <= i < |keys| && f(keys[i]) == Failure(r.error)
  {
    if keys == [] then Success([])
    else
      assert forall i :: 1 <= i < |keys| ==> keys[i] == keys[1..][i - 1];
      match f(keys[0])
      case Failure(e) => Failure(e)
      case Success(v) =>
        match Collect(keys[1..], f)
        case Failure(e) => Failure(e)
        case Success(vs) => Success([v] + vs)
  }

  /** Putting `a` before `b` before a list is putting `a + b` before it. */
  lemma PrependTwice<T>(a: seq<T>, b: seq<T>, r: Result<seq<T>>)
    ensures Prepend(a, Prepend(b, r)) == Prepend(a + b, r)
  {
    if r.Success? {
      assert a + (b + r.value) == (a + b) + r.value;
    }
  }

  /** Collecting from the whole list is collecting with nothing in front. */
  lemma CollectPrepend<K, V>(keys: seq<K>, f: K -> Result<V>)
    ensures Collect(keys, f) == Prepend([], Collect(keys, f))
  {
    if Collect(keys, f).Success? {
      assert [] + Collect(keys, f).value == Collect(keys, f).value;
    }
  }

  /** One step of Collect from position `i`: its key's result, then the rest. */
  lemma CollectStep<K, V>(keys: seq<K>, i: nat, f: K -> Result<V>)
    requires i < |keys|
    ensures f(keys[i]).Failure? ==> Collect(keys[i..], f) == Failure(f(keys[i]).error)
    ensures f(keys[i]).Success? ==> Collect(keys[i..], f) == Prepend([f(keys[i]).value], Collect(keys[i + 1..], f))
  {
    assert keys[i..][0] == keys[i];
    assert keys[i..][1..] == keys[i + 1..];
  }
}
