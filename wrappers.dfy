/** Option and Result, the model's stand-ins for C# null and for thrown exceptions. */
module Wrappers {

  datatype Option<+T> = None | Some(value: T)

  datatype Result<+T, +E> = Success(value: T) | Failure(error: E)

  /** Prefixes the successful value of `r` with `xs`; a failure passes through unchanged. */
  function Glue<T, E>(xs: seq<T>, r: Result<seq<T>, E>): (g: Result<seq<T>, E>)
    ensures g.Success? <==> r.Success?
    ensures g.Success? ==> g.value == xs + r.value
    ensures g.Failure? ==> g.error == r.error
  {
    match r
    case Success(ys) => Success(xs + ys)
    case Failure(e) => Failure(e)
  }

  lemma GlueGlue<T, E>(xs: seq<T>, ys: seq<T>, r: Result<seq<T>, E>)
    ensures Glue(xs, Glue(ys, r)) == Glue(xs + ys, r)
  {
    if r.Success? {
      assert xs + (ys + r.value) == (xs + ys) + r.value;
    }
  }

  lemma GlueNothing<T, E>(r: Result<seq<T>, E>)
    ensures Glue([], r) == r
  {
    if r.Success? {
      assert [] + r.value == r.value;
    }
  }

  /** The concatenation of a sequence of sequences. */
  function Flatten<T>(xss: seq<seq<T>>): seq<T>
  {
    if xss == [] then [] else xss[0] + Flatten(xss[1..])
  }

  /** The sum of the lengths of a sequence of sequences. */
  function TotalLength<T>(xss: seq<seq<T>>): nat
  {
    if xss == [] then 0 else |xss[0]| + TotalLength(xss[1..])
  }

  lemma {:induction false} FlattenLength<T>(xss: seq<seq<T>>)
    ensures |Flatten(xss)| == TotalLength(xss)
  {
    if xss != [] {
      FlattenLength(xss[1..]);
    }
  }

  /** Appending one more sequence appends its elements. */
  lemma {:induction false} FlattenSnoc<T>(xss: seq<seq<T>>, ys: seq<T>)
    ensures Flatten(xss + [ys]) == Flatten(xss) + ys
  {
    if xss == [] {
      assert [] + [ys] == [ys];
    } else {
      assert (xss + [ys])[1..] == xss[1..] + [ys];
      FlattenSnoc(xss[1..], ys);
    }
  }

  /** Applies `f` to the elements in order; the first failure is the result. */
  function Traverse<A, B, E>(xs: seq<A>, f: A -> Result<B, E>): Result<seq<B>, E>
  {
    if xs == [] then Success([])
    else match f(xs[0])
      case Failure(e) => Failure(e)
      case Success(y) => Glue([y], Traverse(xs[1..], f))
  }

  /**
   * A traversal succeeds if and only if `f` succeeds on every element; its
   * value then holds the results of `f`, one per element and in order.
   */
  lemma {:induction false} TraverseSuccess<A, B, E>(xs: seq<A>, f: A -> Result<B, E>)
    ensures Traverse(xs, f).Success? <==> forall i :: 0 <= i < |xs| ==> f(xs[i]).Success?
    ensures Traverse(xs, f).Success? ==>
      |Traverse(xs, f).value| == |xs| && forall i :: 0 <= i < |xs| ==> Traverse(xs, f).value[i] == f(xs[i]).value
  {
    if xs != [] {
      TraverseSuccess(xs[1..], f);
      if f(xs[0]).Success? {
        if Traverse(xs[1..], f).Success? {
          forall i | 0 <= i < |xs|
            ensures Traverse(xs, f).value[i] == f(xs[i]).value
          {
            if i > 0 {
              assert xs[1..][i - 1] == xs[i];
            }
          }
        } else {
          var i :| 0 <= i < |xs[1..]| && !f(xs[1..][i]).Success?;
          assert xs[1..][i] == xs[i + 1];
        }
      }
    }
  }

  /** Results that are, one by one, what `f` gives are what the traversal gives. */
  lemma {:induction false} TraverseOfResults<A, B, E>(xs: seq<A>, f: A -> Result<B, E>, ys: seq<B>)
    requires |ys| == |xs|
    requires forall j :: 0 <= j < |xs| ==> f(xs[j]) == Success(ys[j])
    ensures Traverse(xs, f) == Success(ys)
  {
    if xs != [] {
      forall j | 0 <= j < |xs[1..]|
        ensures f(xs[1..][j]) == Success(ys[1..][j])
      {
        assert xs[1..][j] == xs[j + 1];
      }
      TraverseOfResults(xs[1..], f, ys[1..]);
      assert [ys[0]] + ys[1..] == ys;
    }
  }

  /** A traversal that fails fails with the error of the first element `f` fails on. */
  lemma {:induction false} TraverseFailure<A, B, E>(xs: seq<A>, f: A -> Result<B, E>, k: nat)
    requires k < |xs| && f(xs[k]).Failure?
    requires forall i :: 0 <= i < k ==> f(xs[i]).Success?
    ensures Traverse(xs, f) == Failure(f(xs[k]).error)
  {
    if k > 0 {
      forall i | 0 <= i < k - 1
        ensures f(xs[1..][i]).Success?
      {
        assert xs[1..][i] == xs[i + 1];
      }
      assert xs[1..][k - 1] == xs[k];
      TraverseFailure(xs[1..], f, k - 1);
    }
  }

  /** One step of a traversal: the loop invariant of a method that traverses by hand. */
  lemma TraverseStep<A, B, E>(acc: seq<B>, xs: seq<A>, f: A -> Result<B, E>, k: nat)
    requires k < |xs| && f(xs[k]).Success?
    ensures Glue(acc, Traverse(xs[k..], f)) == Glue(acc + [f(xs[k]).value], Traverse(xs[k + 1..], f))
  {
    assert xs[k..][1..] == xs[k + 1..];
    GlueGlue(acc, [f(xs[k]).value], Traverse(xs[k + 1..], f));
  }
}
