/** Failure-compatible wrappers used throughout the model: PHP's `null` becomes
    `None`, a thrown `moodle_exception` becomes `Failure`. */
module Wrappers {

  datatype Option<+T> = None | Some(value: T) {
    function GetOr(default: T): T {
      match this
      case Some(v) => v
      case None => default
    }

    predicate IsFailure() {
      None?
    }

    function PropagateFailure<U>(): Option<U>
      requires None?
    {
      None
    }

    function Extract(): T
      requires Some?
    {
      value
    }
  }

  datatype Result<+R, +E> = Success(value: R) | Failure(error: E) {
    predicate IsFailure() {
      Failure?
    }

    function PropagateFailure<U>(): Result<U, E>
      requires Failure?
    {
      Failure(error)
    }

    function Extract(): R
      requires Success?
    {
      value
    }
  }

  /** The values `f` yields on `xs[..k]`, in order, skipping the entries on
      which it yields none: PHP's loop that appends to a list only when a
      step succeeds. */
  function Kept<A, B>(f: A -> Option<B>, xs: seq<A>, k: nat): (ys: seq<B>)
    requires k <= |xs|
    ensures |ys| <= k
  {
    if k == 0 then []
    else Kept(f, xs, k - 1) + (if f(xs[k - 1]).Some? then [f(xs[k - 1]).value] else [])
  }

  /** A value is kept exactly when some entry yields it. */
  lemma {:induction false} KeptMembers<A, B>(f: A -> Option<B>, xs: seq<A>, k: nat)
    requires k <= |xs|
    ensures forall y :: y in Kept(f, xs, k) <==> exists i :: 0 <= i < k && f(xs[i]) == Some(y)
  {
    if k > 0 {
      KeptMembers(f, xs, k - 1);
    }
  }

  /** Nothing is kept exactly when no entry yields a value. */
  lemma {:induction false} KeptEmpty<A, B>(f: A -> Option<B>, xs: seq<A>, k: nat)
    requires k <= |xs|
    ensures Kept(f, xs, k) == [] <==> forall i :: 0 <= i < k ==> f(xs[i]).None?
  {
    if k > 0 {
      KeptEmpty(f, xs, k - 1);
    }
  }

  /** Later entries only add values after the earlier ones: the input order is kept. */
  lemma {:induction false} KeptPrefix<A, B>(f: A -> Option<B>, xs: seq<A>, m: nat, n: nat)
    requires m <= n <= |xs|
    ensures Kept(f, xs, m) <= Kept(f, xs, n)
  {
    if m < n {
      KeptPrefix(f, xs, m, n - 1);
    }
  }

  /** Every entry is kept exactly when every entry yields a value, and then
      the kept list is the entries' values, position for position. */
  lemma {:induction false} KeptFull<A, B>(f: A -> Option<B>, xs: seq<A>, k: nat)
    requires k <= |xs|
    ensures |Kept(f, xs, k)| == k <==> forall i :: 0 <= i < k ==> f(xs[i]).Some?
    ensures |Kept(f, xs, k)| == k ==> forall i :: 0 <= i < k ==> Kept(f, xs, k)[i] == f(xs[i]).value
  {
    if k > 0 {
      KeptFull(f, xs, k - 1);
    }
  }

  /** When every entry yields itself, the first `k` entries are kept as they are. */
  lemma {:induction false} KeptIdentity<A>(f: A -> Option<A>, xs: seq<A>, k: nat)
    requires k <= |xs|
    requires forall i :: 0 <= i < k ==> f(xs[i]) == Some(xs[i])
    ensures Kept(f, xs, k) == xs[..k]
  {
    if k > 0 {
      KeptIdentity(f, xs, k - 1);
      assert xs[..k] == xs[..k - 1] + [xs[k - 1]];
    }
  }

  /** Only the first `k` entries matter. */
  lemma {:induction false} KeptSamePrefix<A, B>(f: A -> Option<B>, xs: seq<A>, zs: seq<A>, k: nat)
    requires k <= |xs| && k <= |zs|
    requires forall i :: 0 <= i < k ==> xs[i] == zs[i]
    ensures Kept(f, xs, k) == Kept(f, zs, k)
  {
    if k > 0 {
      KeptSamePrefix(f, xs, zs, k - 1);
    }
  }

  /** Keeping over a concatenation keeps over each part. */
  lemma {:induction false} KeptAppend<A, B>(f: A -> Option<B>, xs: seq<A>, ys: seq<A>, k: nat)
    requires k <= |ys|
    ensures Kept(f, xs + ys, |xs| + k) == Kept(f, xs, |xs|) + Kept(f, ys, k)
  {
    if k == 0 {
      KeptSamePrefix(f, xs + ys, xs, |xs|);
    } else {
      KeptAppend(f, xs, ys, k - 1);
      assert (xs + ys)[|xs| + k - 1] == ys[k - 1];
    }
  }
}
