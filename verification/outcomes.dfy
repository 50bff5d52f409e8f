/** Failure-carrying values shared by every module of the model.

    The modelled program is written in a language with exceptions. A call
    that may throw is modelled as returning an `Outcome`: either the value it
    returned or the text of the exception it raised (what `str(e)` yields in
    the handler that catches it).
 */
module Outcomes {

  /** An optional value, for attributes that may be absent (a message's `name`). */
  datatype Option<+T> = None | Some(value: T)

  /** The result of a call that either returns a value or raises an exception
      whose message is `error`. */
  datatype Outcome<+T> = Ok(value: T) | Raised(error: string) {

    predicate IsFailure() {
      Raised?
    }

    function PropagateFailure<U>(): Outcome<U>
      requires Raised?
    {
      Raised(error)
    }

    function Extract(): T
      requires Ok?
    {
      value
    }
  }

  /** Applies `f` to each element in order, as a Python loop or list
      comprehension does; the first exception ends the loop and is the
      result. */
  function MapAll<A, B>(xs: seq<A>, f: A -> Outcome<B>): (r: Outcome<seq<B>>)
    ensures r.Ok? ==> (|r.value| == |xs|
      && forall i :: 0 <= i < |xs| ==> f(xs[i]) == Ok(r.value[i]))
    ensures r.Raised? ==> exists i :: 0 <= i < |xs| && f(xs[i]) == Raised(r.error)
    decreases |xs|
  {
    if |xs| == 0 then Ok([])
    else
      match f(xs[0])
      case Raised(e) => Raised(e)
      case Ok(v) =>
        match MapAll(xs[1..], f)
        case Raised(e) => Raised(e)
        case Ok(vs) => Ok([v] + vs)
  }

  /** One more element either fails the whole loop or adds one result. */
  lemma {:induction false} MapAllSnoc<A, B>(xs: seq<A>, x: A, f: A -> Outcome<B>)
    requires MapAll(xs, f).Ok?
    ensures MapAll(xs + [x], f) ==
      match f(x)
      case Raised(e) => Raised(e)
      case Ok(v) => Ok(MapAll(xs, f).value + [v])
    decreases |xs|
  {
    var t := xs + [x];
    if |xs| == 0 {
      assert t[0] == x && t[1..] == [];
      assert MapAll(t[1..], f) == Ok([]);
      assert MapAll(xs, f).value == [];
      match f(x)
      case Raised(e) =>
        assert MapAll(t, f) == Raised(e);
      case Ok(v) =>
        assert MapAll(t, f) == Ok([v] + []);
        assert [v] + [] == [] + [v];
    } else {
      assert t[1..] == xs[1..] + [x];
      assert t[0] == xs[0];
      var v0 := f(xs[0]).value;
      var vs := MapAll(xs[1..], f).value;
      assert MapAll(xs, f).value == [v0] + vs;
      MapAllSnoc(xs[1..], x, f);
      if f(x).Ok? {
        assert [v0] + (vs + [f(x).value]) == [v0] + vs + [f(x).value];
      }
    }
  }

  /** Elements after a failure are never visited. */
  lemma {:induction false} MapAllStopsAtFailure<A, B>(xs: seq<A>, ys: seq<A>, f: A -> Outcome<B>)
    requires MapAll(xs, f).Raised?
    ensures MapAll(xs + ys, f) == MapAll(xs, f)
    decreases |xs|
  {
    assert |xs| > 0;
    assert (xs + ys)[0] == xs[0];
    if f(xs[0]).Ok? {
      assert (xs + ys)[1..] == xs[1..] + ys;
      MapAllStopsAtFailure(xs[1..], ys, f);
    }
  }

  /** The loop succeeds when every element does. */
  lemma {:induction false} MapAllSucceeds<A, B>(xs: seq<A>, f: A -> Outcome<B>)
    requires forall x :: x in xs ==> f(x).Ok?
    ensures MapAll(xs, f).Ok?
    decreases |xs|
  {
    if |xs| > 0 {
      assert xs[0] in xs;
      assert forall x :: x in xs[1..] ==> x in xs;
      MapAllSucceeds(xs[1..], f);
    }
  }

  /** The loop raises the exception of the first item that raises. */
  lemma MapAllFirstFailure<A, B>(xs: seq<A>, f: A -> Outcome<B>, k: nat)
    requires k < |xs| && f(xs[k]).Raised?
    requires forall j :: 0 <= j < k ==> f(xs[j]).Ok?
    ensures MapAll(xs, f) == Raised(f(xs[k]).error)
  {
    var before := xs[..k];
    assert xs == before + [xs[k]] + xs[k + 1..] by {
      assert xs[..k + 1] == before + [xs[k]];
      assert xs == xs[..k + 1] + xs[k + 1..];
    }
    assert MapAll(before, f).Ok? by {
      forall x | x in before
        ensures f(x).Ok?
      {
        var j :| 0 <= j < k && before[j] == x;
      }
      MapAllSucceeds(before, f);
    }
    assert MapAll(before + [xs[k]], f) == Raised(f(xs[k]).error) by {
      MapAllSnoc(before, xs[k], f);
    }
    MapAllStopsAtFailure(before + [xs[k]], xs[k + 1..], f);
  }
}
