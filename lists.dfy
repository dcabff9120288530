/** Two list idioms of the scraper: `links.extend(...)` for one item after
    another, and a loop that appends one result per item but stops at the
    first exception. */
module Lists {
  import opened Wrappers

  /** The lists `f` gives for the items, one after the other. */
  function ConcatMap<A, B>(xs: seq<A>, f: A -> seq<B>): seq<B> {
    if |xs| == 0 then [] else ConcatMap(xs[..|xs| - 1], f) + f(xs[|xs| - 1])
  }

  /** The lists of consecutive runs of items follow each other. */
  lemma {:induction false} ConcatMapAppend<A, B>(a: seq<A>, b: seq<A>, f: A -> seq<B>)
    ensures ConcatMap(a + b, f) == ConcatMap(a, f) + ConcatMap(b, f)
  {
    if |b| == 0 {
      assert a + b == a;
    } else {
      ConcatMapAppend(a, b[..|b| - 1], f);
      assert (a + b)[..|a + b| - 1] == a + b[..|b| - 1];
    }
  }

  /** An element is in the result exactly when it is in the list of one of the items. */
  lemma {:induction false} ConcatMapMember<A, B>(xs: seq<A>, f: A -> seq<B>)
    ensures forall y :: y in ConcatMap(xs, f) <==> exists i :: 0 <= i < |xs| && y in f(xs[i])
  {
    if |xs| > 0 {
      var init := xs[..|xs| - 1];
      ConcatMapMember(init, f);
      assert forall i :: 0 <= i < |init| ==> init[i] == xs[i];
    }
  }

  /** When every item gives `n` elements, the result has `n` per item. */
  lemma {:induction false} ConcatMapLength<A, B>(xs: seq<A>, f: A -> seq<B>, n: nat)
    requires forall i :: 0 <= i < |xs| ==> |f(xs[i])| == n
    ensures |ConcatMap(xs, f)| == |xs| * n
  {
    if |xs| > 0 {
      var init := xs[..|xs| - 1];
      assert forall i :: 0 <= i < |init| ==> init[i] == xs[i];
      ConcatMapLength(init, f, n);
      assert |init| * n + n == |xs| * n;
    }
  }

  /** `xs` put in front of a successful result; a failure stays as it is. */
  function Prepend<T, E>(xs: seq<T>, r: Result<seq<T>, E>): Result<seq<T>, E> {
    match r
    case Err(e) => Err(e)
    case Ok(rest) => Ok(xs + rest)
  }

  lemma PrependNothing<T, E>(r: Result<seq<T>, E>)
    ensures Prepend([], r) == r
  {
    if r.Ok? {
      assert [] + r.value == r.value;
    }
  }

  lemma PrependPrepend<T, E>(a: seq<T>, b: seq<T>, r: Result<seq<T>, E>)
    ensures Prepend(a, Prepend(b, r)) == Prepend(a + b, r)
  {
    if r.Ok? {
      assert a + (b + r.value) == a + b + r.value;
    }
  }

  /** The values of the results in order, or the first failure. */
  function Collect<T, E>(rs: seq<Result<T, E>>): Result<seq<T>, E> {
    if |rs| == 0 then Ok([])
    else
      match rs[0]
      case Err(e) => Err(e)
      case Ok(x) => Prepend([x], Collect(rs[1..]))
  }

  /** Collecting succeeds exactly when every result does, and then keeps
      every value in order; otherwise it fails with the first failure. */
  lemma {:induction false} CollectSpec<T, E>(rs: seq<Result<T, E>>)
    ensures Collect(rs).Ok? <==> forall i :: 0 <= i < |rs| ==> rs[i].Ok?
    ensures Collect(rs).Ok? ==>
      |Collect(rs).value| == |rs| && forall i :: 0 <= i < |rs| ==> Collect(rs).value[i] == rs[i].value
    ensures Collect(rs).Err? ==>
      exists i :: 0 <= i < |rs| && rs[i].Err? && Collect(rs).error == rs[i].error
        && forall j :: 0 <= j < i ==> rs[j].Ok?
  {
    if |rs| > 0 {
      var rest := rs[1..];
      CollectSpec(rest);
      assert forall i :: 1 <= i < |rs| ==> rs[i] == rest[i - 1];
      if rs[0].Ok? && Collect(rest).Err? {
        var i :| 0 <= i < |rest| && rest[i].Err? && Collect(rest).error == rest[i].error
          && forall j :: 0 <= j < i ==> rest[j].Ok?;
        assert rs[i + 1] == rest[i];
        assert forall j :: 0 <= j < i + 1 ==> rs[j].Ok? by {
          forall j | 0 <= j < i + 1 ensures rs[j].Ok? {
            if j > 0 {
              assert rs[j] == rest[j - 1];
            }
          }
        }
      }
    }
  }
}
