/** The wrappers that stand for Go's nil pointers and error returns. */
module Basics {

  datatype Option<+T> = None | Some(value: T) {
    function GetOr(default: T): T {
      if Some? then value else default
    }
  }

  /** A row id. Ids come from sequences and are positive; 0 stands for no row. */
  datatype Id = Id(number: nat)

  /** The loop that appends one result per element. */
  method AppendAll<A, B>(f: A -> B, xs: seq<A>) returns (ys: seq<B>)
    ensures |ys| == |xs| && forall i :: 0 <= i < |xs| ==> ys[i] == f(xs[i])
  {
    ys := [];
    for i := 0 to |xs|
      invariant |ys| == i && forall j :: 0 <= j < i ==> ys[j] == f(xs[j])
    {
      ys := ys + [f(xs[i])];
    }
  }

  /** Taking one more element of a set: what is done grows by it. */
  lemma TakenFrom<T>(all: set<T>, pending: set<T>, x: T)
    requires pending <= all && x in pending
    ensures all - (pending - {x}) == all - pending + {x}
  {}

  /** A list with the elements of another and one more is that list with one more. */
  lemma OneMore<T>(xs: seq<T>, ys: seq<T>, last: T)
    requires |ys| == |xs| + 1 && ys[|xs|] == last
    requires forall i: nat :: i < |xs| ==> ys[i] == xs[i]
    ensures ys == xs + [last]
  {}

  /** Positions in a list of length n, each once and in order. */
  ghost predicate Ascending(positions: seq<nat>, n: nat) {
    (forall i :: 0 <= i < |positions| ==> positions[i] < n)
    && forall i, j :: 0 <= i < j < |positions| ==> positions[i] < positions[j]
  }

  /** The positions whose elements are kept. */
  function Kept<T>(keep: T -> bool, xs: seq<T>): (positions: seq<nat>)
    ensures Ascending(positions, |xs|)
    ensures forall k: nat :: k < |xs| ==> (k in positions <==> keep(xs[k]))
  {
    if xs == [] then []
    else
      var before := Kept(keep, xs[..|xs| - 1]);
      assert (before + [|xs| - 1])[|before|] == |xs| - 1;
      if keep(xs[|xs| - 1]) then before + [|xs| - 1] else before
  }

  /** A list holds the images of the elements that are kept, in order. */
  ghost predicate MapsKept<A(!new), B(!new)>(keep: A -> bool, f: A -> B, xs: seq<A>, ys: seq<B>) {
    |ys| == |Kept(keep, xs)| && forall i :: 0 <= i < |ys| ==> ys[i] == f(xs[Kept(keep, xs)[i]])
  }

  lemma MapsOneMore<A(!new), B(!new)>(keep: A -> bool, f: A -> B, xs: seq<A>, last: A, ys: seq<B>)
    requires MapsKept(keep, f, xs, ys)
    ensures MapsKept(keep, f, xs + [last], ys + if keep(last) then [f(last)] else [])
  {
    assert (xs + [last])[..|xs|] == xs;
  }

  datatype Result<+T, +E> = Ok(value: T) | Err(error: E)
}
