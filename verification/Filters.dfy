/** Selecting from a list, and what that means by positions: nothing is lost, doubled or moved. */
module Filters {

  /** The values of the elements that are wanted, in order. */
  function Filtered<T, V>(xs: seq<T>, wanted: T -> bool, value: T -> V): seq<V> {
    if xs == [] then []
    else
      var last := xs[|xs| - 1];
      if wanted(last) then Filtered(xs[..|xs| - 1], wanted, value) + [value(last)] else Filtered(xs[..|xs| - 1], wanted, value)
  }

  /** The positions before `i` of elements that are wanted. */
  ghost function WantedBefore<T>(xs: seq<T>, wanted: T -> bool, i: nat): set<nat>
    requires i <= |xs|
  {
    set j: nat | j < i && wanted(xs[j])
  }

  lemma {:induction false} WantedNext<T>(xs: seq<T>, wanted: T -> bool, i: nat)
    requires i < |xs|
    ensures WantedBefore(xs, wanted, i + 1) ==
            if wanted(xs[i]) then WantedBefore(xs, wanted, i) + {i} else WantedBefore(xs, wanted, i)
  {
  }

  lemma {:induction false} WantedOfPrefix<T>(xs: seq<T>, wanted: T -> bool, n: nat, i: nat)
    requires i <= n <= |xs|
    ensures WantedBefore(xs[..n], wanted, i) == WantedBefore(xs, wanted, i)
  {
  }

  /** Selecting gives as many values as there are elements that are wanted. */
  lemma {:induction false} FilteredSize<T, V>(xs: seq<T>, wanted: T -> bool, value: T -> V)
    ensures |Filtered(xs, wanted, value)| == |WantedBefore(xs, wanted, |xs|)|
  {
    if xs != [] {
      var n := |xs| - 1;
      FilteredSize(xs[..n], wanted, value);
      WantedOfPrefix(xs, wanted, n, n);
      WantedNext(xs, wanted, n);
    }
  }

  /** The value of an element that is wanted stands at the place that the wanted ones before it leave. */
  lemma {:induction false} FilteredAt<T, V>(xs: seq<T>, wanted: T -> bool, value: T -> V, i: nat)
    requires i < |xs| && wanted(xs[i])
    ensures |WantedBefore(xs, wanted, i)| < |Filtered(xs, wanted, value)|
    ensures Filtered(xs, wanted, value)[|WantedBefore(xs, wanted, i)|] == value(xs[i])
  {
    var n := |xs| - 1;
    WantedOfPrefix(xs, wanted, n, i);
    if i < n {
      FilteredAt(xs[..n], wanted, value, i);
    } else {
      FilteredSize(xs[..n], wanted, value);
    }
  }

  /** A value is selected exactly if some wanted element has it. */
  lemma {:induction false} FilteredMembers<T, V>(xs: seq<T>, wanted: T -> bool, value: T -> V, v: V)
    ensures v in Filtered(xs, wanted, value) <==> exists i :: 0 <= i < |xs| && wanted(xs[i]) && value(xs[i]) == v
  {
    if xs != [] {
      var n := |xs| - 1;
      FilteredMembers(xs[..n], wanted, value, v);
      if i :| 0 <= i < |xs| && wanted(xs[i]) && value(xs[i]) == v {
        if i < n {
          assert xs[..n][i] == xs[i];
        }
      }
      if i :| 0 <= i < n && wanted(xs[..n][i]) && value(xs[..n][i]) == v {
        assert xs[i] == xs[..n][i];
      }
      assert xs[n] == xs[|xs| - 1];
    }
  }

  /** `ys` are the values of the wanted elements: each once, and in their order. */
  ghost predicate IsSelection<T, V>(ys: seq<V>, xs: seq<T>, wanted: T -> bool, value: T -> V) {
    && |ys| == |WantedBefore(xs, wanted, |xs|)|
    && (forall i :: 0 <= i < |xs| && wanted(xs[i]) ==>
          |WantedBefore(xs, wanted, i)| < |ys| && ys[|WantedBefore(xs, wanted, i)|] == value(xs[i]))
  }

  lemma {:induction false} FilteredIsSelection<T, V>(xs: seq<T>, wanted: T -> bool, value: T -> V)
    ensures IsSelection(Filtered(xs, wanted, value), xs, wanted, value)
  {
    FilteredSize(xs, wanted, value);
    forall i | 0 <= i < |xs| && wanted(xs[i])
      ensures |WantedBefore(xs, wanted, i)| < |Filtered(xs, wanted, value)|
      ensures Filtered(xs, wanted, value)[|WantedBefore(xs, wanted, i)|] == value(xs[i])
    {
      FilteredAt(xs, wanted, value, i);
    }
  }
}
