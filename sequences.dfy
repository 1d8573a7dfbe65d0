/**
 * Keeping the elements of a sequence that pass a test, converted, in their
 * original order: the shape shared by the location filter and the sheet
 * readers, proved once here.
 */
module Sequences {

  /** The elements of `xs` satisfying `p`, each converted by `f`, in order. */
  function FilterMap<T(!new), U>(xs: seq<T>, p: T -> bool, f: T --> U): seq<U>
    requires forall x :: p(x) ==> f.requires(x)
    decreases |xs|
  {
    if xs == [] then []
    else
      var last := xs[|xs| - 1];
      FilterMap(xs[..|xs| - 1], p, f) + (if p(last) then [f(last)] else [])
  }

  /** The result is indexed by an increasing list of positions: exactly the
      positions whose element satisfies `p`, each converted by `f`. */
  lemma {:induction false} FilterMapIndexes<T(!new), U>(xs: seq<T>, p: T -> bool, f: T --> U) returns (idx: seq<nat>)
    requires forall x :: p(x) ==> f.requires(x)
    ensures var r := FilterMap(xs, p, f);
      && |idx| == |r| <= |xs|
      && (forall k :: 0 <= k < |idx| ==> idx[k] < |xs| && p(xs[idx[k]]) && r[k] == f(xs[idx[k]]))
      && (forall k, k' :: 0 <= k < k' < |idx| ==> idx[k] < idx[k'])
      && (forall i :: 0 <= i < |xs| ==> (i in idx <==> p(xs[i])))
    decreases |xs|
  {
    if xs == [] {
      idx := [];
    } else {
      var n := |xs| - 1;
      var init := xs[..n];
      var prev := FilterMapIndexes(init, p, f);
      var r0 := FilterMap(init, p, f);
      assert forall i :: 0 <= i < n ==> init[i] == xs[i];
      if p(xs[n]) {
        assert FilterMap(xs, p, f) == r0 + [f(xs[n])];
        idx := prev + [n];
        forall i | 0 <= i < |xs| ensures i in idx <==> p(xs[i]) {
          if i == n {
            assert idx[|prev|] == n;
          } else {
            assert i in idx <==> i in prev;
          }
        }
      } else {
        assert FilterMap(xs, p, f) == r0;
        idx := prev;
        forall i | 0 <= i < |xs| ensures i in idx <==> p(xs[i]) {
          if i == n {
            assert n !in prev;
          }
        }
      }
    }
  }
}
