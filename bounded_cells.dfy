/** count_bounded_cells_cpp: the number of Voronoi cells that have no
    infinite vertex, given one "has an infinite vertex" flag per cell. */
module BoundedCells {

  /** Number of false flags, peeling the last flag so that it follows the
      order in which the counting loop visits the vector. */
  function CountFalse(flags: seq<bool>): (count: nat)
    ensures count <= |flags|
  {
    if flags == [] then 0
    else CountFalse(flags[..|flags| - 1]) + (if flags[|flags| - 1] then 0 else 1)
  }

  /** The indices of the bounded cells. */
  ghost function BoundedIndices(flags: seq<bool>): (s: set<nat>)
  {
    set i: nat | i < |flags| && !flags[i]
  }

  /** The count is exactly the number of indices whose flag is false. */
  lemma {:induction false} CountFalseIsCardinality(flags: seq<bool>)
    ensures CountFalse(flags) == |BoundedIndices(flags)|
  {
    if flags != [] {
      var n := |flags| - 1;
      var init := flags[..n];
      CountFalseIsCardinality(init);
      assert forall i :: 0 <= i < n ==> init[i] == flags[i];
      if flags[n] {
        assert BoundedIndices(flags) == BoundedIndices(init);
      } else {
        assert BoundedIndices(flags) == BoundedIndices(init) + {n};
        assert n !in BoundedIndices(init);
      }
    }
  }

  /** With no infinite vertex anywhere, every cell is bounded. */
  lemma {:induction false} CountFalseNoneInfinite(flags: seq<bool>)
    requires forall i :: 0 <= i < |flags| ==> !flags[i]
    ensures CountFalse(flags) == |flags|
  {
    if flags != [] {
      CountFalseNoneInfinite(flags[..|flags| - 1]);
    }
  }

  /** With an infinite vertex in every cell, no cell is bounded. */
  lemma {:induction false} CountFalseAllInfinite(flags: seq<bool>)
    requires forall i :: 0 <= i < |flags| ==> flags[i]
    ensures CountFalse(flags) == 0
  {
    if flags != [] {
      CountFalseAllInfinite(flags[..|flags| - 1]);
    }
  }

  /** The kernel: one pass over the flags, incrementing on each false one.
      It has no modifies clause, so the flag vector is left as it was. */
  method CountBoundedCells(hasInfinite: array<bool>) returns (count: nat)
    ensures count == CountFalse(hasInfinite[..])
    ensures count == |BoundedIndices(hasInfinite[..])|
    ensures count <= hasInfinite.Length
  {
    count := 0;
    var i := 0;
    while i < hasInfinite.Length
      invariant 0 <= i <= hasInfinite.Length
      invariant count == CountFalse(hasInfinite[..i])
    {
      assert hasInfinite[..i + 1][..i] == hasInfinite[..i];
      if !hasInfinite[i] {
        count := count + 1;
      }
      i := i + 1;
    }
    assert hasInfinite[..i] == hasInfinite[..];
    CountFalseIsCardinality(hasInfinite[..]);
  }
}
