/** Concatenation of a list of lists, shared by the batching and sparse-tensor models. */
module Seqs {

  /** `ss[0] + ss[1] + ... + ss[|ss| - 1]`, peeled from the end as a loop appends. */
  function Concat<T>(ss: seq<seq<T>>): seq<T> {
    if ss == [] then [] else Concat(ss[..|ss| - 1]) + ss[|ss| - 1]
  }

  /** Concatenation distributes over `+`. */
  lemma {:induction false} ConcatAppend<T>(a: seq<seq<T>>, b: seq<seq<T>>)
    ensures Concat(a + b) == Concat(a) + Concat(b)
    decreases |b|
  {
    if b == [] {
      assert a + b == a;
    } else {
      var last := |b| - 1;
      assert (a + b)[..|a + b| - 1] == a + b[..last];
      ConcatAppend(a, b[..last]);
    }
  }

  /** The concatenation is empty exactly when every part is. */
  lemma {:induction false} ConcatEmpty<T>(ss: seq<seq<T>>)
    ensures Concat(ss) == [] <==> forall i :: 0 <= i < |ss| ==> ss[i] == []
    decreases |ss|
  {
    if ss != [] {
      var init := ss[..|ss| - 1];
      ConcatEmpty(init);
      assert forall i :: 0 <= i < |init| ==> init[i] == ss[i];
    }
  }

  /** A single part concatenates to itself. */
  lemma ConcatSingle<T>(x: seq<T>)
    ensures Concat([x]) == x
  {
    assert [x][..0] == [];
  }

  /** The positions are strictly increasing. */
  ghost predicate Increasing(positions: seq<nat>) {
    forall k, l :: 0 <= k < l < |positions| ==> positions[k] < positions[l]
  }

  /** Appending a position beyond every position keeps the positions increasing. */
  lemma IncreasingStep(before: seq<nat>, kept: seq<nat>, n: nat)
    requires Increasing(before)
    requires forall k :: 0 <= k < |before| ==> before[k] < n
    requires kept == before + [n] || kept == before
    ensures Increasing(kept)
  {
  }
}
