/**
 * `target_list_to_sparse_tensor` (persephone/utils.py): a ragged list of label sequences
 * as the (indices, values, shape) triple of a sparse tensor in coordinate layout.
 */
module Sparse {
  import opened Builtins
  import opened Seqs

  /** Coordinates are `[t_i, seq_i]`: which target, and which position inside it. */
  type Coordinate = (nat, nat)

  datatype SparseTensor<T> = SparseTensor(indices: seq<Coordinate>, values: seq<T>, shape: (nat, nat))

  /** The coordinates of the `n` labels of target `row`. */
  function RowCoordinates(row: nat, n: nat): seq<Coordinate> {
    seq(n, j => (row, j))
  }

  /** The coordinates of every label, in the order the two loops visit them. */
  function Coordinates<T>(targets: seq<seq<T>>): (r: seq<Coordinate>)
    ensures forall k :: 0 <= k < |r| ==> r[k].0 < |targets|
  {
    if targets == [] then []
    else
      var last := |targets| - 1;
      Coordinates(targets[..last]) + RowCoordinates(last, |targets[last]|)
  }

  /** Row-major order on coordinates. */
  predicate RowMajorBefore(a: Coordinate, b: Coordinate) {
    a.0 < b.0 || (a.0 == b.0 && a.1 < b.1)
  }

  /** The second column of the index array, the one numpy's `.max(0)[1]` reduces. */
  function Columns(indices: seq<Coordinate>): seq<nat> {
    seq(|indices|, k requires 0 <= k < |indices| => indices[k].1)
  }

  /**
   * `target_list_to_sparse_tensor(targets)`. The shape's second component is one more than
   * the largest column index; numpy cannot take the maximum of an empty index array, so
   * a list whose targets are all empty is an error.
   */
  method TargetListToSparseTensor<T>(targets: seq<seq<T>>) returns (r: Result<SparseTensor<T>>)
    ensures r.Err? <==> forall i :: 0 <= i < |targets| ==> targets[i] == []
    ensures r.Ok? ==> r.value.values == Concat(targets)
    ensures r.Ok? ==> r.value.indices == Coordinates(targets)
    ensures r.Ok? ==> r.value.shape.0 == |targets|
    ensures r.Ok? ==> forall i :: 0 <= i < |targets| ==> |targets[i]| <= r.value.shape.1
    ensures r.Ok? ==> exists i :: 0 <= i < |targets| && |targets[i]| == r.value.shape.1
  {
    var indices: seq<Coordinate> := [];
    var vals: seq<T> := [];
    var ti := 0;
    while ti < |targets|
      invariant 0 <= ti <= |targets|
      invariant indices == Coordinates(targets[..ti])
      invariant vals == Concat(targets[..ti])
    {
      var target := targets[ti];
      var si := 0;
      while si < |target|
        invariant 0 <= si <= |target|
        invariant indices == Coordinates(targets[..ti]) + RowCoordinates(ti, si)
        invariant vals == Concat(targets[..ti]) + target[..si]
      {
        indices := indices + [(ti, si)];
        vals := vals + [target[si]];
        assert target[..si + 1] == target[..si] + [target[si]];
        si := si + 1;
      }
      assert targets[..ti + 1][..ti] == targets[..ti];
      ti := ti + 1;
    }
    assert targets[..|targets|] == targets;
    CoordinatesLength(targets);
    ConcatEmpty(targets);
    if indices == [] {
      return Err(EmptyReduction);
    }
    var width := Max(Columns(indices)) + 1;
    ShapeIsLongestTarget(targets);
    r := Ok(SparseTensor(indices, vals, (|targets|, width)));
  }

  /** There is one coordinate per value. */
  lemma {:induction false} CoordinatesLength<T>(targets: seq<seq<T>>)
    ensures |Coordinates(targets)| == |Concat(targets)|
    decreases |targets|
  {
    if targets != [] { CoordinatesLength(targets[..|targets| - 1]); }
  }

  /** The k-th coordinate `(i, j)` points at the k-th value: `targets[i][j] == vals[k]`. */
  lemma {:induction false} CoordinatesSound<T>(targets: seq<seq<T>>, k: nat)
    requires k < |Coordinates(targets)|
    ensures |Coordinates(targets)| == |Concat(targets)|
    ensures Coordinates(targets)[k].0 < |targets|
    ensures Coordinates(targets)[k].1 < |targets[Coordinates(targets)[k].0]|
    ensures targets[Coordinates(targets)[k].0][Coordinates(targets)[k].1] == Concat(targets)[k]
    decreases |targets|
  {
    CoordinatesLength(targets);
    var last := |targets| - 1;
    var init := targets[..last];
    CoordinatesLength(init);
    if k < |Coordinates(init)| {
      CoordinatesSound(init, k);
    }
  }

  /** The coordinates are strictly increasing in row-major order. */
  lemma {:induction false} CoordinatesRowMajor<T>(targets: seq<seq<T>>, k: nat, l: nat)
    requires k < l < |Coordinates(targets)|
    ensures RowMajorBefore(Coordinates(targets)[k], Coordinates(targets)[l])
    decreases |targets|
  {
    var last := |targets| - 1;
    var init := targets[..last];
    var n := |Coordinates(init)|;
    if l < n {
      CoordinatesRowMajor(init, k, l);
    } else if k < n {
      CoordinatesSound(init, k);
    }
  }

  /** Every label `targets[i][j]` has its coordinate, at offset `len(Concat(targets[:i])) + j`. */
  lemma {:induction false} CoordinatesComplete<T>(targets: seq<seq<T>>, i: nat, j: nat)
    requires i < |targets| && j < |targets[i]|
    ensures |Concat(targets[..i])| + j < |Coordinates(targets)|
    ensures Coordinates(targets)[|Concat(targets[..i])| + j] == (i, j)
    decreases |targets|
  {
    var last := |targets| - 1;
    var init := targets[..last];
    CoordinatesLength(init);
    CoordinatesLength(targets[..i]);
    if i < last {
      assert init[..i] == targets[..i];
      CoordinatesComplete(init, i, j);
    } else {
      assert init == targets[..i];
    }
  }

  /**
   * One more than the largest column index is the length of the longest target,
   * when some target is non-empty.
   */
  lemma ShapeIsLongestTarget<T>(targets: seq<seq<T>>)
    requires Coordinates(targets) != []
    ensures forall i :: 0 <= i < |targets| ==> |targets[i]| <= Max(Columns(Coordinates(targets))) + 1
    ensures exists i :: 0 <= i < |targets| && |targets[i]| == Max(Columns(Coordinates(targets))) + 1
  {
    var cs := Coordinates(targets);
    var m := Max(Columns(cs));
    var k :| 0 <= k < |cs| && Columns(cs)[k] == m;
    CoordinatesSound(targets, k);
    var i0 := cs[k].0;
    forall i | 0 <= i < |targets| ensures |targets[i]| <= m + 1 {
      if targets[i] != [] {
        var j := |targets[i]| - 1;
        CoordinatesComplete(targets, i, j);
        assert Columns(cs)[|Concat(targets[..i])| + j] == j;
      }
    }
    assert |targets[i0]| == m + 1;
  }
}
