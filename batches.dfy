/** `make_batches` (persephone/utils.py): group utterance paths into batches for decoding. */
module Batches {
  import opened Builtins
  import opened Seqs

  function Min(a: int, b: int): int { if a <= b then a else b }

  /**
   * `[paths[i:i+size] for i in range(0, len(paths), size)]` for a positive `size`:
   * consecutive slices of `size` elements, the last one clipped by the end of `paths`.
   */
  function Chunks<T>(paths: seq<T>, size: nat): (r: seq<seq<T>>)
    requires size > 0
    ensures |r| <= |paths|
    ensures forall j :: 0 <= j < |r| ==> r[j] != []
    decreases |paths|
  {
    if paths == [] then []
    else if |paths| <= size then [paths]
    else [paths[..size]] + Chunks(paths[size..], size)
  }

  /**
   * `make_batches(paths, batch_size)`. `range` rejects a step of 0 with a ValueError,
   * and with a negative step it counts down from 0 to `len(paths)`, so it is empty.
   */
  function MakeBatches<T>(paths: seq<T>, batchSize: int): (r: Result<seq<seq<T>>>)
    ensures r.Err? <==> batchSize == 0
    ensures batchSize < 0 ==> r == Ok([])
    ensures batchSize > 0 ==> Concat(r.value) == paths
    ensures batchSize > 0 ==> (|r.value| == 0 <==> paths == [])
    ensures batchSize > 0 && paths != [] ==>
      (|r.value| - 1) * batchSize < |paths| <= |r.value| * batchSize
    ensures batchSize > 0 ==> forall j :: 0 <= j < |r.value| ==>
      j * batchSize < |paths| && r.value[j] == paths[j * batchSize .. Min(j * batchSize + batchSize, |paths|)]
    ensures batchSize > 0 ==> forall j :: 0 <= j < |r.value| - 1 ==> |r.value[j]| == batchSize
    ensures batchSize > 0 && r.value != [] ==> 1 <= |r.value[|r.value| - 1]| <= batchSize
  {
    if batchSize == 0 then Err(ZeroStep)
    else if batchSize < 0 then Ok([])
    else
      ChunksConcat(paths, batchSize);
      ChunksCount(paths, batchSize);
      ChunksSizes(paths, batchSize);
      ChunksAll(paths, batchSize);
      Ok(Chunks(paths, batchSize))
  }

  lemma ChunksAll<T>(paths: seq<T>, size: nat)
    requires size > 0
    ensures forall j :: 0 <= j < |Chunks(paths, size)| ==>
      j * size < |paths| && Chunks(paths, size)[j] == paths[j * size .. Min(j * size + size, |paths|)]
  {
    forall j | 0 <= j < |Chunks(paths, size)|
      ensures j * size < |paths| && Chunks(paths, size)[j] == paths[j * size .. Min(j * size + size, |paths|)]
    {
      ChunksAt(paths, size, j);
    }
  }

  /** Concatenating the batches gives back the paths in their original order. */
  lemma {:induction false} ChunksConcat<T>(paths: seq<T>, size: nat)
    requires size > 0
    ensures Concat(Chunks(paths, size)) == paths
    decreases |paths|
  {
    if paths == [] {
    } else if |paths| <= size {
      ConcatSingle(paths);
    } else {
      var head, rest := paths[..size], paths[size..];
      assert Chunks(paths, size) == [head] + Chunks(rest, size);
      ChunksConcat(rest, size);
      ConcatAppend([head], Chunks(rest, size));
      ConcatSingle(head);
      assert head + rest == paths;
    }
  }

  /**
   * There are ceil(len(paths) / size) batches, none for an empty list: the count `c`
   * of a non-empty list is the one with `(c - 1) * size < len(paths) <= c * size`.
   */
  lemma {:induction false} ChunksCount<T>(paths: seq<T>, size: nat)
    requires size > 0
    ensures |Chunks(paths, size)| == 0 <==> paths == []
    ensures paths != [] ==>
      (|Chunks(paths, size)| - 1) * size < |paths| <= |Chunks(paths, size)| * size
    decreases |paths|
  {
    if |paths| > size {
      var rest := paths[size..];
      ChunksCount(rest, size);
      var c := |Chunks(rest, size)|;
      assert |Chunks(paths, size)| == c + 1;
      assert (c + 1) * size == c * size + size;
      assert (c + 1 - 1) * size == (c - 1) * size + size;
    }
  }

  /** Every batch but the last holds exactly `size` paths; the last holds 1 to `size`. */
  lemma {:induction false} ChunksSizes<T>(paths: seq<T>, size: nat)
    requires size > 0
    ensures forall j :: 0 <= j < |Chunks(paths, size)| - 1 ==> |Chunks(paths, size)[j]| == size
    ensures Chunks(paths, size) != [] ==> 1 <= |Chunks(paths, size)[|Chunks(paths, size)| - 1]| <= size
    decreases |paths|
  {
    if |paths| > size {
      ChunksSizes(paths[size..], size);
      var rest := Chunks(paths[size..], size);
      assert rest != [];
      assert Chunks(paths, size) == [paths[..size]] + rest;
    }
  }

  /** The product step of `ChunksAt`, kept apart so that its recursive case stays linear. */
  lemma MulStep(j: int, size: int)
    ensures (j - 1) * size + size == j * size
  {
  }

  /** Batch `j` is the slice of `size` paths starting at `j * size`, clipped at the end. */
  lemma {:induction false} ChunksAt<T>(paths: seq<T>, size: nat, j: nat)
    requires size > 0 && j < |Chunks(paths, size)|
    ensures j * size < Min(j * size + size, |paths|) <= |paths|
    ensures Chunks(paths, size)[j] == paths[j * size .. Min(j * size + size, |paths|)]
    decreases |paths|
  {
    if |paths| > size && j > 0 {
      var rest := paths[size..];
      assert Chunks(paths, size)[j] == Chunks(rest, size)[j - 1];
      ChunksAt(rest, size, j - 1);
      MulStep(j, size);
      var start := (j - 1) * size;
      var stop := Min(start + size, |rest|);
      assert stop + size == Min(start + size + size, |paths|);
      SliceShift(paths, size, start, stop);
    }
  }

  /** A slice of `paths[size..]` is the slice of `paths` shifted by `size`. */
  lemma SliceShift<T>(paths: seq<T>, size: nat, lo: nat, hi: nat)
    requires size <= |paths| && lo <= hi <= |paths| - size
    ensures paths[size..][lo..hi] == paths[size + lo .. size + hi]
  {
  }
}
