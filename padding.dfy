/**
 * `zero_pad` and the padding and length logic of `load_batch_x` (persephone/utils.py):
 * utterance feature matrices of different lengths padded with zero frames to a common length.
 */
module Padding {
  import opened Builtins

  /** A two-dimensional numpy array: `rows` frames of `width` features each. */
  datatype Matrix = Matrix(width: nat, rows: seq<seq<real>>) {
    predicate Rectangular() {
      forall i :: 0 <= i < |rows| ==> |rows[i]| == width
    }
  }

  /** numpy arrays are rectangular by construction. */
  type Array2 = m: Matrix | m.Rectangular() witness Matrix(0, [])

  function ZeroRow(width: nat): seq<real> {
    seq(width, _ => 0.0)
  }

  /**
   * `zero_pad(matrix, to_length)`: fails when the matrix has more rows than `to_length`;
   * otherwise a `to_length`-row array of the same width that starts with the matrix's
   * rows and continues with zero rows.
   */
  method ZeroPad(matrix: Array2, toLength: int) returns (r: Result<Array2>)
    ensures r.Err? <==> |matrix.rows| > toLength
    ensures r.Ok? ==> r.value.width == matrix.width && |r.value.rows| == toLength
    ensures r.Ok? ==> r.value.rows[..|matrix.rows|] == matrix.rows
    ensures r.Ok? ==> forall i :: |matrix.rows| <= i < toLength ==> r.value.rows[i] == ZeroRow(matrix.width)
  {
    if !(|matrix.rows| <= toLength) {
      return Err(TooLong(|matrix.rows|, toLength));
    }
    var result := new seq<real>[toLength](_ => ZeroRow(matrix.width));
    for i := 0 to |matrix.rows|
      invariant forall k :: 0 <= k < i ==> result[k] == matrix.rows[k]
      invariant forall k :: i <= k < toLength ==> result[k] == ZeroRow(matrix.width)
    {
      result[i] := matrix.rows[i];
    }
    r := Ok(Matrix(matrix.width, result[..]));
  }

  /** numpy can store a row of width `from` into a row of width `to`: equal, or stretched from 1. */
  predicate Broadcastable(from: nat, to: nat) {
    from == to || from == 1
  }

  /** The row numpy stores when it assigns `row` into a row of width `width`. */
  function Broadcast(row: seq<real>, width: nat): (r: seq<real>)
    requires Broadcastable(|row|, width)
    ensures |r| == width
    ensures |row| == width ==> r == row
    ensures forall j :: 0 <= j < width ==> r[j] in row
    ensures row == ZeroRow(|row|) ==> r == ZeroRow(width)
  {
    if |row| == width then row else seq(width, _ => row[0])
  }

  /** The padded array numpy stores into `batch[i]`. */
  function Store(padded: Array2, width: nat): (r: Array2)
    requires Broadcastable(padded.width, width)
    ensures r.width == width && |r.rows| == |padded.rows|
    ensures width == padded.width ==> r == padded
    ensures forall k :: 0 <= k < |r.rows| && padded.rows[k] == ZeroRow(padded.width) ==> r.rows[k] == ZeroRow(width)
  {
    Matrix(width, seq(|padded.rows|, k requires 0 <= k < |padded.rows| => Broadcast(padded.rows[k], width)))
  }

  /**
   * `stored` is what `batch[i] = zero_pad(utterance, length)` leaves in a batch whose
   * rows are `width` wide: `length` rows, the utterance's own rows first (stretched when
   * they are one feature wide) and zero rows after them.
   */
  predicate PaddedFrom(stored: Array2, utterance: Array2, width: nat, length: nat)
    requires Broadcastable(utterance.width, width)
  {
    && stored.width == width
    && |stored.rows| == length
    && |utterance.rows| <= length
    && (forall k :: 0 <= k < |utterance.rows| ==> stored.rows[k] == Broadcast(utterance.rows[k], width))
    && (forall k :: |utterance.rows| <= k < length ==> stored.rows[k] == ZeroRow(width))
  }

  /** The value `load_batch_x` returns: the padded batch and the utterance lengths. */
  datatype Batch = Batch(features: seq<Array2>, lengths: seq<nat>)

  /**
   * `load_batch_x` with `flatten=False`, over the already loaded utterances: the row
   * counts of the utterances, and every utterance padded to the longest one and stored
   * into an array whose row width is that of the first utterance.
   */
  method LoadBatchX(utterances: seq<Array2>) returns (r: Result<Batch>)
    ensures r.Err? <==>
      utterances == [] ||
      exists i :: 0 <= i < |utterances| && !Broadcastable(utterances[i].width, utterances[0].width)
    ensures r.Ok? ==> |r.value.lengths| == |r.value.features| == |utterances|
    ensures r.Ok? ==> forall i :: 0 <= i < |utterances| ==> r.value.lengths[i] == |utterances[i].rows|
    ensures r.Ok? ==> exists i :: 0 <= i < |utterances| && |utterances[i].rows| == |r.value.features[0].rows|
    ensures r.Ok? ==> forall i :: 0 <= i < |utterances| ==>
      Broadcastable(utterances[i].width, utterances[0].width) &&
      PaddedFrom(r.value.features[i], utterances[i], utterances[0].width, |r.value.features[0].rows|)
  {
    var lens := seq(|utterances|, i requires 0 <= i < |utterances| => |utterances[i].rows|);
    if lens == [] {
      return Err(EmptyReduction);
    }
    var maxLen := Max(lens);
    ghost var longest :| 0 <= longest < |lens| && lens[longest] == maxLen;
    assert forall j :: 0 <= j < |utterances| ==> |utterances[j].rows| == lens[j] <= maxLen;
    var width := utterances[0].width;
    var batch := new Array2[|utterances|](_ => Matrix(width, seq(maxLen, _ => ZeroRow(width))));
    for i := 0 to |utterances|
      invariant PaddedUpTo(batch[..], utterances, width, maxLen, i)
    {
      var padded := ZeroPad(utterances[i], maxLen);
      var p := padded.value;
      if !Broadcastable(p.width, width) {
        return Err(ShapeMismatch(width, p.width));
      }
      StorePadded(utterances[i], p, width, maxLen);
      PaddedUpToStep(batch[..], utterances, width, maxLen, i, Store(p, width));
      batch[i] := Store(p, width);
    }
    var features := batch[..];
    assert |features[0].rows| == |utterances[longest].rows|;
    r := Ok(Batch(features, lens));
  }

  /** The first `n` entries of `stored` hold the padded utterances. */
  ghost predicate PaddedUpTo(stored: seq<Array2>, utterances: seq<Array2>, width: nat, length: nat, n: nat) {
    && n <= |stored| == |utterances|
    && forall j :: 0 <= j < n ==>
         Broadcastable(utterances[j].width, width) && PaddedFrom(stored[j], utterances[j], width, length)
  }

  /** Storing utterance `i`, padded, extends the padded prefix by one. */
  lemma PaddedUpToStep(stored: seq<Array2>, utterances: seq<Array2>, width: nat, length: nat, i: nat, m: Array2)
    requires PaddedUpTo(stored, utterances, width, length, i) && i < |stored|
    requires Broadcastable(utterances[i].width, width) && PaddedFrom(m, utterances[i], width, length)
    ensures PaddedUpTo(stored[i := m], utterances, width, length, i + 1)
  {
  }

  /** Storing the result of `zero_pad` into a batch row leaves the padded utterance there. */
  lemma StorePadded(utterance: Array2, padded: Array2, width: nat, length: nat)
    requires |utterance.rows| <= length && Broadcastable(utterance.width, width)
    requires padded.width == utterance.width && |padded.rows| == length
    requires padded.rows[..|utterance.rows|] == utterance.rows
    requires forall i :: |utterance.rows| <= i < length ==> padded.rows[i] == ZeroRow(utterance.width)
    ensures PaddedFrom(Store(padded, width), utterance, width, length)
  {
    var stored := Store(padded, width);
    forall k | 0 <= k < |utterance.rows| ensures stored.rows[k] == Broadcast(utterance.rows[k], width) {
      assert padded.rows[..|utterance.rows|][k] == padded.rows[k];
    }
    forall k | |utterance.rows| <= k < length ensures stored.rows[k] == ZeroRow(width) {
      assert stored.rows[k] == Broadcast(ZeroRow(utterance.width), width);
    }
  }
}
