/**
 * `get_prefix_lens`, `filter_by_size` and `sort_by_size` (persephone/utils.py): the
 * utterance prefixes paired with their lengths, kept by length or ordered by length.
 */
module Sizes {
  import opened Builtins
  import opened Seqs
  import opened Padding

  /** A prefix and the number of frames of its utterance. */
  type PrefixLen = (string, nat)

  /**
   * `get_prefix_lens(feat_dir, prefixes, feat_type)`, with `utterances[k]` the array stored
   * in the feature file of `prefixes[k]`: each prefix paired with the length
   * `load_batch_x` reports for that file alone.
   */
  method GetPrefixLens(prefixes: seq<string>, utterances: seq<Array2>) returns (r: seq<PrefixLen>)
    requires |utterances| == |prefixes|
    ensures |r| == |prefixes|
    ensures forall k :: 0 <= k < |r| ==> r[k] == (prefixes[k], |utterances[k].rows|)
  {
    r := [];
    for k := 0 to |prefixes|
      invariant |r| == k
      invariant forall j :: 0 <= j < k ==> r[j] == (prefixes[j], |utterances[j].rows|)
    {
      var batch := LoadBatchX([utterances[k]]);
      r := r + [(prefixes[k], batch.value.lengths[0])];
    }
  }

  // ---------------------------------------------------------------- filter_by_size

  /**
   * `[prefix for prefix, length in prefix_lens if length <= max_samples]`. The order of
   * `prefix_lens` is kept: nothing here sorts.
   */
  function FilterBySize(prefixLens: seq<PrefixLen>, maxSamples: int): (r: seq<string>)
    ensures |r| <= |prefixLens|
    ensures (forall i :: 0 <= i < |prefixLens| ==> prefixLens[i].1 > maxSamples) ==> r == []
  {
    if prefixLens == [] then []
    else
      var p := prefixLens[|prefixLens| - 1];
      FilterBySize(prefixLens[..|prefixLens| - 1], maxSamples) + (if p.1 <= maxSamples then [p.0] else [])
  }

  /** `out` lists the prefixes at positions `kept`, each of length at most `maxSamples`. */
  ghost predicate KeptSound(out: seq<string>, prefixLens: seq<PrefixLen>, maxSamples: int, kept: seq<nat>) {
    && |kept| == |out|
    && forall k :: 0 <= k < |kept| ==>
         kept[k] < |prefixLens| && prefixLens[kept[k]].1 <= maxSamples && out[k] == prefixLens[kept[k]].0
  }

  /** Every position whose length is at most `maxSamples` is among `kept`. */
  ghost predicate KeptComplete(prefixLens: seq<PrefixLen>, maxSamples: int, kept: seq<nat>) {
    forall i :: 0 <= i < |prefixLens| && prefixLens[i].1 <= maxSamples ==> i in kept
  }

  /**
   * `out` lists the prefixes at positions `kept`, which are increasing and are exactly the
   * positions whose length is at most `maxSamples`.
   */
  ghost predicate Keeps(out: seq<string>, prefixLens: seq<PrefixLen>, maxSamples: int, kept: seq<nat>) {
    KeptSound(out, prefixLens, maxSamples, kept) && Increasing(kept) && KeptComplete(prefixLens, maxSamples, kept)
  }

  /** The filter keeps exactly the prefixes of length at most `maxSamples`, in input order. */
  lemma {:induction false} FilterBySizeKeeps(prefixLens: seq<PrefixLen>, maxSamples: int) returns (kept: seq<nat>)
    ensures Keeps(FilterBySize(prefixLens, maxSamples), prefixLens, maxSamples, kept)
    decreases |prefixLens|
  {
    if prefixLens == [] {
      kept := [];
    } else {
      var n := |prefixLens| - 1;
      var before := FilterBySizeKeeps(prefixLens[..n], maxSamples);
      kept := if prefixLens[n].1 <= maxSamples then before + [n] else before;
      KeepsStepSound(prefixLens, maxSamples, before, kept);
      IncreasingStep(before, kept, n);
      KeepsStepComplete(prefixLens, maxSamples, before, kept);
    }
  }

  /** Adding the last pair to a sound selection of the others. */
  lemma KeepsStepSound(prefixLens: seq<PrefixLen>, maxSamples: int, before: seq<nat>, kept: seq<nat>)
    requires prefixLens != []
    requires KeptSound(FilterBySize(prefixLens[..|prefixLens| - 1], maxSamples), prefixLens[..|prefixLens| - 1], maxSamples, before)
    requires kept == if prefixLens[|prefixLens| - 1].1 <= maxSamples then before + [|prefixLens| - 1] else before
    ensures KeptSound(FilterBySize(prefixLens, maxSamples), prefixLens, maxSamples, kept)
    ensures forall k :: 0 <= k < |before| ==> before[k] < |prefixLens| - 1
  {
    var n := |prefixLens| - 1;
    var init := prefixLens[..n];
    var out := FilterBySize(prefixLens, maxSamples);
    var prev := FilterBySize(init, maxSamples);
    var last := if prefixLens[n].1 <= maxSamples then [prefixLens[n].0] else [];
    assert out == prev + last;
    forall k | 0 <= k < |kept|
      ensures kept[k] < |prefixLens| && prefixLens[kept[k]].1 <= maxSamples
      ensures out[k] == prefixLens[kept[k]].0
    {
      if k < |before| {
        assert prefixLens[before[k]] == init[before[k]];
        assert out[k] == prev[k];
      }
    }
  }

  /** Adding the last pair to a complete selection of the others. */
  lemma KeepsStepComplete(prefixLens: seq<PrefixLen>, maxSamples: int, before: seq<nat>, kept: seq<nat>)
    requires prefixLens != []
    requires KeptComplete(prefixLens[..|prefixLens| - 1], maxSamples, before)
    requires kept == if prefixLens[|prefixLens| - 1].1 <= maxSamples then before + [|prefixLens| - 1] else before
    ensures KeptComplete(prefixLens, maxSamples, kept)
  {
    var n := |prefixLens| - 1;
    forall i | 0 <= i < |prefixLens| && prefixLens[i].1 <= maxSamples ensures i in kept {
      if i < n {
        assert prefixLens[..n][i] == prefixLens[i];
        assert i in before;
      } else {
        assert kept[|kept| - 1] == i;
      }
    }
  }

  // ---------------------------------------------------------------- sort_by_size

  /** Lengths never decrease along `s`. */
  predicate ByLength(s: seq<PrefixLen>) {
    forall i, j :: 0 <= i < j < |s| ==> s[i].1 <= s[j].1
  }

  /** The pairs of `s` whose length is `n`, in the order of `s`. */
  function WithLength(s: seq<PrefixLen>, n: nat): seq<PrefixLen> {
    if s == [] then []
    else WithLength(s[..|s| - 1], n) + (if s[|s| - 1].1 == n then [s[|s| - 1]] else [])
  }

  /** For every length, `s` and `t` hold the same pairs of that length in the same order. */
  ghost predicate SameRuns(s: seq<PrefixLen>, t: seq<PrefixLen>) {
    forall n :: WithLength(s, n) == WithLength(t, n)
  }

  /**
   * `s` is what a stable sort by length makes of `input`: a permutation of it, ordered by
   * length, in which the pairs of each length keep their relative order.
   */
  ghost predicate StablySorted(s: seq<PrefixLen>, input: seq<PrefixLen>) {
    && ByLength(s)
    && multiset(s) == multiset(input)
    && SameRuns(s, input)
  }

  /** `[prefix for prefix, _ in prefix_lens]`. */
  function Names(s: seq<PrefixLen>): (r: seq<string>)
    ensures |r| == |s|
    ensures forall i :: 0 <= i < |s| ==> r[i] == s[i].0
  {
    seq(|s|, i requires 0 <= i < |s| => s[i].0)
  }

  /** The names of concatenated pair lists are the concatenated names. */
  lemma NamesAppend(s: seq<PrefixLen>, t: seq<PrefixLen>)
    ensures Names(s + t) == Names(s) + Names(t)
  {
  }

  /** Reordering the pairs reorders their names and nothing else. */
  lemma {:induction false} NamesPermutation(s: seq<PrefixLen>, t: seq<PrefixLen>)
    requires multiset(s) == multiset(t)
    ensures multiset(Names(s)) == multiset(Names(t))
    decreases |s|
  {
    if s == [] {
      assert |t| == |multiset(t)| == 0;
    } else {
      var n := |s| - 1;
      var x := s[n];
      assert x in multiset(t);
      var i :| 0 <= i < |t| && t[i] == x;
      var rest := t[..i] + t[i + 1..];
      assert t == t[..i] + [x] + t[i + 1..];
      assert s == s[..n] + [x];
      assert multiset(s[..n]) == multiset(s) - multiset{x};
      assert multiset(rest) == multiset(t) - multiset{x};
      NamesPermutation(s[..n], rest);
      NamesAppend(s[..n], [x]);
      NamesAppend(t[..i] + [x], t[i + 1..]);
      NamesAppend(t[..i], [x]);
      NamesAppend(t[..i], t[i + 1..]);
    }
  }

  /**
   * `sort_by_size(feat_dir, prefixes, feat_type)` over the (prefix, length) pairs: the
   * prefixes in the order a stable sort by length leaves the pairs in.
   */
  method SortBySize(prefixLens: seq<PrefixLen>) returns (r: seq<string>)
    ensures exists s :: StablySorted(s, prefixLens) && r == Names(s)
    ensures multiset(r) == multiset(Names(prefixLens))
  {
    var a := new PrefixLen[|prefixLens|](i requires 0 <= i < |prefixLens| => prefixLens[i]);
    assert a[..] == prefixLens;
    SortByLength(a);
    NamesPermutation(a[..], prefixLens);
    r := Names(a[..]);
  }

  /** `prefix_lens.sort(key=lambda prefix_len: prefix_len[1])`: a stable in-place sort by length. */
  method SortByLength(a: array<PrefixLen>)
    modifies a
    ensures StablySorted(a[..], old(a[..]))
  {
    for i := 0 to a.Length
      invariant ByLength(a[..i])
      invariant multiset(a[..]) == multiset(old(a[..]))
      invariant SameRuns(a[..], old(a[..]))
    {
      ghost var before := a[..];
      SinkLast(a, i);
      SameRunsTransitive(a[..], before, old(a[..]));
    }
    assert a[..a.Length] == a[..];
  }

  /**
   * The state of one insertion step: `s` is a reordering of `orig` with the same runs, and
   * `s[..i + 1]` is ordered by length except that the pair at `j` may be shorter than
   * those before it.
   */
  ghost predicate Sinking(s: seq<PrefixLen>, orig: seq<PrefixLen>, i: nat, j: nat) {
    && j <= i < |s|
    && (forall k, l :: 0 <= k < l <= i && l != j ==> s[k].1 <= s[l].1)
    && multiset(s) == multiset(orig)
    && SameRuns(s, orig)
  }

  /** One insertion step: moves `a[i]` down into the sorted `a[..i]`, past every longer pair. */
  method SinkLast(a: array<PrefixLen>, i: nat)
    requires i < a.Length && ByLength(a[..i])
    modifies a
    ensures ByLength(a[..i + 1])
    ensures multiset(a[..]) == multiset(old(a[..]))
    ensures SameRuns(a[..], old(a[..]))
    ensures a[i + 1..] == old(a[i + 1..])
  {
    ghost var orig := a[..];
    SinkingStart(orig, i);
    var j: nat := i;
    while j > 0 && a[j - 1].1 > a[j].1
      invariant 0 <= j && Sinking(a[..], orig, i, j)
      invariant a[i + 1..] == orig[i + 1..]
    {
      ghost var prev := a[..];
      a[j - 1], a[j] := a[j], a[j - 1];
      assert a[..] == prev[j - 1 := prev[j]][j := prev[j - 1]];
      SinkingStep(prev, orig, i, j);
      j := j - 1;
    }
    SinkingDone(a[..], orig, i, j);
  }

  lemma SinkingStart(s: seq<PrefixLen>, i: nat)
    requires i < |s| && ByLength(s[..i])
    ensures Sinking(s, s, i, i)
  {
    forall k, l | 0 <= k < l <= i && l != i ensures s[k].1 <= s[l].1 {
      assert s[..i][k] == s[k] && s[..i][l] == s[l];
    }
  }

  lemma SinkingStep(s: seq<PrefixLen>, orig: seq<PrefixLen>, i: nat, j: nat)
    requires Sinking(s, orig, i, j) && 0 < j && s[j - 1].1 > s[j].1
    ensures Sinking(s[j - 1 := s[j]][j := s[j - 1]], orig, i, j - 1)
  {
    SwapKeepsLengthOrder(s, j);
    SameRunsTransitive(s[j - 1 := s[j]][j := s[j - 1]], s, orig);
  }

  lemma SinkingDone(s: seq<PrefixLen>, orig: seq<PrefixLen>, i: nat, j: nat)
    requires Sinking(s, orig, i, j) && (j == 0 || s[j - 1].1 <= s[j].1)
    ensures ByLength(s[..i + 1])
  {
    forall k, l | 0 <= k < l <= i ensures s[k].1 <= s[l].1 {
      if l == j && k < j - 1 {
        assert s[k].1 <= s[j - 1].1;
      }
    }
    var prefix := s[..i + 1];
    forall k, l | 0 <= k < l < |prefix| ensures prefix[k].1 <= prefix[l].1 {
      assert prefix[k] == s[k] && prefix[l] == s[l];
    }
  }

  lemma SameRunsTransitive(s: seq<PrefixLen>, t: seq<PrefixLen>, u: seq<PrefixLen>)
    requires SameRuns(s, t) && SameRuns(t, u)
    ensures SameRuns(s, u)
  {
  }

  /** Swapping two neighbours of different lengths changes no length's subsequence. */
  lemma SwapKeepsLengthOrder(s: seq<PrefixLen>, j: nat)
    requires 0 < j < |s| && s[j - 1].1 != s[j].1
    ensures multiset(s[j - 1 := s[j]][j := s[j - 1]]) == multiset(s)
    ensures SameRuns(s[j - 1 := s[j]][j := s[j - 1]], s)
  {
    var t := s[j - 1 := s[j]][j := s[j - 1]];
    assert s == s[..j - 1] + [s[j - 1], s[j]] + s[j + 1..];
    assert t == s[..j - 1] + [s[j], s[j - 1]] + s[j + 1..];
    forall n ensures WithLength(t, n) == WithLength(s, n) {
      SwapKeepsWithLength(s[..j - 1], s[j - 1], s[j], s[j + 1..], n);
    }
  }

  lemma SwapKeepsWithLength(front: seq<PrefixLen>, x: PrefixLen, y: PrefixLen, back: seq<PrefixLen>, n: nat)
    requires x.1 != y.1
    ensures WithLength(front + [y, x] + back, n) == WithLength(front + [x, y] + back, n)
  {
    WithLengthAppend(front + [x, y], back, n);
    WithLengthAppend(front + [y, x], back, n);
    WithLengthAppend(front, [x, y], n);
    WithLengthAppend(front, [y, x], n);
    WithLengthPair(x, y, n);
  }

  lemma WithLengthPair(x: PrefixLen, y: PrefixLen, n: nat)
    requires x.1 != y.1
    ensures WithLength([y, x], n) == WithLength([x, y], n)
  {
    assert [x, y][..1] == [x];
    assert [y, x][..1] == [y];
  }

  lemma {:induction false} WithLengthAppend(a: seq<PrefixLen>, b: seq<PrefixLen>, n: nat)
    ensures WithLength(a + b, n) == WithLength(a, n) + WithLength(b, n)
    decreases |b|
  {
    if b == [] {
      assert a + b == a;
    } else {
      assert (a + b)[..|a + b| - 1] == a + b[..|b| - 1];
      WithLengthAppend(a, b[..|b| - 1], n);
    }
  }

  /** Every pair with length `n` is in `WithLength(s, n)` and vice versa. */
  lemma {:induction false} WithLengthMembers(s: seq<PrefixLen>, n: nat, x: PrefixLen)
    ensures x in WithLength(s, n) <==> x in s && x.1 == n
    decreases |s|
  {
    if s != [] {
      var init := s[..|s| - 1];
      WithLengthMembers(init, n, x);
      assert s == init + [s[|s| - 1]];
    }
  }

  /**
   * A stable sort by length has one possible result, so `sort_by_size` is determined by
   * its input: two stably sorted versions of the same pairs are equal.
   */
  lemma StablySortedUnique(s1: seq<PrefixLen>, s2: seq<PrefixLen>, input: seq<PrefixLen>)
    requires StablySorted(s1, input) && StablySorted(s2, input)
    ensures s1 == s2
  {
    ByLengthUnique(s1, s2);
  }

  lemma {:induction false} ByLengthUnique(s1: seq<PrefixLen>, s2: seq<PrefixLen>)
    requires ByLength(s1) && ByLength(s2) && SameRuns(s1, s2)
    ensures s1 == s2
    decreases |s1|
  {
    EmptyRuns(s1, s2);
    if s1 != [] {
      LastAgree(s1, s2);
      var i1, i2 := s1[..|s1| - 1], s2[..|s2| - 1];
      ByLengthPrefix(s1);
      ByLengthPrefix(s2);
      ByLengthUnique(i1, i2);
      assert s1 == i1 + [s1[|s1| - 1]] && s2 == i2 + [s2[|s2| - 1]];
    }
  }

  /** Only the empty list has the same runs as the empty list. */
  lemma EmptyRuns(s1: seq<PrefixLen>, s2: seq<PrefixLen>)
    requires SameRuns(s1, s2)
    ensures s1 == [] <==> s2 == []
  {
    if s1 != [] {
      var x := s1[|s1| - 1];
      WithLengthMembers(s1, x.1, x);
      WithLengthMembers(s2, x.1, x);
      assert WithLength(s2, x.1) == WithLength(s1, x.1);
      assert x in s2;
    }
    if s2 != [] {
      var y := s2[|s2| - 1];
      WithLengthMembers(s2, y.1, y);
      WithLengthMembers(s1, y.1, y);
      assert WithLength(s1, y.1) == WithLength(s2, y.1);
      assert y in s1;
    }
  }

  /** Two sorted lists with the same runs end with the same pair, and what comes before it has the same runs. */
  lemma LastAgree(s1: seq<PrefixLen>, s2: seq<PrefixLen>)
    requires ByLength(s1) && ByLength(s2) && SameRuns(s1, s2) && s1 != [] && s2 != []
    ensures s1[|s1| - 1] == s2[|s2| - 1]
    ensures SameRuns(s1[..|s1| - 1], s2[..|s2| - 1])
  {
    var x1, x2 := s1[|s1| - 1], s2[|s2| - 1];
    var i1, i2 := s1[..|s1| - 1], s2[..|s2| - 1];
    assert WithLength(s1, x2.1) == WithLength(s2, x2.1);
    assert WithLength(s1, x1.1) == WithLength(s2, x1.1);
    WithLengthMembers(s1, x1.1, x1);
    WithLengthMembers(s2, x1.1, x1);
    WithLengthMembers(s2, x2.1, x2);
    WithLengthMembers(s1, x2.1, x2);
    // The last pairs have the largest length of both lists, so the same length.
    LastIsLongest(s1, x2);
    LastIsLongest(s2, x1);
    var m := x1.1;
    var w1, w2 := WithLength(i1, m), WithLength(i2, m);
    assert WithLength(s1, m) == w1 + [x1];
    assert WithLength(s2, m) == w2 + [x2];
    assert (w1 + [x1])[|w1|] == x1 && (w2 + [x2])[|w2|] == x2;
    assert (w1 + [x1])[..|w1|] == w1 && (w2 + [x2])[..|w2|] == w2;
    forall n ensures WithLength(i1, n) == WithLength(i2, n) {
      if n != m {
        assert WithLength(s1, n) == WithLength(i1, n);
        assert WithLength(s2, n) == WithLength(i2, n);
        assert WithLength(s1, n) == WithLength(s2, n);
      }
    }
  }

  lemma LastIsLongest(s: seq<PrefixLen>, x: PrefixLen)
    requires ByLength(s) && x in s
    ensures x.1 <= s[|s| - 1].1
  {
    var k :| 0 <= k < |s| && s[k] == x;
    if k < |s| - 1 { assert s[k].1 <= s[|s| - 1].1; }
  }

  lemma ByLengthPrefix(s: seq<PrefixLen>)
    requires ByLength(s) && s != []
    ensures ByLength(s[..|s| - 1])
  {
    var init := s[..|s| - 1];
    forall i, j | 0 <= i < j < |init| ensures init[i].1 <= init[j].1 {
      assert init[i] == s[i] && init[j] == s[j];
    }
  }
}
