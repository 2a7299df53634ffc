/**
 * `get_prefixes` (persephone/utils.py): the sorted path prefixes of the feature files
 * found by walking a directory tree, given the walk itself.
 */
module Prefixes {
  import opened Builtins
  import opened Seqs

  /** One directory `os.walk` yields: its path and the names of the files directly in it. */
  datatype Directory = Directory(root: string, filenames: seq<string>)

  /** A file found by the walk, as its directory path and its name. */
  type File = (string, string)

  /** The files of one directory, in listing order. */
  function FilesOf(d: Directory): seq<File> {
    seq(|d.filenames|, k requires 0 <= k < |d.filenames| => (d.root, d.filenames[k]))
  }

  /** The files of a walk, in the order the nested loops visit them. */
  function Files(walk: seq<Directory>): seq<File> {
    if walk == [] then [] else Files(walk[..|walk| - 1]) + FilesOf(walk[|walk| - 1])
  }

  /** `os.path.join(root, filename.split(".")[0])`. */
  function PrefixOf(f: File): string {
    Join(f.0, FirstField(f.1))
  }

  /** The prefixes the loops append, in visiting order, before they are sorted. */
  function Matches(files: seq<File>, extension: string): (r: seq<string>)
    ensures |r| <= |files|
  {
    if files == [] then []
    else
      var f := files[|files| - 1];
      Matches(files[..|files| - 1], extension) + (if EndsWith(f.1, extension) then [PrefixOf(f)] else [])
  }

  /**
   * `get_prefixes(dirname, extension)` over the output of `os.walk(dirname)`: the
   * prefixes of the names that end with `extension`, sorted.
   */
  method GetPrefixes(walk: seq<Directory>, extension: string) returns (r: seq<string>)
    ensures Ordered(r)
    ensures multiset(r) == multiset(Matches(Files(walk), extension))
  {
    var prefixes: seq<string> := [];
    var i := 0;
    while i < |walk|
      invariant 0 <= i <= |walk|
      invariant prefixes == Matches(Files(walk[..i]), extension)
    {
      var dir := walk[i];
      ghost var visited := Files(walk[..i]);
      var j := 0;
      assert visited + FilesOf(dir)[..0] == visited;
      while j < |dir.filenames|
        invariant 0 <= j <= |dir.filenames|
        invariant prefixes == Matches(visited + FilesOf(dir)[..j], extension)
      {
        var filename := dir.filenames[j];
        MatchesNext(visited, dir, j, extension);
        if EndsWith(filename, extension) {
          prefixes := prefixes + [Join(dir.root, FirstField(filename))];
        }
        j := j + 1;
      }
      FilesNext(walk, i);
      assert FilesOf(dir)[..j] == FilesOf(dir);
      i := i + 1;
    }
    assert walk[..|walk|] == walk;
    r := SortStrings(prefixes);
  }

  /** Visiting file `j` of `dir` appends its prefix when its name ends with `extension`. */
  lemma MatchesNext(visited: seq<File>, dir: Directory, j: nat, extension: string)
    requires j < |dir.filenames|
    ensures Matches(visited + FilesOf(dir)[..j + 1], extension)
         == Matches(visited + FilesOf(dir)[..j], extension)
            + (if EndsWith(dir.filenames[j], extension) then [Join(dir.root, FirstField(dir.filenames[j]))] else [])
  {
    var before := visited + FilesOf(dir)[..j];
    var after := visited + FilesOf(dir)[..j + 1];
    assert after == before + [(dir.root, dir.filenames[j])];
    assert after[..|after| - 1] == before;
  }

  /** The walk's files up to directory `i` are those before it followed by its own. */
  lemma FilesNext(walk: seq<Directory>, i: nat)
    requires i < |walk|
    ensures Files(walk[..i + 1]) == Files(walk[..i]) + FilesOf(walk[i])
  {
    assert walk[..i + 1][..i] == walk[..i];
  }

  /** The prefixes of a concatenation of file lists are the concatenated prefixes. */
  lemma {:induction false} MatchesAppend(a: seq<File>, b: seq<File>, extension: string)
    ensures Matches(a + b, extension) == Matches(a, extension) + Matches(b, extension)
    decreases |b|
  {
    if b == [] {
      assert a + b == a;
    } else {
      assert (a + b)[..|a + b| - 1] == a + b[..|b| - 1];
      MatchesAppend(a, b[..|b| - 1], extension);
    }
  }

  /** `out` lists the prefixes of the files at positions `picked`, each ending with `extension`. */
  ghost predicate PickedSound(out: seq<string>, files: seq<File>, extension: string, picked: seq<nat>) {
    && |picked| == |out|
    && forall k :: 0 <= k < |picked| ==>
         picked[k] < |files| && EndsWith(files[picked[k]].1, extension) && out[k] == PrefixOf(files[picked[k]])
  }

  /** Every position of a file whose name ends with `extension` is among `picked`. */
  ghost predicate PickedComplete(files: seq<File>, extension: string, picked: seq<nat>) {
    forall i :: 0 <= i < |files| && EndsWith(files[i].1, extension) ==> i in picked
  }

  /**
   * `out` lists the prefixes of the files at positions `picked`, which are increasing and
   * are exactly the positions of the files whose name ends with `extension`.
   */
  ghost predicate Selects(out: seq<string>, files: seq<File>, extension: string, picked: seq<nat>) {
    PickedSound(out, files, extension, picked) && Increasing(picked) && PickedComplete(files, extension, picked)
  }

  /**
   * The prefixes select the files that end with `extension`, in walk order, one prefix
   * per such file, duplicates kept: `picked` lists the positions of those files.
   */
  lemma {:induction false} MatchesSelect(files: seq<File>, extension: string) returns (picked: seq<nat>)
    ensures Selects(Matches(files, extension), files, extension, picked)
    decreases |files|
  {
    if files == [] {
      picked := [];
    } else {
      var n := |files| - 1;
      var before := MatchesSelect(files[..n], extension);
      picked := if EndsWith(files[n].1, extension) then before + [n] else before;
      SelectsStepSound(files, extension, before, picked);
      IncreasingStep(before, picked, n);
      SelectsStepComplete(files, extension, before, picked);
    }
  }

  /** Adding the last file to a sound selection of the others. */
  lemma SelectsStepSound(files: seq<File>, extension: string, before: seq<nat>, picked: seq<nat>)
    requires files != []
    requires PickedSound(Matches(files[..|files| - 1], extension), files[..|files| - 1], extension, before)
    requires picked == if EndsWith(files[|files| - 1].1, extension) then before + [|files| - 1] else before
    ensures PickedSound(Matches(files, extension), files, extension, picked)
    ensures forall k :: 0 <= k < |before| ==> before[k] < |files| - 1
  {
    var n := |files| - 1;
    var init := files[..n];
    var out := Matches(files, extension);
    var prev := Matches(init, extension);
    assert out[..|prev|] == prev;
    forall k | 0 <= k < |picked|
      ensures picked[k] < |files| && EndsWith(files[picked[k]].1, extension)
      ensures out[k] == PrefixOf(files[picked[k]])
    {
      if k < |before| {
        assert files[before[k]] == init[before[k]];
        assert out[k] == out[..|prev|][k];
      }
    }
  }

  /** Adding the last file to a complete selection of the others. */
  lemma SelectsStepComplete(files: seq<File>, extension: string, before: seq<nat>, picked: seq<nat>)
    requires files != []
    requires PickedComplete(files[..|files| - 1], extension, before)
    requires picked == if EndsWith(files[|files| - 1].1, extension) then before + [|files| - 1] else before
    ensures PickedComplete(files, extension, picked)
  {
    var n := |files| - 1;
    forall i | 0 <= i < |files| && EndsWith(files[i].1, extension) ensures i in picked {
      if i < n {
        assert files[..n][i] == files[i];
        assert i in before;
      } else {
        assert picked[|picked| - 1] == i;
      }
    }
  }

  /** Reordering the walk's files reorders the prefixes and nothing else. */
  lemma {:induction false} MatchesPermutation(a: seq<File>, b: seq<File>, extension: string)
    requires multiset(a) == multiset(b)
    ensures multiset(Matches(a, extension)) == multiset(Matches(b, extension))
    decreases |a|
  {
    if a == [] {
      assert |b| == |multiset(b)| == 0;
    } else {
      var n := |a| - 1;
      var x := a[n];
      assert x in multiset(b);
      var i :| 0 <= i < |b| && b[i] == x;
      var rest := b[..i] + b[i + 1..];
      assert b == b[..i] + [x] + b[i + 1..];
      assert a == a[..n] + [x];
      assert multiset(a) == multiset(a[..n]) + multiset{x};
      assert multiset(b) == multiset(b[..i]) + multiset{x} + multiset(b[i + 1..]);
      assert multiset(rest) == multiset(b[..i]) + multiset(b[i + 1..]);
      assert multiset(a[..n]) == multiset(a) - multiset{x};
      assert multiset(a[..n]) == multiset(rest);
      MatchesPermutation(a[..n], rest, extension);
      MatchesAppend(a[..n], [x], extension);
      MatchesAppend(b[..i] + [x], b[i + 1..], extension);
      MatchesAppend(b[..i], [x], extension);
      MatchesAppend(b[..i], b[i + 1..], extension);
    }
  }

  /**
   * The result does not depend on the order of the walk: two walks that find the same
   * files, in any order, have the same sorted prefixes.
   */
  lemma WalkOrderIrrelevant(w1: seq<Directory>, w2: seq<Directory>, extension: string, r1: seq<string>, r2: seq<string>)
    requires multiset(Files(w1)) == multiset(Files(w2))
    requires Ordered(r1) && multiset(r1) == multiset(Matches(Files(w1), extension))
    requires Ordered(r2) && multiset(r2) == multiset(Matches(Files(w2), extension))
    ensures r1 == r2
  {
    MatchesPermutation(Files(w1), Files(w2), extension);
    OrderedUnique(r1, r2);
  }
}
