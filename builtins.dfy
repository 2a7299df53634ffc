/**
 * Models of the Python built-ins and standard-library calls the utilities rely on:
 * the exceptions they raise, `max` over a list of integers, the string methods
 * `str.endswith` and `str.split(".")[0]`, `os.path.join` (POSIX flavour) and `sorted`
 * over strings, with Python's code-point lexicographic order.
 */
module Builtins {

  /** The exceptions the utilities can raise, one constructor per cause. */
  datatype Error =
    | ZeroStep                               // `range` called with a step of 0
    | EmptyReduction                         // `max` of an empty list or array
    | TooLong(rows: nat, toLength: int)      // the assertion at the head of `zero_pad`
    | ShapeMismatch(expected: nat, found: nat) // numpy cannot broadcast one row width into another

  datatype Result<T> = Ok(value: T) | Err(error: Error)

  // ---------------------------------------------------------------- max

  /** `max(s)` for a non-empty list of non-negative integers. */
  function Max(s: seq<nat>): (m: nat)
    requires s != []
    ensures m in s
    ensures forall i :: 0 <= i < |s| ==> s[i] <= m
  {
    if |s| == 1 then s[0]
    else
      var rest := Max(s[1..]);
      if s[0] >= rest then s[0] else rest
  }

  // ---------------------------------------------------------------- str methods

  /** `s.endswith(suffix)`; every string ends with the empty suffix. */
  predicate EndsWith(s: string, suffix: string) {
    |suffix| <= |s| && s[|s| - |suffix|..] == suffix
  }

  /** A string ends with `suffix` exactly when it is some string followed by `suffix`. */
  lemma EndsWithConcat(p: string, suffix: string, s: string)
    ensures EndsWith(p + suffix, suffix)
    ensures EndsWith(s, suffix) ==> s == s[..|s| - |suffix|] + suffix
  {
    assert (p + suffix)[|p|..] == suffix;
  }

  /** `s.split(".")[0]`: the longest prefix of `s` that holds no '.'. */
  function FirstField(s: string): (r: string)
    ensures r <= s
    ensures '.' !in r
    ensures |r| < |s| ==> s[|r|] == '.'
  {
    if s == [] || s[0] == '.' then [] else [s[0]] + FirstField(s[1..])
  }

  // ---------------------------------------------------------------- os.path.join

  const Sep: char := '/'

  /**
   * `os.path.join(root, name)` on POSIX: an absolute `name` replaces `root`;
   * otherwise one separator is put between them unless `root` is empty or already
   * ends with one.
   */
  function Join(root: string, name: string): (r: string)
    ensures EndsWith(r, name)
    ensures name != [] && name[0] == Sep ==> r == name
    ensures (name == [] || name[0] != Sep) ==>
      root <= r && |root| + |name| <= |r| <= |root| + |name| + 1
    ensures (name == [] || name[0] != Sep) && |r| == |root| + |name| + 1 ==>
      r[|root|] == Sep && root != [] && root[|root| - 1] != Sep
    ensures (name == [] || name[0] != Sep) && root != [] && root[|root| - 1] != Sep ==>
      |r| == |root| + |name| + 1
  {
    if name != [] && name[0] == Sep then name
    else if root == [] || root[|root| - 1] == Sep then root + name
    else root + [Sep] + name
  }

  // ---------------------------------------------------------------- string order

  /** Python's `<=` on `str`: lexicographic by code point, a prefix sorting first. */
  predicate LexLe(a: string, b: string)
    decreases |a|
  {
    a == [] || (b != [] && (a[0] < b[0] || (a[0] == b[0] && LexLe(a[1..], b[1..]))))
  }

  lemma {:induction false} LexLeReflexive(a: string)
    ensures LexLe(a, a)
    decreases |a|
  {
    if a != [] { LexLeReflexive(a[1..]); }
  }

  lemma {:induction false} LexLeTotal(a: string, b: string)
    ensures LexLe(a, b) || LexLe(b, a)
    decreases |a|
  {
    if a != [] && b != [] && a[0] == b[0] { LexLeTotal(a[1..], b[1..]); }
  }

  lemma {:induction false} LexLeAntisymmetric(a: string, b: string)
    requires LexLe(a, b) && LexLe(b, a)
    ensures a == b
    decreases |a|
  {
    if a != [] {
      LexLeAntisymmetric(a[1..], b[1..]);
      assert a == [a[0]] + a[1..] && b == [b[0]] + b[1..];
    }
  }

  lemma {:induction false} LexLeTransitive(a: string, b: string, c: string)
    requires LexLe(a, b) && LexLe(b, c)
    ensures LexLe(a, c)
    decreases |a|
  {
    if a != [] && b[0] == c[0] && a[0] == b[0] { LexLeTransitive(a[1..], b[1..], c[1..]); }
  }

  /** A list of strings in non-decreasing order. */
  predicate Ordered(s: seq<string>) {
    forall i, j :: 0 <= i < j < |s| ==> LexLe(s[i], s[j])
  }

  /** Puts `x` into the ordered list `s` before the first element it does not exceed. */
  function Insert(x: string, s: seq<string>): (r: seq<string>)
    requires Ordered(s)
    ensures Ordered(r)
    ensures multiset(r) == multiset(s) + multiset{x}
  {
    if s == [] then [x]
    else if LexLe(x, s[0]) then
      InsertAtHead(x, s);
      [x] + s
    else
      var tail := Insert(x, s[1..]);
      LexLeTotal(x, s[0]);
      InsertBelowHead(s, x, tail);
      [s[0]] + tail
  }

  lemma InsertAtHead(x: string, s: seq<string>)
    requires Ordered(s) && s != [] && LexLe(x, s[0])
    ensures Ordered([x] + s)
  {
    forall j | 0 < j < |s| + 1 ensures LexLe(x, ([x] + s)[j]) {
      if j > 1 { LexLeTransitive(x, s[0], s[j - 1]); }
    }
  }

  lemma InsertBelowHead(s: seq<string>, x: string, tail: seq<string>)
    requires s != [] && Ordered(s) && Ordered(tail) && LexLe(s[0], x)
    requires multiset(tail) == multiset(s[1..]) + multiset{x}
    ensures Ordered([s[0]] + tail)
    ensures multiset([s[0]] + tail) == multiset(s) + multiset{x}
  {
    forall j | 0 <= j < |tail| ensures LexLe(s[0], tail[j]) {
      assert tail[j] in multiset(tail);
      if tail[j] != x {
        assert tail[j] in s[1..];
        OrderedHeadLeast(s, tail[j]);
      }
    }
    assert s == [s[0]] + s[1..];
  }

  /** `sorted(s)` for a list of strings. */
  function SortStrings(s: seq<string>): (r: seq<string>)
    ensures Ordered(r)
    ensures multiset(r) == multiset(s)
  {
    if s == [] then []
    else
      assert s == [s[0]] + s[1..];
      Insert(s[0], SortStrings(s[1..]))
  }

  /** The head of an ordered list is below every element of it. */
  lemma OrderedHeadLeast(a: seq<string>, x: string)
    requires Ordered(a) && x in a
    ensures LexLe(a[0], x)
  {
    var j :| 0 <= j < |a| && a[j] == x;
    if j == 0 { LexLeReflexive(x); }
  }

  lemma OrderedTail(a: seq<string>)
    requires Ordered(a) && a != []
    ensures Ordered(a[1..])
  {
    forall i, j | 0 <= i < j < |a| - 1 ensures LexLe(a[1..][i], a[1..][j]) {
      assert a[1..][i] == a[i + 1] && a[1..][j] == a[j + 1];
    }
  }

  /** An ordered list is determined by its elements: `sorted` ignores the input order. */
  lemma {:induction false} OrderedUnique(a: seq<string>, b: seq<string>)
    requires Ordered(a) && Ordered(b)
    requires multiset(a) == multiset(b)
    ensures a == b
    decreases |a|
  {
    assert |a| == |multiset(a)| == |multiset(b)| == |b|;
    if a != [] {
      HeadsAgree(a, b);
      OrderedTail(a);
      OrderedTail(b);
      OrderedUnique(a[1..], b[1..]);
      assert a == [a[0]] + a[1..] && b == [b[0]] + b[1..];
    }
  }

  /** Two ordered lists with the same elements start alike and go on with the same elements. */
  lemma HeadsAgree(a: seq<string>, b: seq<string>)
    requires Ordered(a) && Ordered(b) && a != [] && b != []
    requires multiset(a) == multiset(b)
    ensures a[0] == b[0]
    ensures multiset(a[1..]) == multiset(b[1..])
  {
    assert a[0] in multiset(b) && b[0] in multiset(a);
    OrderedHeadLeast(a, b[0]);
    OrderedHeadLeast(b, a[0]);
    LexLeAntisymmetric(a[0], b[0]);
    TailElements(a);
    TailElements(b);
  }

  lemma TailElements(a: seq<string>)
    requires a != []
    ensures multiset(a[1..]) == multiset(a) - multiset{a[0]}
  {
    assert a == [a[0]] + a[1..];
  }
}
