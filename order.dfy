/** Python's ordering of `str` values (lexicographic by code point) and
    `sorted(set(xs))` over strings. */
module LexOrder {

  /** Python's `a < b` on strings. */
  predicate Less(a: string, b: string)
    decreases |a|
  {
    if |a| == 0 then |b| > 0
    else if |b| == 0 then false
    else a[0] < b[0] || (a[0] == b[0] && Less(a[1..], b[1..]))
  }

  lemma {:induction false} LessIrreflexive(a: string)
    ensures !Less(a, a)
    decreases |a|
  {
    if |a| > 0 {
      LessIrreflexive(a[1..]);
    }
  }

  lemma {:induction false} LessTransitive(a: string, b: string, c: string)
    requires Less(a, b) && Less(b, c)
    ensures Less(a, c)
    decreases |a|
  {
    if |a| > 0 && a[0] == b[0] && b[0] == c[0] {
      LessTransitive(a[1..], b[1..], c[1..]);
    }
  }

  /** Any two strings are equal or ordered one way or the other. */
  lemma {:induction false} LessTotal(a: string, b: string)
    ensures a == b || Less(a, b) || Less(b, a)
    decreases |a|
  {
    if |a| > 0 && |b| > 0 && a[0] == b[0] {
      LessTotal(a[1..], b[1..]);
      if a[1..] == b[1..] {
        assert a == [a[0]] + a[1..] && b == [b[0]] + b[1..];
      }
    }
  }

  lemma LessAsymmetric(a: string, b: string)
    requires Less(a, b)
    ensures !Less(b, a)
  {
    if Less(b, a) {
      LessTransitive(a, b, a);
      LessIrreflexive(a);
    }
  }

  /** Ascending with no repeats: every earlier element is strictly smaller. */
  predicate StrictlySorted(xs: seq<string>)
  {
    forall i, j :: 0 <= i < j < |xs| ==> Less(xs[i], xs[j])
  }

  /** Same elements, ignoring order and repetition (Python `set(a) == set(b)`). */
  ghost predicate SameElements(a: seq<string>, b: seq<string>)
  {
    forall x :: x in a <==> x in b
  }

  /** A strictly sorted sequence has no duplicates. */
  lemma StrictlySortedDistinct(xs: seq<string>)
    requires StrictlySorted(xs)
    ensures forall i, j :: 0 <= i < j < |xs| ==> xs[i] != xs[j]
  {
    forall i, j | 0 <= i < j < |xs| ensures xs[i] != xs[j] {
      LessIrreflexive(xs[i]);
    }
  }

  /** Inserts `x` into its place in a strictly sorted sequence, unless it is
      already there. */
  function Insert(x: string, ys: seq<string>): (r: seq<string>)
    requires StrictlySorted(ys)
    ensures StrictlySorted(r)
    ensures forall z :: z in r <==> z == x || z in ys
    decreases |ys|
  {
    if ys == [] then [x]
    else if x == ys[0] then ys
    else if Less(x, ys[0]) then
      assert forall j :: 0 < j < |ys| ==> Less(x, ys[j]) by {
        forall j | 0 < j < |ys| ensures Less(x, ys[j]) { LessTransitive(x, ys[0], ys[j]); }
      }
      [x] + ys
    else
      LessTotal(x, ys[0]);
      var tail := Insert(x, ys[1..]);
      assert forall z :: z in tail ==> Less(ys[0], z);
      [ys[0]] + tail
  }

  /** Python's `sorted(set(xs))`. */
  function SortedSet(xs: seq<string>): (r: seq<string>)
    ensures StrictlySorted(r)
    ensures SameElements(r, xs)
  {
    if xs == [] then []
    else
      var r := Insert(xs[|xs| - 1], SortedSet(xs[..|xs| - 1]));
      assert xs == xs[..|xs| - 1] + [xs[|xs| - 1]];
      r
  }

  /** Two strictly sorted listings of the same elements start alike. */
  lemma SortedHeadsEqual(a: seq<string>, b: seq<string>)
    requires StrictlySorted(a) && StrictlySorted(b)
    requires SameElements(a, b)
    requires a != [] && b != []
    ensures a[0] == b[0]
  {
    assert a[0] in a && b[0] in b;
    var i :| 0 <= i < |b| && b[i] == a[0];
    var j :| 0 <= j < |a| && a[j] == b[0];
    if i > 0 && j > 0 {
      LessAsymmetric(b[0], a[0]);
    }
  }

  /** The tail of a strictly sorted sequence holds every element but the
      head. */
  lemma SortedTailElements(a: seq<string>)
    requires StrictlySorted(a) && a != []
    ensures forall x :: x in a[1..] <==> x in a && x != a[0]
  {
    StrictlySortedDistinct(a);
    assert a == [a[0]] + a[1..];
  }

  /** Listings of the same elements are empty together. */
  lemma SameElementsEmpty(a: seq<string>, b: seq<string>)
    requires SameElements(a, b)
    ensures a == [] <==> b == []
  {
    if a != [] { assert a[0] in a; }
    if b != [] { assert b[0] in b; }
  }

  /** There is only one strictly sorted listing of a set of strings. */
  lemma {:induction false} SortedListingUnique(a: seq<string>, b: seq<string>)
    requires StrictlySorted(a) && StrictlySorted(b)
    requires SameElements(a, b)
    ensures a == b
    decreases |a|
  {
    SameElementsEmpty(a, b);
    if a != [] {
      SortedHeadsEqual(a, b);
      SortedTailElements(a);
      SortedTailElements(b);
      SortedListingUnique(a[1..], b[1..]);
      assert a == [a[0]] + a[1..] && b == [b[0]] + b[1..];
    }
  }

  /** Sorting the elements of an already strictly sorted sequence changes
      nothing. */
  lemma SortedSetOfSorted(xs: seq<string>)
    requires StrictlySorted(xs)
    ensures SortedSet(xs) == xs
  {
    SortedListingUnique(SortedSet(xs), xs);
  }
}
