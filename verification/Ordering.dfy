/** Byte-wise order on Go strings, and the sorted listing of a set of them. */
module Ordering {

  datatype Option<+T> = None | Some(value: T)

  datatype Result<+T, +E> = Ok(value: T) | Err(error: E)

  /** Go's `<` on strings: the first differing byte decides, a proper prefix comes first. */
  predicate Less(a: string, b: string) {
    if b == [] then false
    else if a == [] then true
    else a[0] < b[0] || (a[0] == b[0] && Less(a[1..], b[1..]))
  }

  /** `a` and `b` agree on their first `k` bytes, and there `a` ends or has the smaller byte. */
  ghost predicate BeforeAt(a: string, b: string, k: nat) {
    k <= |a| && k < |b| && (forall i | 0 <= i < k :: a[i] == b[i]) && (k == |a| || a[k] < b[k])
  }

  /** The byte-wise order on strings, without recursion. */
  ghost predicate Before(a: string, b: string) {
    exists k: nat :: BeforeAt(a, b, k)
  }

  lemma {:induction false} LessIsBefore(a: string, b: string)
    ensures Less(a, b) <==> Before(a, b)
  {
    if a == [] || b == [] || a[0] != b[0] {
      BeforeAtOnce(a, b);
    } else {
      LessIsBefore(a[1..], b[1..]);
      if k: nat :| BeforeAt(a, b, k) {
        assert BeforeAt(a[1..], b[1..], k - 1);
      }
      if k: nat :| BeforeAt(a[1..], b[1..], k) {
        assert forall i | 0 < i <= k :: a[i] == a[1..][i - 1] && b[i] == b[1..][i - 1];
        assert BeforeAt(a, b, k + 1);
      }
    }
  }

  lemma BeforeAtOnce(a: string, b: string)
    requires a == [] || b == [] || a[0] != b[0]
    ensures Before(a, b) <==> b != [] && (a == [] || a[0] < b[0])
  {
    if b != [] && (a == [] || a[0] < b[0]) {
      assert BeforeAt(a, b, 0);
    }
  }

  lemma AscendingBefore(xs: seq<string>)
    requires Ascending(xs)
    ensures forall i, j | 0 <= i < j < |xs| :: Before(xs[i], xs[j])
  {
    forall i, j | 0 <= i < j < |xs| ensures Before(xs[i], xs[j]) {
      LessIsBefore(xs[i], xs[j]);
    }
  }

  lemma {:induction false} LessIrreflexive(a: string)
    ensures !Less(a, a)
  {
    if a == [] {
    } else {
      LessIrreflexive(a[1..]);
    }
  }

  lemma {:induction false} LessTransitive(a: string, b: string, c: string)
    requires Less(a, b) && Less(b, c)
    ensures Less(a, c)
  {
    if a != [] && a[0] == b[0] && b[0] == c[0] {
      LessTransitive(a[1..], b[1..], c[1..]);
    }
  }

  lemma {:induction false} LessTotal(a: string, b: string)
    ensures a == b || Less(a, b) || Less(b, a)
  {
    if a != [] && b != [] && a[0] == b[0] {
      LessTotal(a[1..], b[1..]);
      assert a == [a[0]] + a[1..];
      assert b == [b[0]] + b[1..];
    }
  }

  lemma LessAsymmetric(a: string, b: string)
    requires Less(a, b)
    ensures !Less(b, a)
  {
    if Less(b, a) {
      LessTransitive(a, b, a);
      LessIrreflexive(a);
    }
  }

  ghost predicate Distinct<T>(xs: seq<T>) {
    forall i, j | 0 <= i < j < |xs| :: xs[i] != xs[j]
  }

  ghost predicate Ascending(xs: seq<string>) {
    forall i, j | 0 <= i < j < |xs| :: Less(xs[i], xs[j])
  }

  ghost function Elements<T>(xs: seq<T>): set<T> {
    set x | x in xs
  }

  lemma ElementsAppend<T>(a: seq<T>, b: seq<T>)
    ensures Elements(a + b) == Elements(a) + Elements(b)
  {
    assert forall x :: x in a + b <==> x in a || x in b;
  }

  lemma NoElements<T>(xs: seq<T>)
    ensures Elements(xs) == {} <==> xs == []
  {
    if xs != [] {
      assert xs[0] in Elements(xs);
    }
  }

  /** The strictly ascending listing of a set: what sorting the set's elements yields. */
  ghost function Listing(s: set<string>): seq<string> {
    if s == {} then [] else [Least(s)] + Listing(s - {Least(s)})
  }

  lemma {:induction false} ListingSound(s: set<string>)
    ensures Ascending(Listing(s))
    ensures Elements(Listing(s)) == s
    ensures Listing(s) == [] <==> s == {}
  {
    if s == {} {
    } else {
      var x := Least(s);
      ListingSound(s - {x});
      ElementsAppend([x], Listing(s - {x}));
      assert Elements([x]) == {x};
      forall j | 0 <= j < |Listing(s - {x})| ensures Less(x, Listing(s - {x})[j]) {
        assert Listing(s - {x})[j] in Elements(Listing(s - {x}));
      }
    }
  }

  ghost function Least(s: set<string>): (x: string)
    requires s != {}
    ensures IsLeast(x, s)
  {
    LeastExists(s);
    var x :| IsLeast(x, s);
    x
  }

  ghost predicate IsLeast(x: string, s: set<string>) {
    x in s && forall y | y in s && y != x :: Less(x, y)
  }

  lemma {:induction false} LeastExists(s: set<string>)
    requires s != {}
    ensures exists x :: IsLeast(x, s)
  {
    hide Less;
    var z :| z in s;
    if s == {z} {
      assert IsLeast(z, s);
    } else {
      LeastExists(s - {z});
      var m :| IsLeast(m, s - {z});
      LessTotal(z, m);
      if Less(z, m) {
        forall y | y in s && y != z ensures Less(z, y) {
          if y != m { LessTransitive(z, m, y); }
        }
        assert IsLeast(z, s);
      } else {
        assert IsLeast(m, s);
      }
    }
  }

  /** There is only one ascending sequence with given elements. */
  lemma {:induction false} AscendingUnique(xs: seq<string>, ys: seq<string>)
    requires Ascending(xs) && Ascending(ys)
    requires Elements(xs) == Elements(ys)
    ensures xs == ys
    decreases |xs|
  {
    NoElements(xs);
    NoElements(ys);
    if xs == [] {
    } else {
      assert xs[0] in Elements(ys) && ys[0] in Elements(xs);
      if xs[0] != ys[0] {
        assert Less(xs[0], ys[0]) && Less(ys[0], xs[0]);
        LessAsymmetric(xs[0], ys[0]);
      }
      TailElements(xs);
      TailElements(ys);
      AscendingUnique(xs[1..], ys[1..]);
      assert xs == [xs[0]] + xs[1..] && ys == [ys[0]] + ys[1..];
    }
  }

  lemma TailElements(xs: seq<string>)
    requires xs != [] && Ascending(xs)
    ensures Elements(xs[1..]) == Elements(xs) - {xs[0]}
  {
    LessIrreflexive(xs[0]);
    assert forall k | 1 <= k < |xs| :: Less(xs[0], xs[k]) && xs[k] == xs[1..][k - 1];
    forall x | x in Elements(xs) - {xs[0]} ensures x in xs[1..] {
      var k :| 0 <= k < |xs| && xs[k] == x;
      assert xs[1..][k - 1] == x;
    }
  }

  ghost predicate Sorted(xs: seq<string>) {
    forall i, j | 0 <= i < j < |xs| :: !Less(xs[j], xs[i])
  }

  /** `sort.Slice` with `<`: a sorted permutation, built here by insertion. */
  method SortStrings(xs: seq<string>) returns (sorted: seq<string>)
    ensures Sorted(sorted)
    ensures forall i, j | 0 <= i < j < |sorted| :: !Before(sorted[j], sorted[i])
    ensures multiset(sorted) == multiset(xs)
    ensures Distinct(xs) ==> sorted == Listing(Elements(xs))
  {
    hide Less, Distinct, Listing, Elements;
    sorted := [];
    for i := 0 to |xs|
      invariant Sorted(sorted)
      invariant multiset(sorted) == multiset(xs[..i])
    {
      var x := xs[i];
      var k := 0;
      while k < |sorted| && Less(sorted[k], x)
        invariant 0 <= k <= |sorted|
        invariant forall j | 0 <= j < k :: Less(sorted[j], x)
      {
        k := k + 1;
      }
      InsertSorted(sorted, k, x);
      InsertPermutes(sorted, k, x);
      assert xs[..i + 1] == xs[..i] + [x];
      sorted := sorted[..k] + [x] + sorted[k..];
    }
    assert xs[..|xs|] == xs;
    SortedBefore(sorted);
    if Distinct(xs) {
      SortedDistinctIsListing(xs, sorted);
    }
  }

  lemma SortedBefore(xs: seq<string>)
    requires Sorted(xs)
    ensures forall i, j | 0 <= i < j < |xs| :: !Before(xs[j], xs[i])
  {
    forall i, j | 0 <= i < j < |xs| ensures !Before(xs[j], xs[i]) {
      LessIsBefore(xs[j], xs[i]);
    }
  }

  lemma InsertPermutes(xs: seq<string>, k: nat, x: string)
    requires k <= |xs|
    ensures multiset(xs[..k] + [x] + xs[k..]) == multiset(xs) + multiset{x}
  {
    assert xs == xs[..k] + xs[k..];
  }

  lemma InsertSorted(xs: seq<string>, k: nat, x: string)
    requires Sorted(xs) && k <= |xs|
    requires forall j | 0 <= j < k :: Less(xs[j], x)
    requires k < |xs| ==> !Less(xs[k], x)
    ensures Sorted(xs[..k] + [x] + xs[k..])
  {
    hide Less;
    forall j | 0 <= j < k ensures !Less(x, xs[j]) {
      LessAsymmetric(xs[j], x);
    }
    forall j | k <= j < |xs| ensures !Less(xs[j], x) {
      if Less(xs[j], x) {
        LessTotal(xs[k], x);
        if k < j && xs[k] != x { LessTransitive(xs[j], x, xs[k]); }
      }
    }
  }

  lemma SortedDistinctIsListing(xs: seq<string>, sorted: seq<string>)
    requires Sorted(sorted) && multiset(sorted) == multiset(xs)
    requires Distinct(xs)
    ensures sorted == Listing(Elements(xs))
  {
    forall i, j | 0 <= i < j < |sorted| ensures Less(sorted[i], sorted[j]) {
      if sorted[i] == sorted[j] {
        Occurrences(sorted, i, j);
        TwoOccurrences(xs, sorted[i]);
      }
      LessTotal(sorted[i], sorted[j]);
    }
    assert forall x :: x in sorted <==> x in multiset(sorted);
    assert Elements(sorted) == Elements(xs);
    ListingSound(Elements(xs));
    AscendingUnique(sorted, Listing(Elements(xs)));
  }

  lemma {:induction false} Occurrences<T>(xs: seq<T>, i: nat, j: nat)
    requires i < j < |xs| && xs[i] == xs[j]
    ensures multiset(xs)[xs[i]] >= 2
  {
    assert xs == xs[..j] + xs[j..];
    assert xs[i] == xs[..j][i] && xs[j] == xs[j..][0];
    assert xs[i] in multiset(xs[..j]) && xs[i] in multiset(xs[j..]);
  }

  lemma {:induction false} TwoOccurrences<T>(xs: seq<T>, x: T)
    requires multiset(xs)[x] >= 2
    ensures exists i, j :: 0 <= i < j < |xs| && xs[i] == x && xs[j] == x
  {
    var i :| 0 <= i < |xs| && xs[i] == x;
    assert xs == xs[..i] + [x] + xs[i + 1..];
    var rest := xs[..i] + xs[i + 1..];
    assert multiset(xs) == multiset(rest) + multiset{x};
    assert x in rest;
    var k :| 0 <= k < |rest| && rest[k] == x;
    if k < i {
      assert xs[k] == x;
    } else {
      assert xs[k + 1] == x;
    }
  }
}
