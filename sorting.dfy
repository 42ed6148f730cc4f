/**
 * Ordering the visited-states list (`renderStatesList` in public/app.js):
 * alphabetically by state name, or by visit kind and then by name.
 */
module Sorting {
  import opened Wrappers
  import opened StatesList

  /**
   * The name comparison: lexicographic order on characters, standing for the
   * locale-dependent `localeCompare`. `NameLe(a, b)` means `a` may precede `b`.
   */
  predicate NameLe(a: string, b: string)
    ensures a <= b ==> NameLe(a, b)
  {
    a == [] || (b != [] && (a[0] < b[0] || (a[0] == b[0] && NameLe(a[1..], b[1..]))))
  }

  lemma {:induction false} NameLeTotal(a: string, b: string)
    ensures NameLe(a, b) || NameLe(b, a)
  {
    if a != [] && b != [] && a[0] == b[0] {
      NameLeTotal(a[1..], b[1..]);
    }
  }

  lemma {:induction false} NameLeTransitive(a: string, b: string, c: string)
    requires NameLe(a, b) && NameLe(b, c)
    ensures NameLe(a, c)
  {
    if a != [] && b != [] && c != [] && a[0] == b[0] == c[0] {
      NameLeTransitive(a[1..], b[1..], c[1..]);
    }
  }

  lemma {:induction false} NameLeAntisymmetric(a: string, b: string)
    requires NameLe(a, b) && NameLe(b, a)
    ensures a == b
  {
    if a != [] && b != [] {
      NameLeAntisymmetric(a[1..], b[1..]);
      assert a == [a[0]] + a[1..] && b == [b[0]] + b[1..];
    }
  }

  /** The two orders the sort chips offer. */
  datatype Ordering = ByName | ByVisitType

  /** The chip's `data-sort` value; any other value leaves the list unsorted. */
  function OrderingOf(sortOrder: string): (r: Option<Ordering>)
    ensures r.Some? <==> sortOrder in {"alphabetical", "visitType"}
  {
    if sortOrder == "alphabetical" then Some(ByName)
    else if sortOrder == "visitType" then Some(ByVisitType)
    else None
  }

  /** `typeOrder`: Individual < Separately < Together. */
  function Rank(k: VisitKind): (r: nat)
    ensures 1 <= r <= 3
    ensures r == 1 <==> k == Individual
  {
    match k
    case Individual => 1
    case Separately => 2
    case Jointly => 3
  }

  /**
   * A row the comparator of `o` can handle: it has a name, and for the
   * visit-kind order also a label (the comparator is NaN without one).
   */
  predicate Comparable(o: Ordering, e: Entry)
  {
    e.name.Some? && (o == ByVisitType ==> e.visitType.Some?)
  }

  predicate AllComparable(o: Ordering, s: seq<Entry>)
  {
    forall i :: 0 <= i < |s| ==> Comparable(o, s[i])
  }

  /** The comparator of `o` returns at most zero: `x` may precede `y`. */
  predicate Before(o: Ordering, x: Entry, y: Entry)
    requires Comparable(o, x) && Comparable(o, y)
    ensures Before(o, x, y) && o == ByVisitType ==> Rank(x.visitType.value) <= Rank(y.visitType.value)
    ensures Before(o, x, y) && (o == ByName || x.visitType == y.visitType) ==> NameLe(x.name.value, y.name.value)
  {
    match o
    case ByName => NameLe(x.name.value, y.name.value)
    case ByVisitType =>
      || Rank(x.visitType.value) < Rank(y.visitType.value)
      || (Rank(x.visitType.value) == Rank(y.visitType.value) && NameLe(x.name.value, y.name.value))
  }

  lemma BeforeTotal(o: Ordering, x: Entry, y: Entry)
    requires Comparable(o, x) && Comparable(o, y)
    ensures Before(o, x, y) || Before(o, y, x)
  {
    NameLeTotal(x.name.value, y.name.value);
  }

  lemma BeforeTransitive(o: Ordering, x: Entry, y: Entry, z: Entry)
    requires Comparable(o, x) && Comparable(o, y) && Comparable(o, z)
    requires Before(o, x, y) && Before(o, y, z)
    ensures Before(o, x, z)
  {
    if NameLe(x.name.value, y.name.value) && NameLe(y.name.value, z.name.value) {
      NameLeTransitive(x.name.value, y.name.value, z.name.value);
    }
  }

  /** Every row may precede every later row. */
  predicate Sorted(o: Ordering, s: seq<Entry>)
    requires AllComparable(o, s)
  {
    forall i, j :: 0 <= i < j < |s| ==> Before(o, s[i], s[j])
  }

  /** The first `n` rows are sorted. */
  predicate SortedPrefix(o: Ordering, s: seq<Entry>, n: nat)
    requires AllComparable(o, s) && n <= |s|
  {
    forall p, q :: 0 <= p < q < n ==> Before(o, s[p], s[q])
  }

  /**
   * The first `n` rows are sorted but for the row at `j`, which may precede
   * every row after it: the state of insertion while that row sinks.
   */
  predicate SortedBut(o: Ordering, s: seq<Entry>, n: nat, j: nat)
    requires AllComparable(o, s) && j < n <= |s|
  {
    && (forall p, q :: 0 <= p < q < n && p != j && q != j ==> Before(o, s[p], s[q]))
    && (forall q :: j < q < n ==> Before(o, s[j], s[q]))
  }

  /** Exchanging the row at `j` with the one before it, which it must precede, moves the hole down. */
  lemma SwapDown(o: Ordering, s: seq<Entry>, n: nat, j: nat)
    requires AllComparable(o, s) && 0 < j < n <= |s|
    requires SortedBut(o, s, n, j) && !Before(o, s[j - 1], s[j])
    ensures AllComparable(o, s[j - 1 := s[j]][j := s[j - 1]])
    ensures SortedBut(o, s[j - 1 := s[j]][j := s[j - 1]], n, j - 1)
  {
    BeforeTotal(o, s[j - 1], s[j]);
  }

  /** Once the row at `j` follows the row before it, the first `n` rows are sorted. */
  lemma InsertDone(o: Ordering, s: seq<Entry>, n: nat, j: nat)
    requires AllComparable(o, s) && j < n <= |s|
    requires SortedBut(o, s, n, j) && (j == 0 || Before(o, s[j - 1], s[j]))
    ensures SortedPrefix(o, s, n)
  {
    forall p | 0 <= p < j ensures Before(o, s[p], s[j]) {
      if p < j - 1 {
        BeforeTransitive(o, s[p], s[j - 1], s[j]);
      }
    }
  }

  /**
   * The `Array.prototype.sort` call: an insertion sort of the rows in
   * place, by the comparator of `o`. The result is sorted and a permutation of
   * the input.
   */
  method SortEntries(a: array<Entry>, o: Ordering)
    requires AllComparable(o, a[..])
    modifies a
    ensures AllComparable(o, a[..]) && Sorted(o, a[..])
    ensures multiset(a[..]) == multiset(old(a[..]))
  {
    var i := 0;
    while i < a.Length
      invariant 0 <= i <= a.Length
      invariant AllComparable(o, a[..]) && SortedPrefix(o, a[..], i)
      invariant multiset(a[..]) == multiset(old(a[..]))
    {
      InsertRow(a, o, i);
      i := i + 1;
    }
  }

  /** One pass of the insertion sort: the row at `i` sinks into the sorted prefix before it. */
  method InsertRow(a: array<Entry>, o: Ordering, i: nat)
    requires i < a.Length && AllComparable(o, a[..]) && SortedPrefix(o, a[..], i)
    modifies a
    ensures AllComparable(o, a[..]) && SortedPrefix(o, a[..], i + 1)
    ensures multiset(a[..]) == multiset(old(a[..]))
  {
    var j := i;
    while j > 0 && !Before(o, a[j - 1], a[j])
      invariant 0 <= j <= i
      invariant AllComparable(o, a[..]) && SortedBut(o, a[..], i + 1, j)
      invariant multiset(a[..]) == multiset(old(a[..]))
    {
      SwapDown(o, a[..], i + 1, j);
      a[j - 1], a[j] := a[j], a[j - 1];
      j := j - 1;
    }
    InsertDone(o, a[..], i + 1, j);
  }

  /** No two different rows of `s` tie under the comparator of `o`. */
  predicate KeysDistinct(o: Ordering, s: seq<Entry>)
    requires AllComparable(o, s)
  {
    forall i, j :: 0 <= i < |s| && 0 <= j < |s| && Before(o, s[i], s[j]) && Before(o, s[j], s[i]) ==> s[i] == s[j]
  }

  lemma SortedTail(o: Ordering, s: seq<Entry>)
    requires AllComparable(o, s) && Sorted(o, s) && KeysDistinct(o, s) && s != []
    ensures AllComparable(o, s[1..]) && Sorted(o, s[1..]) && KeysDistinct(o, s[1..])
  {
    assert forall i :: 0 <= i < |s| - 1 ==> s[1..][i] == s[i + 1];
  }

  /** The first row of a sorted list may precede every row of the list. */
  lemma SortedHeadFirst(o: Ordering, s: seq<Entry>, x: Entry)
    requires AllComparable(o, s) && Sorted(o, s) && x in s
    ensures Comparable(o, x) && Before(o, s[0], x)
  {
    var k :| 0 <= k < |s| && s[k] == x;
    if k == 0 {
      BeforeTotal(o, x, x);
    }
  }

  lemma MultisetTail(s: seq<Entry>, t: seq<Entry>)
    requires s != [] && t != [] && s[0] == t[0] && multiset(s) == multiset(t)
    ensures multiset(s[1..]) == multiset(t[1..])
  {
    assert s == [s[0]] + s[1..] && t == [t[0]] + t[1..];
    assert multiset(s) == multiset([s[0]]) + multiset(s[1..]);
    assert multiset(t) == multiset([t[0]]) + multiset(t[1..]);
    forall x ensures multiset(s[1..])[x] == multiset(t[1..])[x] {
      assert multiset(s)[x] == multiset([s[0]])[x] + multiset(s[1..])[x];
    }
  }

  /**
   * When no two rows tie, there is only one sorted order: any two sorted
   * permutations of the same rows are equal, so the sort's result is
   * determined by its input.
   */
  lemma {:induction false} SortedUnique(o: Ordering, s: seq<Entry>, t: seq<Entry>)
    requires AllComparable(o, s) && AllComparable(o, t)
    requires Sorted(o, s) && Sorted(o, t) && KeysDistinct(o, s)
    requires multiset(s) == multiset(t)
    ensures s == t
  {
    assert |s| == |multiset(s)| == |multiset(t)| == |t|;
    if s != [] {
      assert s[0] in multiset(t) && t[0] in multiset(s);
      SortedHeadFirst(o, t, s[0]);
      SortedHeadFirst(o, s, t[0]);
      var l :| 0 <= l < |s| && s[l] == t[0];
      assert s[0] == t[0];
      MultisetTail(s, t);
      SortedTail(o, s);
      assert AllComparable(o, t[1..]) && Sorted(o, t[1..]) by {
        assert forall i :: 0 <= i < |t| - 1 ==> t[1..][i] == t[i + 1];
      }
      SortedUnique(o, s[1..], t[1..]);
    }
  }

  /** Alaska (Individual), Ohio (Individual), Texas (Separately): in visit-kind order, no two tied. */
  lemma ExampleInOrder()
    ensures AllComparable(ByVisitType, ExampleSorted())
    ensures Sorted(ByVisitType, ExampleSorted()) && KeysDistinct(ByVisitType, ExampleSorted())
  {
    assert NameLe("Alaska", "Ohio") && !NameLe("Ohio", "Alaska");
  }

  function ExampleSorted(): seq<Entry>
  {
    [Entry("AK", Some("Alaska"), Some(Individual)),
     Entry("OH", Some("Ohio"), Some(Individual)),
     Entry("TX", Some("Texas"), Some(Separately))]
  }

  /**
   * Sorting Texas (Separately), Alaska (Individual) and Ohio (Individual) by
   * visit kind gives Alaska, Ohio, Texas.
   */
  lemma VisitTypeExample(r: seq<Entry>)
    requires AllComparable(ByVisitType, r) && Sorted(ByVisitType, r)
    requires multiset(r) == multiset([Entry("TX", Some("Texas"), Some(Separately)),
                                      Entry("AK", Some("Alaska"), Some(Individual)),
                                      Entry("OH", Some("Ohio"), Some(Individual))])
    ensures r == ExampleSorted()
  {
    ExampleInOrder();
    var t := ExampleSorted();
    assert multiset(t) == multiset(r);
    SortedUnique(ByVisitType, t, r);
  }
}
