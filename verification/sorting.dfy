/** Column sorting shared by the bucket and object lists: the header-click
    state machine, and `[...xs].sort(cmp)` for a comparator returning a
    negative, zero or positive number. */
module Sorting {

  datatype Order = Asc | Desc

  /** Which column the list is sorted by, and in which direction. */
  datatype SortState<F> = SortState(field: F, order: Order)

  function Flip(o: Order): Order
  {
    if o == Asc then Desc else Asc
  }

  /** A click on the header of column `f`. */
  function Toggle<F(==)>(s: SortState<F>, f: F): (r: SortState<F>)
    ensures r.field == f
    ensures s.field == f ==> r.order != s.order
    ensures s.field != f ==> r.order == Asc
  {
    if s.field == f then SortState(f, Flip(s.order)) else SortState(f, Asc)
  }

  /** Two clicks on the column already sorted by give back the same state. */
  lemma ToggleTwiceRestores<F>(s: SortState<F>)
    ensures Toggle(Toggle(s, s.field), s.field) == s
  {
  }

  /** Whatever the state, the first click on a new column sorts it ascending
      and a second click on it sorts it descending. */
  lemma ToggleNewColumn<F>(s: SortState<F>, f: F)
    requires s.field != f
    ensures Toggle(s, f) == SortState(f, Asc)
    ensures Toggle(Toggle(s, f), f) == SortState(f, Desc)
  {
  }

  /** A column comparison turned the way the header says: descending
      negates it. */
  function Directed(order: Order, c: int): int
  {
    if order == Asc then c else -c
  }

  function Sign(x: int): int
  {
    if x < 0 then -1 else if x == 0 then 0 else 1
  }

  /** A comparator the sort can rely on: swapping the arguments flips the
      sign, and "not after" is transitive. */
  ghost predicate TotalPreorder<T(!new)>(cmp: (T, T) -> int)
  {
    && (forall a, b :: Sign(cmp(a, b)) == -Sign(cmp(b, a)))
    && (forall a, b, c :: cmp(a, b) <= 0 && cmp(b, c) <= 0 ==> cmp(a, c) <= 0)
  }

  /** The two host services the comparator relies on: `localeCompare` on
      strings and the millisecond value of a parsed date string. */
  datatype Collation = Collation(text: (string, string) -> int, time: string -> int)

  /** A comparison on text built from `localeCompare` keeps its "not after"
      relation transitive in either direction. */
  lemma TextTransitive(text: (string, string) -> int, order: Order, a: string, b: string, c: string)
    requires TotalPreorder(text)
    requires order == Asc ==> text(a, b) <= 0 && text(b, c) <= 0
    requires order == Desc ==> text(a, b) >= 0 && text(b, c) >= 0
    ensures order == Asc ==> text(a, c) <= 0
    ensures order == Desc ==> text(a, c) >= 0
  {
    if order == Desc {
      assert Sign(text(a, b)) == -Sign(text(b, a));
      assert Sign(text(b, c)) == -Sign(text(c, b));
      assert text(c, a) <= 0;
      assert Sign(text(a, c)) == -Sign(text(c, a));
    }
  }

  /** No element is placed after one that the comparator puts before it. */
  ghost predicate SortedBy<T>(s: seq<T>, cmp: (T, T) -> int)
  {
    forall i, j :: 0 <= i < j < |s| ==> cmp(s[i], s[j]) <= 0
  }

  /** Inserts `x` before the first element it does not come after. */
  function Insert<T>(x: T, s: seq<T>, cmp: (T, T) -> int): (r: seq<T>)
    ensures multiset(r) == multiset(s) + multiset{x}
    ensures |r| == |s| + 1
  {
    if |s| == 0 then [x]
    else if cmp(x, s[0]) <= 0 then [x] + s
    else
      assert s == [s[0]] + s[1..];
      [s[0]] + Insert(x, s[1..], cmp)
  }

  function InsertionSort<T>(s: seq<T>, cmp: (T, T) -> int): (r: seq<T>)
    ensures multiset(r) == multiset(s)
    ensures |r| == |s|
  {
    if |s| == 0 then []
    else
      assert s == [s[0]] + s[1..];
      Insert(s[0], InsertionSort(s[1..], cmp), cmp)
  }

  /** `x` does not come after any element of `s`. */
  ghost predicate NotAfterAll<T>(x: T, s: seq<T>, cmp: (T, T) -> int)
  {
    forall j :: 0 <= j < |s| ==> cmp(x, s[j]) <= 0
  }

  lemma FrontSorted<T>(x: T, s: seq<T>, cmp: (T, T) -> int)
    requires SortedBy(s, cmp)
    requires NotAfterAll(x, s, cmp)
    ensures SortedBy([x] + s, cmp)
  {
    var r := [x] + s;
    forall i, j | 0 <= i < j < |r| ensures cmp(r[i], r[j]) <= 0
    {
      if i == 0 {
        assert r[j] == s[j - 1];
      } else {
        assert r[i] == s[i - 1] && r[j] == s[j - 1];
      }
    }
  }

  /** What is not after every element of a list is not after any of its
      permutations' elements either. */
  lemma NotAfterPermutation<T>(x: T, s: seq<T>, t: seq<T>, cmp: (T, T) -> int)
    requires NotAfterAll(x, s, cmp)
    requires multiset(t) == multiset(s)
    ensures NotAfterAll(x, t, cmp)
  {
    forall j | 0 <= j < |t| ensures cmp(x, t[j]) <= 0
    {
      assert t[j] in multiset(s);
      var k :| 0 <= k < |s| && s[k] == t[j];
    }
  }

  lemma {:induction false} InsertSorted<T(!new)>(x: T, s: seq<T>, cmp: (T, T) -> int)
    requires TotalPreorder(cmp)
    requires SortedBy(s, cmp)
    ensures SortedBy(Insert(x, s, cmp), cmp)
  {
    if |s| == 0 {
    } else if cmp(x, s[0]) <= 0 {
      forall j | 0 <= j < |s| ensures cmp(x, s[j]) <= 0
      {
        if j > 0 {
          assert cmp(s[0], s[j]) <= 0;
        }
      }
      FrontSorted(x, s, cmp);
    } else {
      var tail := Insert(x, s[1..], cmp);
      InsertSorted(x, s[1..], cmp);
      assert cmp(s[0], x) <= 0 by {
        assert Sign(cmp(x, s[0])) == -Sign(cmp(s[0], x));
      }
      assert NotAfterAll(s[0], s[1..] + [x], cmp) by {
        forall j | 0 <= j < |s[1..] + [x]| ensures cmp(s[0], (s[1..] + [x])[j]) <= 0
        {
          if j < |s| - 1 {
            assert (s[1..] + [x])[j] == s[j + 1];
          }
        }
      }
      assert multiset(tail) == multiset(s[1..] + [x]);
      NotAfterPermutation(s[0], s[1..] + [x], tail, cmp);
      FrontSorted(s[0], tail, cmp);
    }
  }

  lemma {:induction false} InsertionSortSorted<T(!new)>(s: seq<T>, cmp: (T, T) -> int)
    ensures TotalPreorder(cmp) ==> SortedBy(InsertionSort(s, cmp), cmp)
  {
    if |s| > 0 && TotalPreorder(cmp) {
      InsertionSortSorted(s[1..], cmp);
      InsertSorted(s[0], InsertionSort(s[1..], cmp), cmp);
    }
  }

  /** `[...xs].sort(cmp)`: a sorted permutation of a copy of `xs`. Sequences
      are values, so the caller's list is never touched. */
  function SortCopy<T(!new)>(xs: seq<T>, cmp: (T, T) -> int): (r: seq<T>)
    ensures multiset(r) == multiset(xs)
    ensures TotalPreorder(cmp) ==> SortedBy(r, cmp)
  {
    InsertionSortSorted(xs, cmp);
    InsertionSort(xs, cmp)
  }
}
