/** The bucket table: its sortable columns and the comparator a header
    click selects. */
module BucketList {
  import opened Common
  import opened Api
  import opened Sorting

  datatype BucketField = NameField | CreationDateField | ObjectCountField | SizeField

  /** The table opens sorted by name, ascending. */
  const InitialSort: SortState<BucketField> := SortState(NameField, Asc)

  /** From the opening state the first header click on the name column
      sorts it descending, and one on any other column sorts that column
      ascending. */
  lemma FirstClickFromInitialSort(f: BucketField)
    ensures f == NameField ==> Toggle(InitialSort, f) == SortState(NameField, Desc)
    ensures f != NameField ==> Toggle(InitialSort, f) == SortState(f, Asc)
  {
  }

  /** The comparison for one column, before the direction is applied. */
  function CompareField(field: BucketField, col: Collation, a: Bucket, b: Bucket): int
  {
    match field
    case NameField => col.text(a.name, b.name)
    case CreationDateField => col.time(a.creationDate) - col.time(b.creationDate)
    case ObjectCountField => a.objectCount - b.objectCount
    case SizeField => a.size - b.size
  }

  /** The column comparison in the selected direction. */
  function Compare(st: SortState<BucketField>, col: Collation, a: Bucket, b: Bucket): int
  {
    Directed(st.order, CompareField(st.field, col, a, b))
  }

  /** The comparator handed to `sort`; descending negates the comparison.
      It orders rows as a total preorder whenever `localeCompare` does. */
  function Comparator(st: SortState<BucketField>, col: Collation): (r: (Bucket, Bucket) -> int)
    ensures TotalPreorder(col.text) ==> TotalPreorder(r)
  {
    DirectedFieldOrder(st, col);
    (a: Bucket, b: Bucket) => Compare(st, col, a, b)
  }

  /** The rows in display order; a missing list shows as no rows. */
  function SortedBuckets(buckets: Option<seq<Bucket>>, st: SortState<BucketField>, col: Collation): (r: seq<Bucket>)
    ensures buckets.None? ==> r == []
    ensures buckets.Some? ==> multiset(r) == multiset(buckets.value)
    ensures buckets.Some? && TotalPreorder(col.text) ==> SortedBy(r, Comparator(st, col))
  {
    match buckets
    case None => []
    case Some(bs) =>
      SortCopy(bs, Comparator(st, col))
  }

  /** Each column's comparison, turned either way, flips sign when its
      arguments swap and keeps "not after" transitive, once `localeCompare`
      does both. */
  lemma DirectedFieldOrder(st: SortState<BucketField>, col: Collation)
    ensures TotalPreorder(col.text) ==> forall a: Bucket, b: Bucket ::
      Sign(Compare(st, col, a, b)) == -Sign(Compare(st, col, b, a))
    ensures TotalPreorder(col.text) ==> forall a: Bucket, b: Bucket, c: Bucket ::
      Compare(st, col, a, b) <= 0 && Compare(st, col, b, c) <= 0 ==> Compare(st, col, a, c) <= 0
  {
    if TotalPreorder(col.text) {
      forall a: Bucket, b: Bucket ensures Sign(Compare(st, col, a, b)) == -Sign(Compare(st, col, b, a))
      {
        match st.field
        case NameField => assert Sign(col.text(a.name, b.name)) == -Sign(col.text(b.name, a.name));
        case _ =>
      }
      forall a: Bucket, b: Bucket, c: Bucket | Compare(st, col, a, b) <= 0 && Compare(st, col, b, c) <= 0
        ensures Compare(st, col, a, c) <= 0
      {
        match st.field
        case NameField => TextTransitive(col.text, st.order, a.name, b.name, c.name);
        case _ =>
      }
    }
  }

  /** Sorted by object count or by size, ascending rows never decrease in that
      column and descending rows never increase. */
  lemma NumericColumnsAreMonotone(r: seq<Bucket>, st: SortState<BucketField>, col: Collation)
    requires SortedBy(r, Comparator(st, col))
    ensures st == SortState(ObjectCountField, Asc) ==> forall i, j :: 0 <= i < j < |r| ==> r[i].objectCount <= r[j].objectCount
    ensures st == SortState(ObjectCountField, Desc) ==> forall i, j :: 0 <= i < j < |r| ==> r[i].objectCount >= r[j].objectCount
    ensures st == SortState(SizeField, Asc) ==> forall i, j :: 0 <= i < j < |r| ==> r[i].size <= r[j].size
    ensures st == SortState(SizeField, Desc) ==> forall i, j :: 0 <= i < j < |r| ==> r[i].size >= r[j].size
  {
    var cmp := Comparator(st, col);
    forall i, j | 0 <= i < j < |r|
      ensures st == SortState(ObjectCountField, Asc) ==> r[i].objectCount <= r[j].objectCount
      ensures st == SortState(ObjectCountField, Desc) ==> r[i].objectCount >= r[j].objectCount
      ensures st == SortState(SizeField, Asc) ==> r[i].size <= r[j].size
      ensures st == SortState(SizeField, Desc) ==> r[i].size >= r[j].size
    {
      assert cmp(r[i], r[j]) <= 0;
    }
  }
}
