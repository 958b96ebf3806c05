/** The object table of one bucket: its sortable columns, the comparator a
    header click selects, and the icon chosen from an object's MIME type. */
module ObjectList {
  import opened Common
  import opened Api
  import opened Sorting

  datatype ObjectField = KeyField | LastModifiedField | SizeField | TypeField

  /** The table opens sorted by key, ascending. */
  const InitialSort: SortState<ObjectField> := SortState(KeyField, Asc)

  /** From the opening state the first header click on the key column
      sorts it descending, and one on any other column sorts that column
      ascending. */
  lemma FirstClickFromInitialSort(f: ObjectField)
    ensures f == KeyField ==> Toggle(InitialSort, f) == SortState(KeyField, Desc)
    ensures f != KeyField ==> Toggle(InitialSort, f) == SortState(f, Asc)
  {
  }

  /** The comparison for one column, before the direction is applied. */
  function CompareField(field: ObjectField, col: Collation, a: StorageObject, b: StorageObject): int
  {
    match field
    case KeyField => col.text(a.key, b.key)
    case LastModifiedField => col.time(a.lastModified) - col.time(b.lastModified)
    case SizeField => a.size - b.size
    case TypeField => col.text(a.mimeType, b.mimeType)
  }

  /** The column comparison in the selected direction. */
  function Compare(st: SortState<ObjectField>, col: Collation, a: StorageObject, b: StorageObject): int
  {
    Directed(st.order, CompareField(st.field, col, a, b))
  }

  /** The comparator handed to `sort`; descending negates the comparison.
      It orders rows as a total preorder whenever `localeCompare` does. */
  function Comparator(st: SortState<ObjectField>, col: Collation): (r: (StorageObject, StorageObject) -> int)
    ensures TotalPreorder(col.text) ==> TotalPreorder(r)
  {
    DirectedFieldOrder(st, col);
    (a: StorageObject, b: StorageObject) => Compare(st, col, a, b)
  }

  /** The rows in display order; a missing list shows as no rows. */
  function SortedObjects(objects: Option<seq<StorageObject>>, st: SortState<ObjectField>, col: Collation): (r: seq<StorageObject>)
    ensures objects.None? ==> r == []
    ensures objects.Some? ==> multiset(r) == multiset(objects.value)
    ensures objects.Some? && TotalPreorder(col.text) ==> SortedBy(r, Comparator(st, col))
  {
    match objects
    case None => []
    case Some(os) =>
      SortCopy(os, Comparator(st, col))
  }

  /** Descending order is the ascending comparison negated, column by column. */
  lemma DescNegatesAsc(field: ObjectField, col: Collation, a: StorageObject, b: StorageObject)
    ensures Comparator(SortState(field, Desc), col)(a, b) == -Comparator(SortState(field, Asc), col)(a, b)
  {
  }

  /** Each column's comparison, turned either way, flips sign when its
      arguments swap and keeps "not after" transitive, once `localeCompare`
      does both. */
  lemma DirectedFieldOrder(st: SortState<ObjectField>, col: Collation)
    ensures TotalPreorder(col.text) ==> forall a: StorageObject, b: StorageObject ::
      Sign(Compare(st, col, a, b)) == -Sign(Compare(st, col, b, a))
    ensures TotalPreorder(col.text) ==> forall a: StorageObject, b: StorageObject, c: StorageObject ::
      Compare(st, col, a, b) <= 0 && Compare(st, col, b, c) <= 0 ==> Compare(st, col, a, c) <= 0
  {
    if TotalPreorder(col.text) {
      forall a: StorageObject, b: StorageObject ensures Sign(Compare(st, col, a, b)) == -Sign(Compare(st, col, b, a))
      {
        match st.field
        case KeyField => assert Sign(col.text(a.key, b.key)) == -Sign(col.text(b.key, a.key));
        case TypeField => assert Sign(col.text(a.mimeType, b.mimeType)) == -Sign(col.text(b.mimeType, a.mimeType));
        case _ =>
      }
      forall a: StorageObject, b: StorageObject, c: StorageObject | Compare(st, col, a, b) <= 0 && Compare(st, col, b, c) <= 0
        ensures Compare(st, col, a, c) <= 0
      {
        match st.field
        case KeyField => TextTransitive(col.text, st.order, a.key, b.key, c.key);
        case TypeField => TextTransitive(col.text, st.order, a.mimeType, b.mimeType, c.mimeType);
        case _ =>
      }
    }
  }

  /** Sorting by size compares the numbers themselves: ascending rows never
      shrink, descending rows never grow. */
  lemma SizeSortIsNumeric(r: seq<StorageObject>, order: Order, col: Collation)
    requires SortedBy(r, Comparator(SortState(SizeField, order), col))
    ensures order == Asc ==> forall i, j :: 0 <= i < j < |r| ==> r[i].size <= r[j].size
    ensures order == Desc ==> forall i, j :: 0 <= i < j < |r| ==> r[i].size >= r[j].size
  {
    var cmp := Comparator(SortState(SizeField, order), col);
    forall i, j | 0 <= i < j < |r|
      ensures order == Asc ==> r[i].size <= r[j].size
      ensures order == Desc ==> r[i].size >= r[j].size
    {
      assert cmp(r[i], r[j]) <= 0;
    }
  }

  // ---------------------------------------------------------------- icons

  /** The icon shown beside an object. */
  datatype FileIcon = ImageIcon | VideoIcon | AudioIcon | PdfIcon | ArchiveIcon | CodeIcon | GenericIcon

  predicate StartsWith(s: string, prefix: string)
  {
    |prefix| <= |s| && s[..|prefix|] == prefix
  }

  /** `String.prototype.includes`. */
  predicate Contains(s: string, part: string)
  {
    exists i | 0 <= i <= |s| - |part| :: OccursAt(s, part, i)
  }

  predicate OccursAt(s: string, part: string, i: int)
  {
    0 <= i && i + |part| <= |s| && s[i..i + |part|] == part
  }

  lemma ContainsAnyCons(s: string, p: string, ps: seq<string>)
    ensures ContainsAny(s, [p] + ps) <==> Contains(s, p) || ContainsAny(s, ps)
  {
    var qs := [p] + ps;
    if Contains(s, p) {
      assert qs[0] == p;
    }
    if ContainsAny(s, ps) {
      var k :| 0 <= k < |ps| && Contains(s, ps[k]);
      assert qs[k + 1] == ps[k];
    }
    if ContainsAny(s, qs) {
      var k :| 0 <= k < |qs| && Contains(s, qs[k]);
      if k > 0 { assert ps[k - 1] == qs[k]; } else { assert qs[0] == p; }
    }
  }

  predicate ContainsAny(s: string, parts: seq<string>)
  {
    exists k | 0 <= k < |parts| :: Contains(s, parts[k])
  }

  /** One rule of the icon table: a test on the MIME type and the icon it picks. */
  datatype Test = Prefix(prefix: string) | AnyOf(parts: seq<string>)
  datatype Rule = Rule(test: Test, icon: FileIcon)

  predicate Passes(t: Test, mime: string)
  {
    match t
    case Prefix(p) => StartsWith(mime, p)
    case AnyOf(ps) => ContainsAny(mime, ps)
  }

  const ArchiveWords: seq<string> := ["zip", "archive", "compressed"]
  const CodeWords: seq<string> := ["html", "json", "xml", "javascript"]

  /** The icon rules in the order they are tried. */
  const IconRules: seq<Rule> := [
    Rule(Prefix("image/"), ImageIcon),
    Rule(Prefix("video/"), VideoIcon),
    Rule(Prefix("audio/"), AudioIcon),
    Rule(AnyOf(["pdf"]), PdfIcon),
    Rule(AnyOf(ArchiveWords), ArchiveIcon),
    Rule(AnyOf(CodeWords), CodeIcon)
  ]

  /** The icon of the first rule that passes, or the generic icon. */
  function FirstMatch(rules: seq<Rule>, mime: string): (r: FileIcon)
    ensures r == GenericIcon || exists k :: 0 <= k < |rules| && rules[k].icon == r
    ensures (forall k :: 0 <= k < |rules| ==> !Passes(rules[k].test, mime)) ==> r == GenericIcon
    ensures forall k :: (0 <= k < |rules| && Passes(rules[k].test, mime)
              && (forall m :: 0 <= m < k ==> !Passes(rules[m].test, mime))) ==> r == rules[k].icon
  {
    if |rules| == 0 then GenericIcon
    else if Passes(rules[0].test, mime) then rules[0].icon
    else
      var r := FirstMatch(rules[1..], mime);
      assert forall k :: 1 <= k < |rules| ==> rules[k] == rules[1..][k - 1];
      r
  }

  lemma WordListsAreDisjunctions(mime: string)
    ensures ContainsAny(mime, ["pdf"]) <==> Contains(mime, "pdf")
    ensures ContainsAny(mime, ArchiveWords)
      <==> Contains(mime, "zip") || Contains(mime, "archive") || Contains(mime, "compressed")
    ensures ContainsAny(mime, CodeWords)
      <==> Contains(mime, "html") || Contains(mime, "json") || Contains(mime, "xml") || Contains(mime, "javascript")
  {
    assert ["pdf"] == ["pdf"] + [];
    assert ArchiveWords == ["zip"] + ["archive", "compressed"];
    assert ["archive", "compressed"] == ["archive"] + ["compressed"];
    assert ["compressed"] == ["compressed"] + [];
    assert CodeWords == ["html"] + ["json", "xml", "javascript"];
    assert ["json", "xml", "javascript"] == ["json"] + ["xml", "javascript"];
    assert ["xml", "javascript"] == ["xml"] + ["javascript"];
    assert ["javascript"] == ["javascript"] + [];
    ContainsAnyCons(mime, "pdf", []);
    ContainsAnyCons(mime, "zip", ["archive", "compressed"]);
    ContainsAnyCons(mime, "archive", ["compressed"]);
    ContainsAnyCons(mime, "compressed", []);
    ContainsAnyCons(mime, "html", ["json", "xml", "javascript"]);
    ContainsAnyCons(mime, "json", ["xml", "javascript"]);
    ContainsAnyCons(mime, "xml", ["javascript"]);
    ContainsAnyCons(mime, "javascript", []);
  }

  /** `getFileIcon`: the chain of tests the object row runs on `type`. It
      picks the icon of the first rule in the table the type passes, and the
      generic icon when it passes none. */
  function GetFileIcon(mime: string): (r: FileIcon)
    ensures r == FirstMatch(IconRules, mime)
  {
    WordListsAreDisjunctions(mime);
    var t0 := IconRules;
    assert FirstMatch(t0, mime) == if StartsWith(mime, "image/") then ImageIcon else FirstMatch(t0[1..], mime);
    var t1 := t0[1..];
    assert FirstMatch(t1, mime) == if StartsWith(mime, "video/") then VideoIcon else FirstMatch(t1[1..], mime);
    var t2 := t1[1..];
    assert FirstMatch(t2, mime) == if StartsWith(mime, "audio/") then AudioIcon else FirstMatch(t2[1..], mime);
    var t3 := t2[1..];
    assert FirstMatch(t3, mime) == if ContainsAny(mime, ["pdf"]) then PdfIcon else FirstMatch(t3[1..], mime);
    var t4 := t3[1..];
    assert FirstMatch(t4, mime) == if ContainsAny(mime, ArchiveWords) then ArchiveIcon else FirstMatch(t4[1..], mime);
    var t5 := t4[1..];
    assert FirstMatch(t5, mime) == if ContainsAny(mime, CodeWords) then CodeIcon else FirstMatch(t5[1..], mime);
    var t6 := t5[1..];
    assert FirstMatch(t6, mime) == GenericIcon;
    if StartsWith(mime, "image/") then ImageIcon
    else if StartsWith(mime, "video/") then VideoIcon
    else if StartsWith(mime, "audio/") then AudioIcon
    else if Contains(mime, "pdf") then PdfIcon
    else if Contains(mime, "zip") || Contains(mime, "archive") || Contains(mime, "compressed") then ArchiveIcon
    else if Contains(mime, "html") || Contains(mime, "json") || Contains(mime, "xml") || Contains(mime, "javascript") then CodeIcon
    else GenericIcon
  }
}
