/** The main page: which bucket is open, which menu item is active, the
    content shown for them, and the storage figures handed to the layout. */
module IndexPage {
  import opened Common
  import opened Api
  import opened ApiProps

  /** The selected bucket and the active menu item; `null` is `None`. */
  datatype Nav = Nav(selected: Option<string>, menu: Option<string>)

  /** The page as it first renders. */
  const Start := Nav(None, None)

  /** What the user can do to the navigation state. */
  datatype Action = SelectBucket(bucket: Option<string>) | MenuClick(item: string) | Back

  /** Choosing a bucket (or `null`) leaves every menu item inactive. */
  function HandleSelectBucket(n: Nav, bucket: Option<string>): (r: Nav)
    ensures r.selected == bucket && r.menu.None?
  {
    Nav(bucket, None)
  }

  /** Choosing a menu item closes any open bucket. */
  function HandleMenuItemClick(n: Nav, item: string): (r: Nav)
    ensures r.menu == Some(item) && r.selected.None?
  {
    Nav(None, Some(item))
  }

  /** The back button of the object list closes the bucket and keeps the menu. */
  function OnBack(n: Nav): (r: Nav)
    ensures r.selected.None? && r.menu == n.menu
  {
    n.(selected := None)
  }

  function Apply(n: Nav, a: Action): Nav
  {
    match a
    case SelectBucket(b) => HandleSelectBucket(n, b)
    case MenuClick(m) => HandleMenuItemClick(n, m)
    case Back => OnBack(n)
  }

  function ApplyAll(n: Nav, acts: seq<Action>): Nav
    decreases |acts|
  {
    if |acts| == 0 then n else ApplyAll(Apply(n, acts[0]), acts[1..])
  }

  /** A bucket and a menu item are never both chosen. */
  predicate AtMostOne(n: Nav)
  {
    n.selected.None? || n.menu.None?
  }

  /** Every action keeps the page from having a bucket and a menu item at once. */
  lemma ApplyKeepsAtMostOne(n: Nav, a: Action)
    requires AtMostOne(n)
    ensures AtMostOne(Apply(n, a))
  {
  }

  lemma {:induction false} ApplyAllKeepsAtMostOne(n: Nav, acts: seq<Action>)
    requires AtMostOne(n)
    ensures AtMostOne(ApplyAll(n, acts))
    decreases |acts|
  {
    if |acts| > 0 {
      ApplyKeepsAtMostOne(n, acts[0]);
      ApplyAllKeepsAtMostOne(Apply(n, acts[0]), acts[1..]);
    }
  }

  /** From the first render on, whatever the user does, at most one of the
      two is chosen. */
  lemma ReachableAtMostOne(acts: seq<Action>)
    ensures AtMostOne(ApplyAll(Start, acts))
  {
    ApplyAllKeepsAtMostOne(Start, acts);
  }

  // ---------------------------------------------------------------- content

  /** The content area of the page. */
  datatype View = Loading | Objects(bucket: string) | DashboardView | AnalyticsView | HelpView | Buckets

  /** JavaScript truthiness of `string | null`: the empty string is falsy. */
  predicate Truthy(s: Option<string>)
  {
    s.Some? && s.value != ""
  }

  /** `renderContent`: the loader while the bucket list or the usage record
      loads, then the open bucket, then the active menu item, and the bucket
      list otherwise. */
  function RenderContent(n: Nav, loadingBuckets: bool, loadingUsage: bool): (r: View)
    ensures loadingBuckets || loadingUsage <==> r == Loading
    ensures r.Objects? <==> !loadingBuckets && !loadingUsage && Truthy(n.selected)
    ensures r.Objects? ==> r.bucket == n.selected.value
    ensures r == DashboardView <==> !loadingBuckets && !loadingUsage && !Truthy(n.selected) && n.menu == Some("dashboard")
    ensures r == AnalyticsView <==> !loadingBuckets && !loadingUsage && !Truthy(n.selected) && n.menu == Some("analytics")
    ensures r == HelpView <==> !loadingBuckets && !loadingUsage && !Truthy(n.selected) && n.menu == Some("help")
    ensures r == Buckets <==> !loadingBuckets && !loadingUsage && !Truthy(n.selected)
                              && n.menu !in {Some("dashboard"), Some("analytics"), Some("help")}
  {
    if loadingBuckets || loadingUsage then Loading
    else if Truthy(n.selected) then Objects(n.selected.value)
    else if Truthy(n.menu) then
      match n.menu.value
      case "dashboard" => DashboardView
      case "analytics" => AnalyticsView
      case "help" => HelpView
      case _ => Buckets
    else Buckets
  }

  /** The back button of the object list always returns to the bucket list:
      while a bucket is open no menu item is active, so clearing the bucket
      leaves nothing but the list to show. */
  lemma BackShowsBucketList(acts: seq<Action>)
    ensures var n := ApplyAll(Start, acts);
      Truthy(n.selected) ==>
        && RenderContent(n, false, false) == Objects(n.selected.value)
        && RenderContent(OnBack(n), false, false) == Buckets
  {
    ReachableAtMostOne(acts);
  }

  // ---------------------------------------------------------------- storage figures

  /** `usage?.total || 1`: a missing usage and a zero total both become 1. */
  function LayoutTotal(usage: Option<Usage>): (r: int)
    ensures r != 0
    ensures usage.Some? && usage.value.total != 0 ==> r == usage.value.total
    ensures usage.None? || usage.value.total == 0 ==> r == 1
  {
    if usage.Some? && usage.value.total != 0 then usage.value.total else 1
  }

  /** `usage?.used || 0`: a missing usage counts as nothing used. */
  function LayoutUsed(usage: Option<Usage>): (r: int)
    ensures usage.None? ==> r == 0
    ensures usage.Some? ==> r == usage.value.used
  {
    if usage.Some? && usage.value.used != 0 then usage.value.used else 0
  }

  /** What the sidebar receives from the store, whatever calls ran since
      it started empty: the capacity it was started with (1 in place of a
      zero capacity, so the division is defined), and a used figure that
      leaves exactly `free` of that capacity. */
  lemma LayoutShowsCapacity(total: int, ops: seq<Op>)
    ensures var u := FetchUsage(Run(EmptyStore(total), ops));
      && (total != 0 ==> LayoutTotal(Some(u)) == total)
      && (total == 0 ==> LayoutTotal(Some(u)) == 1)
      && LayoutUsed(Some(u)) + u.free == total
  {
    FetchUsageAfterRun(total, ops);
  }

  /** The same from the seed data the page ships with: the sidebar gets the
      seed's 100 GiB capacity, and a used figure that leaves exactly `free`
      of it, whatever calls ran. */
  lemma LayoutShowsSeedCapacity(ops: seq<Op>)
    ensures var u := FetchUsage(Run(SeedStore(), ops));
      && LayoutTotal(Some(u)) == 107374182400
      && LayoutUsed(Some(u)) + u.free == LayoutTotal(Some(u))
  {
    FetchUsageAfterSeedRun(ops);
  }
}
