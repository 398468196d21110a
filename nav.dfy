/** The first-seen navigation grouping of src/nav/nav.js: pages whose id has
    no "/" become links where they stand in the manifest, and each folder
    (the id's first "/"-segment) becomes one dropdown group at the place the
    folder first appears, holding that folder's pages in manifest order. */
module Nav {
  import opened Base
  import opened Url
  import opened Manifest

  // ------------------------------------------------------------- page tests

  /** `p?.id` is truthy. */
  predicate Listed(p: Page) { Truthy(p.id) }

  /** `String(p.id).split("/")`. */
  function Segments(p: Page): seq<string> { Split(OrEmpty(p.id), IsSlash) }

  predicate IsRootPage(p: Page) { |Segments(p)| == 1 }

  function FolderOf(p: Page): string { Segments(p)[0] }

  /** A page that goes into a folder's group. */
  predicate Grouped(p: Page) { Listed(p) && !IsRootPage(p) }

  function InFolder(f: string): Page -> bool
  {
    (p: Page) => Grouped(p) && FolderOf(p) == f
  }

  /** A root page is one whose id has no "/"; any other page's folder is the
      text before the id's first "/". */
  lemma RootIffNoSlash(p: Page)
    ensures IsRootPage(p) <==> '/' !in OrEmpty(p.id)
    ensures !IsRootPage(p) ==> FolderOf(p) + "/" <= OrEmpty(p.id) && '/' !in FolderOf(p)
  {
    FirstSegmentOf(OrEmpty(p.id));
  }

  // ------------------------------------------------------- the value result

  /** An entry of `navOrder`: a root link, or a folder's group with its pages. */
  datatype NavEntry = Link(page: Page) | Group(folder: string, pages: seq<Page>)

  /** Where an entry of `navOrder` comes from: a root page, or a folder. */
  datatype Slot = LinkSlot(page: Page) | GroupSlot(folder: string)

  /** The folders `groupsByFolder` holds after the pages ps. */
  function SeenFolders(ps: seq<Page>): set<string>
    decreases |ps|
  {
    if ps == [] then {}
    else
      var p := ps[|ps| - 1];
      SeenFolders(ps[..|ps| - 1]) + (if Grouped(p) then {FolderOf(p)} else {})
  }

  /** The order of `navOrder` after the pages ps: a link for each root page,
      a group slot for each folder the first time it appears. */
  function Skeleton(ps: seq<Page>): seq<Slot>
    decreases |ps|
  {
    if ps == [] then []
    else
      var init := ps[..|ps| - 1];
      var p := ps[|ps| - 1];
      if !Listed(p) then Skeleton(init)
      else if IsRootPage(p) then Skeleton(init) + [LinkSlot(p)]
      else if FolderOf(p) in SeenFolders(init) then Skeleton(init)
      else Skeleton(init) + [GroupSlot(FolderOf(p))]
  }

  /** The pages a folder's group holds: its pages in manifest order. */
  function FolderPages(ps: seq<Page>, f: string): seq<Page>
  {
    Filter(ps, InFolder(f))
  }

  function EntryOf(ps: seq<Page>): Slot -> NavEntry
  {
    (s: Slot) => if s.LinkSlot? then Link(s.page) else Group(s.folder, FolderPages(ps, s.folder))
  }

  /** groupPages' `navOrder`, as values. */
  function NavOrder(ps: seq<Page>): seq<NavEntry>
  {
    Map(Skeleton(ps), EntryOf(ps))
  }

  function PagesOf(e: NavEntry): seq<Page>
  {
    match e
    case Link(p) => [p]
    case Group(_, pages) => pages
  }

  /** Every page the navigation shows, links and group pages, in order. */
  function NavPages(ps: seq<Page>): seq<Page>
  {
    FlatMap(NavOrder(ps), PagesOf)
  }

  // ---------------------------------------------------------- the method

  /** A dropdown group object, shared between `navOrder` and
      `groupsByFolder`. */
  class NavGroup {
    const folder: string
    var pages: seq<Page>

    constructor (folder: string)
      ensures this.folder == folder && pages == []
    {
      this.folder := folder;
      pages := [];
    }
  }

  datatype NavItem = LinkItem(page: Page) | GroupItem(group: NavGroup)

  function GroupsIn(items: seq<NavItem>): set<NavGroup>
    decreases |items|
  {
    if items == [] then {}
    else (if items[0].GroupItem? then {items[0].group} else {}) + GroupsIn(items[1..])
  }

  /** An item as it reads in the current heap. */
  function EntryNow(it: NavItem): NavEntry
    reads if it.GroupItem? then {it.group} else {}
  {
    match it
    case LinkItem(p) => Link(p)
    case GroupItem(g) => Group(g.folder, g.pages)
  }

  function Entries(items: seq<NavItem>): (r: seq<NavEntry>)
    reads GroupsIn(items)
    ensures |r| == |items|
    decreases |items|
  {
    if items == [] then [] else [EntryNow(items[0])] + Entries(items[1..])
  }

  lemma {:induction false} EntriesAt(items: seq<NavItem>, k: int)
    requires 0 <= k < |items|
    ensures Entries(items)[k] == EntryNow(items[k])
    decreases |items|
  {
    if k > 0 {
      EntriesAt(items[1..], k - 1);
    }
  }

  /** The item at a slot is the right link, or the group object kept for the
      slot's folder. */
  predicate SlotHeld(s: Slot, it: NavItem, groups: map<string, NavGroup>)
  {
    match s
    case LinkSlot(p) => it == LinkItem(p)
    case GroupSlot(f) => f in groups && it == GroupItem(groups[f])
  }

  predicate AllHeld(slots: seq<Slot>, items: seq<NavItem>, groups: map<string, NavGroup>)
  {
    |slots| == |items| && forall k :: 0 <= k < |slots| ==> SlotHeld(slots[k], items[k], groups)
  }

  lemma HeldGrow(slots: seq<Slot>, items: seq<NavItem>, groups: map<string, NavGroup>, groups': map<string, NavGroup>)
    requires AllHeld(slots, items, groups)
    requires forall f :: f in groups ==> f in groups' && groups'[f] == groups[f]
    ensures AllHeld(slots, items, groups')
  {
    forall k | 0 <= k < |slots| ensures SlotHeld(slots[k], items[k], groups') {
      assert SlotHeld(slots[k], items[k], groups);
    }
  }

  lemma HeldSnoc(slots: seq<Slot>, items: seq<NavItem>, groups: map<string, NavGroup>, s: Slot, it: NavItem)
    requires AllHeld(slots, items, groups) && SlotHeld(s, it, groups)
    ensures AllHeld(slots + [s], items + [it], groups)
  {
    forall k | 0 <= k < |slots| + 1 ensures SlotHeld((slots + [s])[k], (items + [it])[k], groups) {
      if k < |slots| {
        assert SlotHeld(slots[k], items[k], groups);
      }
    }
  }

  function GroupSet(groups: map<string, NavGroup>): set<NavGroup>
  {
    set f | f in groups :: groups[f]
  }

  /** What `navOrder` and `groupsByFolder` hold after the pages ps: the
      items of the slots, one group object per seen folder, holding that
      folder's pages. */
  predicate Built(ps: seq<Page>, navOrder: seq<NavItem>, groups: map<string, NavGroup>)
    reads GroupSet(groups)
  {
    && AllHeld(Skeleton(ps), navOrder, groups)
    && groups.Keys == SeenFolders(ps)
    && (forall f :: f in groups ==> groups[f].folder == f && groups[f].pages == FolderPages(ps, f))
    && (forall f, g :: f in groups && g in groups && f != g ==> groups[f] != groups[g])
  }

  /** The loop body of groupPages for the page p. */
  method PlacePage(ghost before: seq<Page>, p: Page, navOrder: seq<NavItem>, groups: map<string, NavGroup>)
    returns (navOrder': seq<NavItem>, groups': map<string, NavGroup>)
    requires Built(before, navOrder, groups)
    modifies GroupSet(groups)
    ensures Built(before + [p], navOrder', groups')
    ensures forall f :: f in groups' ==> (f in groups && groups'[f] == groups[f]) || fresh(groups'[f])
  {
    navOrder', groups' := navOrder, groups;
    SkeletonSnoc(before, p);
    if !Listed(p) || IsRootPage(p) {
      FolderPagesSkip(before, p);
      if Listed(p) {
        HeldSnoc(Skeleton(before), navOrder, groups, LinkSlot(p), LinkItem(p));
        navOrder' := navOrder + [LinkItem(p)];
      }
    } else {
      var folder := FolderOf(p);
      FolderPagesAdd(before, p);
      if folder !in groups {
        UnseenFolderEmpty(before, folder);
        var group := new NavGroup(folder);
        HeldGrow(Skeleton(before), navOrder, groups, groups[folder := group]);
        groups' := groups[folder := group];
        HeldSnoc(Skeleton(before), navOrder, groups', GroupSlot(folder), GroupItem(group));
        navOrder' := navOrder + [GroupItem(group)];
      }
      var group := groups'[folder];
      group.pages := group.pages + [p];
    }
  }

  /** groupPages: one pass over the manifest, pushing links and new groups
      onto `navOrder` and each folder's pages onto its group object. */
  method GroupPages(manifest: seq<Page>) returns (navOrder: seq<NavItem>)
    ensures Entries(navOrder) == NavOrder(manifest)
    ensures forall k :: 0 <= k < |navOrder| && navOrder[k].GroupItem? ==> fresh(navOrder[k].group)
  {
    navOrder := [];
    var groups: map<string, NavGroup> := map[];
    for i := 0 to |manifest|
      invariant Built(manifest[..i], navOrder, groups)
      invariant forall f :: f in groups ==> fresh(groups[f])
    {
      assert manifest[..i + 1] == manifest[..i] + [manifest[i]];
      navOrder, groups := PlacePage(manifest[..i], manifest[i], navOrder, groups);
    }
    assert manifest[..|manifest|] == manifest;
    var order := NavOrder(manifest);
    forall k | 0 <= k < |navOrder| ensures Entries(navOrder)[k] == order[k] {
      assert SlotHeld(Skeleton(manifest)[k], navOrder[k], groups);
      EntriesAt(navOrder, k);
      MapAt(Skeleton(manifest), EntryOf(manifest), k);
    }
  }

  // ----------------------------------------------------------- step lemmas

  /** One more page: its link, its new folder's group, or nothing. */
  lemma SkeletonSnoc(ps: seq<Page>, p: Page)
    ensures SeenFolders(ps + [p]) == SeenFolders(ps) + (if Grouped(p) then {FolderOf(p)} else {})
    ensures Skeleton(ps + [p]) ==
      if !Listed(p) then Skeleton(ps)
      else if IsRootPage(p) then Skeleton(ps) + [LinkSlot(p)]
      else if FolderOf(p) in SeenFolders(ps) then Skeleton(ps)
      else Skeleton(ps) + [GroupSlot(FolderOf(p))]
  {
    assert (ps + [p])[..|ps|] == ps;
  }

  /** A page outside every group changes no folder's pages. */
  lemma FolderPagesSkip(ps: seq<Page>, p: Page)
    requires !Grouped(p)
    ensures forall f :: FolderPages(ps + [p], f) == FolderPages(ps, f)
  {
    forall f ensures FolderPages(ps + [p], f) == FolderPages(ps, f) {
      FilterAppend(ps, [p], InFolder(f));
      assert Filter([p], InFolder(f)) == [];
    }
  }

  /** A grouped page joins its own folder's pages and no other's. */
  lemma FolderPagesAdd(ps: seq<Page>, p: Page)
    requires Grouped(p)
    ensures FolderPages(ps + [p], FolderOf(p)) == FolderPages(ps, FolderOf(p)) + [p]
    ensures forall f :: f != FolderOf(p) ==> FolderPages(ps + [p], f) == FolderPages(ps, f)
  {
    FilterAppend(ps, [p], InFolder(FolderOf(p)));
    forall f | f != FolderOf(p) ensures FolderPages(ps + [p], f) == FolderPages(ps, f) {
      FilterAppend(ps, [p], InFolder(f));
      assert Filter([p], InFolder(f)) == [];
    }
  }

  /** A folder not seen yet has no pages. */
  lemma {:induction false} UnseenFolderEmpty(ps: seq<Page>, f: string)
    requires f !in SeenFolders(ps)
    ensures FolderPages(ps, f) == []
    decreases |ps|
  {
    if ps != [] {
      var n := |ps| - 1;
      assert SeenFolders(ps) == SeenFolders(ps[..n]) + (if Grouped(ps[n]) then {FolderOf(ps[n])} else {});
      UnseenFolderEmpty(ps[..n], f);
      assert ps == ps[..n] + [ps[n]];
      FilterAppend(ps[..n], [ps[n]], InFolder(f));
      assert !InFolder(f)(ps[n]);
    }
  }

  // ------------------------------------------------------ grouping lemmas

  /** Each folder has exactly one group slot once it has been seen, and none
      before. */
  lemma {:induction false} GroupSlotCount(ps: seq<Page>, f: string)
    ensures multiset(Skeleton(ps))[GroupSlot(f)] == if f in SeenFolders(ps) then 1 else 0
    decreases |ps|
  {
    if ps != [] {
      var n := |ps| - 1;
      assert ps == ps[..n] + [ps[n]];
      SkeletonSnoc(ps[..n], ps[n]);
      GroupSlotCount(ps[..n], f);
    }
  }

  /** The folder of every group slot has been seen. */
  lemma GroupSlotSeen(ps: seq<Page>, s: Slot)
    requires s in Skeleton(ps) && s.GroupSlot?
    ensures s.folder in SeenFolders(ps)
  {
    GroupSlotCount(ps, s.folder);
  }

  /** The pages one slot contributes. */
  function SlotPages(ps: seq<Page>): Slot -> seq<Page>
  {
    (s: Slot) => PagesOf(EntryOf(ps)(s))
  }

  lemma SlotPagesOf(ps: seq<Page>, s: Slot)
    ensures SlotPages(ps)(s) == if s.LinkSlot? then [s.page] else FolderPages(ps, s.folder)
  {
    var e := EntryOf(ps)(s);
    assert e == if s.LinkSlot? then Link(s.page) else Group(s.folder, FolderPages(ps, s.folder));
    assert SlotPages(ps)(s) == PagesOf(e);
  }

  /** A page outside every group leaves every slot's pages as they were. */
  lemma SlotPagesSkip(ps: seq<Page>, p: Page)
    requires !Grouped(p)
    ensures forall s :: SlotPages(ps + [p])(s) == SlotPages(ps)(s)
    ensures forall s :: EntryOf(ps + [p])(s) == EntryOf(ps)(s)
  {
    FolderPagesSkip(ps, p);
    forall s ensures EntryOf(ps + [p])(s) == EntryOf(ps)(s) {
      if s.GroupSlot? {
        assert FolderPages(ps + [p], s.folder) == FolderPages(ps, s.folder);
      }
    }
  }

  /** The pages shown after ps, slot by slot. */
  function Shown(ps: seq<Page>): seq<Page>
  {
    FlatMap(Skeleton(ps), SlotPages(ps))
  }

  lemma ShownSkip(ps: seq<Page>, p: Page)
    requires !Grouped(p)
    ensures Shown(ps + [p]) == Shown(ps) + (if Listed(p) then [p] else [])
  {
    SkeletonSnoc(ps, p);
    SlotPagesSkip(ps, p);
    FlatMapCongruent(Skeleton(ps), SlotPages(ps), SlotPages(ps + [p]));
    if Listed(p) {
      FlatMapSnoc(Skeleton(ps), LinkSlot(p), SlotPages(ps + [p]));
    }
  }

  lemma ShownNewFolder(ps: seq<Page>, p: Page)
    requires Grouped(p) && FolderOf(p) !in SeenFolders(ps)
    ensures Shown(ps + [p]) == Shown(ps) + [p]
  {
    var f, slots := FolderOf(p), Skeleton(ps);
    SkeletonSnoc(ps, p);
    FolderPagesAdd(ps, p);
    forall k | 0 <= k < |slots| ensures SlotPages(ps)(slots[k]) == SlotPages(ps + [p])(slots[k]) {
      SlotPagesOf(ps, slots[k]);
      SlotPagesOf(ps + [p], slots[k]);
      if slots[k].GroupSlot? {
        GroupSlotSeen(ps, slots[k]);
      }
    }
    FlatMapCongruent(slots, SlotPages(ps), SlotPages(ps + [p]));
    UnseenFolderEmpty(ps, f);
    SlotPagesOf(ps + [p], GroupSlot(f));
    FlatMapSnoc(slots, GroupSlot(f), SlotPages(ps + [p]));
  }

  lemma ShownSeenFolder(ps: seq<Page>, p: Page)
    requires Grouped(p) && FolderOf(p) in SeenFolders(ps)
    ensures multiset(Shown(ps + [p])) == multiset(Shown(ps)) + multiset{p}
  {
    var f, slots := FolderOf(p), Skeleton(ps);
    SkeletonSnoc(ps, p);
    FolderPagesAdd(ps, p);
    GroupSlotCount(ps, f);
    forall k | 0 <= k < |slots| && slots[k] != GroupSlot(f)
      ensures SlotPages(ps + [p])(slots[k]) == SlotPages(ps)(slots[k])
    {
      SlotPagesOf(ps, slots[k]);
      SlotPagesOf(ps + [p], slots[k]);
    }
    SlotPagesOf(ps, GroupSlot(f));
    SlotPagesOf(ps + [p], GroupSlot(f));
    FlatMapBump(slots, SlotPages(ps), SlotPages(ps + [p]), GroupSlot(f), [p]);
  }

  /** Every page with an id is shown exactly once across all links and group
      pages, and nothing else is shown; so the number shown is the number of
      pages with an id. */
  lemma {:induction false} NavPagesCount(ps: seq<Page>)
    ensures multiset(NavPages(ps)) == multiset(Filter(ps, Listed))
    ensures |NavPages(ps)| == |Filter(ps, Listed)|
    decreases |ps|
  {
    FlatMapOfMap(Skeleton(ps), EntryOf(ps), PagesOf, SlotPages(ps));
    if ps != [] {
      var n := |ps| - 1;
      var init, p := ps[..n], ps[n];
      assert ps == init + [p];
      NavPagesCount(init);
      FlatMapOfMap(Skeleton(init), EntryOf(init), PagesOf, SlotPages(init));
      FilterAppend(init, [p], Listed);
      if !Grouped(p) {
        ShownSkip(init, p);
      } else if FolderOf(p) in SeenFolders(init) {
        ShownSeenFolder(init, p);
      } else {
        ShownNewFolder(init, p);
      }
    }
    assert |NavPages(ps)| == |multiset(NavPages(ps))|;
  }

  /** The folders seen are the folders of the pages that have one. */
  lemma {:induction false} SeenFoldersSpec(ps: seq<Page>, f: string)
    ensures f in SeenFolders(ps) <==> exists k :: 0 <= k < |ps| && Grouped(ps[k]) && FolderOf(ps[k]) == f
    decreases |ps|
  {
    if ps != [] {
      var n := |ps| - 1;
      var init, p := ps[..n], ps[n];
      SeenFoldersSpec(init, f);
      assert SeenFolders(ps) == SeenFolders(init) + (if Grouped(p) then {FolderOf(p)} else {});
      if f in SeenFolders(init) {
        var k :| 0 <= k < n && Grouped(init[k]) && FolderOf(init[k]) == f;
        assert init[k] == ps[k];
      } else if Grouped(p) && FolderOf(p) == f {
        assert Grouped(ps[n]) && FolderOf(ps[n]) == f;
      } else {
        forall k | 0 <= k < |ps| ensures !(Grouped(ps[k]) && FolderOf(ps[k]) == f) {
          if k < n {
            assert init[k] == ps[k];
          }
        }
      }
    }
  }

  /** A page without an id changes nothing. */
  lemma UnlistedSkipped(ps: seq<Page>, p: Page)
    requires !Listed(p)
    ensures NavOrder(ps + [p]) == NavOrder(ps)
  {
    SkeletonSnoc(ps, p);
    SlotPagesSkip(ps, p);
    MapCongruent(Skeleton(ps), EntryOf(ps + [p]), EntryOf(ps));
  }

  /** A page whose id has no "/" adds its link at the end. */
  lemma RootPageLinked(ps: seq<Page>, p: Page)
    requires Listed(p) && IsRootPage(p)
    ensures NavOrder(ps + [p]) == NavOrder(ps) + [Link(p)]
  {
    SkeletonSnoc(ps, p);
    SlotPagesSkip(ps, p);
    MapAppend(Skeleton(ps), [LinkSlot(p)], EntryOf(ps + [p]));
    MapCongruent(Skeleton(ps), EntryOf(ps + [p]), EntryOf(ps));
  }

  /** Later pages only add entries after the ones the earlier pages made. */
  lemma {:induction false} SkeletonPrefix(ps: seq<Page>, n: nat)
    requires n <= |ps|
    ensures Skeleton(ps[..n]) <= Skeleton(ps)
    decreases |ps| - n
  {
    if n < |ps| {
      SkeletonPrefix(ps, n + 1);
      assert ps[..n + 1] == ps[..n] + [ps[n]];
      SkeletonSnoc(ps[..n], ps[n]);
    } else {
      assert ps[..n] == ps;
    }
  }

  /** The link of a root page sits right after the entries of the pages
      before it. */
  lemma LinkAtPosition(m: seq<Page>, j: int)
    requires 0 <= j < |m| && Listed(m[j]) && IsRootPage(m[j])
    ensures var at := |Skeleton(m[..j])|; at < |NavOrder(m)| && NavOrder(m)[at] == Link(m[j])
  {
    var at := |Skeleton(m[..j])|;
    assert m[..j + 1] == m[..j] + [m[j]];
    SkeletonSnoc(m[..j], m[j]);
    SkeletonPrefix(m, j + 1);
    assert Skeleton(m)[at] == Skeleton(m[..j + 1])[at];
    MapAt(Skeleton(m), EntryOf(m), at);
  }

  /** A folder's group sits right after the entries of the pages before the
      folder's first page, and holds all the folder's pages. */
  lemma GroupAtFirstSight(m: seq<Page>, j: int)
    requires 0 <= j < |m| && Grouped(m[j]) && FolderOf(m[j]) !in SeenFolders(m[..j])
    ensures var at := |Skeleton(m[..j])|;
      at < |NavOrder(m)| && NavOrder(m)[at] == Group(FolderOf(m[j]), FolderPages(m, FolderOf(m[j])))
  {
    var at := |Skeleton(m[..j])|;
    assert m[..j + 1] == m[..j] + [m[j]];
    SkeletonSnoc(m[..j], m[j]);
    SkeletonPrefix(m, j + 1);
    assert Skeleton(m)[at] == Skeleton(m[..j + 1])[at];
    MapAt(Skeleton(m), EntryOf(m), at);
  }

  /** No two groups share a folder. */
  lemma {:induction false} SkeletonGroupsDistinct(ps: seq<Page>)
    ensures forall i, j :: 0 <= i < j < |Skeleton(ps)| && Skeleton(ps)[i].GroupSlot? && Skeleton(ps)[j].GroupSlot? ==>
      Skeleton(ps)[i].folder != Skeleton(ps)[j].folder
    decreases |ps|
  {
    if ps != [] {
      var n := |ps| - 1;
      var init, p := ps[..n], ps[n];
      assert ps == init + [p];
      SkeletonGroupsDistinct(init);
      SkeletonSnoc(init, p);
      var slots := Skeleton(init);
      if Grouped(p) && FolderOf(p) !in SeenFolders(init) {
        forall i | 0 <= i < |slots| && slots[i].GroupSlot? ensures slots[i].folder != FolderOf(p) {
          GroupSlotSeen(init, slots[i]);
        }
      }
    }
  }

  /** Each folder with a page gets exactly one group, and only such folders
      do. */
  lemma OneGroupPerFolder(m: seq<Page>)
    ensures forall i, j :: 0 <= i < j < |NavOrder(m)| && NavOrder(m)[i].Group? && NavOrder(m)[j].Group? ==>
      NavOrder(m)[i].folder != NavOrder(m)[j].folder
    ensures forall f :: (exists k :: 0 <= k < |NavOrder(m)| && NavOrder(m)[k] == Group(f, FolderPages(m, f))) <==>
      (exists k :: 0 <= k < |m| && Grouped(m[k]) && FolderOf(m[k]) == f)
  {
    var slots, order := Skeleton(m), NavOrder(m);
    SkeletonGroupsDistinct(m);
    forall k | 0 <= k < |slots| ensures order[k] == EntryOf(m)(slots[k]) {
      MapAt(slots, EntryOf(m), k);
    }
    forall f ensures (exists k :: 0 <= k < |order| && order[k] == Group(f, FolderPages(m, f))) <==>
      (exists k :: 0 <= k < |m| && Grouped(m[k]) && FolderOf(m[k]) == f)
    {
      SeenFoldersSpec(m, f);
      GroupSlotCount(m, f);
      if exists k :: 0 <= k < |order| && order[k] == Group(f, FolderPages(m, f)) {
        var k :| 0 <= k < |order| && order[k] == Group(f, FolderPages(m, f));
        assert slots[k] == GroupSlot(f);
        assert slots[k] in multiset(slots);
      }
      if f in SeenFolders(m) {
        assert GroupSlot(f) in multiset(slots);
        var k :| 0 <= k < |slots| && slots[k] == GroupSlot(f);
        assert order[k] == Group(f, FolderPages(m, f));
      }
    }
  }

  /** A group's pages are exactly its folder's pages with an id, in manifest
      order. */
  lemma GroupPagesInOrder(m: seq<Page>, f: string)
    ensures forall p :: p in FolderPages(m, f) <==> p in m && Listed(p) && !IsRootPage(p) && FolderOf(p) == f
    ensures IsSubsequence(FolderPages(m, f), m)
  {
    FilterMembers(m, InFolder(f));
    FilterIsSubsequence(m, InFolder(f));
  }
}
