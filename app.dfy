/** The single-file site script app.js: its own ensureSpecialPages (home and
    dj/collection), its sorted groupPages, the page choice and dispatch of
    route, and the default query of hydrateDjSetSummary. Its copies of the
    string, route and DJ-collection helpers are the Strings, Url and
    DjCollection modules. */
module App {
  import opened Base
  import opened Strings
  import opened Url
  import opened Ordering
  import opened Manifest
  import opened Nav

  // ------------------------------------------------------ ensureSpecialPages

  const DjId: string := "dj/collection"

  /** The entry inserted when the manifest has no dj/collection page. */
  function DjPage(): Page
  {
    Page(Some(DjId), Some("Collection"), Some("dj"), None)
  }

  /** `out.findIndex((p) => p?.id === id)`. */
  function FirstIndexOf(pages: seq<Page>, id: string): (i: int)
    ensures -1 <= i < |pages|
    ensures i >= 0 ==> HasId(pages[i], id) && forall k :: 0 <= k < i ==> !HasId(pages[k], id)
    ensures i < 0 <==> !HasPage(pages, id)
    decreases |pages|
  {
    if pages == [] then -1
    else if HasId(pages[0], id) then 0
    else
      var j := FirstIndexOf(pages[1..], id);
      assert forall k :: 1 <= k < |pages| ==> pages[k] == pages[1..][k - 1];
      if j < 0 then -1 else j + 1
  }

  /** The forEach callback: a dj/collection page without a kind gets kind
      "dj"; every other page is left as it is. */
  function FixDjKind(p: Page): (q: Page)
    ensures HasId(p, DjId) && !Truthy(p.kind) ==> q == p.(kind := Some("dj"))
    ensures !(HasId(p, DjId) && !Truthy(p.kind)) ==> q == p
    ensures q.id == p.id && q.title == p.title && q.path == p.path
  {
    if HasId(p, DjId) && !Truthy(p.kind) then p.(kind := Some("dj")) else p
  }

  /** The manifest after the home step of ensureSpecialPages. */
  function WithHome(manifest: Option<seq<Page>>): seq<Page>
  {
    var input := ListOrEmpty(manifest);
    if HasPage(input, "home") then input else [HomePage()] + input
  }

  /** The forEach over `out` that fills in the missing kind. */
  method FixDjKinds(pages: seq<Page>) returns (out: seq<Page>)
    ensures |out| == |pages|
    ensures forall k :: 0 <= k < |out| ==> out[k] == FixDjKind(pages[k])
  {
    out := pages;
    var i := 0;
    while i < |out|
      invariant 0 <= i <= |out| == |pages|
      invariant forall k :: 0 <= k < i ==> out[k] == FixDjKind(pages[k])
      invariant forall k :: i <= k < |out| ==> out[k] == pages[k]
    {
      if HasId(out[i], DjId) && !Truthy(out[i].kind) {
        out := out[i := out[i].(kind := Some("dj"))];
      }
      i := i + 1;
    }
  }

  /** ensureSpecialPages of app.js: the home step of manifest.js, then a
      dj/collection entry spliced in right after the first home entry when
      there is none, or else the kind filled in on the existing ones. */
  method EnsureSpecialPages(manifest: Option<seq<Page>>) returns (out: seq<Page>)
    ensures HasPage(out, "home") && HasPage(out, DjId)
    ensures !HasPage(ListOrEmpty(manifest), DjId) ==>
      var h := FirstIndexOf(WithHome(manifest), "home");
      && 0 <= h < |WithHome(manifest)|
      && out == WithHome(manifest)[..h + 1] + [DjPage()] + WithHome(manifest)[h + 1..]
    ensures HasPage(ListOrEmpty(manifest), DjId) ==>
      |out| == |WithHome(manifest)| && forall k :: 0 <= k < |out| ==> out[k] == FixDjKind(WithHome(manifest)[k])
  {
    out := ListOrEmpty(manifest);
    if !HasPage(out, "home") {
      out := [HomePage()] + out;
      assert HasId(out[0], "home");
      HasPageCons(HomePage(), ListOrEmpty(manifest), DjId);
    }
    assert out == WithHome(manifest);
    if !HasPage(out, DjId) {
      var idxHome := FirstIndexOf(out, "home");
      var insertAt := if idxHome >= 0 then idxHome + 1 else 0;
      ghost var before := out;
      out := out[..insertAt] + [DjPage()] + out[insertAt..];
      assert HasId(out[insertAt], DjId);
      assert HasId(out[idxHome], "home") by {
        assert out[idxHome] == before[idxHome];
      }
    } else {
      ghost var before := out;
      ghost var j :| 0 <= j < |before| && HasId(before[j], DjId);
      ghost var h := FirstIndexOf(before, "home");
      out := FixDjKinds(out);
      assert HasId(out[j], DjId) && HasId(out[h], "home");
    }
  }

  /** The dj/collection entry is spliced in once, and nothing is lost. */
  lemma DjInsertCounts(manifest: Option<seq<Page>>, out: seq<Page>)
    requires !HasPage(ListOrEmpty(manifest), DjId)
    requires var h := FirstIndexOf(WithHome(manifest), "home");
      0 <= h < |WithHome(manifest)| && out == WithHome(manifest)[..h + 1] + [DjPage()] + WithHome(manifest)[h + 1..]
    ensures multiset(out) == multiset(WithHome(manifest)) + multiset{DjPage()}
    ensures HasId(out[FirstIndexOf(WithHome(manifest), "home") + 1], DjId)
  {
    var w, h := WithHome(manifest), FirstIndexOf(WithHome(manifest), "home");
    assert w == w[..h + 1] + w[h + 1..];
  }

  // -------------------------------------------------------------- groupPages

  /** `String(p.title || p.id)`, the sort label. */
  function PageLabel(p: Page): string
  {
    if Truthy(p.title) then p.title.value else OrEmpty(p.id)
  }

  /** The comparator's key: the lower-cased label (see Ordering.Less). */
  function TitleKey(p: Page): SortKey
  {
    SortKey(2, -1, Lower(PageLabel(p)))
  }

  /** Pages the loop does not skip: with an id, and not "home". */
  predicate InNav(p: Page) { Listed(p) && !HasId(p, "home") }

  function IsRootEntry(p: Page): bool { InNav(p) && IsRootPage(p) }

  function InAppFolder(f: string): Page -> bool
  {
    (p: Page) => InNav(p) && !IsRootPage(p) && FolderOf(p) == f
  }

  /** The keys `groups` holds after the pages ps. */
  function AppFolders(ps: seq<Page>): set<string>
    decreases |ps|
  {
    if ps == [] then {}
    else
      var p := ps[|ps| - 1];
      AppFolders(ps[..|ps| - 1]) + (if InNav(p) && !IsRootPage(p) then {FolderOf(p)} else {})
  }

  /** `manifest.find((p) => p.id === "home") || { id: "home", ... }`. */
  function HomeOf(manifest: seq<Page>): (home: Page)
    ensures HasId(home, "home")
    ensures HasPage(manifest, "home") ==> home == manifest[FirstIndexOf(manifest, "home")]
    ensures !HasPage(manifest, "home") ==> home == HomePage()
  {
    var h := FirstIndexOf(manifest, "home");
    if h >= 0 then manifest[h] else HomePage()
  }

  /** What the collecting loop of groupPages holds after the pages ps: the
      root pages, and each folder's pages under its key in a map, with the
      keys in first-seen order. */
  ghost predicate Collected(ps: seq<Page>, rootPages: seq<Page>, keys: seq<string>, groups: map<string, seq<Page>>)
  {
    && rootPages == Filter(ps, IsRootEntry)
    && groups.Keys == AppFolders(ps)
    && (forall f :: f in groups ==> groups[f] == Filter(ps, InAppFolder(f)))
    && (forall f :: f in keys <==> f in groups)
    && (forall a, b :: 0 <= a < b < |keys| ==> keys[a] != keys[b])
  }

  /** One pass of the collecting loop: skip, push to the root pages, or
      get-or-create the folder's group and push to it. */
  method CollectPage(ghost before: seq<Page>, p: Page, rootPages: seq<Page>, keys: seq<string>, groups: map<string, seq<Page>>)
    returns (rootPages': seq<Page>, keys': seq<string>, groups': map<string, seq<Page>>)
    requires Collected(before, rootPages, keys, groups)
    ensures Collected(before + [p], rootPages', keys', groups')
  {
    rootPages', keys', groups' := rootPages, keys, groups;
    if !InNav(p) {
      CollectedSkip(before, p, rootPages, keys, groups);
    } else if IsRootPage(p) {
      CollectedRoot(before, p, rootPages, keys, groups);
      rootPages' := rootPages + [p];
    } else {
      var folder := FolderOf(p);
      if folder in groups {
        CollectedSeenFolder(before, p, rootPages, keys, groups);
      } else {
        CollectedNewFolder(before, p, rootPages, keys, groups);
        groups' := groups'[folder := []];
        keys' := keys + [folder];
      }
      assert groups'[folder] + [p] == (if folder in groups then groups[folder] + [p] else [p]);
      groups' := groups'[folder := groups'[folder] + [p]];
    }
  }

  lemma CollectedSkip(before: seq<Page>, p: Page, rootPages: seq<Page>, keys: seq<string>, groups: map<string, seq<Page>>)
    requires Collected(before, rootPages, keys, groups) && !InNav(p)
    ensures Collected(before + [p], rootPages, keys, groups)
  {
    FilterAppend(before, [p], IsRootEntry);
    AppFolderPagesSnoc(before, p);
  }

  lemma CollectedRoot(before: seq<Page>, p: Page, rootPages: seq<Page>, keys: seq<string>, groups: map<string, seq<Page>>)
    requires Collected(before, rootPages, keys, groups) && InNav(p) && IsRootPage(p)
    ensures Collected(before + [p], rootPages + [p], keys, groups)
  {
    FilterAppend(before, [p], IsRootEntry);
    AppFolderPagesSnoc(before, p);
  }

  lemma CollectedSeenFolder(before: seq<Page>, p: Page, rootPages: seq<Page>, keys: seq<string>, groups: map<string, seq<Page>>)
    requires Collected(before, rootPages, keys, groups) && InNav(p) && !IsRootPage(p) && FolderOf(p) in groups
    ensures Collected(before + [p], rootPages, keys, groups[FolderOf(p) := groups[FolderOf(p)] + [p]])
  {
    FilterAppend(before, [p], IsRootEntry);
    AppFolderPagesSnoc(before, p);
  }

  lemma CollectedNewFolder(before: seq<Page>, p: Page, rootPages: seq<Page>, keys: seq<string>, groups: map<string, seq<Page>>)
    requires Collected(before, rootPages, keys, groups) && InNav(p) && !IsRootPage(p) && FolderOf(p) !in groups
    ensures Collected(before + [p], rootPages, keys + [FolderOf(p)], groups[FolderOf(p) := [p]])
  {
    FilterAppend(before, [p], IsRootEntry);
    AppFolderPagesSnoc(before, p);
    AppUnseenEmpty(before, FolderOf(p));
  }

  /** The collecting loop of groupPages. */
  method CollectPages(manifest: seq<Page>) returns (rootPages: seq<Page>, keys: seq<string>, groups: map<string, seq<Page>>)
    ensures Collected(manifest, rootPages, keys, groups)
  {
    rootPages, keys, groups := [], [], map[];
    for i := 0 to |manifest|
      invariant Collected(manifest[..i], rootPages, keys, groups)
    {
      assert manifest[..i + 1] == manifest[..i] + [manifest[i]];
      rootPages, keys, groups := CollectPage(manifest[..i], manifest[i], rootPages, keys, groups);
    }
    assert manifest[..|manifest|] == manifest;
  }

  /** groupPages of app.js: the home entry, the root pages sorted by label,
      and each folder's pages sorted by label. */
  method GroupPagesSorted(manifest: seq<Page>) returns (home: Page, rootPages: seq<Page>, groups: map<string, seq<Page>>)
    ensures home == HomeOf(manifest)
    ensures rootPages == SortByKey(Filter(manifest, IsRootEntry), TitleKey)
    ensures groups.Keys == AppFolders(manifest)
    ensures forall f :: f in groups ==> groups[f] == SortByKey(Filter(manifest, InAppFolder(f)), TitleKey)
  {
    home := HomeOf(manifest);
    var keys, unsorted;
    rootPages, keys, unsorted := CollectPages(manifest);
    rootPages := SortedCopy(rootPages, TitleKey);
    groups := SortGroups(keys, unsorted);
  }

  /** The sorting loop of groupPages: each group, visited by key, is replaced
      by its sorted copy. */
  method SortGroups(keys: seq<string>, unsorted: map<string, seq<Page>>) returns (groups: map<string, seq<Page>>)
    requires forall f :: f in keys <==> f in unsorted
    requires forall i, j :: 0 <= i < j < |keys| ==> keys[i] != keys[j]
    ensures groups.Keys == unsorted.Keys
    ensures forall f :: f in groups ==> groups[f] == SortByKey(unsorted[f], TitleKey)
  {
    groups := unsorted;
    for j := 0 to |keys|
      invariant groups.Keys == unsorted.Keys
      invariant forall a :: 0 <= a < j ==> groups[keys[a]] == SortByKey(unsorted[keys[a]], TitleKey)
      invariant forall a :: j <= a < |keys| ==> groups[keys[a]] == unsorted[keys[a]]
    {
      var folder := keys[j];
      var sorted := SortedCopy(groups[folder], TitleKey);
      groups := groups[folder := sorted];
    }
    forall f | f in groups ensures groups[f] == SortByKey(unsorted[f], TitleKey) {
      assert f in keys;
      var a :| 0 <= a < |keys| && keys[a] == f;
    }
  }

  lemma AppFolderPagesSnoc(ps: seq<Page>, p: Page)
    ensures AppFolders(ps + [p]) == AppFolders(ps) + (if InNav(p) && !IsRootPage(p) then {FolderOf(p)} else {})
    ensures forall f :: (Filter(ps + [p], InAppFolder(f)) ==
      Filter(ps, InAppFolder(f)) + (if InNav(p) && !IsRootPage(p) && FolderOf(p) == f then [p] else []))
  {
    assert (ps + [p])[..|ps|] == ps;
    forall f ensures Filter(ps + [p], InAppFolder(f)) ==
      Filter(ps, InAppFolder(f)) + (if InNav(p) && !IsRootPage(p) && FolderOf(p) == f then [p] else [])
    {
      FilterAppend(ps, [p], InAppFolder(f));
    }
  }

  lemma {:induction false} AppUnseenEmpty(ps: seq<Page>, f: string)
    requires f !in AppFolders(ps)
    ensures Filter(ps, InAppFolder(f)) == []
    decreases |ps|
  {
    if ps != [] {
      var n := |ps| - 1;
      assert ps == ps[..n] + [ps[n]];
      AppUnseenEmpty(ps[..n], f);
      FilterAppend(ps[..n], [ps[n]], InAppFolder(f));
    }
  }

  /** The root list holds exactly the root pages other than home, each as
      often as in the manifest, sorted by label; likewise each folder's
      group holds exactly that folder's pages other than home, sorted. */
  lemma GroupedPagesSpec(manifest: seq<Page>, f: string)
    ensures var roots := SortByKey(Filter(manifest, IsRootEntry), TitleKey);
      && Sorted(roots, TitleKey)
      && multiset(roots) == multiset(Filter(manifest, IsRootEntry))
      && forall p :: p in roots <==> p in manifest && Listed(p) && !HasId(p, "home") && IsRootPage(p)
    ensures var group := SortByKey(Filter(manifest, InAppFolder(f)), TitleKey);
      && Sorted(group, TitleKey)
      && multiset(group) == multiset(Filter(manifest, InAppFolder(f)))
      && forall p :: p in group <==> p in manifest && Listed(p) && !HasId(p, "home") && !IsRootPage(p) && FolderOf(p) == f
  {
    var roots, inFolder := Filter(manifest, IsRootEntry), Filter(manifest, InAppFolder(f));
    SortByKeySorted(roots, TitleKey);
    SortByKeyPermutes(roots, TitleKey);
    SortByKeyMembers(roots, TitleKey);
    FilterMembers(manifest, IsRootEntry);
    SortByKeySorted(inFolder, TitleKey);
    SortByKeyPermutes(inFolder, TitleKey);
    SortByKeyMembers(inFolder, TitleKey);
    FilterMembers(manifest, InAppFolder(f));
  }

  // ------------------------------------------------------------------- route

  /** What route renders. */
  datatype View = HomeView | DjCollectionView | MarkdownView(page: Page)

  /** The page for a route id: the first entry with that id, else the first
      home entry, else the default home page. */
  function ChoosePage(manifest: seq<Page>, routeId: string): (p: Page)
    ensures HasPage(manifest, routeId) ==> p == manifest[FirstIndexOf(manifest, routeId)] && HasId(p, routeId)
    ensures !HasPage(manifest, routeId) ==> p == HomeOf(manifest) && HasId(p, "home")
  {
    var i := FirstIndexOf(manifest, routeId);
    if i >= 0 then manifest[i] else HomeOf(manifest)
  }

  /** The dispatch of route: home first, then the DJ collection, then
      markdown. */
  function Dispatch(p: Page): (v: View)
    ensures v.HomeView? <==> HasId(p, "home") || p.kind == Some("home")
    ensures v.DjCollectionView? <==> !v.HomeView? && (p.kind == Some("dj") || HasId(p, DjId))
    ensures v.MarkdownView? ==> v.page == p
  {
    if HasId(p, "home") || p.kind == Some("home") then HomeView
    else if p.kind == Some("dj") || HasId(p, DjId) then DjCollectionView
    else MarkdownView(p)
  }

  /** route, given `location.hash`: a hash naming no manifest page, or no
      page at all, shows home; a markdown page is always the manifest's own
      entry for the route id. */
  function Route(manifest: seq<Page>, hash: Option<string>): (v: View)
    ensures !HasPage(manifest, DecodeRoute(hash)) ==> v == HomeView
    ensures v.MarkdownView? ==>
      HasPage(manifest, DecodeRoute(hash)) && v.page == manifest[FirstIndexOf(manifest, DecodeRoute(hash))]
  {
    Dispatch(ChoosePage(manifest, DecodeRoute(hash)))
  }

  /** `#/dj/collection` shows the DJ collection, unless that page says it is
      the home page. */
  lemma DjRouteShowsCollection(manifest: seq<Page>, hash: Option<string>, id: string)
    requires id == DjId && hash == Some("#/" + id)
    requires HasPage(manifest, DjId) && manifest[FirstIndexOf(manifest, DjId)].kind != Some("home")
    ensures Route(manifest, hash) == DjCollectionView
  {
    DecodeDjRoute();
    var p := ChoosePage(manifest, DjId);
    assert !HasId(p, "home");
  }

  /** `#/dj/collection` decodes to the DJ page id. */
  lemma DecodeDjRoute()
    ensures DecodeRoute(Some("#/" + DjId)) == DjId
  {
    assert "#/" + "" + DjId + "" == "#/" + DjId;
    DecodeRouteOf("", DjId, "");
  }

  /** The markdown path of renderMarkdownPage: the explicit path, else the
      safe path of the id; a page with neither shows "Invalid page id.". */
  function MarkdownPath(p: Page): (r: Option<string>)
    ensures Truthy(p.path) ==> r == p.path
    ensures !Truthy(p.path) ==> r == SafePagePathFromId(p.id)
  {
    if Truthy(p.path) then p.path else SafePagePathFromId(p.id)
  }

  // ----------------------------------------------------- hydrateDjSetSummary

  /** The set-summary query: the trimmed attribute, else the first segment
      of a page id that has a "/", else "". */
  function SummaryQuery(pageId: Option<string>, attr: Option<string>): (q: string)
    ensures Trim(OrEmpty(attr)) != "" ==> q == Trim(OrEmpty(attr))
    ensures Trim(OrEmpty(attr)) == "" && '/' !in OrEmpty(pageId) ==> q == ""
    ensures Trim(OrEmpty(attr)) == "" && '/' in OrEmpty(pageId) ==>
      q + "/" <= OrEmpty(pageId) && '/' !in q
  {
    var id := OrEmpty(pageId);
    FirstSegmentOf(id);
    var defaultDj := if '/' in id then Split(id, IsSlash)[0] else "";
    var query := Trim(OrEmpty(attr));
    if query != "" then query else defaultDj
  }
}
