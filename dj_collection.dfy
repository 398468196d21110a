/** renderDjCollection (src/widgets/djCollection/djCollection.js, with the
    same logic in renderDjCollectionInto.js and app.js): sort a copy of the
    folders, filter each folder's items against the query, drop emptied
    folders while a query is active, count the matches and mark which
    folders start expanded. The result is the structured content of the
    HTML the source builds. */
module DjCollection {
  import opened Base
  import opened Strings
  import opened Ordering
  import opened Dataset
  import opened Search

  /** One `<li>`: the link text, its href, the date prefix and the title
      shown in brackets after the link. */
  datatype ItemView = ItemView(text: string, href: string, date: Option<string>, subtitle: Option<string>)

  /** One `<details>` section: the folder heading, its `(n)` count, the
      `open` attribute and the list. */
  datatype FolderView = FolderView(name: string, count: nat, open: bool, items: seq<ItemView>)

  /** What renderDjCollection returns; an empty `folders` is the
      "No matching items." placeholder. */
  datatype CollectionView = CollectionView(folders: seq<FolderView>, totalMatched: nat, queryActive: bool)

  /** The link of an item: `label || title || "(untitled)"`, `url || "#"`,
      the date when there is one, and the title when it differs from the
      link text. */
  function ItemViewOf(it: Item): (v: ItemView)
    ensures v.text != "" && v.href != ""
    ensures Truthy(it.setLabel) ==> v.text == it.setLabel.value
    ensures !Truthy(it.setLabel) && Truthy(it.title) ==> v.text == it.title.value
    ensures !Truthy(it.setLabel) && !Truthy(it.title) ==> v.text == "(untitled)"
    ensures Truthy(it.url) ==> v.href == it.url.value
    ensures !Truthy(it.url) ==> v.href == "#"
    ensures v.date.Some? <==> Truthy(it.date)
    ensures Truthy(it.date) ==> v.date == it.date
    ensures v.subtitle.Some? <==> Truthy(it.title) && it.title.value != v.text
    ensures v.subtitle.Some? ==> v.subtitle.value == it.title.value
  {
    var text := OrElse(it.setLabel, OrElse(it.title, "(untitled)"));
    ItemView(text, OrElse(it.url, "#"),
      if Truthy(it.date) then Some(it.date.value) else None,
      if Truthy(it.title) && it.title.value != text then Some(it.title.value) else None)
  }

  function FolderKey(f: Folder): SortKey { FolderSortKey(f.name) }

  /** `folder?.name || "(Unnamed folder)"`. */
  function DisplayName(f: Folder): string { OrElse(f.name, "(Unnamed folder)") }

  /** The searchable fields of an item, followed by its folder's name. */
  function ItemHaystack(it: Item, folderName: string): string
  {
    Haystack([it.date, it.title, it.setLabel, it.url, Some(folderName)])
  }

  function KeepItem(q: string, folderName: string): Item -> bool
  {
    (it: Item) => Kept(q, ItemHaystack(it, folderName))
  }

  /** The items of a folder that pass the filter. */
  function MatchingItems(f: Folder, q: string): seq<Item>
  {
    Filter(ListOrEmpty(f.items), KeepItem(q, DisplayName(f)))
  }

  /** `q && filtered.length === 0` drops the folder. */
  function ShowFolder(q: string): Folder -> bool
  {
    (f: Folder) => q == "" || MatchingItems(f, q) != []
  }

  function MatchCount(q: string): Folder -> nat
  {
    (f: Folder) => |MatchingItems(f, q)|
  }

  function ItemCount(f: Folder): nat { |ListOrEmpty(f.items)| }

  function ViewCount(v: FolderView): nat { v.count }

  /** The index of the first folder with a four-digit name, or -1: the
      `folders.find(...)` of line 24. */
  function FirstYearIndex(folders: seq<Folder>): (i: int)
    ensures -1 <= i < |folders|
    ensures i >= 0 ==> IsFourDigits(OrEmpty(folders[i].name))
    ensures forall j :: 0 <= j < |folders| && (i < 0 || j < i) ==> !IsFourDigits(OrEmpty(folders[j].name))
  {
    if folders == [] then -1
    else if IsFourDigits(OrEmpty(folders[0].name)) then 0
    else
      var i := FirstYearIndex(folders[1..]);
      if i < 0 then -1 else i + 1
  }

  /** `firstYearFolderName`: the name of that folder. */
  function FirstYearName(folders: seq<Folder>): Option<string>
  {
    var i := FirstYearIndex(folders);
    if i < 0 then None else folders[i].name
  }

  /** The `open` attribute: a "summary" heading, or the heading equal to the
      first year folder's name. */
  predicate IsOpen(name: string, firstYear: Option<string>)
  {
    Lower(name) == "summary" || (Truthy(firstYear) && name == firstYear.value)
  }

  function FolderViewOf(f: Folder, q: string, firstYear: Option<string>): FolderView
  {
    var kept := MatchingItems(f, q);
    FolderView(DisplayName(f), |kept|, IsOpen(DisplayName(f), firstYear), Map(kept, ItemViewOf))
  }

  function ViewOf(q: string, firstYear: Option<string>): Folder -> FolderView
  {
    (f: Folder) => FolderViewOf(f, q, firstYear)
  }

  /** The folders in display order. */
  function SortedFolders(data: Collection): seq<Folder>
  {
    SortByKey(ListOrEmpty(data.folders), FolderKey)
  }

  /** The folders that get a section, in display order. */
  function ShownFolders(data: Collection, q: string): seq<Folder>
  {
    Filter(SortedFolders(data), ShowFolder(q))
  }

  /** The whole result, as a function of the data and the raw query. */
  function DjCollectionView(data: Collection, query: Option<string>): (r: CollectionView)
    ensures r.queryActive <==> NormalizeForSearch(query) != ""
    ensures data.folders.None? ==> r.folders == [] && r.totalMatched == 0
  {
    var q := NormalizeForSearch(query);
    var sorted := SortedFolders(data);
    var views := Map(ShownFolders(data, q), ViewOf(q, FirstYearName(sorted)));
    CollectionView(views, SumOf(views, ViewCount), q != "")
  }

  /** The section a folder contributes: its view when it is shown. */
  function SectionOf(f: Folder, q: string, first: Option<string>): Option<FolderView>
  {
    if ShowFolder(q)(f) then Some(ViewOf(q, first)(f)) else None
  }

  /** One more folder adds its section, if any, to the views of the folders
      before it. */
  lemma SectionsSnoc(folders: seq<Folder>, i: int, q: string, first: Option<string>)
    requires 0 <= i < |folders|
    ensures var section := SectionOf(folders[i], q, first);
      Map(Filter(folders[..i + 1], ShowFolder(q)), ViewOf(q, first)) ==
      Map(Filter(folders[..i], ShowFolder(q)), ViewOf(q, first)) + (if section.Some? then [section.value] else [])
  {
    FilterMapPrefix(folders, i, ShowFolder(q), ViewOf(q, first));
  }

  /** The state of the section loop after the first i folders. */
  ghost predicate SectionsSoFar(folders: seq<Folder>, i: int, q: string, first: Option<string>,
                                views: seq<FolderView>, total: nat)
    requires 0 <= i <= |folders|
  {
    views == Map(Filter(folders[..i], ShowFolder(q)), ViewOf(q, first)) &&
    total == SumOf(views, ViewCount)
  }

  /** A shown folder appends its view and adds its kept count. */
  lemma SectionShown(folders: seq<Folder>, i: int, q: string, first: Option<string>,
                     views: seq<FolderView>, total: nat)
    requires 0 <= i < |folders| && SectionsSoFar(folders, i, q, first, views, total)
    requires ShowFolder(q)(folders[i])
    ensures SectionsSoFar(folders, i + 1, q, first, views + [ViewOf(q, first)(folders[i])],
                          total + |MatchingItems(folders[i], q)|)
  {
    SectionsSnoc(folders, i, q, first);
    SumOfSnoc(views, ViewOf(q, first)(folders[i]), ViewCount);
  }

  /** A dropped folder changes nothing. */
  lemma SectionHidden(folders: seq<Folder>, i: int, q: string, first: Option<string>,
                      views: seq<FolderView>, total: nat)
    requires 0 <= i < |folders| && SectionsSoFar(folders, i, q, first, views, total)
    requires !ShowFolder(q)(folders[i])
    ensures SectionsSoFar(folders, i + 1, q, first, views, total)
  {
    SectionsSnoc(folders, i, q, first);
    assert views + [] == views;
  }

  /** The `folders.map(...).join("")` pass: collect each folder's section and
      add its count to `totalMatched`. */
  method FolderSections(folders: seq<Folder>, q: string, firstYear: Option<string>)
    returns (views: seq<FolderView>, totalMatched: nat)
    ensures views == Map(Filter(folders, ShowFolder(q)), ViewOf(q, firstYear))
    ensures totalMatched == SumOf(views, ViewCount)
  {
    totalMatched := 0;
    views := [];
    for i := 0 to |folders|
      invariant SectionsSoFar(folders, i, q, firstYear, views, totalMatched)
    {
      var folder := folders[i];
      var folderName := DisplayName(folder);
      var filtered := MatchingItems(folder, q);
      if q == "" || |filtered| > 0 {
        var v := FolderView(folderName, |filtered|, IsOpen(folderName, firstYear), Map(filtered, ItemViewOf));
        assert v == ViewOf(q, firstYear)(folder);
        SectionShown(folders, i, q, firstYear, views, totalMatched);
        views := views + [v];
        totalMatched := totalMatched + |filtered|;
      } else {
        SectionHidden(folders, i, q, firstYear, views, totalMatched);
      }
    }
    assert folders[..|folders|] == folders;
  }

  /** renderDjCollection: sort a spread copy of the folders, find the first
      year folder, then build the sections and the total. */
  method RenderDjCollection(data: Collection, query: Option<string>) returns (r: CollectionView)
    ensures r == DjCollectionView(data, query)
  {
    var q := NormalizeForSearch(query);
    var folders := SortedCopy(ListOrEmpty(data.folders), FolderKey);
    var firstYear := FirstYearName(folders);
    var views, totalMatched := FolderSections(folders, q, firstYear);
    r := CollectionView(views, totalMatched, q != "");
  }

  // ------------------------------------------------------------ properties

  /** An item passes the filter exactly when the query is empty or the
      item's haystack (its truthy fields and the folder heading, lower-cased
      and joined) includes the query. */
  lemma MatchingItemsMembers(f: Folder, q: string)
    ensures forall it :: it in MatchingItems(f, q) <==>
      it in ListOrEmpty(f.items) && (q == "" || Contains(ItemHaystack(it, DisplayName(f)), q))
    ensures IsSubsequence(MatchingItems(f, q), ListOrEmpty(f.items))
  {
    FilterMembers(ListOrEmpty(f.items), KeepItem(q, DisplayName(f)));
    FilterIsSubsequence(ListOrEmpty(f.items), KeepItem(q, DisplayName(f)));
  }

  /** The sections are the sorted folders that keep at least one item (all
      folders when the query is empty), in sorted order; there is one view
      per shown folder, and the total is the sum of their kept counts. */
  lemma ShownFoldersSpec(data: Collection, query: Option<string>)
    ensures var q := NormalizeForSearch(query);
      var shown := ShownFolders(data, q);
      var r := DjCollectionView(data, query);
      (forall f :: f in shown <==> f in ListOrEmpty(data.folders) && (q == "" || MatchingItems(f, q) != [])) &&
      Sorted(shown, FolderKey) &&
      |r.folders| == |shown| &&
      (forall k :: 0 <= k < |shown| ==>
        r.folders[k].name == DisplayName(shown[k]) &&
        r.folders[k].count == |MatchingItems(shown[k], q)| &&
        r.folders[k].items == Map(MatchingItems(shown[k], q), ItemViewOf)) &&
      r.totalMatched == SumOf(shown, MatchCount(q))
  {
    var q := NormalizeForSearch(query);
    var sorted := SortedFolders(data);
    var shown := ShownFolders(data, q);
    var first := FirstYearName(sorted);
    var r := DjCollectionView(data, query);
    FilterMembers(sorted, ShowFolder(q));
    SortByKeyMembers(ListOrEmpty(data.folders), FolderKey);
    SortByKeySorted(ListOrEmpty(data.folders), FolderKey);
    FilterSorted(sorted, ShowFolder(q), FolderKey);
    forall k | 0 <= k < |shown| ensures r.folders[k] == FolderViewOf(shown[k], q, first) {
      MapAt(shown, ViewOf(q, first), k);
    }
    ViewCountsSum(shown, q, first);
  }

  lemma {:induction false} ViewCountsSum(fs: seq<Folder>, q: string, first: Option<string>)
    ensures SumOf(Map(fs, ViewOf(q, first)), ViewCount) == SumOf(fs, MatchCount(q))
  {
    if fs != [] {
      ViewCountsSum(fs[1..], q, first);
      assert Map(fs, ViewOf(q, first))[1..] == Map(fs[1..], ViewOf(q, first));
      MapAt(fs, ViewOf(q, first), 0);
    }
  }

  lemma {:induction false} MatchCountEmptyQuery(fs: seq<Folder>)
    ensures SumOf(fs, MatchCount("")) == SumOf(fs, ItemCount)
  {
    if fs != [] {
      MatchCountEmptyQuery(fs[1..]);
      FilterAll(ListOrEmpty(fs[0].items), KeepItem("", DisplayName(fs[0])));
    }
  }

  /** With an empty normalised query nothing is dropped: every folder gets a
      section listing all its items, and the total is the number of items in
      the whole collection. */
  lemma EmptyQueryKeepsEverything(data: Collection, query: Option<string>)
    requires NormalizeForSearch(query) == ""
    ensures var r := DjCollectionView(data, query);
      var sorted := SortedFolders(data);
      |sorted| == |ListOrEmpty(data.folders)| && |r.folders| == |sorted| &&
      (forall k :: 0 <= k < |sorted| ==>
        r.folders[k].count == ItemCount(sorted[k]) &&
        r.folders[k].items == Map(ListOrEmpty(sorted[k].items), ItemViewOf)) &&
      r.totalMatched == SumOf(ListOrEmpty(data.folders), ItemCount)
  {
    var sorted := SortedFolders(data);
    var r := DjCollectionView(data, query);
    FilterAll(sorted, ShowFolder(""));
    assert ShownFolders(data, "") == sorted;
    ShownFoldersSpec(data, query);
    forall k | 0 <= k < |sorted| ensures MatchingItems(sorted[k], "") == ListOrEmpty(sorted[k].items) {
      FilterAll(ListOrEmpty(sorted[k].items), KeepItem("", DisplayName(sorted[k])));
    }
    MatchCountEmptyQuery(sorted);
    SortByKeySum(ListOrEmpty(data.folders), FolderKey, ItemCount);
    SortByKeyPermutes(ListOrEmpty(data.folders), FolderKey);
    assert |multiset(sorted)| == |multiset(ListOrEmpty(data.folders))|;
  }

  /** With an active query no section is empty. */
  lemma ActiveQueryDropsEmptyFolders(data: Collection, query: Option<string>)
    requires NormalizeForSearch(query) != ""
    ensures var r := DjCollectionView(data, query);
      forall k :: 0 <= k < |r.folders| ==> r.folders[k].count > 0
  {
    var q := NormalizeForSearch(query);
    var shown := ShownFolders(data, q);
    ShownFoldersSpec(data, query);
    FilterMembers(SortedFolders(data), ShowFolder(q));
    forall k | 0 <= k < |shown| ensures MatchingItems(shown[k], q) != [] {
      assert shown[k] in shown;
    }
  }

  /** A section is open exactly when its heading is "summary" in any case or
      equals the name of the first four-digit folder in display order. */
  lemma OpenFlag(data: Collection, query: Option<string>)
    ensures var r := DjCollectionView(data, query);
      var first := FirstYearName(SortedFolders(data));
      forall k :: 0 <= k < |r.folders| ==>
        (r.folders[k].open <==> Lower(r.folders[k].name) == "summary" || (Truthy(first) && r.folders[k].name == first.value))
  {
    var q := NormalizeForSearch(query);
    var shown := ShownFolders(data, q);
    var first := FirstYearName(SortedFolders(data));
    forall k | 0 <= k < |shown| ensures DjCollectionView(data, query).folders[k] == FolderViewOf(shown[k], q, first) {
      MapAt(shown, ViewOf(q, first), k);
    }
  }

  lemma FourDigitsKey(n: Option<string>)
    requires IsFourDigits(OrEmpty(n))
    ensures FolderSortKey(n) == SortKey(1, DecimalValue(OrEmpty(n)), OrEmpty(n))
  {
    LowerIdentity(OrEmpty(n));
    assert OrEmpty(n) != "summary" by {
      assert |"summary"| == 7;
    }
  }

  /** In a sorted sequence, a later four-digit folder has no later year. */
  lemma LaterYearNotLater(sorted: seq<Folder>, i: int, j: int)
    requires Sorted(sorted, FolderKey)
    requires 0 <= i <= j < |sorted|
    requires IsFourDigits(OrEmpty(sorted[i].name)) && IsFourDigits(OrEmpty(sorted[j].name))
    ensures DecimalValue(OrEmpty(sorted[j].name)) <= DecimalValue(OrEmpty(sorted[i].name))
  {
    FourDigitsKey(sorted[j].name);
    FourDigitsKey(sorted[i].name);
    if j > i {
      assert !Less(FolderKey(sorted[j]), FolderKey(sorted[i]));
    }
  }

  /** The first four-digit folder in display order carries the latest year
      of the whole collection. */
  lemma FirstYearIsLatest(data: Collection)
    requires FirstYearIndex(SortedFolders(data)) >= 0
    ensures var sorted := SortedFolders(data);
      var y := OrEmpty(sorted[FirstYearIndex(sorted)].name);
      forall f :: f in ListOrEmpty(data.folders) && IsFourDigits(OrEmpty(f.name)) ==>
        DecimalValue(OrEmpty(f.name)) <= DecimalValue(y)
  {
    var sorted := SortedFolders(data);
    var i := FirstYearIndex(sorted);
    SortByKeyMembers(ListOrEmpty(data.folders), FolderKey);
    SortByKeySorted(ListOrEmpty(data.folders), FolderKey);
    forall f | f in ListOrEmpty(data.folders) && IsFourDigits(OrEmpty(f.name))
      ensures DecimalValue(OrEmpty(f.name)) <= DecimalValue(OrEmpty(sorted[i].name))
    {
      assert f in sorted;
      var j :| 0 <= j < |sorted| && sorted[j] == f;
      LaterYearNotLater(sorted, i, j);
    }
  }
}

