/** renderDjSetSummaryInto (src/widgets/djSetSummary/renderDjSetSummaryInto.js,
    copied into app.js): find every set whose title or label matches a DJ's
    name, either as a substring of the lower-cased text or, ignoring
    punctuation and spaces, as a substring of its letters and digits; group
    the matches by folder, order the folders, and report the total. With no
    match it lists up to ten sample titles instead. The result is the
    structured content of the HTML the source writes into its container. */
module SetSummary {
  import opened Base
  import opened Strings
  import opened Url
  import opened Ordering
  import opened Dataset
  import opened Search

  /** `{ folderName, it }`: a matching item and the name of its folder. */
  datatype Match = Match(folderName: string, item: Item)

  /** One `<li>`: the date prefix, the link text and its href. */
  datatype SetLink = SetLink(text: string, href: string, date: Option<string>)

  /** One `<details>` section: heading, `(n)` count, `open` attribute, list. */
  datatype Section = Section(heading: string, count: nat, open: bool, links: seq<SetLink>)

  /** What the widget shows. `data` is None when the collection could not be
      fetched or was not JSON. */
  datatype Summary =
    | MissingQuery
    | LoadFailed
    | NoMatches(name: string, samples: seq<string>)
    | Found(name: string, total: nat, sections: seq<Section>)

  /** The most sample titles shown when nothing matches. */
  const SampleLimit: nat := 10

  // ----------------------------------------------------------------- matching

  /** `String(query || "").trim()`. */
  function QueryName(query: Option<string>): string { Trim(OrEmpty(query)) }

  /** `[it?.title, it?.label].filter(Boolean).map(normalizeForSearch).join(" | ")`. */
  function SetHaystack(it: Item): string { Haystack([it.title, it.setLabel]) }

  /** `hay.includes(q) || (qKey && hayKey.includes(qKey))`. */
  predicate SetMatches(q: string, qKey: string, it: Item)
  {
    var hay := SetHaystack(it);
    Contains(hay, q) || (qKey != "" && Contains(NormalizeToken(Some(hay)), qKey))
  }

  function MatchesQuery(q: string, qKey: string): Item -> bool
  {
    (it: Item) => SetMatches(q, qKey, it)
  }

  function TagWith(folderName: string): Item -> Match
  {
    (it: Item) => Match(folderName, it)
  }

  /** `folder?.name || ""`. */
  function FolderName(f: Folder): string { OrElse(f.name, "") }

  /** The matches one folder contributes, in item order. */
  function FolderMatches(q: string, qKey: string): Folder -> seq<Match>
  {
    (f: Folder) => Map(Filter(ListOrEmpty(f.items), MatchesQuery(q, qKey)), TagWith(FolderName(f)))
  }

  /** Every match, folder by folder and item by item. */
  function AllMatches(folders: seq<Folder>, q: string, qKey: string): seq<Match>
  {
    FlatMap(folders, FolderMatches(q, qKey))
  }

  /** The inner loop: push every matching item of one folder. */
  method MatchFolder(matches: seq<Match>, folder: Folder, q: string, qKey: string) returns (out: seq<Match>)
    ensures out == matches + FolderMatches(q, qKey)(folder)
  {
    var folderName := OrElse(folder.name, "");
    var items := ListOrEmpty(folder.items);
    out := matches;
    ghost var pushed: seq<Match> := [];
    for j := 0 to |items|
      invariant pushed == Map(Filter(items[..j], MatchesQuery(q, qKey)), TagWith(folderName))
      invariant out == matches + pushed
    {
      var it := items[j];
      FilterMapPrefix(items, j, MatchesQuery(q, qKey), TagWith(folderName));
      if SetMatches(q, qKey, it) {
        out := out + [Match(folderName, it)];
        pushed := pushed + [Match(folderName, it)];
      }
    }
    assert items[..|items|] == items;
  }

  /** The nested match loop over every folder. */
  method CollectMatches(folders: seq<Folder>, q: string, qKey: string) returns (matches: seq<Match>)
    ensures matches == AllMatches(folders, q, qKey)
  {
    matches := [];
    for i := 0 to |folders|
      invariant matches == AllMatches(folders[..i], q, qKey)
    {
      assert folders[..i + 1] == folders[..i] + [folders[i]];
      FlatMapSnoc(folders[..i], folders[i], FolderMatches(q, qKey));
      matches := MatchFolder(matches, folders[i], q, qKey);
    }
    assert folders[..|folders|] == folders;
  }

  // ------------------------------------------------------------------ samples

  /** `it?.label || it?.title`, kept when truthy. */
  function ItemSample(it: Item): (r: seq<string>)
    ensures |r| <= 1 && forall s :: s in r ==> s != ""
    ensures Truthy(it.setLabel) ==> r == [it.setLabel.value]
    ensures !Truthy(it.setLabel) && Truthy(it.title) ==> r == [it.title.value]
    ensures r == [] <==> !Truthy(it.setLabel) && !Truthy(it.title)
  {
    if Truthy(it.setLabel) then [it.setLabel.value]
    else if Truthy(it.title) then [it.title.value]
    else []
  }

  function FolderSamples(f: Folder): seq<string> { FlatMap(ListOrEmpty(f.items), ItemSample) }

  /** Every candidate sample, in folder and item order. */
  function AllSamples(folders: seq<Folder>): seq<string> { FlatMap(folders, FolderSamples) }

  /** The inner sample loop: push each truthy label, stop at the limit. */
  method SampleFolder(samples: seq<string>, folder: Folder) returns (out: seq<string>)
    requires |samples| < SampleLimit
    ensures out == Take(samples + FolderSamples(folder), SampleLimit)
  {
    var items := ListOrEmpty(folder.items);
    out := samples;
    var j := 0;
    while j < |items|
      invariant 0 <= j <= |items|
      invariant out == samples + FlatMap(items[..j], ItemSample)
      invariant |out| < SampleLimit
    {
      var it := items[j];
      FlatMapPrefix(items, j, ItemSample);
      AppendAssoc(samples, FlatMap(items[..j], ItemSample), ItemSample(it));
      var sample := if Truthy(it.setLabel) then it.setLabel else it.title;
      if Truthy(sample) {
        out := out + [sample.value];
      }
      if |out| >= SampleLimit {
        FlatMapSplitAt(items, j + 1, ItemSample);
        AppendAssoc(samples, FlatMap(items[..j + 1], ItemSample), FlatMap(items[j + 1..], ItemSample));
        TakeOfLong(out, FlatMap(items[j + 1..], ItemSample), SampleLimit);
        return;
      }
      j := j + 1;
    }
    assert items[..|items|] == items;
  }

  /** The sample loop over every folder, stopping once there are ten. */
  method CollectSamples(folders: seq<Folder>) returns (samples: seq<string>)
    ensures samples == Take(AllSamples(folders), SampleLimit)
  {
    samples := [];
    var i := 0;
    while i < |folders|
      invariant 0 <= i <= |folders|
      invariant samples == AllSamples(folders[..i])
      invariant |samples| < SampleLimit
    {
      FlatMapPrefix(folders, i, FolderSamples);
      samples := SampleFolder(samples, folders[i]);
      if |samples| >= SampleLimit {
        FlatMapSplitAt(folders, i + 1, FolderSamples);
        TakeOfLong(AllSamples(folders[..i + 1]), AllSamples(folders[i + 1..]), SampleLimit);
        return;
      }
      i := i + 1;
    }
    assert folders[..|folders|] == folders;
  }

  // ----------------------------------------------------------------- grouping

  function NameOf(m: Match): string { m.folderName }

  function ItemOf(m: Match): Item { m.item }

  function InFolder(k: string): Match -> bool
  {
    (m: Match) => m.folderName == k
  }

  /** The keys of `byFolder`: each folder name once, in order of first match. */
  function FolderKeys(matches: seq<Match>): seq<string>
  {
    FirstSeen(Map(matches, NameOf))
  }

  /** `byFolder.get(k)`: the items matched in folder k, in match order. */
  function GroupOf(matches: seq<Match>, k: string): seq<Item>
  {
    Map(Filter(matches, InFolder(k)), ItemOf)
  }

  function GroupSize(matches: seq<Match>): string -> nat
  {
    (k: string) => |GroupOf(matches, k)|
  }

  /** A folder with no match has an empty group. */
  lemma GroupOfAbsent(matches: seq<Match>, k: string)
    requires k !in Map(matches, NameOf)
    ensures GroupOf(matches, k) == []
  {
    MapMembers(matches, NameOf);
    forall m | m in matches ensures !InFolder(k)(m) {
      var i :| 0 <= i < |matches| && matches[i] == m;
      assert NameOf(matches[i]) in Map(matches, NameOf);
    }
    FilterNone(matches, InFolder(k));
  }

  /** What the grouping loop holds after the matches ms: the keys in
      first-seen order and each key's items. */
  ghost predicate GroupedBy(ms: seq<Match>, keys: seq<string>, groups: map<string, seq<Item>>)
  {
    && keys == FolderKeys(ms)
    && (forall k :: k in groups <==> k in keys)
    && (forall k :: k in groups ==> groups[k] == GroupOf(ms, k))
  }

  /** One more match adds its folder to the keys when it is new. */
  lemma FolderKeysSnoc(prefix: seq<Match>, m: Match)
    ensures FolderKeys(prefix + [m]) ==
      if m.folderName in FolderKeys(prefix) then FolderKeys(prefix) else FolderKeys(prefix) + [m.folderName]
  {
    MapAppend(prefix, [m], NameOf);
    assert Map([m], NameOf) == [m.folderName];
    var names := Map(prefix + [m], NameOf);
    assert names[..|names| - 1] == Map(prefix, NameOf);
  }

  /** One more match adds its item to its own folder's group only. */
  lemma GroupOfSnocAt(prefix: seq<Match>, m: Match, k: string)
    ensures GroupOf(prefix + [m], k) == GroupOf(prefix, k) + (if m.folderName == k then [m.item] else [])
  {
    FilterMapSnoc(prefix, m, InFolder(k), ItemOf);
  }

  lemma GroupOfSnoc(prefix: seq<Match>, m: Match)
    ensures FolderKeys(prefix + [m]) ==
      if m.folderName in FolderKeys(prefix) then FolderKeys(prefix) else FolderKeys(prefix) + [m.folderName]
    ensures forall k :: GroupOf(prefix + [m], k) == GroupOf(prefix, k) + (if m.folderName == k then [m.item] else [])
  {
    FolderKeysSnoc(prefix, m);
    forall k ensures GroupOf(prefix + [m], k) == GroupOf(prefix, k) + (if m.folderName == k then [m.item] else []) {
      GroupOfSnocAt(prefix, m, k);
    }
  }

  /** A match in a folder already seen leaves the keys as they are. */
  lemma KeysSeen(prefix: seq<Match>, m: Match, keys: seq<string>)
    requires keys == FolderKeys(prefix) && m.folderName in keys
    ensures FolderKeys(prefix + [m]) == keys
  {
    FolderKeysSnoc(prefix, m);
  }

  /** Pushing the match's item onto its folder's list keeps every list equal
      to that folder's group. */
  lemma PushedGroups(prefix: seq<Match>, m: Match, groups: map<string, seq<Item>>, pushed: map<string, seq<Item>>)
    requires forall k :: k in groups ==> groups[k] == GroupOf(prefix, k)
    requires m.folderName in groups
    requires pushed == groups[m.folderName := groups[m.folderName] + [m.item]]
    ensures forall k :: k in pushed ==> pushed[k] == GroupOf(prefix + [m], k)
  {
    forall k | k in pushed ensures pushed[k] == GroupOf(prefix + [m], k) {
      GroupOfSnocAt(prefix, m, k);
    }
  }

  lemma GroupedSeen(prefix: seq<Match>, m: Match, keys: seq<string>, groups: map<string, seq<Item>>)
    requires GroupedBy(prefix, keys, groups) && m.folderName in groups
    ensures var pushed := groups[m.folderName := groups[m.folderName] + [m.item]];
      && keys == FolderKeys(prefix + [m])
      && (forall k :: k in pushed <==> k in keys)
      && (forall k :: k in pushed ==> pushed[k] == GroupOf(prefix + [m], k))
  {
    var pushed := groups[m.folderName := groups[m.folderName] + [m.item]];
    KeysSeen(prefix, m, keys);
    assert pushed.Keys == groups.Keys;
    PushedGroups(prefix, m, groups, pushed);
  }

  lemma GroupedNew(prefix: seq<Match>, m: Match, keys: seq<string>, groups: map<string, seq<Item>>)
    requires GroupedBy(prefix, keys, groups) && m.folderName !in groups
    ensures GroupedBy(prefix + [m], keys + [m.folderName], groups[m.folderName := [m.item]])
  {
    var added := groups[m.folderName := [m.item]];
    FolderKeysSnoc(prefix, m);
    GroupOfAbsent(prefix, m.folderName);
    forall k | k in added ensures added[k] == GroupOf(prefix + [m], k) {
      GroupOfSnocAt(prefix, m, k);
    }
  }

  /** The grouping loop: get-or-create each folder's list, then push. */
  method GroupByFolder(matches: seq<Match>) returns (keys: seq<string>, groups: map<string, seq<Item>>)
    ensures keys == FolderKeys(matches)
    ensures forall k :: k in groups <==> k in keys
    ensures forall k :: k in groups ==> groups[k] == GroupOf(matches, k)
  {
    keys := [];
    groups := map[];
    for i := 0 to |matches|
      invariant GroupedBy(matches[..i], keys, groups)
    {
      var m := matches[i];
      assert matches[..i + 1] == matches[..i] + [m];
      if m.folderName in groups {
        GroupedSeen(matches[..i], m, keys, groups);
      } else {
        GroupedNew(matches[..i], m, keys, groups);
        keys := keys + [m.folderName];
        groups := groups[m.folderName := []];
      }
      groups := groups[m.folderName := groups[m.folderName] + [m.item]];
    }
    assert matches[..|matches|] == matches;
  }

  // ----------------------------------------------------------------- sections

  /** `it?.label || it?.title || "(untitled)"`, `it?.url || "#"` and the date
      when it is truthy. */
  function SetLinkOf(it: Item): (l: SetLink)
    ensures l.text != "" && l.href != ""
    ensures Truthy(it.setLabel) ==> l.text == it.setLabel.value
    ensures !Truthy(it.setLabel) && Truthy(it.title) ==> l.text == it.title.value
    ensures !Truthy(it.setLabel) && !Truthy(it.title) ==> l.text == "(untitled)"
    ensures Truthy(it.url) ==> l.href == it.url.value
    ensures !Truthy(it.url) ==> l.href == "#"
    ensures l.date.Some? <==> Truthy(it.date)
    ensures Truthy(it.date) ==> l.date == it.date
  {
    SetLink(OrElse(it.setLabel, OrElse(it.title, "(untitled)")), OrElse(it.url, "#"),
      if Truthy(it.date) then it.date else None)
  }

  /** The section of one folder: `folderName || "(Unknown)"` as heading, open
      exactly when the name lower-cases to "summary". */
  function SectionFor(name: string, items: seq<Item>): (s: Section)
    ensures s.count == |items| && |s.links| == |items|
    ensures s.links == Map(items, SetLinkOf)
    ensures name != "" ==> s.heading == name
    ensures s.open <==> Lower(name) == "summary"
    ensures s.heading != ""
    ensures s.heading == "(Unknown)" <==> name == "" || name == "(Unknown)"
  {
    Section(if name == "" then "(Unknown)" else name, |items|, Lower(name) == "summary", Map(items, SetLinkOf))
  }

  /** The `folders.map` callback over the grouping the source built. */
  function SectionIn(groups: map<string, seq<Item>>): string -> Section
  {
    (name: string) => SectionFor(name, if name in groups then groups[name] else [])
  }

  /** The same callback stated on the matches themselves. */
  function GroupSection(matches: seq<Match>): string -> Section
  {
    (name: string) => SectionFor(name, GroupOf(matches, name))
  }

  function SectionCount(s: Section): nat { s.count }

  // ------------------------------------------------------------------ summary

  /** The matches for a trimmed, non-empty name. */
  function MatchesFor(data: Collection, name: string): seq<Match>
  {
    AllMatches(ListOrEmpty(data.folders), NormalizeForSearch(Some(name)), NormalizeToken(Some(name)))
  }

  /** `Array.from(byFolder.keys()).sort(...)`: the section order. */
  function SectionOrder(matches: seq<Match>): seq<string>
  {
    SortByKey(FolderKeys(matches), NameKey)
  }

  /** The whole widget, as a function of the fetched collection and the query. */
  function SetSummary(data: Option<Collection>, query: Option<string>): (r: Summary)
    ensures r.MissingQuery? <==> QueryName(query) == ""
    ensures r.LoadFailed? <==> QueryName(query) != "" && data.None?
    ensures r.NoMatches? || r.Found? ==> r.name == QueryName(query) && r.name != ""
    ensures r.NoMatches? <==> QueryName(query) != "" && data.Some? && MatchesFor(data.value, QueryName(query)) == []
    ensures r.Found? <==> QueryName(query) != "" && data.Some? && MatchesFor(data.value, QueryName(query)) != []
  {
    var name := QueryName(query);
    if name == "" then MissingQuery
    else if data.None? then LoadFailed
    else
      var matches := MatchesFor(data.value, name);
      if matches == [] then NoMatches(name, Take(AllSamples(ListOrEmpty(data.value.folders)), SampleLimit))
      else Found(name, |matches|, Map(SectionOrder(matches), GroupSection(matches)))
  }

  /** renderDjSetSummaryInto: trim the query, then (with the fetched data as a
      parameter) collect matches, fall back to samples, or group, sort and lay
      out the sections. */
  method SummarizeSets(data: Option<Collection>, query: Option<string>) returns (r: Summary)
    ensures r == SetSummary(data, query)
  {
    var name := Trim(OrEmpty(query));
    if name == "" {
      return MissingQuery;
    }
    if data.None? {
      return LoadFailed;
    }
    var foldersRaw := ListOrEmpty(data.value.folders);
    var q := NormalizeForSearch(Some(name));
    var qKey := NormalizeToken(Some(name));
    var matches := CollectMatches(foldersRaw, q, qKey);
    if |matches| == 0 {
      var samples := CollectSamples(foldersRaw);
      return NoMatches(name, samples);
    }
    var keys, groups := GroupByFolder(matches);
    var folders := SortedCopy(keys, NameKey);
    SortByKeyMembers(keys, NameKey);
    forall k | 0 <= k < |folders| ensures SectionIn(groups)(folders[k]) == GroupSection(matches)(folders[k]) {
      assert folders[k] in keys;
    }
    MapCongruent(folders, SectionIn(groups), GroupSection(matches));
    r := Found(name, |matches|, Map(folders, SectionIn(groups)));
  }

  // --------------------------------------------------------------- properties

  /** Whenever the name has a token, the token test alone decides a match:
      a lower-cased substring hit is always a token hit as well. */
  lemma TokenRuleSubsumes(name: string, it: Item)
    requires NormalizeToken(Some(name)) != ""
    ensures SetMatches(NormalizeForSearch(Some(name)), NormalizeToken(Some(name)), it)
      <==> Contains(NormalizeToken(Some(SetHaystack(it))), NormalizeToken(Some(name)))
  {
    var q := NormalizeForSearch(Some(name));
    var hay := SetHaystack(it);
    if Contains(hay, q) {
      LowerKeepsContains(hay, q);
      LowerIdentity(q);
      FilterKeepsContains(Lower(hay), q, IsTokenChar);
    }
  }

  /** The name "b2b" is its own query and its own token. */
  lemma B2bQuery(query: Option<string>)
    requires query == Some("b2b")
    ensures QueryName(query) == "b2b"
    ensures NormalizeForSearch(query) == "b2b" && NormalizeToken(query) == "b2b"
  {
    TrimB2b(query.value);
    LowerB2b(query.value);
  }

  /** "b2b" finds "B-2-B Mashup" only through the token rule (its lower-cased
      title "b-2-b mashup" does not include "b2b"), and does not find "Solo Set". */
  lemma B2bExample(mashup: Item, solo: Item)
    requires mashup == Item(None, Some("B-2-B Mashup"), None, None)
    requires solo == Item(None, Some("Solo Set"), None, None)
    ensures SetMatches("b2b", "b2b", mashup) && !Contains(SetHaystack(mashup), "b2b")
    ensures !SetMatches("b2b", "b2b", solo)
  {
    MashupMatches(mashup);
    SoloSetMisses(solo);
  }

  lemma TrimB2b(name: string)
    requires name == "b2b"
    ensures Trim(name) == name
  {
    assert !IsJsSpace(name[0]) && !IsJsSpace(name[2]);
    assert TrimStart(name) == name;
  }

  lemma LowerB2b(name: string)
    requires name == "b2b"
    ensures Lower(name) == name && Filter(name, IsTokenChar) == name
  {
    LowerIdentity(name);
    FilterAll(name, IsTokenChar);
  }

  lemma HaystackOfTitle(title: string)
    requires title != ""
    ensures SetHaystack(Item(None, Some(title), None, None)) == Lower(title)
  {
    var fields := [Some(title), None];
    assert fields[1..] == [None];
    assert fields[1..][1..] == [];
    assert TruthyValues(fields[1..]) == [];
    assert TruthyValues(fields) == [title];
    assert Map([title], Lower) == [Lower(title)];
  }

  lemma MashupMatches(mashup: Item)
    requires mashup == Item(None, Some("B-2-B Mashup"), None, None)
    ensures SetMatches("b2b", "b2b", mashup) && !Contains(SetHaystack(mashup), "b2b")
  {
    var a, b := "B-2-B", " Mashup";
    assert mashup.title.value == a + b;
    HaystackOfTitle(a + b);
    MashupHead(a);
    MashupTail(b);
    TokenOnly(a, b);
  }

  lemma MashupHead(a: string)
    requires a == "B-2-B"
    ensures Lower(a) == "b-2-b"
  {
    LowerAt(a, 0); LowerAt(a, 1); LowerAt(a, 2); LowerAt(a, 3); LowerAt(a, 4);
  }

  lemma MashupTail(b: string)
    requires b == " Mashup"
    ensures '2' !in Lower(b)
  {
    LowerAvoids(b, '2');
  }

  /** A title that lower-cases to "b-2-b" followed by text without a '2'
      holds "b2b" as a token but not as a substring. */
  lemma TokenOnly(a: string, b: string)
    requires Lower(a) == "b-2-b" && '2' !in Lower(b)
    ensures Contains(NormalizeToken(Some(Lower(a + b))), "b2b") && !Contains(Lower(a + b), "b2b")
  {
    var p, r := Lower(a), Lower(b);
    var hay := Lower(a + b);
    LowerAppend(a, b);
    assert hay == p + r;
    assert hay == NormalizeForSearch(Some(a + b));
    LowerIdentity(hay);
    assert NormalizeToken(Some(hay)) == Filter(hay, IsTokenChar);
    assert Contains(hay, p) by {
      assert p <= hay;
    }
    FilterKeepsContains(hay, p, IsTokenChar);
    FilterB2b(p);
    NoB2b(p, r);
  }

  lemma FilterB2b(p: string)
    requires p == "b-2-b"
    ensures Filter(p, IsTokenChar) == "b2b"
  {
    assert p[1..] == "-2-b" && p[1..][1..] == "2-b" && p[1..][1..][1..] == "-b" && p[1..][1..][1..][1..] == "b";
    assert Filter("b", IsTokenChar) == "b";
    assert Filter("-b", IsTokenChar) == "b";
    assert Filter("2-b", IsTokenChar) == "2b";
    assert Filter("-2-b", IsTokenChar) == "2b";
  }

  lemma NoB2b(p: string, r: string)
    requires p == "b-2-b" && '2' !in r
    ensures !Contains(p + r, "b2b")
  {
    var h := p + r;
    forall i | 0 <= i && i + 3 <= |h| ensures !OccursAt(h, "b2b", i) {
      assert h[i] == h[i..i + 3][0] && h[i + 1] == h[i..i + 3][1];
      if i + 1 >= 5 {
        assert h[i + 1] == r[i - 4];
        assert r[i - 4] in r;
      } else if i == 1 {
        assert h[1] == '-';
      } else {
        assert h[i + 1] == p[i + 1];
      }
    }
    ContainsIffOccurs(h, "b2b");
  }

  lemma SoloSetMisses(solo: Item)
    requires solo == Item(None, Some("Solo Set"), None, None)
    ensures !SetMatches("b2b", "b2b", solo)
  {
    var title := solo.title.value;
    HaystackOfTitle(title);
    var hay := Lower(title);
    SoloLetters(title);
    LowerAvoids(title, 'b');
    if Contains(hay, "b2b") {
      ContainsHead(hay, "b2b");
    }
    assert hay == NormalizeForSearch(Some(title));
    LowerIdentity(hay);
    FilterMembers(hay, IsTokenChar);
    if Contains(NormalizeToken(Some(hay)), "b2b") {
      ContainsHead(NormalizeToken(Some(hay)), "b2b");
    }
  }

  lemma SoloLetters(title: string)
    requires title == "Solo Set"
    ensures 'b' !in title && UpperChar('b') !in title
  {
  }

  /** Every item of a folder, tagged with the folder's name. */
  function TaggedItems(f: Folder): seq<Match> { Map(ListOrEmpty(f.items), TagWith(FolderName(f))) }

  function MatchOk(q: string, qKey: string): Match -> bool
  {
    (m: Match) => SetMatches(q, qKey, m.item)
  }

  /** The matches are the tagged items of all folders, in document order,
      filtered by the match test. */
  lemma {:induction false} MatchesAreFilteredItems(folders: seq<Folder>, q: string, qKey: string)
    ensures AllMatches(folders, q, qKey) == Filter(FlatMap(folders, TaggedItems), MatchOk(q, qKey))
    decreases |folders|
  {
    if folders != [] {
      var n := |folders| - 1;
      var f := folders[n];
      MatchesAreFilteredItems(folders[..n], q, qKey);
      FilterAppend(FlatMap(folders[..n], TaggedItems), TaggedItems(f), MatchOk(q, qKey));
      FilterMapCommute(ListOrEmpty(f.items), TagWith(FolderName(f)), MatchesQuery(q, qKey), MatchOk(q, qKey));
    }
  }

  /** A pair is a match exactly when its item passes the test and sits in a
      folder whose `name || ""` is the pair's folder name. */
  lemma MatchMembers(folders: seq<Folder>, q: string, qKey: string, m: Match)
    ensures m in AllMatches(folders, q, qKey) <==>
      SetMatches(q, qKey, m.item) &&
      exists k :: 0 <= k < |folders| && FolderName(folders[k]) == m.folderName && m.item in ListOrEmpty(folders[k].items)
  {
    MatchesAreFilteredItems(folders, q, qKey);
    FilterMembers(FlatMap(folders, TaggedItems), MatchOk(q, qKey));
    FlatMapMembers(folders, TaggedItems, m);
    forall k | 0 <= k < |folders|
      ensures m in TaggedItems(folders[k]) <==> FolderName(folders[k]) == m.folderName && m.item in ListOrEmpty(folders[k].items)
    {
      var items := ListOrEmpty(folders[k].items);
      MapMembers(items, TagWith(FolderName(folders[k])));
      if m.item in items && FolderName(folders[k]) == m.folderName {
        var i :| 0 <= i < |items| && items[i] == m.item;
        assert TagWith(FolderName(folders[k]))(items[i]) == m;
      }
    }
  }

  /** What a sample is: the truthy label, else the truthy title, of some item. */
  lemma {:induction false} SampleMembers(folders: seq<Folder>, s: string)
    ensures s in AllSamples(folders) <==>
      exists k, i :: 0 <= k < |folders| && 0 <= i < |ListOrEmpty(folders[k].items)| && s in ItemSample(ListOrEmpty(folders[k].items)[i])
  {
    FlatMapMembers(folders, FolderSamples, s);
    forall k | 0 <= k < |folders|
      ensures s in FolderSamples(folders[k]) <==>
        exists i :: 0 <= i < |ListOrEmpty(folders[k].items)| && s in ItemSample(ListOrEmpty(folders[k].items)[i])
    {
      FlatMapMembers(ListOrEmpty(folders[k].items), ItemSample, s);
    }
  }

  /** The first ten candidates are non-empty labels or titles of some items. */
  lemma SamplesAreLabels(folders: seq<Folder>)
    ensures forall s :: s in Take(AllSamples(folders), SampleLimit) ==>
      s != "" && exists k, i :: 0 <= k < |folders| && 0 <= i < |ListOrEmpty(folders[k].items)| && s in ItemSample(ListOrEmpty(folders[k].items)[i])
  {
    var all := AllSamples(folders);
    forall s | s in Take(all, SampleLimit)
      ensures s != "" && exists k, i :: 0 <= k < |folders| && 0 <= i < |ListOrEmpty(folders[k].items)| && s in ItemSample(ListOrEmpty(folders[k].items)[i])
    {
      assert s in all;
      SampleMembers(folders, s);
    }
  }

  /** With no match, the samples are the first ten candidates (all of them
      when there are fewer), each a non-empty label or title of some item. */
  lemma NoMatchSamples(data: Collection, query: Option<string>)
    requires SetSummary(Some(data), query).NoMatches?
    ensures var r := SetSummary(Some(data), query);
      var folders := ListOrEmpty(data.folders);
      var all := AllSamples(folders);
      && MatchesFor(data, QueryName(query)) == []
      && r.samples == Take(all, SampleLimit)
      && |r.samples| <= SampleLimit && r.samples <= all
      && (|all| <= SampleLimit ==> r.samples == all)
      && (forall s :: s in r.samples ==>
            s != "" && exists k, i :: 0 <= k < |folders| && 0 <= i < |ListOrEmpty(folders[k].items)| && s in ItemSample(ListOrEmpty(folders[k].items)[i]))
  {
    SamplesAreLabels(ListOrEmpty(data.folders));
  }

  /** An item is in folder k's group exactly when the pair (k, item) matched. */
  lemma GroupMembers(matches: seq<Match>, k: string)
    ensures forall it :: it in GroupOf(matches, k) <==> Match(k, it) in matches
  {
    var kept := Filter(matches, InFolder(k));
    FilterMembers(matches, InFolder(k));
    MapMembers(kept, ItemOf);
    forall it ensures it in GroupOf(matches, k) <==> Match(k, it) in matches {
      if it in GroupOf(matches, k) {
        var i :| 0 <= i < |kept| && ItemOf(kept[i]) == it;
        assert kept[i] in kept;
        assert kept[i] == Match(k, it);
      }
      if Match(k, it) in matches {
        assert Match(k, it) in kept;
        var i :| 0 <= i < |kept| && kept[i] == Match(k, it);
        assert ItemOf(kept[i]) == it;
      }
    }
  }

  /** The groups partition the matches: their sizes add up to the total. */
  lemma {:induction false} GroupSizesSum(matches: seq<Match>)
    ensures SumOf(FolderKeys(matches), GroupSize(matches)) == |matches|
    decreases |matches|
  {
    if matches != [] {
      var n := |matches| - 1;
      var p, m := matches[..n], matches[n];
      assert matches == p + [m];
      GroupSizesSum(p);
      GroupSizesSnoc(p, m);
    }
  }

  /** One more match adds one to the size of its folder's group, and adds
      that folder, with a group of one, when it is new. */
  lemma GroupSizesSnoc(p: seq<Match>, m: Match)
    ensures SumOf(FolderKeys(p + [m]), GroupSize(p + [m])) == SumOf(FolderKeys(p), GroupSize(p)) + 1
  {
    var all := p + [m];
    GroupOfSnoc(p, m);
    forall k ensures GroupSize(all)(k) == GroupSize(p)(k) + (if k == m.folderName then 1 else 0) {
      assert GroupSize(all)(k) == |GroupOf(all, k)|;
      assert GroupSize(p)(k) == |GroupOf(p, k)|;
    }
    SumOfBump(FolderKeys(p), GroupSize(p), GroupSize(all), m.folderName);
    if m.folderName !in FolderKeys(p) {
      GroupOfAbsent(p, m.folderName);
      SumOfAppend(FolderKeys(p), [m.folderName], GroupSize(all));
      assert [m.folderName][1..] == [];
    }
  }

  /** The sections: one per matched folder, in comparator order, with the
      counts adding up to the total, and the open "summary" sections first. */
  lemma FoundSections(data: Collection, query: Option<string>)
    requires SetSummary(Some(data), query).Found?
    ensures var r := SetSummary(Some(data), query);
      var matches := MatchesFor(data, QueryName(query));
      var order := SectionOrder(matches);
      && r.total == |matches| && SumOf(r.sections, SectionCount) == r.total
      && Sorted(order, NameKey)
      && multiset(order) == multiset(FolderKeys(matches))
      && |r.sections| == |order|
      && (forall i :: 0 <= i < |order| ==> r.sections[i] == SectionFor(order[i], GroupOf(matches, order[i])))
      && (forall i, j :: 0 <= i < j < |r.sections| && r.sections[j].open ==> r.sections[i].open)
  {
    var r := SetSummary(Some(data), query);
    var matches := MatchesFor(data, QueryName(query));
    var order := SectionOrder(matches);
    SumOfMap(order, GroupSection(matches), SectionCount, GroupSize(matches));
    SortByKeySum(FolderKeys(matches), NameKey, GroupSize(matches));
    GroupSizesSum(matches);
    SortByKeySorted(FolderKeys(matches), NameKey);
    SortByKeyPermutes(FolderKeys(matches), NameKey);
    forall i | 0 <= i < |order| ensures r.sections[i] == SectionFor(order[i], GroupOf(matches, order[i])) {
      MapAt(order, GroupSection(matches), i);
    }
    forall i, j | 0 <= i < j < |r.sections| && r.sections[j].open ensures r.sections[i].open {
      assert !Less(NameKey(order[j]), NameKey(order[i]));
    }
  }
}
