/** The live recent-history table
    (src/assets/scripts/components/widgets/renderRecentHistoryInto.js):
    entries are kept when the lower-cased `" | "`-join of their non-empty
    time, title and artist includes the query. */
module RecentHistory {
  import opened Base
  import opened Strings
  import opened Search

  /** One entry of `recent_history.json`; a null entry reads as one whose
      three fields are all missing. */
  datatype Entry = Entry(dt: Option<string>, title: Option<string>, artist: Option<string>)

  /** One body row: the time, title and artist texts, before escaping. */
  datatype Row = Row(dt: string, title: string, artist: string)

  /** What `html` holds: the rows, or the "No matching entries." row spanning
      `colspan` columns. */
  datatype Body = EntryRows(rows: seq<Row>) | NoMatchingEntries(colspan: nat)

  /** renderRecentHistory's `{ html, count, queryActive }`. */
  datatype HistoryView = HistoryView(body: Body, count: nat, queryActive: bool)

  /** The status line: "n matching entr(y/ies)" or "n total entr(y/ies)". */
  datatype Status = MatchingEntries(count: nat) | TotalEntries(count: nat)

  /** The table has three columns: Time, Title, Artist. */
  const ColumnCount: nat := 3

  function EntryHaystack(e: Entry): string
  {
    Haystack([e.dt, e.title, e.artist])
  }

  function KeepEntry(q: string): Entry -> bool
  {
    (e: Entry) => Kept(q, EntryHaystack(e))
  }

  /** The entries renderRecentHistory keeps; missing entries read as []. */
  function KeptEntries(entries: Option<seq<Entry>>, query: Option<string>): seq<Entry>
  {
    Filter(ListOrEmpty(entries), KeepEntry(NormalizeForSearch(query)))
  }

  function RowOf(e: Entry): (r: Row)
    ensures r.dt == OrEmpty(e.dt) && r.title == OrEmpty(e.title) && r.artist == OrEmpty(e.artist)
  {
    Row(OrEmpty(e.dt), OrEmpty(e.title), OrEmpty(e.artist))
  }

  /** renderRecentHistory. */
  function RenderRecentHistory(entries: Option<seq<Entry>>, query: Option<string>): (v: HistoryView)
    ensures v.count == |KeptEntries(entries, query)| && v.count <= |ListOrEmpty(entries)|
    ensures v.queryActive <==> NormalizeForSearch(query) != ""
    ensures v.body.NoMatchingEntries? <==> v.count == 0
    ensures v.body.NoMatchingEntries? ==> v.body.colspan == ColumnCount
    ensures v.body.EntryRows? ==> |v.body.rows| == v.count
    ensures v.body.EntryRows? ==>
      forall k :: 0 <= k < v.count ==> v.body.rows[k] == RowOf(KeptEntries(entries, query)[k])
  {
    var q := NormalizeForSearch(query);
    var filtered := KeptEntries(entries, query);
    FilterMembers(ListOrEmpty(entries), KeepEntry(q));
    if filtered == [] then HistoryView(NoMatchingEntries(ColumnCount), 0, q != "")
    else
      var rows := Map(filtered, RowOf);
      assert forall k :: 0 <= k < |filtered| ==> rows[k] == RowOf(filtered[k]) by {
        forall k | 0 <= k < |filtered| ensures rows[k] == RowOf(filtered[k]) {
          MapAt(filtered, RowOf, k);
        }
      }
      HistoryView(EntryRows(rows), |filtered|, q != "")
  }

  /** rerender's status line. */
  function StatusOf(v: HistoryView): (s: Status)
    ensures s.count == v.count
    ensures s.MatchingEntries? <==> v.queryActive
  {
    if v.queryActive then MatchingEntries(v.count) else TotalEntries(v.count)
  }

  /** An empty query keeps every entry, in order; missing entries give none. */
  lemma EmptyQueryKeepsAllEntries(entries: Option<seq<Entry>>, query: Option<string>)
    requires NormalizeForSearch(query) == ""
    ensures KeptEntries(entries, query) == ListOrEmpty(entries)
    ensures entries.None? ==> RenderRecentHistory(entries, query).body == NoMatchingEntries(3)
  {
    FilterAll(ListOrEmpty(entries), KeepEntry(""));
  }

  /** An entry is kept exactly when it is an input entry whose joined,
      lower-cased non-empty fields include the query (or the query is
      empty); the kept entries keep their input order. */
  lemma KeptEntriesSpec(entries: Option<seq<Entry>>, query: Option<string>)
    ensures var q := NormalizeForSearch(query);
      forall e :: e in KeptEntries(entries, query) <==>
        e in ListOrEmpty(entries) && (q == "" || Contains(EntryHaystack(e), q))
    ensures IsSubsequence(KeptEntries(entries, query), ListOrEmpty(entries))
  {
    var q := NormalizeForSearch(query);
    FilterMembers(ListOrEmpty(entries), KeepEntry(q));
    forall e ensures e in KeptEntries(entries, query) <==> e in ListOrEmpty(entries) && Kept(q, EntryHaystack(e)) {
      assert KeepEntry(q)(e) == Kept(q, EntryHaystack(e));
    }
    FilterIsSubsequence(ListOrEmpty(entries), KeepEntry(q));
  }

  /** For a query without spaces or bars an entry is kept exactly when one of
      its non-empty fields, lower-cased, includes the query. */
  lemma KeptEntryByField(e: Entry, query: Option<string>)
    requires var q := NormalizeForSearch(query); q != "" && ' ' !in q && '|' !in q
    ensures var q := NormalizeForSearch(query);
      KeepEntry(q)(e) <==> exists v :: Some(v) in [e.dt, e.title, e.artist] && v != "" && Contains(Lower(v), q)
  {
    HaystackMatchesField([e.dt, e.title, e.artist], NormalizeForSearch(query));
  }
}
