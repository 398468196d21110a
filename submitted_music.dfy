/** The submitted-music table
    (src/assets/scripts/components/widgets/renderSubmittedMusicInto.js):
    rows are padded or cut to the header width, filtered by a query against
    the lower-cased `" | "`-join of their cells, and shown for the division
    picked in the `<select>`. The results are the structured content of the
    table the source writes into the page. */
module SubmittedMusic {
  import opened Base
  import opened Strings
  import opened Search

  /** A JSON cell: a string, or null/undefined (None). */
  type Cell = Option<string>

  /** A division record: `division` (its name), `headers` and `rows`; a row
      that is not an array is None. */
  datatype Division = Division(division: Option<string>, headers: Option<seq<string>>, rows: Option<seq<Option<seq<Cell>>>>)

  /** What `tbody` holds: the kept rows' cell texts, or the "No matching
      rows." placeholder spanning `colspan` columns. */
  datatype TableBody = BodyRows(rows: seq<seq<string>>) | NoMatchingRows(colspan: nat)

  /** renderDivisionTable's `{ thead, tbody, count, queryActive }`. */
  datatype TableView = TableView(headers: seq<string>, body: TableBody, count: nat, queryActive: bool)

  /** The status line under the selector. */
  datatype Status = NoStatus | MatchingRows(count: nat) | TotalRows(count: nat)

  /** What rerender shows: the "No divisions found." row with an empty header
      and status, or a division's table and its status line. */
  datatype Screen = NoDivisions | DivisionScreen(table: TableView, status: Status)

  // ------------------------------------------------------------- normalizeRows

  /** `Array(n).fill("")`. */
  function Blanks(n: nat): (r: seq<Cell>)
    ensures |r| == n && forall i :: 0 <= i < n ==> r[i] == Some("")
  {
    if n == 0 then [] else Blanks(n - 1) + [Some("")]
  }

  /** One row of normalizeRows: a copy of the row (empty when it is not an
      array), padded with "" up to `width` or cut down to its first `width`
      cells. */
  function NormalizeRow(r: Option<seq<Cell>>, width: nat): (rr: seq<Cell>)
    ensures |rr| == width
    ensures forall i :: 0 <= i < width && i < |ListOrEmpty(r)| ==> rr[i] == ListOrEmpty(r)[i]
    ensures forall i :: |ListOrEmpty(r)| <= i < width ==> rr[i] == Some("")
  {
    var cells := ListOrEmpty(r);
    if |cells| < width then cells + Blanks(width - |cells|)
    else cells[..width]
  }

  function NormalizeRowTo(width: nat): Option<seq<Cell>> -> seq<Cell>
  {
    (r: Option<seq<Cell>>) => NormalizeRow(r, width)
  }

  /** `(headers || []).length`. */
  function Width(headers: Option<seq<string>>): nat { |ListOrEmpty(headers)| }

  /** normalizeRows: every row brought to the header width. */
  function NormalizeRows(headers: Option<seq<string>>, rows: Option<seq<Option<seq<Cell>>>>): seq<seq<Cell>>
  {
    Map(ListOrEmpty(rows), NormalizeRowTo(Width(headers)))
  }

  /** The normalised rows, as JSON rows again. */
  function AsRows(rows: seq<seq<Cell>>): Option<seq<Option<seq<Cell>>>>
  {
    Some(Map(rows, (r: seq<Cell>) => Some(r)))
  }

  /** The row callback as the source runs it: copy the row, push the
      missing "" cells, then cut the length down to `width`. */
  method NormalizeRowCopy(r: Option<seq<Cell>>, width: nat) returns (copy: seq<Cell>)
    ensures copy == NormalizeRow(r, width)
  {
    copy := ListOrEmpty(r);
    if |copy| < width {
      copy := copy + Blanks(width - |copy|);
    }
    if |copy| > width {
      copy := copy[..width];
    }
  }

  /** normalizeRows: `(rows || []).map` of the row callback. */
  method NormalizeRowsCopy(headers: Option<seq<string>>, rows: Option<seq<Option<seq<Cell>>>>) returns (out: seq<seq<Cell>>)
    ensures out == NormalizeRows(headers, rows)
  {
    var input := ListOrEmpty(rows);
    var width := Width(headers);
    out := [];
    for j := 0 to |input|
      invariant out == Map(input[..j], NormalizeRowTo(width))
    {
      var row := NormalizeRowCopy(input[j], width);
      MapAppend(input[..j], [input[j]], NormalizeRowTo(width));
      assert input[..j + 1] == input[..j] + [input[j]];
      out := out + [row];
    }
    assert input[..|input|] == input;
  }

  /** Every output row has exactly the header width; there is one output row
      per input row; row k keeps the first cells of input row k and is
      padded with "" after them. */
  lemma NormalizeRowsShape(headers: Option<seq<string>>, rows: Option<seq<Option<seq<Cell>>>>)
    ensures var out := NormalizeRows(headers, rows);
      var input := ListOrEmpty(rows);
      && |out| == |input|
      && (forall k :: 0 <= k < |out| ==> |out[k]| == Width(headers))
      && (forall k, i :: 0 <= k < |out| && 0 <= i < Width(headers) ==>
            out[k][i] == (if i < |ListOrEmpty(input[k])| then ListOrEmpty(input[k])[i] else Some("")))
  {
    var input := ListOrEmpty(rows);
    forall k | 0 <= k < |input| ensures NormalizeRows(headers, rows)[k] == NormalizeRow(input[k], Width(headers)) {
      MapAt(input, NormalizeRowTo(Width(headers)), k);
    }
  }

  /** A row that is not an array becomes `width` empty strings. */
  lemma NonArrayRowIsBlank(width: nat)
    ensures NormalizeRow(None, width) == Blanks(width)
  {
    assert ListOrEmpty<Cell>(None) == [];
    assert [] + Blanks(width) == Blanks(width);
  }

  /** A row already of the header width is left as it is. */
  lemma NormalizeRowOfWidth(r: seq<Cell>, width: nat)
    requires |r| == width
    ensures NormalizeRow(Some(r), width) == r
  {
    assert r[..width] == r;
  }

  /** normalizeRows is idempotent. */
  lemma NormalizeRowsIdempotent(headers: Option<seq<string>>, rows: Option<seq<Option<seq<Cell>>>>)
    ensures NormalizeRows(headers, AsRows(NormalizeRows(headers, rows))) == NormalizeRows(headers, rows)
  {
    var out := NormalizeRows(headers, rows);
    var lifted := Map(out, (r: seq<Cell>) => Some(r));
    var again := NormalizeRows(headers, AsRows(out));
    NormalizeRowsShape(headers, rows);
    forall k | 0 <= k < |out| ensures again[k] == out[k] {
      MapAt(out, (r: seq<Cell>) => Some(r), k);
      MapAt(lifted, NormalizeRowTo(Width(headers)), k);
      NormalizeRowOfWidth(out[k], Width(headers));
    }
  }

  /** headers `["Date", "Artist"]` and rows `[["2024-01-01"]]` give
      `[["2024-01-01", ""]]`. */
  lemma NormalizeRowsExample(headers: Option<seq<string>>, rows: Option<seq<Option<seq<Cell>>>>, date: string)
    requires headers == Some(["Date", "Artist"]) && date == "2024-01-01"
    requires rows == Some([Some([Some(date)])])
    ensures NormalizeRows(headers, rows) == [[Some(date), Some("")]]
  {
    var input := [Some([Some(date)])];
    MapAt(input, NormalizeRowTo(2), 0);
    assert Blanks(1) == [Some("")];
    assert [Some(date)] + [Some("")] == [Some(date), Some("")];
  }

  // ------------------------------------------------------- renderDivisionTable

  /** `normalizeForSearch(r.join(" | "))`: null cells join as "". */
  function RowText(r: seq<Cell>): string
  {
    Lower(Join(FieldSeparator, Map(r, OrEmpty)))
  }

  function KeepRow(q: string): seq<Cell> -> bool
  {
    (r: seq<Cell>) => Kept(q, RowText(r))
  }

  /** `escapeHtml(c || "")` before escaping. */
  function CellTexts(r: seq<Cell>): seq<string> { Map(r, OrEmpty) }

  /** The rows renderDivisionTable keeps. */
  function KeptRows(d: Division, query: Option<string>): seq<seq<Cell>>
  {
    Filter(NormalizeRows(d.headers, d.rows), KeepRow(NormalizeForSearch(query)))
  }

  /** `Math.max(headers.length, 1)`. */
  function PlaceholderSpan(headers: seq<string>): (n: nat)
    ensures n >= 1 && n >= |headers| && (n == 1 || n == |headers|)
  {
    if |headers| > 1 then |headers| else 1
  }

  /** renderDivisionTable: the header texts, the kept rows (or the
      placeholder when none is kept), the count and whether a query is on. */
  function DivisionTable(d: Division, query: Option<string>): (t: TableView)
    ensures t.headers == ListOrEmpty(d.headers)
    ensures t.count == |KeptRows(d, query)| && t.count <= |ListOrEmpty(d.rows)|
    ensures t.queryActive <==> NormalizeForSearch(query) != ""
    ensures t.body.NoMatchingRows? <==> t.count == 0
    ensures t.body.NoMatchingRows? ==> t.body.colspan == PlaceholderSpan(t.headers)
    ensures t.body.BodyRows? ==> |t.body.rows| == t.count
    ensures t.body.BodyRows? ==> t.body.rows == Map(KeptRows(d, query), CellTexts)
  {
    var headers := ListOrEmpty(d.headers);
    var q := NormalizeForSearch(query);
    var filtered := KeptRows(d, query);
    FilterMembers(NormalizeRows(d.headers, d.rows), KeepRow(q));
    var body := if filtered == [] then NoMatchingRows(PlaceholderSpan(headers)) else BodyRows(Map(filtered, CellTexts));
    TableView(headers, body, |filtered|, q != "")
  }

  /** An empty query keeps every normalised row, in order. */
  lemma EmptyQueryKeepsAllRows(d: Division, query: Option<string>)
    requires NormalizeForSearch(query) == ""
    ensures KeptRows(d, query) == NormalizeRows(d.headers, d.rows)
  {
    FilterAll(NormalizeRows(d.headers, d.rows), KeepRow(""));
  }

  /** A row is kept exactly when it is a normalised row whose lower-cased
      join includes the query (or the query is empty), and the kept rows
      keep their order. */
  lemma KeptRowsSpec(d: Division, query: Option<string>)
    ensures var q := NormalizeForSearch(query);
      forall r :: r in KeptRows(d, query) <==>
        r in NormalizeRows(d.headers, d.rows) && (q == "" || Contains(RowText(r), q))
    ensures IsSubsequence(KeptRows(d, query), NormalizeRows(d.headers, d.rows))
  {
    var rows := NormalizeRows(d.headers, d.rows);
    var q := NormalizeForSearch(query);
    FilterMembers(rows, KeepRow(q));
    forall r ensures r in KeptRows(d, query) <==> r in rows && Kept(q, RowText(r)) {
      assert KeepRow(q)(r) == Kept(q, RowText(r));
    }
    FilterIsSubsequence(rows, KeepRow(q));
  }

  // --------------------------------------------------------- division choice

  /** `String(d?.division || "UnknownDivision")`. */
  function DivisionName(d: Option<Division>): string
  {
    if d.Some? && Truthy(d.value.division) then d.value.division.value else "UnknownDivision"
  }

  /** The `<option>` labels, one per division. */
  function DivisionNames(divisions: seq<Option<Division>>): (names: seq<string>)
    ensures |names| == |divisions|
    ensures forall i :: 0 <= i < |names| ==> names[i] != ""
    ensures forall i :: 0 <= i < |names| ==>
      (names[i] == "UnknownDivision" <==> !(divisions[i].Some? && Truthy(divisions[i].value.division)) || divisions[i].value.division.value == "UnknownDivision")
    ensures forall i :: 0 <= i < |names| && divisions[i].Some? && Truthy(divisions[i].value.division) ==>
      names[i] == divisions[i].value.division.value
  {
    var names := Map(divisions, DivisionName);
    forall i | 0 <= i < |names| ensures names[i] == DivisionName(divisions[i]) {
      MapAt(divisions, DivisionName, i);
    }
    names
  }

  /** rerender: `divisions[Number(sel.value || 0)]`; a missing or null entry
      shows "No divisions found." with an empty status; otherwise the table
      and "n matching row(s)" or "n total row(s)". */
  function Rerender(divisions: seq<Option<Division>>, idx: int, query: Option<string>): (s: Screen)
    ensures s.NoDivisions? <==> !(0 <= idx < |divisions|) || divisions[idx].None?
    ensures s.DivisionScreen? ==> s.table == DivisionTable(divisions[idx].value, query)
    ensures s.DivisionScreen? ==> (s.status.MatchingRows? <==> s.table.queryActive)
    ensures s.DivisionScreen? ==> !s.status.NoStatus? && s.status.count == s.table.count
  {
    if 0 <= idx < |divisions| && divisions[idx].Some? then
      var t := DivisionTable(divisions[idx].value, query);
      DivisionScreen(t, if t.queryActive then MatchingRows(t.count) else TotalRows(t.count))
    else NoDivisions
  }
}
