/** The shared filtering discipline: lower-case the truthy searchable fields,
    join them with `" | "`, and keep a record when the result includes the
    normalised query (or the query is empty). */
module Search {
  import opened Base
  import opened Strings

  const FieldSeparator: string := " | "

  /** `fields.filter(Boolean).map(normalizeForSearch).join(" | ")`. */
  function Haystack(fields: seq<Option<string>>): string
  {
    Join(FieldSeparator, Map(TruthyValues(fields), Lower))
  }

  /** `!q || hay.includes(q)`. */
  predicate Kept(q: string, hay: string)
  {
    q == "" || Contains(hay, q)
  }

  // ------------------------------------------------------- includes on joins

  lemma ContainsLength<T>(hay: seq<T>, needle: seq<T>)
    requires Contains(hay, needle)
    ensures |needle| <= |hay|
  {
    ContainsIffOccurs(hay, needle);
  }

  /** An occurrence in either half of a concatenation is an occurrence in it. */
  lemma ContainsConcat<T>(a: seq<T>, b: seq<T>, needle: seq<T>)
    requires Contains(a, needle) || Contains(b, needle)
    ensures Contains(a + b, needle)
  {
    ContainsIffOccurs(a, needle);
    ContainsIffOccurs(b, needle);
    if Contains(a, needle) {
      var i :| OccursAt(a, needle, i);
      assert (a + b)[i..i + |needle|] == a[i..i + |needle|];
      OccursAtContains(a + b, needle, i);
    } else {
      var i :| OccursAt(b, needle, i);
      assert (a + b)[|a| + i..|a| + i + |needle|] == b[i..i + |needle|];
      OccursAtContains(a + b, needle, |a| + i);
    }
  }

  /** A non-empty needle none of whose characters occur in the middle part
      cannot straddle it. */
  lemma ContainsAcross(a: string, m: string, c: string, needle: string)
    requires needle != [] && m != []
    requires forall x :: x in needle ==> x !in m
    requires Contains(a + m + c, needle)
    ensures Contains(a, needle) || Contains(c, needle)
  {
    var h := a + m + c;
    ContainsIffOccurs(h, needle);
    var i :| OccursAt(h, needle, i);
    var n := |needle|;
    var j := if i <= |a| then |a| else i;
    if i <= j < i + n && |a| <= j < |a| + |m| {
      OccurrenceChar(h, needle, i, j);
      MiddleChar(a, m, c, j);
      assert false;
    }
    if i + n <= |a| {
      assert forall k :: i <= k < i + n ==> a[k] == h[k];
      assert a[i..i + n] == h[i..i + n];
      OccursAtContains(a, needle, i);
    } else {
      assert i >= |a| + |m|;
      var c0 := i - |a| - |m|;
      assert forall k :: c0 <= k < c0 + n ==> c[k] == h[k + |a| + |m|];
      assert c[c0..c0 + n] == h[i..i + n];
      OccursAtContains(c, needle, c0);
    }
  }

  lemma OccurrenceChar<T>(h: seq<T>, needle: seq<T>, i: int, t: int)
    requires OccursAt(h, needle, i) && i <= t < i + |needle|
    ensures h[t] in needle
  {
    assert h[t] == h[i..i + |needle|][t - i];
  }

  lemma MiddleChar<T>(a: seq<T>, m: seq<T>, c: seq<T>, t: int)
    requires |a| <= t < |a| + |m|
    ensures (a + m + c)[t] in m
  {
    assert (a + m + c)[t] == m[t - |a|];
  }

  /** A part that contains the needle makes the join contain it. */
  lemma {:induction false} JoinContainsFromPart(sep: string, parts: seq<string>, needle: string, k: int)
    requires 0 <= k < |parts| && Contains(parts[k], needle)
    ensures Contains(Join(sep, parts), needle)
    decreases |parts|
  {
    if |parts| > 1 {
      var rest := Join(sep, parts[1..]);
      assert Join(sep, parts) == parts[0] + (sep + rest);
      if k == 0 {
        ContainsConcat(parts[0], sep + rest, needle);
      } else {
        JoinContainsFromPart(sep, parts[1..], needle, k - 1);
        ContainsConcat(sep, rest, needle);
        ContainsConcat(parts[0], sep + rest, needle);
      }
    }
  }

  /** A needle free of the separator's characters occurs in the join only
      inside a single part. */
  lemma {:induction false} JoinContainsPart(sep: string, parts: seq<string>, needle: string)
    requires needle != [] && sep != []
    requires forall x :: x in needle ==> x !in sep
    requires Contains(Join(sep, parts), needle)
    ensures exists k :: 0 <= k < |parts| && Contains(parts[k], needle)
    decreases |parts|
  {
    if |parts| == 0 {
      ContainsLength(Join(sep, parts), needle);
    } else if |parts| == 1 {
      assert Contains(parts[0], needle);
    } else {
      var rest := Join(sep, parts[1..]);
      assert Join(sep, parts) == parts[0] + sep + rest;
      ContainsAcross(parts[0], sep, rest, needle);
      if !Contains(parts[0], needle) {
        JoinContainsPart(sep, parts[1..], needle);
        var k :| 0 <= k < |parts[1..]| && Contains(parts[1..][k], needle);
        assert Contains(parts[k + 1], needle);
      }
    }
  }

  // --------------------------------------------------------------- haystacks

  lemma {:induction false} TruthyValuesMembers(fields: seq<Option<string>>)
    ensures forall v :: v in TruthyValues(fields) <==> Some(v) in fields && v != ""
  {
    if fields != [] {
      TruthyValuesMembers(fields[1..]);
      assert fields == [fields[0]] + fields[1..];
    }
  }

  /** A haystack includes q whenever one truthy field, lower-cased, does. */
  lemma HaystackFromField(fields: seq<Option<string>>, q: string, v: string)
    requires Some(v) in fields && v != "" && Contains(Lower(v), q)
    ensures Contains(Haystack(fields), q)
  {
    var tv := TruthyValues(fields);
    TruthyValuesMembers(fields);
    var k :| 0 <= k < |tv| && tv[k] == v;
    MapAt(tv, Lower, k);
    JoinContainsFromPart(FieldSeparator, Map(tv, Lower), q, k);
  }

  /** For a query with no space and no `|`, the joined haystack includes it
      exactly when one of the truthy fields, lower-cased, does. A query with
      those characters can also match across a field boundary. */
  lemma HaystackMatchesField(fields: seq<Option<string>>, q: string)
    requires q != "" && ' ' !in q && '|' !in q
    ensures Contains(Haystack(fields), q) <==>
      exists v :: Some(v) in fields && v != "" && Contains(Lower(v), q)
  {
    var tv := TruthyValues(fields);
    var parts := Map(tv, Lower);
    TruthyValuesMembers(fields);
    if Contains(Haystack(fields), q) {
      JoinContainsPart(FieldSeparator, parts, q);
      var k :| 0 <= k < |parts| && Contains(parts[k], q);
      MapAt(tv, Lower, k);
      assert tv[k] in tv;
    }
    if exists v :: Some(v) in fields && v != "" && Contains(Lower(v), q) {
      var v :| Some(v) in fields && v != "" && Contains(Lower(v), q);
      HaystackFromField(fields, q, v);
    }
  }

  /** The join can match where no single field does: "a | b" against the
      fields "a" and "b". */
  lemma HaystackStraddles()
    ensures Contains(Haystack([Some("a"), Some("b")]), "a | b")
    ensures !Contains(Lower("a"), "a | b") && !Contains(Lower("b"), "a | b")
  {
    var fields := [Some("a"), Some("b")];
    assert fields[1..] == [Some("b")];
    assert fields[1..][1..] == [];
    assert TruthyValues(fields) == ["a", "b"];
    var parts := Map(["a", "b"], Lower);
    MapAt(["a", "b"], Lower, 0);
    MapAt(["a", "b"], Lower, 1);
    assert Lower("a") == "a" && Lower("b") == "b";
    assert parts == ["a", "b"];
    assert parts[1..] == ["b"];
    assert Haystack(fields) == "a | b";
    if Contains(Lower("a"), "a | b") {
      ContainsLength(Lower("a"), "a | b");
    }
    if Contains(Lower("b"), "a | b") {
      ContainsLength(Lower("b"), "a | b");
    }
  }
}
