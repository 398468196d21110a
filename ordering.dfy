/** The three-tier folder order shared by renderDjCollection and the set
    summary: `folderSortKey`, the comparator built on it, and the sort of a
    copy. `localeCompare` is lexicographic order on the lower-cased labels. */
module Ordering {
  import opened Base
  import opened Strings

  // ------------------------------------------------------------- sort keys

  /** The `{ group, year, label }` record folderSortKey returns. */
  datatype SortKey = SortKey(group: nat, year: int, lower: string)

  /** `/^\d{4}$/`: exactly four ASCII digits. */
  predicate IsFourDigits(s: string)
  {
    |s| == 4 && forall i :: 0 <= i < 4 ==> IsDigit(s[i])
  }

  function Pow10(n: nat): (p: nat)
    ensures p >= 1
  {
    if n == 0 then 1 else 10 * Pow10(n - 1)
  }

  /** `Number(s)` for a string of decimal digits: it has fewer than |s| digits'
      worth of magnitude. */
  function DecimalValue(s: string): (v: nat)
    requires forall i :: 0 <= i < |s| ==> IsDigit(s[i])
    ensures v < Pow10(|s|)
    decreases |s|
  {
    if s == [] then 0
    else
      var init := s[..|s| - 1];
      assert forall i :: 0 <= i < |init| ==> IsDigit(init[i]);
      assert IsDigit(s[|s| - 1]);
      10 * DecimalValue(init) + (s[|s| - 1] as int - '0' as int)
  }

  /** Distinct four-digit strings have distinct numeric values, so two
      year folders compare equal only when their labels are equal. */
  lemma {:induction false} DecimalValueInjective(a: string, b: string)
    requires forall i :: 0 <= i < |a| ==> IsDigit(a[i])
    requires forall i :: 0 <= i < |b| ==> IsDigit(b[i])
    requires |a| == |b| && DecimalValue(a) == DecimalValue(b)
    ensures a == b
    decreases |a|
  {
    if a != [] {
      var a', b' := a[..|a| - 1], b[..|b| - 1];
      assert forall i :: 0 <= i < |a'| ==> IsDigit(a'[i]);
      assert forall i :: 0 <= i < |b'| ==> IsDigit(b'[i]);
      var da, db := a[|a| - 1] as int - '0' as int, b[|b| - 1] as int - '0' as int;
      assert 10 * DecimalValue(a') + da == 10 * DecimalValue(b') + db;
      assert da == db;
      DecimalValueInjective(a', b');
      assert a == a' + [a[|a| - 1]] && b == b' + [b[|b| - 1]];
    }
  }

  /** folderSortKey: "summary" (in any case) is group 0, a four-digit name is
      group 1 with its numeric year, anything else is group 2; the lower field is
      always the lower-cased name. */
  function FolderSortKey(name: Option<string>): (k: SortKey)
    ensures k.lower == Lower(OrEmpty(name))
    ensures k.group == 0 <==> k.lower == "summary"
    ensures k.group == 1 <==> k.lower != "summary" && IsFourDigits(k.lower)
    ensures k.group == 2 <==> k.lower != "summary" && !IsFourDigits(k.lower)
    ensures k.group == 1 ==> k.year == DecimalValue(k.lower) && 0 <= k.year < Pow10(4)
    ensures k.group != 1 ==> k.year == -1
  {
    var lower := Lower(OrEmpty(name));
    if lower == "summary" then SortKey(0, -1, lower)
    else if IsFourDigits(lower) then SortKey(1, DecimalValue(lower), lower)
    else SortKey(2, -1, lower)
  }

  // ------------------------------------------------------- lexicographic order

  /** `a.localeCompare(b) < 0`, read as plain lexicographic order. */
  predicate LexLess(a: string, b: string)
    decreases |a|
  {
    b != [] && (a == [] || a[0] < b[0] || (a[0] == b[0] && LexLess(a[1..], b[1..])))
  }

  lemma {:induction false} LexLessIrreflexive(a: string)
    ensures !LexLess(a, a)
    decreases |a|
  {
    if a != [] {
      LexLessIrreflexive(a[1..]);
    }
  }

  lemma {:induction false} LexLessTransitive(a: string, b: string, c: string)
    requires LexLess(a, b) && LexLess(b, c)
    ensures LexLess(a, c)
    decreases |a|
  {
    if a != [] && a[0] == b[0] && b[0] == c[0] {
      LexLessTransitive(a[1..], b[1..], c[1..]);
    }
  }

  lemma {:induction false} LexLessTotal(a: string, b: string)
    ensures a == b || LexLess(a, b) || LexLess(b, a)
    decreases |a|
  {
    if a != [] && b != [] && a[0] == b[0] {
      LexLessTotal(a[1..], b[1..]);
      if a[1..] == b[1..] {
        assert a == [a[0]] + a[1..] && b == [b[0]] + b[1..];
      }
    }
  }

  // -------------------------------------------------------------- comparator

  /** The comparator's "a sorts before b": group first, then years
      descending within group 1, then labels. */
  predicate Less(a: SortKey, b: SortKey)
  {
    if a.group != b.group then a.group < b.group
    else if a.group == 1 then b.year < a.year
    else LexLess(a.lower, b.lower)
  }

  lemma LessIrreflexive(a: SortKey)
    ensures !Less(a, a)
  {
    LexLessIrreflexive(a.lower);
  }

  lemma LessTransitive(a: SortKey, b: SortKey, c: SortKey)
    requires Less(a, b) && Less(b, c)
    ensures Less(a, c)
  {
    if a.group == b.group == c.group && a.group != 1 {
      LexLessTransitive(a.lower, b.lower, c.lower);
    }
  }

  /** Keys that neither precede the other are tied in every tier. */
  lemma {:induction false} LessTies(a: SortKey, b: SortKey)
    requires !Less(a, b) && !Less(b, a)
    ensures a.group == b.group
    ensures a.group == 1 ==> a.year == b.year
    ensures a.group != 1 ==> a.lower == b.lower
  {
    if a.group == b.group && a.group != 1 {
      LexLessTotal(a.lower, b.lower);
    }
  }

  /** "Not before" is transitive: the comparator is a strict weak order, so
      sorting with it is well defined. */
  lemma NotLessTransitive(a: SortKey, b: SortKey, c: SortKey)
    requires !Less(b, a) && !Less(c, b)
    ensures !Less(c, a)
  {
    if Less(c, a) {
      if Less(a, b) {
        LessTransitive(c, a, b);
      } else {
        LessTies(a, b);
      }
    }
  }

  /** Two folder keys from names are tied exactly when their lower-cased
      names are equal. */
  lemma FolderKeysTied(m: Option<string>, n: Option<string>)
    requires !Less(FolderSortKey(m), FolderSortKey(n)) && !Less(FolderSortKey(n), FolderSortKey(m))
    ensures Lower(OrEmpty(m)) == Lower(OrEmpty(n))
  {
    var a, b := FolderSortKey(m), FolderSortKey(n);
    LessTies(a, b);
    if a.group == 1 {
      DecimalValueInjective(a.lower, b.lower);
    }
  }

  // ------------------------------------------------------------ stable sort

  predicate Sorted<T>(s: seq<T>, key: T -> SortKey)
  {
    forall i, j :: 0 <= i < j < |s| ==> !Less(key(s[j]), key(s[i]))
  }

  /** Insert x into a sorted sequence after every element it does not
      precede: the step of a stable insertion sort. */
  function Insert<T>(t: seq<T>, x: T, key: T -> SortKey): seq<T>
    decreases |t|
  {
    if t == [] then [x]
    else if Less(key(x), key(t[|t| - 1])) then Insert(t[..|t| - 1], x, key) + [t[|t| - 1]]
    else t + [x]
  }

  /** `[...xs].sort(cmp)`: JS sorts stably, so the result is the stable sort. */
  function SortByKey<T>(s: seq<T>, key: T -> SortKey): seq<T>
    decreases |s|
  {
    if s == [] then [] else Insert(SortByKey(s[..|s| - 1], key), s[|s| - 1], key)
  }

  lemma {:induction false} InsertPermutes<T>(t: seq<T>, x: T, key: T -> SortKey)
    ensures multiset(Insert(t, x, key)) == multiset(t) + multiset{x}
    decreases |t|
  {
    if t != [] && Less(key(x), key(t[|t| - 1])) {
      InsertPermutes(t[..|t| - 1], x, key);
      assert t == t[..|t| - 1] + [t[|t| - 1]];
    }
  }

  /** Appending an element that precedes none of a sorted sequence keeps it
      sorted. */
  lemma SortedSnoc<T>(u: seq<T>, y: T, key: T -> SortKey)
    requires Sorted(u, key)
    requires forall i :: 0 <= i < |u| ==> !Less(key(y), key(u[i]))
    ensures Sorted(u + [y], key)
  {
    var v := u + [y];
    forall i, j | 0 <= i < j < |v| ensures !Less(key(v[j]), key(v[i])) {
      if j < |u| {
        assert v[i] == u[i] && v[j] == u[j];
      } else {
        assert v[i] == u[i] && v[j] == y;
      }
    }
  }

  /** An element every member of t' is ordered before: so is everything
      inserting x gives, when x itself comes before it. */
  lemma InsertBelow<T>(t': seq<T>, x: T, last: T, key: T -> SortKey)
    requires forall i :: 0 <= i < |t'| ==> !Less(key(last), key(t'[i]))
    requires Less(key(x), key(last))
    ensures forall i :: 0 <= i < |Insert(t', x, key)| ==> !Less(key(last), key(Insert(t', x, key)[i]))
  {
    var u := Insert(t', x, key);
    InsertPermutes(t', x, key);
    forall i | 0 <= i < |u| ensures !Less(key(last), key(u[i])) {
      assert u[i] in multiset(t') + multiset{x};
      if u[i] == x {
        if Less(key(last), key(x)) {
          LessTransitive(key(x), key(last), key(x));
          LessIrreflexive(key(x));
        }
      } else {
        assert u[i] in t';
        var j :| 0 <= j < |t'| && t'[j] == u[i];
      }
    }
  }

  lemma {:induction false} InsertSorted<T>(t: seq<T>, x: T, key: T -> SortKey)
    requires Sorted(t, key)
    ensures Sorted(Insert(t, x, key), key)
    decreases |t|
  {
    if t != [] {
      var n := |t| - 1;
      var last := t[n];
      if Less(key(x), key(last)) {
        var t' := t[..n];
        assert Sorted(t', key);
        InsertSorted(t', x, key);
        assert forall i :: 0 <= i < |t'| ==> t'[i] == t[i];
        InsertBelow(t', x, last, key);
        SortedSnoc(Insert(t', x, key), last, key);
      } else {
        forall i | 0 <= i < |t| ensures !Less(key(x), key(t[i])) {
          if i < n {
            NotLessTransitive(key(t[i]), key(last), key(x));
          }
        }
        SortedSnoc(t, x, key);
      }
    }
  }

  /** The sort is a permutation of its input. */
  lemma {:induction false} SortByKeyPermutes<T>(s: seq<T>, key: T -> SortKey)
    ensures multiset(SortByKey(s, key)) == multiset(s)
    decreases |s|
  {
    if s != [] {
      SortByKeyPermutes(s[..|s| - 1], key);
      InsertPermutes(SortByKey(s[..|s| - 1], key), s[|s| - 1], key);
      assert s == s[..|s| - 1] + [s[|s| - 1]];
    }
  }

  /** The sort is ordered by the comparator. */
  lemma {:induction false} SortByKeySorted<T>(s: seq<T>, key: T -> SortKey)
    ensures Sorted(SortByKey(s, key), key)
    decreases |s|
  {
    if s != [] {
      SortByKeySorted(s[..|s| - 1], key);
      InsertSorted(SortByKey(s[..|s| - 1], key), s[|s| - 1], key);
    }
  }

  /** Sorting something already in order changes nothing, so sorting twice is
      sorting once. */
  lemma {:induction false} SortByKeyOfSorted<T>(s: seq<T>, key: T -> SortKey)
    requires Sorted(s, key)
    ensures SortByKey(s, key) == s
    decreases |s|
  {
    if s != [] {
      var init := s[..|s| - 1];
      assert Sorted(init, key);
      SortByKeyOfSorted(init, key);
      if |init| > 0 {
        assert !Less(key(s[|s| - 1]), key(init[|init| - 1]));
      }
      assert init + [s[|s| - 1]] == s;
    }
  }

  lemma SortByKeyIdempotent<T>(s: seq<T>, key: T -> SortKey)
    ensures SortByKey(SortByKey(s, key), key) == SortByKey(s, key)
  {
    SortByKeySorted(s, key);
    SortByKeyOfSorted(SortByKey(s, key), key);
  }

  lemma {:induction false} InsertSum<T>(t: seq<T>, x: T, key: T -> SortKey, w: T -> nat)
    ensures SumOf(Insert(t, x, key), w) == SumOf(t, w) + w(x)
    decreases |t|
  {
    if t == [] {
      assert [x][1..] == [];
    } else if Less(key(x), key(t[|t| - 1])) {
      var n := |t| - 1;
      InsertSum(t[..n], x, key, w);
      SumOfAppend(Insert(t[..n], x, key), [t[n]], w);
      SumOfAppend(t[..n], [t[n]], w);
      assert t[..n] + [t[n]] == t;
      assert [t[n]][1..] == [];
    } else {
      SumOfAppend(t, [x], w);
      assert [x][1..] == [];
    }
  }

  /** Sorting does not change a total taken over the elements. */
  lemma {:induction false} SortByKeySum<T>(s: seq<T>, key: T -> SortKey, w: T -> nat)
    ensures SumOf(SortByKey(s, key), w) == SumOf(s, w)
    decreases |s|
  {
    if s != [] {
      var n := |s| - 1;
      SortByKeySum(s[..n], key, w);
      InsertSum(SortByKey(s[..n], key), s[n], key, w);
      SumOfAppend(s[..n], [s[n]], w);
      assert s[..n] + [s[n]] == s;
      assert [s[n]][1..] == [];
    }
  }

  /** Sorting keeps exactly the elements it was given. */
  lemma SortByKeyMembers<T>(s: seq<T>, key: T -> SortKey)
    ensures forall x :: x in SortByKey(s, key) <==> x in s
  {
    SortByKeyPermutes(s, key);
    forall x ensures x in SortByKey(s, key) <==> x in s {
      assert x in SortByKey(s, key) <==> x in multiset(SortByKey(s, key));
      assert x in s <==> x in multiset(s);
    }
  }

  /** Filtering a sorted sequence leaves it sorted. */
  lemma {:induction false} FilterSorted<T>(s: seq<T>, p: T -> bool, key: T -> SortKey)
    requires Sorted(s, key)
    ensures Sorted(Filter(s, p), key)
    decreases |s|
  {
    if s != [] {
      var tail := s[1..];
      assert Sorted(tail, key);
      FilterSorted(tail, p, key);
      var rest := Filter(tail, p);
      FilterIndices(tail, p);
      if p(s[0]) {
        forall j | 0 < j < |rest| + 1 ensures !Less(key(([s[0]] + rest)[j]), key(s[0])) {
          var m :| 0 <= m < |tail| && tail[m] == rest[j - 1];
          assert s[m + 1] == rest[j - 1];
        }
        assert Filter(s, p) == [s[0]] + rest;
      } else {
        assert Filter(s, p) == [] + rest;
        assert [] + rest == rest;
      }
    }
  }

  /** The elements whose key ties with k: the comparator returns 0 for them. */
  function TiedWith<T>(k: SortKey, key: T -> SortKey): T -> bool
  {
    (x: T) => !Less(key(x), k) && !Less(k, key(x))
  }

  /** Insert moves x only past elements it precedes, and none of those ties
      with x, so the elements of one tie class keep their order. */
  lemma {:induction false} InsertTied<T>(t: seq<T>, x: T, key: T -> SortKey, k: SortKey)
    ensures Filter(Insert(t, x, key), TiedWith(k, key)) ==
      Filter(t, TiedWith(k, key)) + Filter([x], TiedWith(k, key))
    decreases |t|
  {
    var p := TiedWith(k, key);
    if t == [] {
    } else {
      var n := |t| - 1;
      assert t == t[..n] + [t[n]];
      if Less(key(x), key(t[n])) {
        InsertTied(t[..n], x, key, k);
        FilterAppend(Insert(t[..n], x, key), [t[n]], p);
        FilterAppend(t[..n], [t[n]], p);
        if p(x) && p(t[n]) {
          NotLessTransitive(key(t[n]), k, key(x));
          assert false;
        }
      } else {
        FilterAppend(t, [x], p);
      }
    }
  }

  /** The sort is stable: the elements the comparator ties with any key k
      come out in their input order. */
  lemma {:induction false} SortByKeyStable<T>(s: seq<T>, key: T -> SortKey, k: SortKey)
    ensures Filter(SortByKey(s, key), TiedWith(k, key)) == Filter(s, TiedWith(k, key))
    decreases |s|
  {
    if s != [] {
      var n := |s| - 1;
      SortByKeyStable(s[..n], key, k);
      InsertTied(SortByKey(s[..n], key), s[n], key, k);
      assert s == s[..n] + [s[n]];
      FilterAppend(s[..n], [s[n]], TiedWith(k, key));
    }
  }

  /** Insert places x just before the first element it precedes. */
  lemma {:induction false} InsertAt<T>(t: seq<T>, x: T, key: T -> SortKey, j: nat)
    requires j <= |t|
    requires j == 0 || !Less(key(x), key(t[j - 1]))
    requires forall k :: j <= k < |t| ==> Less(key(x), key(t[k]))
    ensures Insert(t, x, key) == t[..j] + [x] + t[j..]
    decreases |t|
  {
    if t == [] {
    } else if j == |t| {
      assert t[..j] == t && t[j..] == [];
    } else {
      var n := |t| - 1;
      InsertAt(t[..n], x, key, j);
      assert t[..n][..j] == t[..j];
      assert t[..n][j..] + [t[n]] == t[j..];
    }
  }

  // ------------------------------------------------------------- the method

  /** One pass of the insertion sort: shift the elements of a[..i] that
      a[i] precedes one place right and drop a[i] into the gap. */
  method InsertNext<T>(a: array<T>, i: int, key: T -> SortKey)
    requires 0 <= i < a.Length
    modifies a
    ensures a[..i + 1] == Insert(old(a[..i]), old(a[i]), key)
    ensures a[i + 1..] == old(a[i + 1..])
  {
    var x := a[i];
    ghost var t := a[..i];
    var j := i;
    while j > 0 && Less(key(x), key(a[j - 1]))
      invariant 0 <= j <= i
      invariant forall k :: 0 <= k < j ==> a[k] == t[k]
      invariant forall k :: j < k <= i ==> a[k] == t[k - 1]
      invariant forall k :: i < k < a.Length ==> a[k] == old(a[k])
      invariant forall k :: j <= k < i ==> Less(key(x), key(t[k]))
    {
      a[j] := a[j - 1];
      j := j - 1;
    }
    a[j] := x;
    InsertAt(t, x, key, j);
    var r := t[..j] + [x] + t[j..];
    SpliceIndex(t, x, j);
    assert forall k :: 0 <= k <= i ==> a[k] == r[k];
    assert a[..i + 1] == r;
  }

  /** Where each element of `t[..j] + [x] + t[j..]` comes from. */
  lemma SpliceIndex<T>(t: seq<T>, x: T, j: nat)
    requires j <= |t|
    ensures var r := t[..j] + [x] + t[j..];
      && |r| == |t| + 1
      && (forall k :: 0 <= k < j ==> r[k] == t[k])
      && r[j] == x
      && (forall k :: j < k < |r| ==> r[k] == t[k - 1])
  {
  }

  /** The in-place sort of the copy: insertion sort by shifting, which is the
      stable sort SortByKey. */
  method SortInPlace<T>(a: array<T>, key: T -> SortKey)
    modifies a
    ensures a[..] == SortByKey(old(a[..]), key)
  {
    ghost var s := a[..];
    var i := 0;
    while i < a.Length
      invariant 0 <= i <= a.Length
      invariant a[..i] == SortByKey(s[..i], key)
      invariant a[i..] == s[i..]
    {
      assert a[i] == s[i];
      InsertNext(a, i, key);
      assert s[..i + 1][..i] == s[..i];
      i := i + 1;
    }
    assert s[..a.Length] == s;
    assert a[..a.Length] == a[..];
  }

  /** `[...xs].sort(cmp)`: copy into a fresh array and sort that. */
  method SortedCopy<T>(xs: seq<T>, key: T -> SortKey) returns (r: seq<T>)
    ensures r == SortByKey(xs, key)
  {
    var a := new T[|xs|](i requires 0 <= i < |xs| => xs[i]);
    assert a[..] == xs;
    SortInPlace(a, key);
    r := a[..];
  }

  // -------------------------------------------------------------- an example

  function NameKey(name: string): SortKey { FolderSortKey(Some(name)) }

  lemma NameKeySummary()
    ensures NameKey("Summary") == SortKey(0, -1, "summary")
  {
    LowerAt("Summary", 0);
    assert "Summary"[1..] == "ummary";
    LowerIdentity("ummary");
    assert Lower("Summary") == [LowerChar('S')] + Lower("ummary");
  }

  lemma NameKeyMisc()
    ensures NameKey("misc") == SortKey(2, -1, "misc")
  {
    LowerIdentity("misc");
    assert !IsDigit("misc"[0]);
  }

  /** A four-digit name keys on its value. */
  lemma NameKeyYear(name: string)
    requires IsFourDigits(name)
    ensures NameKey(name) == SortKey(1, DecimalValue(name), name)
  {
    LowerIdentity(name);
    assert name != "summary" by {
      assert |"summary"| == 7;
    }
  }

  lemma DecimalYears()
    ensures DecimalValue("2021") == 2021 && DecimalValue("2023") == 2023
  {
    assert "2021"[..3] == "202" && "2023"[..3] == "202" && "202"[..2] == "20" && "20"[..1] == "2";
    assert DecimalValue("2") == 2 && DecimalValue("20") == 20 && DecimalValue("202") == 202;
  }

  lemma NameKeys()
    ensures NameKey("Summary") == SortKey(0, -1, "summary")
    ensures NameKey("misc") == SortKey(2, -1, "misc")
    ensures NameKey("2021") == SortKey(1, 2021, "2021")
    ensures NameKey("2023") == SortKey(1, 2023, "2023")
  {
    NameKeySummary();
    NameKeyMisc();
    assert IsFourDigits("2021") && IsFourDigits("2023");
    NameKeyYear("2021");
    NameKeyYear("2023");
    DecimalYears();
  }

  /** Sorting one more element inserts it into the sorted rest. */
  lemma SortByKeySnoc<T>(s: seq<T>, x: T, key: T -> SortKey)
    ensures SortByKey(s + [x], key) == Insert(SortByKey(s, key), x, key)
  {
    assert (s + [x])[..|s|] == s;
  }

  /** Four elements whose keys order them b, d, a, c sort to that order. */
  lemma SortFour<T>(a: T, b: T, c: T, d: T, key: T -> SortKey)
    requires Less(key(b), key(a)) && !Less(key(c), key(a))
    requires Less(key(d), key(c)) && Less(key(d), key(a)) && !Less(key(d), key(b))
    ensures SortByKey([a, b, c, d], key) == [b, d, a, c]
  {
    SortByKeySnoc([], a, key);
    assert [] + [a] == [a];
    SortByKeySnoc([a], b, key);
    assert [a] + [b] == [a, b];
    InsertAt([a], b, key, 0);
    assert [a][..0] + [b] + [a][0..] == [b, a];
    SortByKeySnoc([a, b], c, key);
    assert [a, b] + [c] == [a, b, c];
    InsertAt([b, a], c, key, 2);
    assert [b, a][..2] + [c] + [b, a][2..] == [b, a, c];
    SortByKeySnoc([a, b, c], d, key);
    assert [a, b, c] + [d] == [a, b, c, d];
    InsertAt([b, a, c], d, key, 1);
    assert [b, a, c][..1] + [d] + [b, a, c][1..] == [b, d, a, c];
  }

  /** `["2021", "Summary", "misc", "2023"]` sorts to
      `["Summary", "2023", "2021", "misc"]`. */
  lemma SortExample()
    ensures SortByKey(["2021", "Summary", "misc", "2023"], NameKey) == ["Summary", "2023", "2021", "misc"]
  {
    NameKeys();
    SortFour("2021", "Summary", "misc", "2023", NameKey);
  }
}
