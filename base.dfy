/** Value helpers shared by every widget: optional JSON fields, the
    JavaScript coercions `x || ""` and `Array.isArray(x) ? x : []`, and the
    array/string primitives the source chains together (`includes`, `join`,
    `split`, `filter`, `map`). */
module Base {

  /** A JSON field that may be absent (undefined or null). */
  datatype Option<T> = None | Some(value: T)

  /** `String(x || "")` for an optional string: absent and empty both read as "". */
  function OrEmpty(s: Option<string>): string
  {
    if s.Some? then s.value else ""
  }

  /** JavaScript truthiness of an optional string. */
  predicate Truthy(s: Option<string>)
  {
    s.Some? && s.value != ""
  }

  /** `s || fallback` for an optional string. */
  function OrElse(s: Option<string>, fallback: string): string
  {
    if Truthy(s) then s.value else fallback
  }

  /** `Array.isArray(xs) ? xs : []`: a missing array behaves as empty. */
  function ListOrEmpty<T>(xs: Option<seq<T>>): seq<T>
  {
    if xs.Some? then xs.value else []
  }

  /** `values.filter(Boolean)`: the truthy strings, in order. */
  function TruthyValues(fields: seq<Option<string>>): seq<string>
  {
    if fields == [] then []
    else (if Truthy(fields[0]) then [fields[0].value] else []) + TruthyValues(fields[1..])
  }

  // ---------------------------------------------------------------- includes

  /** `hay.includes(needle)`: needle occurs as a contiguous block of hay. */
  predicate Contains<T(==)>(hay: seq<T>, needle: seq<T>)
    decreases |hay|
  {
    needle <= hay || (|hay| > 0 && Contains(hay[1..], needle))
  }

  /** needle occurs in hay starting at index i. */
  predicate OccursAt<T(==)>(hay: seq<T>, needle: seq<T>, i: int)
  {
    0 <= i && i + |needle| <= |hay| && hay[i..i + |needle|] == needle
  }

  /** The recursive `Contains` is the usual "occurs at some index". */
  lemma {:induction false} ContainsIffOccurs<T>(hay: seq<T>, needle: seq<T>)
    ensures Contains(hay, needle) <==> exists i :: OccursAt(hay, needle, i)
    decreases |hay|
  {
    if needle <= hay {
      assert OccursAt(hay, needle, 0);
    } else if |hay| > 0 {
      ContainsIffOccurs(hay[1..], needle);
      if Contains(hay[1..], needle) {
        var i :| OccursAt(hay[1..], needle, i);
        assert forall k :: i <= k < i + |needle| ==> hay[1..][k] == hay[k + 1];
        assert hay[1..][i..i + |needle|] == hay[i + 1..i + 1 + |needle|];
        assert OccursAt(hay, needle, i + 1);
      }
      if exists i :: OccursAt(hay, needle, i) {
        var i :| OccursAt(hay, needle, i);
        assert i != 0;
        assert forall k :: i - 1 <= k < i - 1 + |needle| ==> hay[1..][k] == hay[k + 1];
        assert hay[1..][i - 1..i - 1 + |needle|] == hay[i..i + |needle|];
        assert OccursAt(hay[1..], needle, i - 1);
      }
    }
  }

  /** An occurrence at a known index is an occurrence. */
  lemma OccursAtContains<T>(hay: seq<T>, needle: seq<T>, i: int)
    requires OccursAt(hay, needle, i)
    ensures Contains(hay, needle)
  {
    ContainsIffOccurs(hay, needle);
  }

  /** An occurrence of a non-empty needle puts its first element in hay. */
  lemma ContainsHead<T>(hay: seq<T>, needle: seq<T>)
    requires Contains(hay, needle) && needle != []
    ensures needle[0] in hay
  {
    ContainsIffOccurs(hay, needle);
    var i :| OccursAt(hay, needle, i);
    assert hay[i] == hay[i..i + |needle|][0];
  }

  /** Every sequence contains the empty sequence: `s.includes("")` is true. */
  lemma ContainsEmpty<T>(hay: seq<T>)
    ensures Contains(hay, [])
  {
  }

  // -------------------------------------------------------------- join/split

  /** `parts.join(sep)`. */
  function Join(sep: string, parts: seq<string>): string
    decreases |parts|
  {
    if |parts| == 0 then ""
    else if |parts| == 1 then parts[0]
    else parts[0] + sep + Join(sep, parts[1..])
  }

  /** `s.split(sep)` where the separator is a single character chosen by
      isSep: the fields between separator characters, empty ones included. */
  function Split(s: string, isSep: char -> bool): (parts: seq<string>)
    ensures |parts| >= 1
    decreases |s|
  {
    if s == [] then [""]
    else
      var rest := Split(s[1..], isSep);
      if isSep(s[0]) then [""] + rest
      else [[s[0]] + rest[0]] + rest[1..]
  }

  /** No field produced by Split holds a separator character. */
  lemma {:induction false} SplitFieldsHaveNoSeparator(s: string, isSep: char -> bool)
    ensures forall k, j :: 0 <= k < |Split(s, isSep)| && 0 <= j < |Split(s, isSep)[k]| ==> !isSep(Split(s, isSep)[k][j])
    decreases |s|
  {
    if s != [] {
      SplitFieldsHaveNoSeparator(s[1..], isSep);
    }
  }

  /** There is one field exactly when there is no separator. */
  lemma {:induction false} SplitSingle(s: string, isSep: char -> bool)
    ensures |Split(s, isSep)| == 1 <==> forall j :: 0 <= j < |s| ==> !isSep(s[j])
    decreases |s|
  {
    if s != [] {
      SplitSingle(s[1..], isSep);
      if forall j :: 0 <= j < |s[1..]| ==> !isSep(s[1..][j]) {
        assert forall j :: 1 <= j < |s| ==> s[j] == s[1..][j - 1];
      } else {
        var j :| 0 <= j < |s[1..]| && isSep(s[1..][j]);
        assert s[j + 1] == s[1..][j];
      }
    }
  }

  /** The first field is the text before the first separator, or all of s. */
  lemma {:induction false} SplitHead(s: string, isSep: char -> bool)
    ensures Split(s, isSep)[0] <= s
    ensures forall j :: 0 <= j < |Split(s, isSep)[0]| ==> !isSep(s[j])
    ensures |Split(s, isSep)[0]| < |s| ==> isSep(s[|Split(s, isSep)[0]|])
    decreases |s|
  {
    if s != [] {
      SplitHead(s[1..], isSep);
      var rest := Split(s[1..], isSep);
      if !isSep(s[0]) {
        assert Split(s, isSep)[0] == [s[0]] + rest[0];
        assert s == [s[0]] + s[1..];
        forall j | 0 <= j < |Split(s, isSep)[0]| ensures !isSep(s[j]) {
          if j > 0 {
            assert s[j] == s[1..][j - 1];
          }
        }
      }
    }
  }

  /** A field in front of at least one more is followed by the separator. */
  lemma JoinCons(sep: string, x: string, rest: seq<string>)
    requires |rest| >= 1
    ensures Join(sep, [x] + rest) == x + sep + Join(sep, rest)
  {
    assert ([x] + rest)[1..] == rest;
  }

  /** Growing the first field at its front grows the join the same way. */
  lemma JoinHeadGrow(sep: string, a: string, rest: seq<string>)
    requires |rest| >= 1
    ensures Join(sep, [a + rest[0]] + rest[1..]) == a + Join(sep, rest)
  {
    var parts := [a + rest[0]] + rest[1..];
    if |rest| > 1 {
      assert parts[1..] == rest[1..];
      assert Join(sep, parts) == (a + rest[0]) + sep + Join(sep, rest[1..]);
      assert Join(sep, rest) == rest[0] + sep + Join(sep, rest[1..]);
    }
  }

  /** Joining the fields back with the separator gives the original string. */
  lemma {:induction false} JoinSplit(s: string, c: char, isSep: char -> bool)
    requires forall x :: isSep(x) <==> x == c
    ensures Join([c], Split(s, isSep)) == s
    decreases |s|
  {
    if s != [] {
      JoinSplit(s[1..], c, isSep);
      var rest := Split(s[1..], isSep);
      assert s == [s[0]] + s[1..];
      if isSep(s[0]) {
        JoinCons([c], "", rest);
      } else {
        JoinHeadGrow([c], [s[0]], rest);
      }
    }
  }

  /** Splitting a join of separator-free fields gives the fields back. */
  lemma {:induction false} SplitJoin(parts: seq<string>, c: char, isSep: char -> bool)
    requires forall x :: isSep(x) <==> x == c
    requires |parts| >= 1
    requires forall k :: 0 <= k < |parts| ==> c !in parts[k]
    ensures Split(Join([c], parts), isSep) == parts
    decreases |parts|
  {
    assert forall j :: 0 <= j < |parts[0]| ==> !isSep(parts[0][j]);
    if |parts| == 1 {
      assert Join([c], parts) == parts[0];
      SplitSeparatorFree(parts[0], isSep);
    } else {
      SplitJoin(parts[1..], c, isSep);
      var tail := Join([c], parts[1..]);
      assert Join([c], parts) == parts[0] + ([c] + tail);
      SplitPrefix(parts[0], [c] + tail, isSep);
      assert ([c] + tail)[1..] == tail;
      assert Split([c] + tail, isSep) == [""] + Split(tail, isSep);
      assert parts[0] + "" == parts[0];
      assert [parts[0]] + parts[1..] == parts;
    }
  }

  /** A separator-free string splits into itself. */
  lemma {:induction false} SplitSeparatorFree(w: string, isSep: char -> bool)
    requires forall j :: 0 <= j < |w| ==> !isSep(w[j])
    ensures Split(w, isSep) == [w]
    decreases |w|
  {
    if w != [] {
      SplitSeparatorFree(w[1..], isSep);
      assert [w[0]] + w[1..] == w;
    }
  }

  lemma AppendAssoc<T>(a: seq<T>, b: seq<T>, c: seq<T>)
    ensures a + (b + c) == a + b + c
  {
  }

  /** A separator-free prefix w glues onto the first field of what follows it. */
  lemma {:induction false} SplitPrefix(w: string, rest: string, isSep: char -> bool)
    requires forall j :: 0 <= j < |w| ==> !isSep(w[j])
    ensures Split(w + rest, isSep) == [w + Split(rest, isSep)[0]] + Split(rest, isSep)[1..]
    decreases |w|
  {
    if w == [] {
      assert w + rest == rest;
      assert w + Split(rest, isSep)[0] == Split(rest, isSep)[0];
      assert [Split(rest, isSep)[0]] + Split(rest, isSep)[1..] == Split(rest, isSep);
    } else {
      var S := Split(rest, isSep);
      assert (w + rest)[1..] == w[1..] + rest;
      assert (w + rest)[0] == w[0];
      SplitPrefix(w[1..], rest, isSep);
      var R := Split(w[1..] + rest, isSep);
      assert R[0] == w[1..] + S[0];
      assert R[1..] == S[1..];
      assert Split(w + rest, isSep) == [[w[0]] + R[0]] + R[1..];
      assert [w[0]] + (w[1..] + S[0]) == w + S[0];
    }
  }

  /** Every field of a split occurs in the string, the first one at the start. */
  lemma {:induction false} SplitPartsContained(s: string, isSep: char -> bool)
    ensures Split(s, isSep)[0] <= s
    ensures forall k :: 0 <= k < |Split(s, isSep)| ==> Contains(s, Split(s, isSep)[k])
    decreases |s|
  {
    if s != [] {
      SplitPartsContained(s[1..], isSep);
      var rest := Split(s[1..], isSep);
      assert [s[0]] + s[1..] == s;
      forall k | 1 <= k < |rest| ensures Contains(s, rest[k]) {
        assert Contains(s[1..], rest[k]);
      }
      if !isSep(s[0]) {
        assert [s[0]] + rest[0] <= s;
      }
    }
  }

  /** Appending w to the last field of R, seen through one more field in
      front. */
  lemma ConsLastAppend(x: string, R: seq<string>, w: string)
    requires |R| >= 1
    ensures var P := [x] + R;
      P[..|P| - 1] + [P[|P| - 1] + w] == [x] + (R[..|R| - 1] + [R[|R| - 1] + w])
  {
    var P := [x] + R;
    assert P[..|P| - 1] == [x] + R[..|R| - 1];
  }

  /** Appending w to the last field of R, seen through a character glued to
      R's first field. */
  lemma HeadLastAppend(c: char, R: seq<string>, w: string)
    requires |R| >= 1
    ensures var P := [[c] + R[0]] + R[1..];
      var Rw := R[..|R| - 1] + [R[|R| - 1] + w];
      [[c] + Rw[0]] + Rw[1..] == P[..|P| - 1] + [P[|P| - 1] + w]
  {
    var n := |R|;
    var P := [[c] + R[0]] + R[1..];
    var Rw := R[..n - 1] + [R[n - 1] + w];
    if n == 1 {
      assert Rw == [R[0] + w];
      assert [c] + (R[0] + w) == ([c] + R[0]) + w;
    } else {
      assert Rw[0] == R[0];
      assert Rw[1..] == R[1..n - 1] + [R[n - 1] + w];
      assert P[..n - 1] == [[c] + R[0]] + R[1..n - 1];
    }
  }

  /** Appending separator-free text w to s extends the last field only. */
  lemma {:induction false} SplitAppendFree(s: string, w: string, isSep: char -> bool)
    requires forall j :: 0 <= j < |w| ==> !isSep(w[j])
    ensures var P := Split(s, isSep);
      Split(s + w, isSep) == P[..|P| - 1] + [P[|P| - 1] + w]
    decreases |s|
  {
    if s == [] {
      assert s + w == w;
      SplitSeparatorFree(w, isSep);
    } else {
      assert (s + w)[1..] == s[1..] + w;
      assert (s + w)[0] == s[0];
      SplitAppendFree(s[1..], w, isSep);
      var R := Split(s[1..], isSep);
      if isSep(s[0]) {
        ConsLastAppend("", R, w);
      } else {
        HeadLastAppend(s[0], R, w);
      }
    }
  }

  // ------------------------------------------------------------- filter/map

  /** `xs.filter(p)`. */
  function Filter<T>(xs: seq<T>, p: T -> bool): seq<T>
  {
    if xs == [] then []
    else (if p(xs[0]) then [xs[0]] else []) + Filter(xs[1..], p)
  }

  /** A total of weights `w` over xs, as a `+=` loop or `reduce` computes it. */
  function SumOf<T>(xs: seq<T>, w: T -> nat): nat
  {
    if xs == [] then 0 else w(xs[0]) + SumOf(xs[1..], w)
  }

  lemma {:induction false} SumOfAppend<T>(a: seq<T>, b: seq<T>, w: T -> nat)
    ensures SumOf(a + b, w) == SumOf(a, w) + SumOf(b, w)
  {
    if a == [] {
      assert a + b == b;
    } else {
      assert (a + b)[1..] == a[1..] + b;
      SumOfAppend(a[1..], b, w);
    }
  }

  /** `xs.map(f)`. */
  function Map<T, U>(xs: seq<T>, f: T -> U): (r: seq<U>)
    ensures |r| == |xs|
  {
    if xs == [] then [] else [f(xs[0])] + Map(xs[1..], f)
  }

  lemma {:induction false} MapAt<T, U>(xs: seq<T>, f: T -> U, k: int)
    requires 0 <= k < |xs|
    ensures Map(xs, f)[k] == f(xs[k])
  {
    if k > 0 {
      MapAt(xs[1..], f, k - 1);
    }
  }

  lemma {:induction false} MapAppend<T, U>(a: seq<T>, b: seq<T>, f: T -> U)
    ensures Map(a + b, f) == Map(a, f) + Map(b, f)
  {
    if a != [] {
      assert (a + b)[1..] == a[1..] + b;
      MapAppend(a[1..], b, f);
    } else {
      assert a + b == b;
    }
  }

  lemma {:induction false} FilterAppend<T>(a: seq<T>, b: seq<T>, p: T -> bool)
    ensures Filter(a + b, p) == Filter(a, p) + Filter(b, p)
  {
    if a != [] {
      assert (a + b)[1..] == a[1..] + b;
      FilterAppend(a[1..], b, p);
    } else {
      assert a + b == b;
    }
  }

  /** Filtering then mapping one more element appends its image exactly when
      it passes: the step of a loop that pushes `f(x)` for each kept `x`. */
  lemma FilterMapSnoc<T, U>(xs: seq<T>, x: T, p: T -> bool, f: T -> U)
    ensures Map(Filter(xs + [x], p), f) == Map(Filter(xs, p), f) + (if p(x) then [f(x)] else [])
  {
    FilterAppend(xs, [x], p);
    assert [x][1..] == [];
    var tail := if p(x) then [x] else [];
    assert Filter([x], p) == tail;
    MapAppend(Filter(xs, p), tail, f);
    if p(x) {
      assert [x][1..] == [];
      assert Map(tail, f) == [f(x)];
    }
  }

  /** FilterMapSnoc for the prefixes of one sequence. */
  lemma FilterMapPrefix<T, U>(xs: seq<T>, j: int, p: T -> bool, f: T -> U)
    requires 0 <= j < |xs|
    ensures Map(Filter(xs[..j + 1], p), f) == Map(Filter(xs[..j], p), f) + (if p(xs[j]) then [f(xs[j])] else [])
  {
    assert xs[..j + 1] == xs[..j] + [xs[j]];
    FilterMapSnoc(xs[..j], xs[j], p, f);
  }

  /** What a filter keeps is exactly the elements that pass the predicate. */
  lemma {:induction false} FilterMembers<T>(xs: seq<T>, p: T -> bool)
    ensures forall x :: x in Filter(xs, p) <==> x in xs && p(x)
    ensures |Filter(xs, p)| <= |xs|
  {
    if xs != [] {
      FilterMembers(xs[1..], p);
      assert xs == [xs[0]] + xs[1..];
    }
  }

  /** Every element a filter keeps sits at some index of the input. */
  lemma {:induction false} FilterIndices<T>(xs: seq<T>, p: T -> bool)
    ensures forall j :: 0 <= j < |Filter(xs, p)| ==> exists m :: 0 <= m < |xs| && xs[m] == Filter(xs, p)[j]
  {
    if xs == [] {
      assert |Filter(xs, p)| == 0;
    } else {
      FilterIndices(xs[1..], p);
      var rest := Filter(xs[1..], p);
      forall j | 0 <= j < |Filter(xs, p)| ensures exists m :: 0 <= m < |xs| && xs[m] == Filter(xs, p)[j] {
        if p(xs[0]) {
          assert Filter(xs, p) == [xs[0]] + rest;
          if j == 0 {
            assert xs[0] == Filter(xs, p)[0];
          } else {
            var m :| 0 <= m < |xs[1..]| && xs[1..][m] == rest[j - 1];
            assert xs[m + 1] == Filter(xs, p)[j];
          }
        } else {
          assert Filter(xs, p) == rest;
          var m :| 0 <= m < |xs[1..]| && xs[1..][m] == rest[j];
          assert xs[m + 1] == Filter(xs, p)[j];
        }
      }
    }
  }

  /** A filter that keeps everything is the identity. */
  lemma {:induction false} FilterAll<T>(xs: seq<T>, p: T -> bool)
    requires forall x :: x in xs ==> p(x)
    ensures Filter(xs, p) == xs
  {
    if xs != [] {
      FilterAll(xs[1..], p);
      assert xs == [xs[0]] + xs[1..];
    }
  }

  /** A filter that keeps nothing yields the empty list. */
  lemma {:induction false} FilterNone<T>(xs: seq<T>, p: T -> bool)
    requires forall x :: x in xs ==> !p(x)
    ensures Filter(xs, p) == []
  {
    if xs != [] {
      FilterNone(xs[1..], p);
    }
  }

  /** a can be obtained from b by deleting elements (order is kept). */
  predicate IsSubsequence<T(==)>(a: seq<T>, b: seq<T>)
    decreases |b|
  {
    if a == [] then true
    else if b == [] then false
    else if a[0] == b[0] then IsSubsequence(a[1..], b[1..])
    else IsSubsequence(a, b[1..])
  }

  lemma {:induction false} SubsequenceOfTail<T>(a: seq<T>, b: seq<T>)
    requires |b| > 0 && IsSubsequence(a, b[1..])
    ensures IsSubsequence(a, b)
    decreases |a| + |b|
  {
    if a != [] && a[0] == b[0] {
      SubsequenceDropHead(a, b[1..]);
    }
  }

  lemma {:induction false} SubsequenceDropHead<T>(a: seq<T>, b: seq<T>)
    requires |a| > 0 && IsSubsequence(a, b)
    ensures IsSubsequence(a[1..], b)
    decreases |a| + |b|
  {
    if a[0] == b[0] {
      if a[1..] != [] {
        SubsequenceOfTail(a[1..], b);
      }
    } else {
      SubsequenceDropHead(a, b[1..]);
      if a[1..] != [] {
        SubsequenceOfTail(a[1..], b);
      }
    }
  }

  /** A filter keeps the relative order of what it keeps. */
  lemma {:induction false} FilterIsSubsequence<T>(xs: seq<T>, p: T -> bool)
    ensures IsSubsequence(Filter(xs, p), xs)
  {
    if xs != [] {
      FilterIsSubsequence(xs[1..], p);
      if !p(xs[0]) {
        assert Filter(xs, p) == Filter(xs[1..], p);
        SubsequenceOfTail(Filter(xs, p), xs);
      } else {
        assert Filter(xs, p) == [xs[0]] + Filter(xs[1..], p);
      }
    }
  }

  /** Filtering both sides keeps an occurrence: if needle occurs in hay, the
      kept characters of needle occur in the kept characters of hay. */
  lemma {:induction false} FilterKeepsContains<T>(hay: seq<T>, needle: seq<T>, p: T -> bool)
    requires Contains(hay, needle)
    ensures Contains(Filter(hay, p), Filter(needle, p))
    decreases |hay|
  {
    if needle <= hay {
      assert hay == needle + hay[|needle|..];
      FilterAppend(needle, hay[|needle|..], p);
      assert Filter(needle, p) <= Filter(hay, p);
    } else {
      FilterKeepsContains(hay[1..], needle, p);
      var tail := Filter(hay[1..], p);
      if p(hay[0]) {
        assert Filter(hay, p) == [hay[0]] + tail;
        assert Filter(hay, p)[1..] == tail;
      } else {
        assert Filter(hay, p) == tail;
      }
    }
  }

  /** A filter keeps every kept element with its multiplicity. */
  lemma {:induction false} FilterCounts<T>(xs: seq<T>, p: T -> bool)
    ensures forall x :: p(x) ==> multiset(Filter(xs, p))[x] == multiset(xs)[x]
    ensures forall x :: !p(x) ==> multiset(Filter(xs, p))[x] == 0
  {
    if xs != [] {
      FilterCounts(xs[1..], p);
      assert xs == [xs[0]] + xs[1..];
    }
  }

  // ------------------------------------------------------------ more on map

  /** Every element's image is in the map, and everything in the map is an image. */
  lemma {:induction false} MapMembers<T, U>(xs: seq<T>, f: T -> U)
    ensures forall k :: 0 <= k < |xs| ==> f(xs[k]) in Map(xs, f)
    ensures forall y :: y in Map(xs, f) ==> exists k :: 0 <= k < |xs| && f(xs[k]) == y
  {
    forall k | 0 <= k < |xs| ensures f(xs[k]) in Map(xs, f) {
      MapAt(xs, f, k);
    }
    forall y | y in Map(xs, f) ensures exists k :: 0 <= k < |xs| && f(xs[k]) == y {
      var k :| 0 <= k < |Map(xs, f)| && Map(xs, f)[k] == y;
      MapAt(xs, f, k);
    }
  }

  /** Two callbacks that agree on every element give the same map. */
  lemma {:induction false} MapCongruent<T, U>(xs: seq<T>, f: T -> U, g: T -> U)
    requires forall k :: 0 <= k < |xs| ==> f(xs[k]) == g(xs[k])
    ensures Map(xs, f) == Map(xs, g)
  {
    if xs != [] {
      forall k | 0 <= k < |xs[1..]| ensures f(xs[1..][k]) == g(xs[1..][k]) {
        assert xs[1..][k] == xs[k + 1];
      }
      MapCongruent(xs[1..], f, g);
    }
  }

  /** Filtering the images is mapping what passes the pulled-back test. */
  lemma {:induction false} FilterMapCommute<T, U>(xs: seq<T>, f: T -> U, p: T -> bool, q: U -> bool)
    requires forall x :: p(x) == q(f(x))
    ensures Filter(Map(xs, f), q) == Map(Filter(xs, p), f)
  {
    if xs != [] {
      FilterMapCommute(xs[1..], f, p, q);
      var rest := Filter(xs[1..], p);
      assert Map(xs, f)[1..] == Map(xs[1..], f);
      if p(xs[0]) {
        assert Filter(xs, p) == [xs[0]] + rest;
        assert ([xs[0]] + rest)[1..] == rest;
      } else {
        assert Filter(xs, p) == rest;
      }
    }
  }

  /** A total of images is a total over the originals. */
  /** One more element adds its weight to the total. */
  lemma SumOfSnoc<T>(xs: seq<T>, x: T, w: T -> nat)
    ensures SumOf(xs + [x], w) == SumOf(xs, w) + w(x)
  {
    SumOfAppend(xs, [x], w);
    assert [x][1..] == [];
  }

  lemma {:induction false} SumOfMap<T, U>(xs: seq<T>, f: T -> U, w: U -> nat, v: T -> nat)
    requires forall x :: w(f(x)) == v(x)
    ensures SumOf(Map(xs, f), w) == SumOf(xs, v)
  {
    if xs != [] {
      SumOfMap(xs[1..], f, w, v);
      assert Map(xs, f)[1..] == Map(xs[1..], f);
    }
  }

  /** Raising one weight by one, on a list without repeats, raises the total
      by one when that element is listed and leaves it unchanged otherwise. */
  lemma {:induction false} SumOfBump<T>(xs: seq<T>, w: T -> nat, w': T -> nat, x: T)
    requires forall y :: y in xs ==> w'(y) == w(y) + (if y == x then 1 else 0)
    requires forall i, j :: 0 <= i < j < |xs| ==> xs[i] != xs[j]
    ensures SumOf(xs, w') == SumOf(xs, w) + (if x in xs then 1 else 0)
  {
    if xs != [] {
      if xs[0] == x {
        forall k | 0 <= k < |xs[1..]| ensures xs[1..][k] != x {
          assert xs[1..][k] == xs[k + 1];
        }
      }
      SumOfBump(xs[1..], w, w', x);
    }
  }

  // --------------------------------------------------------- nested pushes

  /** `for (const x of xs) for (const y of f(x)) out.push(y)`: the images of
      xs concatenated in order, built from the back as such a loop builds it. */
  function FlatMap<T, U>(xs: seq<T>, f: T -> seq<U>): seq<U>
    decreases |xs|
  {
    if xs == [] then [] else FlatMap(xs[..|xs| - 1], f) + f(xs[|xs| - 1])
  }

  lemma FlatMapSnoc<T, U>(xs: seq<T>, x: T, f: T -> seq<U>)
    ensures FlatMap(xs + [x], f) == FlatMap(xs, f) + f(x)
  {
    assert (xs + [x])[..|xs|] == xs;
  }

  /** The FlatMap of a prefix grows by one element's image. */
  lemma FlatMapPrefix<T, U>(xs: seq<T>, j: int, f: T -> seq<U>)
    requires 0 <= j < |xs|
    ensures FlatMap(xs[..j + 1], f) == FlatMap(xs[..j], f) + f(xs[j])
  {
    assert xs[..j + 1][..j] == xs[..j];
  }

  /** The FlatMap of a whole sequence, cut at j. */
  lemma FlatMapSplitAt<T, U>(xs: seq<T>, j: int, f: T -> seq<U>)
    requires 0 <= j <= |xs|
    ensures FlatMap(xs, f) == FlatMap(xs[..j], f) + FlatMap(xs[j..], f)
  {
    assert xs == xs[..j] + xs[j..];
    FlatMapAppend(xs[..j], xs[j..], f);
  }

  lemma {:induction false} FlatMapAppend<T, U>(a: seq<T>, b: seq<T>, f: T -> seq<U>)
    ensures FlatMap(a + b, f) == FlatMap(a, f) + FlatMap(b, f)
    decreases |b|
  {
    if b == [] {
      assert a + b == a;
    } else {
      var n := |b| - 1;
      assert a + b == (a + b[..n]) + [b[n]];
      FlatMapSnoc(a + b[..n], b[n], f);
      FlatMapAppend(a, b[..n], f);
      assert b[..n] + [b[n]] == b;
      FlatMapSnoc(b[..n], b[n], f);
      AppendAssoc(FlatMap(a, f), FlatMap(b[..n], f), f(b[n]));
    }
  }

  /** y comes out of the nested loop exactly when some element's image holds it. */
  lemma {:induction false} FlatMapMembers<T, U>(xs: seq<T>, f: T -> seq<U>, y: U)
    ensures y in FlatMap(xs, f) <==> exists k :: 0 <= k < |xs| && y in f(xs[k])
    decreases |xs|
  {
    if xs != [] {
      var n := |xs| - 1;
      FlatMapMembers(xs[..n], f, y);
      if y in FlatMap(xs[..n], f) {
        var k :| 0 <= k < n && y in f(xs[..n][k]);
        assert xs[..n][k] == xs[k];
      }
      if exists k :: 0 <= k < |xs| && y in f(xs[k]) {
        var k :| 0 <= k < |xs| && y in f(xs[k]);
        if k < n {
          assert xs[..n][k] == xs[k];
        }
      }
    }
  }

  /** Two images that agree on every element give the same concatenation. */
  lemma {:induction false} FlatMapCongruent<T, U>(xs: seq<T>, f: T -> seq<U>, g: T -> seq<U>)
    requires forall k :: 0 <= k < |xs| ==> f(xs[k]) == g(xs[k])
    ensures FlatMap(xs, f) == FlatMap(xs, g)
    decreases |xs|
  {
    if xs != [] {
      var n := |xs| - 1;
      forall k | 0 <= k < n ensures f(xs[..n][k]) == g(xs[..n][k]) {
        assert xs[..n][k] == xs[k];
      }
      FlatMapCongruent(xs[..n], f, g);
    }
  }

  /** Concatenating the images of mapped elements is concatenating the
      images under the composition. */
  lemma {:induction false} FlatMapOfMap<T, U, V>(xs: seq<T>, h: T -> U, f: U -> seq<V>, g: T -> seq<V>)
    requires forall x :: g(x) == f(h(x))
    ensures FlatMap(Map(xs, h), f) == FlatMap(xs, g)
    decreases |xs|
  {
    if xs != [] {
      var n := |xs| - 1;
      FlatMapOfMap(xs[..n], h, f, g);
      assert xs == xs[..n] + [xs[n]];
      MapAppend(xs[..n], [xs[n]], h);
      FlatMapSnoc(Map(xs[..n], h), h(xs[n]), f);
    }
  }

  /** Growing the image of an element that occurs once, and no other, grows
      the concatenation by exactly what was added. */
  lemma {:induction false} FlatMapBump<T, U>(xs: seq<T>, f: T -> seq<U>, g: T -> seq<U>, x: T, extra: seq<U>)
    requires forall k :: 0 <= k < |xs| && xs[k] != x ==> g(xs[k]) == f(xs[k])
    requires g(x) == f(x) + extra
    requires multiset(xs)[x] == 1
    ensures multiset(FlatMap(xs, g)) == multiset(FlatMap(xs, f)) + multiset(extra)
    decreases |xs|
  {
    var n := |xs| - 1;
    assert xs == xs[..n] + [xs[n]];
    forall k | 0 <= k < n && xs[..n][k] != x ensures g(xs[..n][k]) == f(xs[..n][k]) {
      assert xs[..n][k] == xs[k];
    }
    if xs[n] == x {
      assert multiset(xs[..n])[x] == 0;
      forall k | 0 <= k < n ensures g(xs[..n][k]) == f(xs[..n][k]) {
        assert xs[..n][k] in multiset(xs[..n]);
      }
      FlatMapCongruent(xs[..n], g, f);
    } else {
      FlatMapBump(xs[..n], f, g, x, extra);
    }
  }

  // ------------------------------------------------------------ prefixes

  /** The first n elements, or all of them when there are fewer. */
  function Take<T>(s: seq<T>, n: nat): (r: seq<T>)
    ensures r <= s
    ensures |r| == if |s| <= n then |s| else n
  {
    if |s| <= n then s else s[..n]
  }

  /** Once the first n are there, what follows does not change them. */
  lemma TakeOfLong<T>(a: seq<T>, b: seq<T>, n: nat)
    requires n <= |a|
    ensures Take(a + b, n) == Take(a, n)
  {
    assert (a + b)[..n] == a[..n];
  }

  // ------------------------------------------------------ first-seen order

  /** The distinct elements of xs in order of first occurrence: the key order
      of a JavaScript `Map` filled from xs. */
  function FirstSeen<T(==,!new)>(xs: seq<T>): (r: seq<T>)
    ensures forall y :: y in r <==> y in xs
    ensures forall i, j :: 0 <= i < j < |r| ==> r[i] != r[j]
    decreases |xs|
  {
    if xs == [] then []
    else
      var init := xs[..|xs| - 1];
      var p := FirstSeen(init);
      assert xs == init + [xs[|xs| - 1]];
      if xs[|xs| - 1] in p then p else p + [xs[|xs| - 1]]
  }
}
