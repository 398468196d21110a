/** The route and path helpers of src/core/url.js (copied into app.js).
    `encodeURIComponent` is a parameter `enc`: the model says nothing about
    what it produces beyond what each lemma requires of it. */
module Url {
  import opened Base

  predicate IsSlash(c: char) { c == '/' }

  /** `s.split("/")` has one field exactly when s has no "/"; otherwise the
      first field is the slash-free text before the first "/". */
  lemma FirstSegmentOf(s: string)
    ensures |Split(s, IsSlash)| == 1 <==> '/' !in s
    ensures '/' in s ==> Split(s, IsSlash)[0] + "/" <= s && '/' !in Split(s, IsSlash)[0]
  {
    SplitSingle(s, IsSlash);
    SplitHead(s, IsSlash);
    var head := Split(s, IsSlash)[0];
    if '/' in s {
      var j :| 0 <= j < |s| && s[j] == '/';
      assert IsSlash(s[j]);
      assert |head| <= j;
      assert s[..|head| + 1] == head + "/";
      assert forall k :: 0 <= k < |head| ==> head[k] == s[k];
    }
  }

  // ------------------------------------------------------------- encodeRoute

  /** encodeRoute: encode each `/`-separated segment of the id on its own. */
  function EncodeRoute(id: Option<string>, enc: string -> string): string
  {
    Join("/", Map(Split(OrEmpty(id), IsSlash), enc))
  }

  /** A missing id encodes to "" (encodeURIComponent("") is ""). */
  lemma EncodeRouteMissing(id: Option<string>, enc: string -> string)
    requires !Truthy(id)
    requires enc("") == ""
    ensures EncodeRoute(id, enc) == ""
  {
    assert Split("", IsSlash) == [""];
    MapAt([""], enc, 0);
  }

  /** When the encoder never emits `/`, the route has the id's segments, each
      encoded, and so the same number of segments as the id. */
  lemma EncodeRouteSegments(id: Option<string>, enc: string -> string)
    requires forall x :: '/' !in enc(x)
    ensures Split(EncodeRoute(id, enc), IsSlash) == Map(Split(OrEmpty(id), IsSlash), enc)
    ensures |Split(EncodeRoute(id, enc), IsSlash)| == |Split(OrEmpty(id), IsSlash)|
  {
    var segs := Map(Split(OrEmpty(id), IsSlash), enc);
    forall k | 0 <= k < |segs| ensures '/' !in segs[k] {
      MapAt(Split(OrEmpty(id), IsSlash), enc, k);
    }
    SplitJoin(segs, '/', IsSlash);
  }

  /** Decoding each segment with an inverse of the encoder gives the id back. */
  lemma EncodeRouteRoundTrip(id: Option<string>, enc: string -> string, dec: string -> string)
    requires forall x :: '/' !in enc(x)
    requires forall x :: dec(enc(x)) == x
    ensures Join("/", Map(Split(EncodeRoute(id, enc), IsSlash), dec)) == OrEmpty(id)
  {
    var fields := Split(OrEmpty(id), IsSlash);
    EncodeRouteSegments(id, enc);
    var back := Map(Map(fields, enc), dec);
    forall k | 0 <= k < |fields| ensures back[k] == fields[k] {
      MapAt(fields, enc, k);
      MapAt(Map(fields, enc), dec, k);
    }
    assert back == fields;
    JoinSplit(OrEmpty(id), '/', IsSlash);
  }

  // --------------------------------------------------------------------- trim

  /** The characters `String.prototype.trim` removes: ECMAScript WhiteSpace
      and LineTerminator. */
  predicate IsJsSpace(c: char)
  {
    c == '\t' || c == '\n' || c == '\U{000B}' || c == '\U{000C}' || c == '\r' || c == ' '
    || c == '\U{00A0}' || c == '\U{1680}' || ('\U{2000}' <= c <= '\U{200A}')
    || c == '\U{2028}' || c == '\U{2029}' || c == '\U{202F}' || c == '\U{205F}'
    || c == '\U{3000}' || c == '\U{FEFF}'
  }

  predicate AllSpace(s: string)
  {
    forall k :: 0 <= k < |s| ==> IsJsSpace(s[k])
  }

  /** A string with no white space at either end (or the empty string). */
  predicate IsTrimmed(s: string)
  {
    s == "" || (!IsJsSpace(s[0]) && !IsJsSpace(s[|s| - 1]))
  }

  /** Drop leading white space: the result is the suffix of s that starts at
      its first non-space character. */
  function TrimStart(s: string): (r: string)
    ensures |r| <= |s| && r == s[|s| - |r|..]
    ensures AllSpace(s[..|s| - |r|])
    ensures r == "" || !IsJsSpace(r[0])
  {
    if s != [] && IsJsSpace(s[0]) then TrimStart(s[1..]) else s
  }

  /** Drop trailing white space: the prefix of s that ends at its last
      non-space character. */
  function TrimEnd(s: string): (r: string)
    ensures |r| <= |s| && r == s[..|r|]
    ensures AllSpace(s[|r|..])
    ensures r == "" || !IsJsSpace(r[|r| - 1])
  {
    if s != [] && IsJsSpace(s[|s| - 1]) then TrimEnd(s[..|s| - 1]) else s
  }

  /** `s.trim()`: the result occurs in s and has no white space at its ends. */
  function Trim(s: string): (r: string)
    ensures IsTrimmed(r)
    ensures Contains(s, r)
  {
    var t := TrimStart(s);
    var r := TrimEnd(t);
    assert OccursAt(s, r, |s| - |t|);
    OccursAtContains(s, r, |s| - |t|);
    r
  }

  lemma {:induction false} TrimStartSpaces(a: string, m: string)
    requires AllSpace(a)
    requires m == "" || !IsJsSpace(m[0])
    ensures TrimStart(a + m) == m
    decreases |a|
  {
    if a == [] {
      assert a + m == m;
    } else {
      assert (a + m)[1..] == a[1..] + m;
      TrimStartSpaces(a[1..], m);
    }
  }

  lemma {:induction false} TrimEndSpaces(m: string, b: string)
    requires AllSpace(b)
    requires m == "" || !IsJsSpace(m[|m| - 1])
    ensures TrimEnd(m + b) == m
    decreases |b|
  {
    if b == [] {
      assert m + b == m;
    } else {
      var b' := b[..|b| - 1];
      assert (m + b)[..|m + b| - 1] == m + b';
      TrimEndSpaces(m, b');
    }
  }

  /** trim strips exactly the white space around a trimmed core: this pins
      its result down for every input. */
  lemma TrimOf(a: string, m: string, b: string)
    requires AllSpace(a) && AllSpace(b) && IsTrimmed(m)
    ensures Trim(a + m + b) == m
  {
    if m == "" {
      assert a + m + b == a + b;
      assert AllSpace(a + b);
      TrimStartSpaces(a + b, "");
      assert a + b + "" == a + b;
    } else {
      assert a + m + b == a + (m + b);
      TrimStartSpaces(a, m + b);
      TrimEndSpaces(m, b);
    }
  }

  /** Trimming twice is trimming once. */
  lemma TrimIdempotent(s: string)
    ensures Trim(Trim(s)) == Trim(s)
  {
    var t := Trim(s);
    assert "" + t + "" == t;
    TrimOf("", t, "");
  }

  // ------------------------------------------------------------- decodeRoute

  /** decodeRoute: the trimmed text after `#/`, or "home" when that is empty or
      the hash does not start with `#/`. No percent-decoding happens. */
  function DecodeRoute(hash: Option<string>): (r: string)
    ensures r != ""
    ensures !("#/" <= OrEmpty(hash)) ==> r == "home"
    ensures r == "home" || ("#/" <= OrEmpty(hash) && Contains(OrEmpty(hash)[2..], r) && IsTrimmed(r))
  {
    var h := OrEmpty(hash);
    var raw := if "#/" <= h then h[2..] else "";
    var cleaned := Trim(raw);
    if cleaned != "" then cleaned else "home"
  }

  /** `#/` followed by an id padded with white space routes to the id itself,
      percent-escapes and all. */
  lemma DecodeRouteOf(a: string, id: string, b: string)
    requires AllSpace(a) && AllSpace(b) && IsTrimmed(id) && id != ""
    ensures DecodeRoute(Some("#/" + a + id + b)) == id
  {
    var h := "#/" + a + id + b;
    assert "#/" <= h;
    assert h[2..] == a + id + b;
    TrimOf(a, id, b);
  }

  /** A route that is blank after `#/` goes home. */
  lemma DecodeRouteBlank(a: string)
    requires AllSpace(a)
    ensures DecodeRoute(Some("#/" + a)) == "home"
  {
    var h := "#/" + a;
    assert "#/" <= h;
    assert h[2..] == a + "" + "";
    TrimOf(a, "", "");
  }

  /** For instance `#/a%20b` routes to `a%20b`, not `a b`. */
  lemma DecodeRouteKeepsPercentEscapes()
    ensures DecodeRoute(Some("#/a%20b")) == "a%20b"
  {
    assert "#/a%20b" == "#/" + "" + "a%20b" + "";
    DecodeRouteOf("", "a%20b", "");
  }

  // ------------------------------------------------------ safePagePathFromId

  /** safePagePathFromId: null for an empty id, an id containing `..` or one
      starting with `/`; otherwise `pages/<id>.md`, from which the id can be
      read back. */
  function SafePagePathFromId(id: Option<string>): (r: Option<string>)
    ensures r.None? <==> (OrEmpty(id) == "" || Contains(OrEmpty(id), "..") || "/" <= OrEmpty(id))
    ensures r.Some? ==>
      "pages/" <= r.value && |r.value| == |OrEmpty(id)| + 9 &&
      r.value[|r.value| - 3..] == ".md" && r.value[6..|r.value| - 3] == OrEmpty(id)
  {
    var s := OrEmpty(id);
    if s == "" || Contains(s, "..") || "/" <= s then None
    else Some("pages/" + s + ".md")
  }

  /** A slash-free segment and a slash in front of rest add one segment in
      front of rest's. */
  lemma SegmentInFront(pre: string, rest: string)
    requires forall j :: 0 <= j < |pre| ==> !IsSlash(pre[j])
    ensures Split(pre + "/" + rest, IsSlash) == [pre] + Split(rest, IsSlash)
  {
    assert pre + "/" + rest == pre + ("/" + rest);
    SplitPrefix(pre, "/" + rest, IsSlash);
    assert ("/" + rest)[1..] == rest;
    assert Split("/" + rest, IsSlash) == [""] + Split(rest, IsSlash);
    assert pre + "" == pre;
  }

  /** The segments of `pre/<s>w` for slash-free pre and w: pre, then the
      segments of s with w glued to the last. */
  lemma SegmentsUnder(pre: string, s: string, w: string)
    requires '/' !in pre && '/' !in w
    ensures var P := Split(s, IsSlash);
      Split(pre + "/" + (s + w), IsSlash) == [pre] + P[..|P| - 1] + [P[|P| - 1] + w]
  {
    assert forall j :: 0 <= j < |pre| ==> !IsSlash(pre[j]) by {
      forall j | 0 <= j < |pre| ensures !IsSlash(pre[j]) {
        assert pre[j] in pre;
      }
    }
    SegmentInFront(pre, s + w);
    assert forall j :: 0 <= j < |w| ==> !IsSlash(w[j]) by {
      forall j | 0 <= j < |w| ensures !IsSlash(w[j]) {
        assert w[j] in w;
      }
    }
    SplitAppendFree(s, w, IsSlash);
    var P := Split(s, IsSlash);
    AppendAssoc([pre], P[..|P| - 1], [P[|P| - 1] + w]);
  }

  /** The segments of `pages/<id>.md`: "pages", then the id's own segments
      with ".md" glued to the last. */
  lemma PagePathSegments(s: string)
    ensures var P := Split(s, IsSlash);
      Split("pages/" + s + ".md", IsSlash) == ["pages"] + P[..|P| - 1] + [P[|P| - 1] + ".md"]
  {
    assert "pages/" + s + ".md" == "pages" + "/" + (s + ".md");
    SegmentsUnder("pages", s, ".md");
  }

  /** A safe path stays inside `pages/`: its first segment is `pages`, the
      next one is not empty, and no segment is `..`. */
  lemma SafePagePathStaysInPages(id: Option<string>)
    requires SafePagePathFromId(id).Some?
    ensures var parts := Split(SafePagePathFromId(id).value, IsSlash);
      |parts| >= 2 && parts[0] == "pages" && parts[1] != "" &&
      forall k :: 0 <= k < |parts| ==> parts[k] != ".."
  {
    var s := OrEmpty(id);
    var parts := Split(SafePagePathFromId(id).value, IsSlash);
    PagePathSegments(s);
    var P := Split(s, IsSlash);
    var n := |P|;
    assert parts == ["pages"] + P[..n - 1] + [P[n - 1] + ".md"];
    SplitPartsContained(s, IsSlash);
    assert s[0] != '/';
    assert P[0] != "";
    forall k | 0 <= k < |parts| ensures parts[k] != ".." {
      if 1 <= k < n {
        assert parts[k] == P[k - 1];
        assert Contains(s, P[k - 1]);
      } else if k == n {
        assert parts[k] == P[n - 1] + ".md";
      }
    }
  }
}
