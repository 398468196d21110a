/** The string normalisers and escapers of src/core/strings.js (copied
    verbatim into app.js). Case mapping is ASCII-only. */
module Strings {
  import opened Base

  // ------------------------------------------------------------ case mapping

  predicate IsUpperAscii(c: char) { 'A' <= c <= 'Z' }
  predicate IsLowerAscii(c: char) { 'a' <= c <= 'z' }
  predicate IsDigit(c: char) { '0' <= c <= '9' }

  /** `toLowerCase` on one character, restricted to ASCII. */
  function LowerChar(c: char): char
  {
    if IsUpperAscii(c) then (c as int + 32) as char else c
  }

  /** `toUpperCase` on one character, restricted to ASCII. */
  function UpperChar(c: char): char
  {
    if IsLowerAscii(c) then (c as int - 32) as char else c
  }

  /** `s.toLowerCase()`. */
  function Lower(s: string): (r: string)
    ensures |r| == |s|
  {
    if s == [] then [] else [LowerChar(s[0])] + Lower(s[1..])
  }

  /** Each character is lower-cased on its own. */
  lemma {:induction false} LowerAt(s: string, i: int)
    requires 0 <= i < |s|
    ensures Lower(s)[i] == LowerChar(s[i])
  {
    if i > 0 {
      LowerAt(s[1..], i - 1);
    }
  }

  lemma {:induction false} LowerAppend(a: string, b: string)
    ensures Lower(a + b) == Lower(a) + Lower(b)
  {
    if a == [] {
      assert a + b == b;
    } else {
      assert (a + b)[1..] == a[1..] + b;
      LowerAppend(a[1..], b);
    }
  }

  /** Lower-casing changes nothing once a string has no upper-case letter. */
  lemma {:induction false} LowerIdentity(s: string)
    requires forall i :: 0 <= i < |s| ==> !IsUpperAscii(s[i])
    ensures Lower(s) == s
  {
    if s != [] {
      assert !IsUpperAscii(s[0]);
      assert forall i :: 0 <= i < |s[1..]| ==> !IsUpperAscii(s[1..][i]) by {
        forall i | 0 <= i < |s[1..]| ensures !IsUpperAscii(s[1..][i]) {
          assert s[1..][i] == s[i + 1];
        }
      }
      LowerIdentity(s[1..]);
    }
  }

  /** Lower-casing both sides keeps an occurrence. */
  lemma LowerKeepsContains(hay: string, needle: string)
    requires Contains(hay, needle)
    ensures Contains(Lower(hay), Lower(needle))
  {
    ContainsIffOccurs(hay, needle);
    var i :| OccursAt(hay, needle, i);
    var j := i + |needle|;
    assert hay == hay[..i] + needle + hay[j..];
    LowerAppend(hay[..i] + needle, hay[j..]);
    LowerAppend(hay[..i], needle);
    assert OccursAt(Lower(hay), Lower(needle), i);
    OccursAtContains(Lower(hay), Lower(needle), i);
  }

  /** Lower-casing cannot produce a character whose lower- and upper-case
      forms are both absent. */
  lemma LowerAvoids(s: string, c: char)
    requires c !in s && UpperChar(c) !in s
    ensures c !in Lower(s)
  {
    forall i | 0 <= i < |s| ensures Lower(s)[i] != c {
      LowerAt(s, i);
    }
  }

  // -------------------------------------------------------------- normalisers

  /** normalizeForSearch: `String(str || "").toLowerCase()`. */
  function NormalizeForSearch(s: Option<string>): (r: string)
    ensures !Truthy(s) ==> r == ""
    ensures |r| == |OrEmpty(s)|
    ensures forall i :: 0 <= i < |r| ==> !IsUpperAscii(r[i])
    ensures forall i :: 0 <= i < |r| ==> r[i] == OrEmpty(s)[i] || (IsUpperAscii(OrEmpty(s)[i]) && r[i] as int == OrEmpty(s)[i] as int + 32)
  {
    var r := Lower(OrEmpty(s));
    forall i | 0 <= i < |r|
      ensures !IsUpperAscii(r[i])
      ensures r[i] == OrEmpty(s)[i] || (IsUpperAscii(OrEmpty(s)[i]) && r[i] as int == OrEmpty(s)[i] as int + 32)
    {
      LowerAt(OrEmpty(s), i);
    }
    r
  }

  /** Normalising for search twice is normalising once. */
  lemma NormalizeForSearchIdempotent(s: Option<string>)
    ensures NormalizeForSearch(Some(NormalizeForSearch(s))) == NormalizeForSearch(s)
  {
    LowerIdentity(NormalizeForSearch(s));
  }

  /** The characters a token may hold: `[a-z0-9]`. */
  predicate IsTokenChar(c: char) { IsLowerAscii(c) || IsDigit(c) }

  /** normalizeToken: normalizeForSearch, then `replace(/[^a-z0-9]+/g, "")`.
      Deleting every maximal run of other characters is deleting each of them. */
  function NormalizeToken(s: Option<string>): (r: string)
    ensures forall i :: 0 <= i < |r| ==> IsTokenChar(r[i])
    ensures IsSubsequence(r, NormalizeForSearch(s))
    ensures forall c :: IsTokenChar(c) ==> multiset(r)[c] == multiset(NormalizeForSearch(s))[c]
    ensures forall c :: !IsTokenChar(c) ==> multiset(r)[c] == 0
  {
    var lowered := NormalizeForSearch(s);
    FilterMembers(lowered, IsTokenChar);
    FilterIsSubsequence(lowered, IsTokenChar);
    FilterCounts(lowered, IsTokenChar);
    Filter(lowered, IsTokenChar)
  }

  /** normalizeToken is idempotent: a token is its own token. */
  lemma NormalizeTokenIdempotent(s: Option<string>)
    ensures NormalizeToken(Some(NormalizeToken(s))) == NormalizeToken(s)
  {
    var t := NormalizeToken(s);
    LowerIdentity(t);
    assert NormalizeForSearch(Some(t)) == t;
    assert forall c :: c in t ==> IsTokenChar(c);
    FilterAll(t, IsTokenChar);
  }

  /** normalizeToken of an already normalised haystack is the token filter of it. */
  lemma NormalizeTokenOfLowered(s: string)
    requires forall i :: 0 <= i < |s| ==> !IsUpperAscii(s[i])
    ensures NormalizeToken(Some(s)) == Filter(s, IsTokenChar)
  {
    LowerIdentity(s);
  }

  // ----------------------------------------------------------------- escapers

  /** `s.replaceAll(c, rep)` for a one-character pattern. */
  function ReplaceAll(s: string, c: char, rep: string): string
  {
    if s == [] then [] else (if s[0] == c then rep else [s[0]]) + ReplaceAll(s[1..], c, rep)
  }

  lemma {:induction false} ReplaceAllAppend(a: string, b: string, c: char, rep: string)
    ensures ReplaceAll(a + b, c, rep) == ReplaceAll(a, c, rep) + ReplaceAll(b, c, rep)
  {
    if a == [] {
      assert a + b == b;
    } else {
      assert (a + b)[1..] == a[1..] + b;
      ReplaceAllAppend(a[1..], b, c, rep);
    }
  }

  /** Replacing a character that does not occur changes nothing. */
  lemma {:induction false} ReplaceAllAbsent(s: string, c: char, rep: string)
    requires c !in s
    ensures ReplaceAll(s, c, rep) == s
  {
    if s != [] {
      ReplaceAllAbsent(s[1..], c, rep);
      assert [s[0]] + s[1..] == s;
    }
  }

  /** After the replacement no c is left (when rep has none), and a character
      absent from both s and rep stays absent. */
  lemma {:induction false} ReplaceAllAbsence(s: string, c: char, rep: string, d: char)
    requires d !in rep
    requires d == c || d !in s
    ensures d !in ReplaceAll(s, c, rep)
  {
    if s != [] {
      ReplaceAllAbsence(s[1..], c, rep, d);
    }
  }

  /** The entities the escapers write. */
  const Amp: string := "&amp;"
  const Lt: string := "&lt;"
  const Gt: string := "&gt;"
  const Quot: string := "&quot;"
  const Apos: string := "&#39;"
  const Grave: string := "&#96;"

  /** The five characters escapeHtml rewrites. */
  predicate IsHtmlSpecial(c: char) { c == '&' || c == '<' || c == '>' || c == '"' || c == '\'' }

  /** The replaceAll chain of escapeHtml, `&` first. */
  function HtmlChain(s: string): string
  {
    ReplaceAll(ReplaceAll(ReplaceAll(ReplaceAll(ReplaceAll(s,
      '&', Amp), '<', Lt), '>', Gt), '"', Quot), '\'', Apos)
  }

  /** escapeHtml: the output holds no raw `<`, `>`, `"` or `'`, and a string
      without any of the five special characters comes back unchanged. */
  function EscapeHtml(s: string): (r: string)
    ensures '<' !in r && '>' !in r && '"' !in r && '\'' !in r
    ensures (forall i :: 0 <= i < |s| ==> !IsHtmlSpecial(s[i])) ==> r == s
  {
    EscapeHtmlSafe(s);
    HtmlChain(s)
  }

  lemma EscapeHtmlSafe(s: string)
    ensures var r := HtmlChain(s);
      '<' !in r && '>' !in r && '"' !in r && '\'' !in r &&
      ((forall i :: 0 <= i < |s| ==> !IsHtmlSpecial(s[i])) ==> r == s)
  {
    var s1 := ReplaceAll(s, '&', Amp);
    var s2 := ReplaceAll(s1, '<', Lt);
    var s3 := ReplaceAll(s2, '>', Gt);
    var s4 := ReplaceAll(s3, '"', Quot);
    ReplaceAllAbsence(s1, '<', Lt, '<');
    ReplaceAllAbsence(s2, '>', Gt, '<');
    ReplaceAllAbsence(s2, '>', Gt, '>');
    ReplaceAllAbsence(s3, '"', Quot, '<');
    ReplaceAllAbsence(s3, '"', Quot, '>');
    ReplaceAllAbsence(s3, '"', Quot, '"');
    ReplaceAllAbsence(s4, '\'', Apos, '<');
    ReplaceAllAbsence(s4, '\'', Apos, '>');
    ReplaceAllAbsence(s4, '\'', Apos, '"');
    ReplaceAllAbsence(s4, '\'', Apos, '\'');
    if forall i :: 0 <= i < |s| ==> !IsHtmlSpecial(s[i]) {
      ReplaceAllAbsent(s, '&', Amp);
      ReplaceAllAbsent(s1, '<', Lt);
      ReplaceAllAbsent(s2, '>', Gt);
      ReplaceAllAbsent(s3, '"', Quot);
      ReplaceAllAbsent(s4, '\'', Apos);
    }
  }

  /** escapeAttr: escapeHtml, then backticks become `&#96;`; the output holds
      none of the raw characters `<`, `>`, `"`, `'` and the backtick. */
  function EscapeAttr(s: string): (r: string)
    ensures '<' !in r && '>' !in r && '"' !in r && '\'' !in r && '`' !in r
  {
    var h := EscapeHtml(s);
    ReplaceAllAbsence(h, '`', Grave, '`');
    ReplaceAllAbsence(h, '`', Grave, '<');
    ReplaceAllAbsence(h, '`', Grave, '>');
    ReplaceAllAbsence(h, '`', Grave, '"');
    ReplaceAllAbsence(h, '`', Grave, '\'');
    ReplaceAll(h, '`', Grave)
  }

  /** Reference definition: the entity each character is written as. */
  function EscapeChar(c: char): string
  {
    if c == '&' then Amp
    else if c == '<' then Lt
    else if c == '>' then Gt
    else if c == '"' then Quot
    else if c == '\'' then Apos
    else [c]
  }

  /** Reference definition for attributes: also the backtick. */
  function EscapeAttrChar(c: char): string
  {
    if c == '`' then Grave else EscapeChar(c)
  }

  /** Escape every character independently and concatenate. */
  function EscapeEach(s: string, esc: char -> string): string
  {
    if s == [] then [] else esc(s[0]) + EscapeEach(s[1..], esc)
  }

  lemma EscapeHtmlAppend(a: string, b: string)
    ensures HtmlChain(a + b) == HtmlChain(a) + HtmlChain(b)
  {
    var s1a, s1b := ReplaceAll(a, '&', Amp), ReplaceAll(b, '&', Amp);
    ReplaceAllAppend(a, b, '&', Amp);
    var s2a, s2b := ReplaceAll(s1a, '<', Lt), ReplaceAll(s1b, '<', Lt);
    ReplaceAllAppend(s1a, s1b, '<', Lt);
    var s3a, s3b := ReplaceAll(s2a, '>', Gt), ReplaceAll(s2b, '>', Gt);
    ReplaceAllAppend(s2a, s2b, '>', Gt);
    var s4a, s4b := ReplaceAll(s3a, '"', Quot), ReplaceAll(s3b, '"', Quot);
    ReplaceAllAppend(s3a, s3b, '"', Quot);
    ReplaceAllAppend(s4a, s4b, '\'', Apos);
  }

  /** replaceAll on a one-character string. */
  lemma ReplaceAllSingle(c: char, d: char, rep: string)
    ensures ReplaceAll([c], d, rep) == if c == d then rep else [c]
  {
    assert [c][1..] == [];
  }

  /** The `<`, `>`, `"`, `'` steps leave a string without those characters alone. */
  lemma ChainTailFixed(e: string)
    requires '<' !in e && '>' !in e && '"' !in e && '\'' !in e
    ensures ReplaceAll(ReplaceAll(ReplaceAll(ReplaceAll(e, '<', Lt), '>', Gt), '"', Quot), '\'', Apos) == e
  {
    ReplaceAllAbsent(e, '<', Lt);
    ReplaceAllAbsent(e, '>', Gt);
    ReplaceAllAbsent(e, '"', Quot);
    ReplaceAllAbsent(e, '\'', Apos);
  }

  lemma HtmlChainAmp(c: char)
    requires c == '&'
    ensures HtmlChain([c]) == Amp
  {
    ReplaceAllSingle(c, '&', Amp);
    assert Amp == ['&', 'a', 'm', 'p', ';'];
    ChainTailFixed(Amp);
  }

  /** The `>`, `"`, `'` steps leave a string without those characters alone. */
  lemma ChainLastThree(e: string)
    requires '>' !in e && '"' !in e && '\'' !in e
    ensures ReplaceAll(ReplaceAll(ReplaceAll(e, '>', Gt), '"', Quot), '\'', Apos) == e
  {
    ReplaceAllAbsent(e, '>', Gt);
    ReplaceAllAbsent(e, '"', Quot);
    ReplaceAllAbsent(e, '\'', Apos);
  }

  lemma HtmlChainLt(c: char)
    requires c == '<'
    ensures HtmlChain([c]) == Lt
  {
    ReplaceAllSingle(c, '&', Amp);
    ReplaceAllSingle(c, '<', Lt);
    assert ReplaceAll(ReplaceAll([c], '&', Amp), '<', Lt) == Lt;
    assert Lt == ['&', 'l', 't', ';'];
    ChainLastThree(Lt);
  }

  lemma HtmlChainGt(c: char)
    requires c == '>'
    ensures HtmlChain([c]) == Gt
  {
    ReplaceAllSingle(c, '&', Amp);
    var s1 := ReplaceAll([c], '&', Amp);
    assert s1 == [c];
    ReplaceAllSingle(c, '<', Lt);
    var s2 := ReplaceAll(s1, '<', Lt);
    assert s2 == [c];
    ReplaceAllSingle(c, '>', Gt);
    var s3 := ReplaceAll(s2, '>', Gt);
    assert s3 == Gt;
    assert Gt == ['&', 'g', 't', ';'];
    ReplaceAllAbsent(Gt, '"', Quot);
    ReplaceAllAbsent(Gt, '\'', Apos);
  }

  lemma HtmlChainQuot(c: char)
    requires c == '"'
    ensures HtmlChain([c]) == Quot
  {
    ReplaceAllSingle(c, '&', Amp);
    var s1 := ReplaceAll([c], '&', Amp);
    assert s1 == [c];
    ReplaceAllSingle(c, '<', Lt);
    var s2 := ReplaceAll(s1, '<', Lt);
    assert s2 == [c];
    ReplaceAllSingle(c, '>', Gt);
    var s3 := ReplaceAll(s2, '>', Gt);
    assert s3 == [c];
    ReplaceAllSingle(c, '"', Quot);
    var s4 := ReplaceAll(s3, '"', Quot);
    assert s4 == Quot;
    ReplaceAllAbsent(s4, '\'', Apos);
  }

  lemma HtmlChainApos(c: char)
    requires c == '\''
    ensures HtmlChain([c]) == Apos
  {
    ReplaceAllSingle(c, '&', Amp);
    var s1 := ReplaceAll([c], '&', Amp);
    assert s1 == [c];
    ReplaceAllSingle(c, '<', Lt);
    var s2 := ReplaceAll(s1, '<', Lt);
    assert s2 == [c];
    ReplaceAllSingle(c, '>', Gt);
    var s3 := ReplaceAll(s2, '>', Gt);
    assert s3 == [c];
    ReplaceAllSingle(c, '"', Quot);
    var s4 := ReplaceAll(s3, '"', Quot);
    assert s4 == [c];
    ReplaceAllSingle(c, '\'', Apos);
    var s5 := ReplaceAll(s4, '\'', Apos);
    assert s5 == Apos;
  }

  /** On one character, the replaceAll chain produces exactly its entity. */
  lemma EscapeHtmlOneChar(c: char)
    ensures HtmlChain([c]) == EscapeChar(c)
  {
    if c == '&' {
      HtmlChainAmp(c);
    } else if c == '<' {
      HtmlChainLt(c);
    } else if c == '>' {
      HtmlChainGt(c);
    } else if c == '"' {
      HtmlChainQuot(c);
    } else if c == '\'' {
      HtmlChainApos(c);
    } else {
      ReplaceAllSingle(c, '&', Amp);
      ReplaceAllSingle(c, '<', Lt);
      ReplaceAllSingle(c, '>', Gt);
      ReplaceAllSingle(c, '"', Quot);
      ReplaceAllSingle(c, '\'', Apos);
    }
  }

  /** The chain of replacements equals escaping each character on its own:
      replacing `&` first means no entity introduced later is escaped again. */
  lemma {:induction false} EscapeHtmlPerChar(s: string)
    ensures EscapeHtml(s) == EscapeEach(s, EscapeChar)
  {
    if s == [] {
      assert ReplaceAll(s, '&', Amp) == [];
    } else {
      assert s == [s[0]] + s[1..];
      EscapeHtmlAppend([s[0]], s[1..]);
      EscapeHtmlOneChar(s[0]);
      EscapeHtmlPerChar(s[1..]);
    }
  }

  /** The backtick step on one escaped character. */
  lemma EscapeAttrOneChar(c: char)
    ensures ReplaceAll(EscapeChar(c), '`', Grave) == EscapeAttrChar(c)
  {
    if c == '`' {
      ReplaceAllSingle('`', '`', Grave);
    } else {
      assert '`' !in EscapeChar(c);
      ReplaceAllAbsent(EscapeChar(c), '`', Grave);
    }
  }

  /** The same for escapeAttr, with the backtick entity. */
  lemma {:induction false} EscapeAttrPerChar(s: string)
    ensures EscapeAttr(s) == EscapeEach(s, EscapeAttrChar)
  {
    if s == [] {
      EscapeHtmlPerChar(s);
    } else {
      var h0, h1 := HtmlChain([s[0]]), HtmlChain(s[1..]);
      assert s == [s[0]] + s[1..];
      EscapeHtmlAppend([s[0]], s[1..]);
      ReplaceAllAppend(h0, h1, '`', Grave);
      EscapeHtmlOneChar(s[0]);
      EscapeAttrOneChar(s[0]);
      EscapeAttrPerChar(s[1..]);
      assert EscapeAttr(s) == ReplaceAll(h0, '`', Grave) + ReplaceAll(h1, '`', Grave);
    }
  }

  /** How a browser reads the six entities back (the partner of the escapers). */
  function DecodeEntities(s: string): string
    decreases |s|
  {
    if s == [] then []
    else if Amp <= s then "&" + DecodeEntities(s[5..])
    else if Lt <= s then "<" + DecodeEntities(s[4..])
    else if Gt <= s then ">" + DecodeEntities(s[4..])
    else if Quot <= s then "\"" + DecodeEntities(s[6..])
    else if Apos <= s then "'" + DecodeEntities(s[5..])
    else if Grave <= s then "`" + DecodeEntities(s[5..])
    else [s[0]] + DecodeEntities(s[1..])
  }

  lemma DecodeEntity(c: char, e: string, rest: string)
    requires e == EscapeAttrChar(c) || e == EscapeChar(c)
    ensures DecodeEntities(e + rest) == [c] + DecodeEntities(rest)
  {
    if c == '&' {
      DecodeAmp(rest);
    } else if c == '<' {
      DecodeLt(rest);
    } else if c == '>' {
      DecodeGt(rest);
    } else if c == '"' {
      DecodeQuot(rest);
    } else if c == '\'' {
      DecodeApos(rest);
    } else if c == '`' && e == Grave {
      DecodeGrave(rest);
    } else {
      DecodePlain(c, rest);
    }
  }

  lemma DecodeAmp(rest: string)
    ensures DecodeEntities(Amp + rest) == "&" + DecodeEntities(rest)
  {
    assert (Amp + rest)[5..] == rest;
  }

  lemma DecodeLt(rest: string)
    ensures DecodeEntities(Lt + rest) == "<" + DecodeEntities(rest)
  {
    var t := Lt + rest;
    assert t[1] == 'l';
    assert t[4..] == rest;
  }

  lemma DecodeGt(rest: string)
    ensures DecodeEntities(Gt + rest) == ">" + DecodeEntities(rest)
  {
    var t := Gt + rest;
    assert t[1] == 'g';
    assert t[4..] == rest;
  }

  lemma DecodeQuot(rest: string)
    ensures DecodeEntities(Quot + rest) == "\"" + DecodeEntities(rest)
  {
    var t := Quot + rest;
    assert t[1] == 'q';
    assert t[6..] == rest;
  }

  lemma DecodeApos(rest: string)
    ensures DecodeEntities(Apos + rest) == "'" + DecodeEntities(rest)
  {
    var t := Apos + rest;
    assert t[1] == '#' && t[2] == '3';
    assert t[5..] == rest;
  }

  lemma DecodeGrave(rest: string)
    ensures DecodeEntities(Grave + rest) == "`" + DecodeEntities(rest)
  {
    var t := Grave + rest;
    assert t[1] == '#' && t[2] == '9';
    assert t[5..] == rest;
  }

  /** A character other than `&` starts no entity and reads back as itself. */
  lemma DecodePlain(c: char, rest: string)
    requires c != '&'
    ensures DecodeEntities([c] + rest) == [c] + DecodeEntities(rest)
  {
    var t := [c] + rest;
    assert t[0] == c;
    assert t[1..] == rest;
  }

  lemma {:induction false} DecodeEscapeEach(s: string, esc: char -> string)
    requires forall c :: esc(c) == EscapeAttrChar(c) || esc(c) == EscapeChar(c)
    ensures DecodeEntities(EscapeEach(s, esc)) == s
  {
    if s != [] {
      DecodeEscapeEach(s[1..], esc);
      DecodeEntity(s[0], esc(s[0]), EscapeEach(s[1..], esc));
      assert [s[0]] + s[1..] == s;
    }
  }

  /** Round trip: the escaped text reads back as the original text. */
  lemma EscapeHtmlRoundTrip(s: string)
    ensures DecodeEntities(EscapeHtml(s)) == s
  {
    EscapeHtmlPerChar(s);
    DecodeEscapeEach(s, EscapeChar);
  }

  /** Round trip for attribute values. */
  lemma EscapeAttrRoundTrip(s: string)
    ensures DecodeEntities(EscapeAttr(s)) == s
  {
    EscapeAttrPerChar(s);
    DecodeEscapeEach(s, EscapeAttrChar);
  }

  // --------------------------------------------------------------- title case

  /** The characters of the split pattern `/[-_ ]+/`. */
  predicate IsWordSeparator(c: char) { c == '-' || c == '_' || c == ' ' }

  /** `s.split(/[-_ ]+/).filter(Boolean)`: splitting at every separator and
      dropping the empty fields yields the same words as splitting at runs. */
  function Words(s: string): seq<string>
  {
    Filter(Split(s, IsWordSeparator), (w: string) => w != "")
  }

  /** `w.charAt(0).toUpperCase() + w.slice(1)`. */
  function Capitalize(w: string): string
  {
    if w == "" then "" else [UpperChar(w[0])] + w[1..]
  }

  /** Words are non-empty and hold no separator. */
  lemma WordsShape(s: string)
    ensures forall k :: 0 <= k < |Words(s)| ==> Words(s)[k] != ""
    ensures forall k, j :: 0 <= k < |Words(s)| && 0 <= j < |Words(s)[k]| ==> !IsWordSeparator(Words(s)[k][j])
  {
    var fields := Split(s, IsWordSeparator);
    SplitFieldsHaveNoSeparator(s, IsWordSeparator);
    FilterMembers(fields, (w: string) => w != "");
    forall k | 0 <= k < |Words(s)|
      ensures Words(s)[k] != "" && forall j :: 0 <= j < |Words(s)[k]| ==> !IsWordSeparator(Words(s)[k][j])
    {
      assert Words(s)[k] in fields;
    }
  }

  /** The capitalised words: separator-free and non-empty as before. */
  lemma CapitalizedShape(s: string)
    ensures forall k :: 0 <= k < |Map(Words(s), Capitalize)| ==> Map(Words(s), Capitalize)[k] != ""
    ensures forall k, j :: 0 <= k < |Map(Words(s), Capitalize)| && 0 <= j < |Map(Words(s), Capitalize)[k]| ==> !IsWordSeparator(Map(Words(s), Capitalize)[k][j])
  {
    WordsShape(s);
    forall k | 0 <= k < |Words(s)| ensures Map(Words(s), Capitalize)[k] == Capitalize(Words(s)[k]) {
      MapAt(Words(s), Capitalize, k);
    }
  }

  /** A character that is in neither the separator nor any part is not in the join. */
  lemma {:induction false} JoinAvoids(sep: string, parts: seq<string>, d: char)
    requires d !in sep
    requires forall k :: 0 <= k < |parts| ==> d !in parts[k]
    ensures d !in Join(sep, parts)
    decreases |parts|
  {
    if |parts| > 1 {
      JoinAvoids(sep, parts[1..], d);
    }
  }

  /** Joining non-empty, space-free parts with one space leaves no leading,
      trailing or doubled space. */
  lemma {:induction false} JoinSpacing(parts: seq<string>)
    requires forall k :: 0 <= k < |parts| ==> parts[k] != "" && ' ' !in parts[k]
    ensures var j := Join(" ", parts);
      (j == "" || (j[0] != ' ' && j[|j| - 1] != ' ')) &&
      forall i :: 0 <= i < |j| - 1 ==> !(j[i] == ' ' && j[i + 1] == ' ')
    decreases |parts|
  {
    if |parts| > 1 {
      JoinSpacing(parts[1..]);
      var p, t := parts[0], Join(" ", parts[1..]);
      var j := Join(" ", parts);
      assert j == p + " " + t;
      assert t != "" by { assert |t| >= |parts[1]| by { JoinLength(parts[1..]); } }
      forall i | 0 <= i < |j| - 1 ensures !(j[i] == ' ' && j[i + 1] == ' ') {
        if i + 1 < |p| {
          assert j[i] == p[i];
        } else if i + 1 == |p| {
          assert j[i] == p[i];
        } else if i == |p| {
          assert j[i + 1] == t[0];
        } else {
          assert j[i] == t[i - |p| - 1] && j[i + 1] == t[i - |p|];
        }
      }
      assert j[|j| - 1] == t[|t| - 1];
    }
  }

  /** A join is at least as long as its first part. */
  lemma JoinLength(parts: seq<string>)
    requires |parts| >= 1
    ensures |Join(" ", parts)| >= |parts[0]|
  {
  }

  /** titleCaseFromFolder: split on `-`, `_` and spaces, drop empty words,
      upper-case each first letter, join with one space. */
  function TitleCaseFromFolder(folder: Option<string>): string
  {
    Join(" ", Map(Words(OrEmpty(folder)), Capitalize))
  }

  /** A missing or empty folder name has an empty title. */
  lemma TitleCaseMissing(folder: Option<string>)
    requires !Truthy(folder)
    ensures TitleCaseFromFolder(folder) == ""
  {
    var blank: seq<string> := [""];
    assert Split("", IsWordSeparator) == blank;
    assert blank[1..] == [];
    assert Words("") == [];
  }

  /** The title holds no `-` or `_`, does not start or end with a space and
      never has two spaces in a row. */
  lemma TitleCaseShape(folder: Option<string>)
    ensures var r := TitleCaseFromFolder(folder);
      '-' !in r && '_' !in r &&
      (r == "" || (r[0] != ' ' && r[|r| - 1] != ' ')) &&
      forall i :: 0 <= i < |r| - 1 ==> !(r[i] == ' ' && r[i + 1] == ' ')
  {
    var words := Map(Words(OrEmpty(folder)), Capitalize);
    CapitalizedShape(OrEmpty(folder));
    JoinAvoids(" ", words, '-');
    JoinAvoids(" ", words, '_');
    JoinSpacing(words);
  }

  /** Splitting the title back on spaces gives one entry per word of the
      folder name, with its first letter upper-cased and the rest unchanged. */
  lemma TitleCaseWords(folder: Option<string>)
    ensures var words := Words(OrEmpty(folder));
      var titled := Split(TitleCaseFromFolder(folder), (c: char) => c == ' ');
      (words == [] ==> TitleCaseFromFolder(folder) == "") &&
      (words != [] ==>
        |titled| == |words| &&
        forall k :: 0 <= k < |words| ==>
          titled[k] != "" && words[k] != "" &&
          titled[k][0] == UpperChar(words[k][0]) && titled[k][1..] == words[k][1..])
  {
    var words := Words(OrEmpty(folder));
    var caps := Map(words, Capitalize);
    CapitalizedShape(OrEmpty(folder));
    WordsShape(OrEmpty(folder));
    if words != [] {
      assert forall k :: 0 <= k < |caps| ==> ' ' !in caps[k];
      SplitJoin(caps, ' ', (c: char) => c == ' ');
      forall k | 0 <= k < |words| ensures caps[k] == Capitalize(words[k]) {
        MapAt(words, Capitalize, k);
      }
    }
  }
}
