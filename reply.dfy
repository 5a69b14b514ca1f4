/** What the classifier does with the model's reply text: find the first
    JSON-array-looking span with the lazy pattern `\[\s*{.*?}\s*\]`
    (DOTALL), decode it, and keep the items whose `rpa_opportunity`,
    lower-cased, is non-empty and names none of the negative keywords. */
module Reply {
  import opened Wrappers
  import opened Strings

  /** Decoded JSON values, as far as the filter looks into them. */
  datatype Json =
    | JString(s: string)
    | JArray(elems: seq<Json>)
    | JObject(fields: map<string, Json>)
    | JOther

  /** Python's `str.isspace`, the class `\s` matches on `str` patterns. */
  predicate IsSpace(c: char)
  {
    ('\t' <= c <= '\r') || ('\U{1C}' <= c <= '\U{1F}') || c == ' '
    || c == '\U{85}' || c == '\U{A0}' || c == '\U{1680}'
    || ('\U{2000}' <= c <= '\U{200A}') || c == '\U{2028}' || c == '\U{2029}'
    || c == '\U{202F}' || c == '\U{205F}' || c == '\U{3000}'
  }

  // ---------------------------------------------------------------------
  // The pattern, as the matcher runs it

  /** Greedy `\s*` from `i`: the first index at or after `i` that is not a
      space (or the end). */
  function SkipSpaces(s: string, i: nat): (j: nat)
    requires i <= |s|
    ensures i <= j <= |s|
    ensures j < |s| ==> !IsSpace(s[j])
    decreases |s| - i
  {
    if i < |s| && IsSpace(s[i]) then SkipSpaces(s, i + 1) else i
  }

  /** Lazy `.*?}\s*\]` tried at each `}` candidate from `b` on: the first
      `}` followed by optional spaces and `]`, with the index of that `]`. */
  function CloseFrom(s: string, b: nat): (r: Option<(nat, nat)>)
    requires b <= |s|
    ensures r.Some? ==> b <= r.value.0 < r.value.1 < |s|
    decreases |s| - b
  {
    if b == |s| then None
    else if s[b] == '}' && SkipSpaces(s, b + 1) < |s| && s[SkipSpaces(s, b + 1)] == ']'
    then Some((b, SkipSpaces(s, b + 1)))
    else CloseFrom(s, b + 1)
  }

  /** The pattern anchored at `i`: `[`, spaces, `{`, then the lazy close.
      Returns the positions of the closing `}` and `]`. */
  function MatchAt(s: string, i: nat): (r: Option<(nat, nat)>)
    requires i < |s|
    ensures r.Some? ==> i < r.value.0 < r.value.1 < |s|
  {
    if s[i] != '[' then None
    else
      var a := SkipSpaces(s, i + 1);
      if a < |s| && s[a] == '{' then CloseFrom(s, a + 1) else None
  }

  /** `re.search`: the first start position from `i` on where the anchored
      pattern matches; the span returned is `[start, end)`. */
  function SearchFrom(s: string, i: nat): (r: Option<(nat, nat)>)
    requires i <= |s|
    ensures r.Some? ==> i <= r.value.0 < r.value.1 <= |s|
    decreases |s| - i
  {
    if i == |s| then None
    else match MatchAt(s, i)
      case Some(bc) => Some((i, bc.1 + 1))
      case None => SearchFrom(s, i + 1)
  }

  /** `match.group(0)` of the search, if there is a match. */
  function ExtractArray(s: string): Option<string>
  {
    match SearchFrom(s, 0)
    case None => None
    case Some(span) => Some(s[span.0..span.1])
  }

  // ---------------------------------------------------------------------
  // The pattern, stated declaratively

  ghost predicate Spaces(s: string, lo: nat, hi: nat)
    requires lo <= hi <= |s|
  {
    forall k | lo <= k < hi :: IsSpace(s[k])
  }

  /** `}` at `b`, only spaces after it, and `]` at `c`. */
  ghost predicate IsClose(s: string, b: nat, c: nat)
  {
    b < c < |s| && s[b] == '}' && Spaces(s, b + 1, c) && s[c] == ']'
  }

  /** `s[i..c+1]` is an instance of `\[\s*{.*?}\s*\]` with `{` at `a` and the
      closing `}` at `b` (any characters, newlines included, in between). */
  ghost predicate IsMatch(s: string, i: nat, a: nat, b: nat, c: nat)
  {
    i < a < b < c < |s| && s[i] == '[' && Spaces(s, i + 1, a) && s[a] == '{'
    && IsClose(s, b, c)
  }

  lemma {:induction false} SkipSpacesSkipsSpaces(s: string, i: nat)
    requires i <= |s|
    ensures Spaces(s, i, SkipSpaces(s, i))
    decreases |s| - i
  {
    if i < |s| && IsSpace(s[i]) {
      SkipSpacesSkipsSpaces(s, i + 1);
    }
  }

  /** A run of spaces ended by a non-space is exactly what `\s*` consumes,
      so backtracking `\s*` can never help the pattern. */
  lemma {:induction false} SpacesThenStop(s: string, i: nat, j: nat)
    requires i <= j < |s| && Spaces(s, i, j) && !IsSpace(s[j])
    ensures SkipSpaces(s, i) == j
    decreases j - i
  {
    if i < j {
      SpacesThenStop(s, i + 1, j);
    }
  }

  /** The lazy close finds the least `}` position from `b0` that can end
      the match, and finds nothing only when there is none. */
  lemma {:induction false} CloseFromIsLeast(s: string, b0: nat)
    requires b0 <= |s|
    ensures match CloseFrom(s, b0)
      case Some(bc) =>
        IsClose(s, bc.0, bc.1) && b0 <= bc.0
        && forall b: nat, c: nat :: b0 <= b && IsClose(s, b, c) ==> bc.0 <= b
      case None => forall b: nat, c: nat :: b0 <= b ==> !IsClose(s, b, c)
    decreases |s| - b0
  {
    if b0 < |s| {
      CloseFromIsLeast(s, b0 + 1);
      var c0 := SkipSpaces(s, b0 + 1);
      SkipSpacesSkipsSpaces(s, b0 + 1);
      forall c: nat | IsClose(s, b0, c)
        ensures c == c0
      {
        SpacesThenStop(s, b0 + 1, c);
      }
    }
  }

  lemma MatchAtIsLeast(s: string, i: nat)
    requires i < |s|
    ensures match MatchAt(s, i)
      case Some(bc) =>
        (exists a: nat :: IsMatch(s, i, a, bc.0, bc.1))
        && forall a: nat, b: nat, c: nat :: IsMatch(s, i, a, b, c) ==> bc.0 <= b
      case None => forall a: nat, b: nat, c: nat :: !IsMatch(s, i, a, b, c)
  {
    var a0 := SkipSpaces(s, i + 1);
    SkipSpacesSkipsSpaces(s, i + 1);
    forall a: nat, b: nat, c: nat | IsMatch(s, i, a, b, c)
      ensures a == a0
    {
      SpacesThenStop(s, i + 1, a);
    }
    if s[i] == '[' && a0 < |s| && s[a0] == '{' {
      CloseFromIsLeast(s, a0 + 1);
      match CloseFrom(s, a0 + 1)
      case Some(bc) =>
        assert IsMatch(s, i, a0, bc.0, bc.1);
      case None =>
    }
  }

  lemma {:induction false} SearchFromIsLeftmost(s: string, i0: nat)
    requires i0 <= |s|
    ensures match SearchFrom(s, i0)
      case Some(span) =>
        i0 <= span.0 && MatchAt(s, span.0).Some? && span.1 == MatchAt(s, span.0).value.1 + 1
        && forall i | i0 <= i < span.0 :: MatchAt(s, i).None?
      case None => forall i | i0 <= i < |s| :: MatchAt(s, i).None?
    decreases |s| - i0
  {
    if i0 < |s| && MatchAt(s, i0).None? {
      SearchFromIsLeftmost(s, i0 + 1);
    }
  }

  /** Every instance of the pattern is seen by the anchored matcher at its
      start, with a closing `}` no later than the instance's own. */
  lemma MatchesSeenAtStart(s: string)
    ensures forall i: nat, a: nat, b: nat, c: nat | IsMatch(s, i, a, b, c) ::
      MatchAt(s, i).Some? && MatchAt(s, i).value.0 <= b
  {
    forall i: nat, a: nat, b: nat, c: nat | IsMatch(s, i, a, b, c)
      ensures MatchAt(s, i).Some? && MatchAt(s, i).value.0 <= b
    {
      MatchAtIsLeast(s, i);
    }
  }

  /** Nothing is extracted exactly when the reply has no instance of the
      pattern. */
  lemma ExtractArrayNoneIff(s: string)
    ensures ExtractArray(s).None? <==> forall i: nat, a: nat, b: nat, c: nat :: !IsMatch(s, i, a, b, c)
  {
    SearchFromIsLeftmost(s, 0);
    MatchesSeenAtStart(s);
    match SearchFrom(s, 0)
    case None =>
    case Some(span) =>
      MatchAtIsLeast(s, span.0);
  }

  /** What is extracted is the leftmost instance, and of the instances
      starting there the one with the earliest closing `}`. */
  lemma ExtractArrayFindsLeftmost(s: string)
    requires ExtractArray(s).Some?
    ensures exists i: nat, a: nat, b: nat, c: nat ::
      IsMatch(s, i, a, b, c) && ExtractArray(s).value == s[i..c + 1]
      && forall i': nat, a': nat, b': nat, c': nat :: IsMatch(s, i', a', b', c') ==> i < i' || (i == i' && b <= b')
  {
    SearchFromIsLeftmost(s, 0);
    MatchesSeenAtStart(s);
    var span := SearchFrom(s, 0).value;
    var i := span.0;
    var bc := MatchAt(s, i).value;
    MatchAtIsLeast(s, i);
    var a :| IsMatch(s, i, a, bc.0, bc.1);
    assert ExtractArray(s).value == s[i..bc.1 + 1];
  }

  /** The extracted text is the leftmost match, and of the matches starting
      there the one with the earliest closing `}`; there is no text exactly
      when the reply has no instance of the pattern. */
  lemma ExtractArrayIsLeftmostLazyMatch(s: string)
    ensures ExtractArray(s).None? <==> forall i: nat, a: nat, b: nat, c: nat :: !IsMatch(s, i, a, b, c)
    ensures ExtractArray(s).Some? ==>
      exists i: nat, a: nat, b: nat, c: nat :: IsMatch(s, i, a, b, c) && ExtractArray(s).value == s[i..c + 1]
        && forall i': nat, a': nat, b': nat, c': nat :: IsMatch(s, i', a', b', c') ==> i < i' || (i == i' && b <= b')
  {
    ExtractArrayNoneIff(s);
    if ExtractArray(s).Some? {
      ExtractArrayFindsLeftmost(s);
    }
  }

  /** Whatever is extracted starts with `[` and ends with `]`. */
  lemma ExtractedIsBracketed(s: string)
    requires ExtractArray(s).Some?
    ensures |ExtractArray(s).value| >= 4
    ensures ExtractArray(s).value[0] == '['
    ensures ExtractArray(s).value[|ExtractArray(s).value| - 1] == ']'
  {
    ExtractArrayFindsLeftmost(s);
  }

  /** In `pre + "[{" + body + "}]" + post`, with no `[` in `pre` and no `}`
      in `body`, no instance of the pattern starts before the array, and none
      starting there closes before the array's own `}`. */
  lemma ProseArrayIsFirst(pre: string, body: string, post: string)
    requires '[' !in pre && '}' !in body
    ensures var s := pre + "[{" + body + "}]" + post;
      var b := |pre| + 2 + |body|;
      IsMatch(s, |pre|, |pre| + 1, b, b + 1)
      && forall i: nat, a: nat, b': nat, c: nat :: IsMatch(s, i, a, b', c) ==> |pre| <= i && (i == |pre| ==> b <= b')
  {
    var s := pre + "[{" + body + "}]" + post;
    var i, b := |pre|, |pre| + 2 + |body|;
    assert s[i] == '[' && s[i + 1] == '{' && s[b] == '}' && s[b + 1] == ']';
    forall k | 0 <= k < i
      ensures s[k] != '['
    {
      assert s[k] == pre[k] && pre[k] in pre;
    }
    forall k | i + 2 <= k < b
      ensures s[k] != '}'
    {
      assert s[k] == body[k - i - 2] && body[k - i - 2] in body;
    }
    assert !IsSpace(s[i + 1]);
  }

  lemma ProseArraySlice(pre: string, body: string, post: string)
    ensures var s := pre + "[{" + body + "}]" + post;
      s[|pre|..|pre| + |body| + 4] == "[{" + body + "}]"
  {
    var s := pre + "[{" + body + "}]" + post;
    var arr := "[{" + body + "}]";
    var i := |pre|;
    forall k | 0 <= k < |arr|
      ensures s[i..i + |body| + 4][k] == arr[k]
    {
      if 2 <= k < 2 + |body| {
        assert s[i + k] == body[k - 2] == arr[k];
      }
    }
  }

  /** A match that no other match precedes or closes before is the one
      extracted. */
  lemma ExtractArrayIsThe(s: string, i: nat, a: nat, b: nat, c: nat)
    requires IsMatch(s, i, a, b, c)
    requires forall i': nat, a': nat, b': nat, c': nat :: IsMatch(s, i', a', b', c') ==> i <= i' && (i' == i ==> b <= b')
    ensures ExtractArray(s) == Some(s[i..c + 1])
  {
    MatchAtIsLeast(s, i);
    var bc := MatchAt(s, i).value;
    var a0: nat :| IsMatch(s, i, a0, bc.0, bc.1);
    assert bc.0 == b;
    CloseIsUnique(s, b, c, bc.1);
    SearchFromIsLeftmost(s, 0);
    var span := SearchFrom(s, 0).value;
    assert span.0 == i by {
      MatchAtIsLeast(s, span.0);
      var bc' := MatchAt(s, span.0).value;
      var a': nat :| IsMatch(s, span.0, a', bc'.0, bc'.1);
    }
  }

  /** A `}` closes the match at no more than one `]`. */
  lemma CloseIsUnique(s: string, b: nat, c: nat, c': nat)
    requires IsClose(s, b, c) && IsClose(s, b, c')
    ensures c == c'
  {
    SpacesThenStop(s, b + 1, c);
    SpacesThenStop(s, b + 1, c');
  }

  /** Prose around a single object array does not disturb the extraction:
      with no `[` before the array and no `}` inside the object, exactly the
      array text is extracted. */
  lemma ExtractArrayAmidProse(pre: string, body: string, post: string)
    requires '[' !in pre && '}' !in body
    ensures ExtractArray(pre + "[{" + body + "}]" + post) == Some("[{" + body + "}]")
  {
    var b := |pre| + 2 + |body|;
    ProseArrayIsFirst(pre, body, post);
    ProseArraySlice(pre, body, post);
    ExtractArrayIsThe(pre + "[{" + body + "}]" + post, |pre|, |pre| + 1, b, b + 1);
  }

  // ---------------------------------------------------------------------
  // Keeping the items that name an opportunity

  const NegativeKeywords: seq<string> := ["no rpa", "none", "n/a", "not identified", "informational"]

  function LowerChar(c: char): char
  {
    if 'A' <= c <= 'Z' then (c as int + 32) as char else c
  }

  /** `str.lower()` on ASCII letters; other characters are kept. */
  function Lower(s: string): (r: string)
    ensures |r| == |s|
  {
    seq(|s|, k requires 0 <= k < |s| => LowerChar(s[k]))
  }

  /** `any(keyword in text for keyword in keywords)`. */
  predicate ContainsAny(text: string, keywords: seq<string>)
    decreases |keywords|
  {
    keywords != [] && (Contains(text, keywords[0]) || ContainsAny(text, keywords[1..]))
  }

  lemma {:induction false} ContainsAnyIff(text: string, keywords: seq<string>)
    ensures ContainsAny(text, keywords) <==> exists k :: 0 <= k < |keywords| && Contains(text, keywords[k])
    decreases |keywords|
  {
    if keywords != [] {
      ContainsAnyIff(text, keywords[1..]);
      if ContainsAny(text, keywords[1..]) {
        var k :| 0 <= k < |keywords[1..]| && Contains(text, keywords[1..][k]);
        assert Contains(text, keywords[k + 1]);
      }
      forall k | 1 <= k < |keywords| && Contains(text, keywords[k])
        ensures ContainsAny(text, keywords[1..])
      {
        assert keywords[1..][k - 1] == keywords[k];
      }
    }
  }

  /** The lower-cased opportunity text names a real opportunity. */
  predicate IsOpportunity(lowered: string)
  {
    lowered != "" && !ContainsAny(lowered, NegativeKeywords)
  }

  /** What the item loop does with one item: keep it, drop it, or raise
      (an item that is not an object, or whose `rpa_opportunity` is not a
      string, makes `.get(...).lower()` fail). */
  datatype Verdict = Keep | Drop | Raise

  function Judge(item: Json): Verdict
  {
    match item
    case JObject(fields) =>
      var v := if "rpa_opportunity" in fields then fields["rpa_opportunity"] else JString("");
      (match v
       case JString(o) => if IsOpportunity(Lower(o)) then Keep else Drop
       case _ => Raise)
    case _ => Raise
  }

  /** The items appended for one decoded list: in order, up to the first item
      that raises, which ends the loop (earlier appends stay). */
  function Kept(items: seq<Json>): seq<Json>
    decreases |items|
  {
    if items == [] then []
    else match Judge(items[0])
      case Raise => []
      case Keep => [items[0]] + Kept(items[1..])
      case Drop => Kept(items[1..])
  }

  /** Index of the first item that raises, or the length if none does. */
  function FirstRaise(items: seq<Json>): (r: nat)
    ensures r <= |items|
    ensures r < |items| ==> Judge(items[r]) == Raise
    decreases |items|
  {
    if items == [] || Judge(items[0]) == Raise then 0 else 1 + FirstRaise(items[1..])
  }

  /** Reference filter, built from the back: the `Keep` items of `xs`. */
  function Filter(xs: seq<Json>): seq<Json>
    decreases |xs|
  {
    if xs == [] then []
    else
      var last := xs[|xs| - 1];
      Filter(xs[..|xs| - 1]) + (if Judge(last) == Keep then [last] else [])
  }

  lemma {:induction false} FilterMembers(xs: seq<Json>)
    ensures forall x :: x in Filter(xs) <==> x in xs && Judge(x) == Keep
    decreases |xs|
  {
    if xs != [] {
      FilterMembers(xs[..|xs| - 1]);
      assert xs == xs[..|xs| - 1] + [xs[|xs| - 1]];
    }
  }

  lemma {:induction false} FilterCons(x: Json, xs: seq<Json>)
    ensures Filter([x] + xs) == (if Judge(x) == Keep then [x] else []) + Filter(xs)
    decreases |xs|
  {
    if xs != [] {
      var init := xs[..|xs| - 1];
      assert ([x] + xs)[..|[x] + xs| - 1] == [x] + init;
      FilterCons(x, init);
    } else {
      assert ([x] + xs)[..0] == [];
    }
  }

  /** The items kept from a decoded list are exactly the `Keep` items
      before the first item that raises, in reply order. */
  lemma {:induction false} KeptIsFilterBeforeRaise(items: seq<Json>)
    ensures Kept(items) == Filter(items[..FirstRaise(items)])
    decreases |items|
  {
    if items != [] && Judge(items[0]) != Raise {
      KeptIsFilterBeforeRaise(items[1..]);
      var n := FirstRaise(items[1..]);
      assert items[..1 + n] == [items[0]] + items[1..][..n];
      FilterCons(items[0], items[1..][..n]);
    }
  }

  /** No item before `FirstRaise(items)` raises. */
  lemma {:induction false} FirstRaiseIsFirst(items: seq<Json>)
    ensures forall k :: 0 <= k < FirstRaise(items) ==> Judge(items[k]) != Raise
    decreases |items|
  {
    if items != [] && Judge(items[0]) != Raise {
      FirstRaiseIsFirst(items[1..]);
      forall k | 1 <= k < FirstRaise(items)
        ensures Judge(items[k]) != Raise
      {
        assert items[k] == items[1..][k - 1];
      }
    }
  }

  /** Every kept item names an opportunity, and when no item raises every
      item that does is kept. */
  lemma KeptMembers(items: seq<Json>)
    ensures forall x :: x in Kept(items) ==> Judge(x) == Keep
    ensures FirstRaise(items) == |items| ==>
      forall x :: x in items && Judge(x) == Keep ==> x in Kept(items)
  {
    var prefix := items[..FirstRaise(items)];
    KeptIsFilterBeforeRaise(items);
    FilterMembers(prefix);
    if FirstRaise(items) == |items| {
      assert prefix == items;
    }
  }

  /** The item loop: append the kept items of one decoded list to the
      results gathered so far. */
  method AppendKept(acc: seq<Json>, items: seq<Json>) returns (out: seq<Json>)
    ensures out == acc + Kept(items)
  {
    out := acc;
    var i := 0;
    while i < |items|
      invariant 0 <= i <= |items|
      invariant out + Kept(items[i..]) == acc + Kept(items)
    {
      var verdict := Judge(items[i]);
      if verdict == Raise {
        assert Kept(items[i..]) == [];
        break;
      }
      assert items[i..][1..] == items[i + 1..];
      if verdict == Keep {
        out := out + [items[i]];
      }
      i := i + 1;
    }
  }

  /** The items the reply yields: the decoded extracted text if it is a
      list; nothing when there is no match, the text does not decode (the
      error is caught) or the value is not a list. */
  function ItemsOf(decode: string -> Option<Json>, text: string): seq<Json>
  {
    match ExtractArray(text)
    case None => []
    case Some(j) =>
      (match decode(j)
       case Some(JArray(xs)) => xs
       case _ => [])
  }

  /** A reply with no instance of the pattern yields nothing, whatever the
      decoder does. */
  lemma NoArrayNoItems(decode: string -> Option<Json>, text: string)
    requires forall i: nat, a: nat, b: nat, c: nat :: !IsMatch(text, i, a, b, c)
    ensures ItemsOf(decode, text) == []
  {
    ExtractArrayIsLeftmostLazyMatch(text);
  }

  /** An item whose opportunity starts with "No RPA" is dropped, whatever
      its other fields. */
  lemma NoRpaIsDropped(fields: map<string, Json>, rest: string)
    requires "rpa_opportunity" in fields && fields["rpa_opportunity"] == JString("No RPA" + rest)
    ensures Judge(JObject(fields)) == Drop
  {
    var o := Lower("No RPA" + rest);
    assert o[..6] == "no rpa";
    assert Contains(o, NegativeKeywords[0]);
  }

  /** An item with no `rpa_opportunity` key reads as "" and is dropped. */
  lemma MissingOpportunityIsDropped(fields: map<string, Json>)
    requires "rpa_opportunity" !in fields
    ensures Judge(JObject(fields)) == Drop
  {
  }

  /** The object of the worked example, field by field. */
  const UrlField: string := "\"url\":\"u1\","
  const SummaryField: string := "\"summary\":\"s\","
  const OpportunityField: string := "\"rpa_opportunity\":\"Automate invoice approval\""

  lemma ExampleBodyHasNoBrace()
    ensures '}' !in UrlField + SummaryField + OpportunityField
  {
    assert '}' !in UrlField;
    assert '}' !in SummaryField;
    assert '}' !in OpportunityField;
  }

  /** A text in which every `c` is followed by something other than `d`
      contains no `t` that has `c` followed by `d` at position `j`. */
  lemma {:induction false} NoPairNoContains(s: string, t: string, j: nat, c: char, d: char)
    requires j + 1 < |t| && t[j] == c && t[j + 1] == d
    requires forall i | 0 <= i < |s| - 1 && s[i] == c :: s[i + 1] != d
    ensures !Contains(s, t)
    decreases |s|
  {
    if |t| <= |s| {
      if s[j] == c {
        assert s[..|t|][j + 1] != t[j + 1];
      } else {
        assert s[..|t|][j] != t[j];
      }
    }
    if s != [] {
      NoPairNoContains(s[1..], t, j, c, d);
    }
  }

  const ExampleOpportunity: string := "Automate invoice approval"

  /** The object the worked example's array decodes to. */
  const ExampleItem: Json :=
    JObject(map["url" := JString("u1"), "summary" := JString("s"), "rpa_opportunity" := JString(ExampleOpportunity)])

  /** In `a + "n" + b` with no other `n` or `N`, the lower-cased text has
      its only `n` followed by the lower-cased first character of `b`. */
  lemma LoneN(a: string, b: string)
    requires 'n' !in a && 'N' !in a && 'n' !in b && 'N' !in b && b != []
    ensures var lo := Lower(a + "n" + b);
      forall i | 0 <= i < |lo| - 1 && lo[i] == 'n' :: lo[i + 1] == LowerChar(b[0])
  {
    var s := a + "n" + b;
    forall i | 0 <= i < |s| - 1 && Lower(s)[i] == 'n'
      ensures i == |a|
    {
      assert s[i] == 'n' || s[i] == 'N';
    }
  }

  /** Each negative keyword has an `n` followed by `o`, `/` or `f`. */
  lemma KeywordPairs()
    ensures NegativeKeywords[0][0] == 'n' && NegativeKeywords[0][1] == 'o'
    ensures NegativeKeywords[1][0] == 'n' && NegativeKeywords[1][1] == 'o'
    ensures NegativeKeywords[2][0] == 'n' && NegativeKeywords[2][1] == '/'
    ensures NegativeKeywords[3][0] == 'n' && NegativeKeywords[3][1] == 'o'
    ensures |NegativeKeywords[4]| > 2 && NegativeKeywords[4][1] == 'n' && NegativeKeywords[4][2] == 'f'
  {
  }

  /** The example's only `n`, once lower-cased, is followed by `v`. */
  lemma ExampleLoneN()
    ensures var lo := Lower(ExampleOpportunity);
      forall i | 0 <= i < |lo| - 1 && lo[i] == 'n' :: lo[i + 1] == 'v'
  {
    assert ExampleOpportunity == "Automate i" + "n" + "voice approval";
    LoneN("Automate i", "voice approval");
  }

  /** No negative keyword occurs in the example's opportunity: its only `n`
      is followed by `v`, and every keyword has an `n` followed by `o`, `/`
      or `f`. */
  lemma ExampleHasNoNegativeKeyword()
    ensures forall k | 0 <= k < |NegativeKeywords| :: !Contains(Lower(ExampleOpportunity), NegativeKeywords[k])
  {
    var lo := Lower(ExampleOpportunity);
    ExampleLoneN();
    KeywordPairs();
    forall k | 0 <= k < |NegativeKeywords|
      ensures !Contains(lo, NegativeKeywords[k])
    {
      var j := if k == 4 then 1 else 0;
      NoPairNoContains(lo, NegativeKeywords[k], j, 'n', NegativeKeywords[k][j + 1]);
    }
  }

  /** An object whose opportunity is the example's is kept. */
  lemma ExampleOpportunityIsKept(fields: map<string, Json>)
    requires "rpa_opportunity" in fields && fields["rpa_opportunity"] == JString(ExampleOpportunity)
    ensures Judge(JObject(fields)) == Keep
  {
    ExampleHasNoNegativeKeyword();
    ContainsAnyIff(Lower(ExampleOpportunity), NegativeKeywords);
  }

  /** For the reply `Sure! Here you go: [{...}] Hope that helps!` exactly the
      array is handed to the decoder, and the object it decodes to is the
      batch's one result. */
  lemma ExampleReplyYieldsItsItem(decode: string -> Option<Json>, item: Json, pre: string, body: string, post: string)
    requires pre == "Sure! Here you go: " && post == " Hope that helps!"
    requires body == UrlField + SummaryField + OpportunityField
    requires decode("[{" + body + "}]") == Some(JArray([item]))
    requires item == ExampleItem
    ensures Kept(ItemsOf(decode, pre + "[{" + body + "}]" + post)) == [item]
  {
    ExampleOpportunityIsKept(ExampleItem.fields);
    ExampleBodyHasNoBrace();
    assert '[' !in pre;
    ExtractArrayAmidProse(pre, body, post);
    assert [item][1..] == [];
  }

  /** A character of a keyword that occurs in a text occurs in the text. */
  lemma {:induction false} ContainsChar(s: string, t: string, j: nat)
    requires Contains(s, t) && j < |t|
    ensures t[j] in s
    decreases |s|
  {
    if StartsWith(s, t) {
      assert s[j] == t[j];
    } else {
      ContainsChar(s[1..], t, j);
    }
  }

  /** Every negative keyword contains the letter `n`, so an item whose
      opportunity is non-empty and has no `n` once lower-cased is kept,
      whatever its other fields. */
  lemma OpportunityWithoutN(fields: map<string, Json>, o: string)
    requires "rpa_opportunity" in fields && fields["rpa_opportunity"] == JString(o)
    requires o != "" && 'n' !in Lower(o)
    ensures Judge(JObject(fields)) == Keep
  {
    var lowered := Lower(o);
    ContainsAnyIff(lowered, NegativeKeywords);
    forall k | 0 <= k < |NegativeKeywords|
      ensures !Contains(lowered, NegativeKeywords[k])
    {
      var j := if k == 4 then 1 else 0;
      assert NegativeKeywords[k][j] == 'n';
      if Contains(lowered, NegativeKeywords[k]) {
        ContainsChar(lowered, NegativeKeywords[k], j);
      }
    }
  }
}
