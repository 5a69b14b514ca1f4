/** The same-site link test of the crawler (`is_valid_internal_link`), with the
    part of the standard URL splitter it relies on: the network location
    ("netloc", the authority after `scheme://`). */
module Urls {
  import opened Strings

  type Url = string

  /** Index of the first occurrence of `c` in `s` at or after `from`, or `|s|`. */
  function IndexOf(s: string, c: char, from: nat): (r: nat)
    requires from <= |s|
    ensures from <= r <= |s|
    ensures r < |s| ==> s[r] == c
    decreases |s| - from
  {
    if from == |s| || s[from] == c then from else IndexOf(s, c, from + 1)
  }

  /** `IndexOf` finds the first occurrence: none lies before it. */
  lemma {:induction false} IndexOfIsFirst(s: string, c: char, from: nat)
    requires from <= |s|
    ensures forall k :: from <= k < IndexOf(s, c, from) ==> s[k] != c
    decreases |s| - from
  {
    if from < |s| && s[from] != c {
      IndexOfIsFirst(s, c, from + 1);
    }
  }

  predicate IsAsciiLetter(c: char)
  {
    'a' <= c <= 'z' || 'A' <= c <= 'Z'
  }

  /** Characters allowed in a URL scheme. */
  predicate IsSchemeChar(c: char)
  {
    IsAsciiLetter(c) || '0' <= c <= '9' || c == '+' || c == '-' || c == '.'
  }

  /** Characters that end the authority part of a URL. */
  predicate IsAuthorityDelimiter(c: char)
  {
    c == '/' || c == '?' || c == '#'
  }

  /** Every character of `s` may appear in a scheme. */
  predicate AllSchemeChars(s: string)
  {
    s == [] || (IsSchemeChar(s[0]) && AllSchemeChars(s[1..]))
  }

  lemma {:induction false} AllSchemeCharsAt(s: string)
    ensures AllSchemeChars(s) <==> forall k :: 0 <= k < |s| ==> IsSchemeChar(s[k])
  {
    if s != [] {
      AllSchemeCharsAt(s[1..]);
      assert forall k :: 1 <= k < |s| ==> s[k] == s[1..][k - 1];
    }
  }

  /** True when `url` begins with a scheme followed by ':' that ends at index `i`. */
  predicate HasSchemeEndingAt(url: string, i: nat)
  {
    0 < i < |url| && url[i] == ':' && IsAsciiLetter(url[0]) && AllSchemeChars(url[..i])
  }

  /** What the splitter parses after removing the scheme: the text after the
      first ':' when everything before it is a valid scheme, otherwise `url`. */
  function AfterScheme(url: string): (rest: string)
    ensures |rest| <= |url|
  {
    var i := IndexOf(url, ':', 0);
    if HasSchemeEndingAt(url, i) then url[i + 1..] else url
  }

  /** First index at or after `from` holding an authority delimiter, or `|s|`. */
  function AuthorityEnd(s: string, from: nat): (r: nat)
    requires from <= |s|
    ensures from <= r <= |s|
    ensures r < |s| ==> IsAuthorityDelimiter(s[r])
    decreases |s| - from
  {
    if from == |s| || IsAuthorityDelimiter(s[from]) then from else AuthorityEnd(s, from + 1)
  }

  /** `AuthorityEnd` stops at the first delimiter: none lies before it. */
  lemma {:induction false} AuthorityEndIsFirst(s: string, from: nat)
    requires from <= |s|
    ensures forall k :: from <= k < AuthorityEnd(s, from) ==> !IsAuthorityDelimiter(s[k])
    decreases |s| - from
  {
    if from < |s| && !IsAuthorityDelimiter(s[from]) {
      AuthorityEndIsFirst(s, from + 1);
    }
  }

  /** The network location of `url`: the text between a leading "//" (after
      the scheme, if any) and the next '/', '?' or '#'; empty when there is no "//". */
  function Netloc(url: string): string
  {
    Authority(AfterScheme(url))
  }

  /** The authority of what follows the scheme: the text after a leading
      "//" up to the next delimiter, or empty. */
  function Authority(rest: string): string
  {
    if StartsWith(rest, "//") then rest[2..AuthorityEnd(rest, 2)] else ""
  }

  /** Whether the crawler may follow `link` from a site whose seed is `base`. */
  predicate IsValidInternalLink(base: Url, link: Url)
  {
    if link == [] || StartsWith(link, "javascript:") || StartsWith(link, "#") then false
    else Netloc(link) == "" || Netloc(link) == Netloc(base)
  }

  /** The test rejects empty, "javascript:" and fragment-only links outright,
      and otherwise accepts a link exactly when it has no network location or
      the seed's network location. */
  lemma LinkTestCases(base: Url, link: Url)
    ensures link == [] ==> !IsValidInternalLink(base, link)
    ensures StartsWith(link, "javascript:") ==> !IsValidInternalLink(base, link)
    ensures StartsWith(link, "#") ==> !IsValidInternalLink(base, link)
    ensures link != [] && !StartsWith(link, "javascript:") && !StartsWith(link, "#") ==>
      (IsValidInternalLink(base, link) <==> Netloc(link) == "" || Netloc(link) == Netloc(base))
  {
  }

  /** `IndexOf` is unaffected by text appended after an occurrence. */
  lemma {:induction false} IndexOfAppend(s: string, t: string, c: char, from: nat)
    requires from <= |s|
    requires IndexOf(s, c, from) < |s|
    ensures IndexOf(s + t, c, from) == IndexOf(s, c, from)
    decreases |s| - from
  {
    if s[from] != c {
      IndexOfAppend(s, t, c, from + 1);
    }
  }

  /** Without a ':' in `s`, the first ':' of `s + t` lies in `t`. */
  lemma {:induction false} IndexOfPastPrefix(s: string, t: string, c: char, from: nat)
    requires from <= |s|
    requires IndexOf(s, c, from) == |s|
    ensures IndexOf(s + t, c, from) >= |s|
    decreases |s| - from
  {
    if from < |s| {
      IndexOfPastPrefix(s, t, c, from + 1);
    }
  }

  /** `AuthorityEnd` is unaffected by text appended after a delimiter, and
      appending text that begins with a delimiter stops it at the seam. */
  lemma {:induction false} AuthorityEndAppend(s: string, t: string, from: nat)
    requires from <= |s|
    requires t != [] && IsAuthorityDelimiter(t[0])
    ensures AuthorityEnd(s + t, from) == AuthorityEnd(s, from)
    decreases |s| - from
  {
    if from < |s| && !IsAuthorityDelimiter(s[from]) {
      AuthorityEndAppend(s, t, from + 1);
    }
  }

  /** A prefix test that fits inside `s` ignores what is appended to `s`. */
  lemma StartsWithAppend(s: string, t: string, p: string)
    requires |p| <= |s|
    ensures StartsWith(s + t, p) == StartsWith(s, p)
  {
    assert (s + t)[..|p|] == s[..|p|];
  }

  /** The first ':' of "scheme:..." is the one right after the scheme. */
  lemma SchemeColon(scheme: string, rest: string)
    requires scheme != [] && IsAsciiLetter(scheme[0])
    requires forall k :: 0 <= k < |scheme| ==> IsSchemeChar(scheme[k])
    requires rest != [] && rest[0] == ':'
    ensures IndexOf(scheme + rest, ':', 0) == |scheme|
    ensures HasSchemeEndingAt(scheme + rest, |scheme|)
    ensures AfterScheme(scheme + rest) == rest[1..]
  {
    var url := scheme + rest;
    assert forall k :: 0 <= k < |scheme| ==> url[k] == scheme[k] && url[k] != ':';
    assert url[|scheme|] == ':';
    IndexOfIsFirst(url, ':', 0);
    assert url[..|scheme|] == scheme;
    AllSchemeCharsAt(scheme);
    assert url[|scheme| + 1..] == rest[1..];
  }

  /** The authority of "//host..." ends right after `host`. */
  lemma AuthorityEndAfterHost(host: string, tail: string)
    requires forall k :: 0 <= k < |host| ==> !IsAuthorityDelimiter(host[k])
    requires tail == [] || IsAuthorityDelimiter(tail[0])
    ensures AuthorityEnd("//" + host + tail, 2) == |host| + 2
  {
    var rest := "//" + host + tail;
    AuthorityEndIsFirst(rest, 2);
    assert forall k :: 2 <= k < |host| + 2 ==> rest[k] == host[k - 2];
    if tail != [] {
      assert rest[|host| + 2] == tail[0];
    }
  }

  /** Splitting "scheme://host/..." yields `host` as its network location. */
  lemma NetlocOfAbsolute(scheme: string, host: string, tail: string)
    requires scheme != [] && IsAsciiLetter(scheme[0])
    requires forall k :: 0 <= k < |scheme| ==> IsSchemeChar(scheme[k])
    requires forall k :: 0 <= k < |host| ==> !IsAuthorityDelimiter(host[k])
    requires tail == [] || IsAuthorityDelimiter(tail[0])
    ensures Netloc(scheme + "://" + host + tail) == host
  {
    var rest := "//" + host + tail;
    assert scheme + "://" + host + tail == scheme + (":" + rest);
    SchemeColon(scheme, ":" + rest);
    assert (":" + rest)[1..] == rest;
    AuthorityOfHost(host, tail);
  }

  /** The authority of "//host..." is `host`. */
  lemma AuthorityOfHost(host: string, tail: string)
    requires forall k :: 0 <= k < |host| ==> !IsAuthorityDelimiter(host[k])
    requires tail == [] || IsAuthorityDelimiter(tail[0])
    ensures Authority("//" + host + tail) == host
  {
    var rest := "//" + host + tail;
    assert rest[..2] == "//";
    AuthorityEndAfterHost(host, tail);
    assert rest[2..|host| + 2] == host;
  }

  /** A link with no ':' and no leading "//" (a relative path such as "/y"
      or "page.html") has no network location. */
  lemma NetlocOfRelative(path: string)
    requires !StartsWith(path, "//")
    requires forall k :: 0 <= k < |path| ==> path[k] != ':'
    ensures Netloc(path) == ""
  {
    assert IndexOf(path, ':', 0) == |path|;
  }

  /** Appending a fragment "#..." does not change where the scheme ends. */
  lemma AfterSchemeIgnoresFragment(url: string, fragment: string)
    ensures AfterScheme(url + ("#" + fragment)) == AfterScheme(url) + ("#" + fragment)
  {
    var long := url + ("#" + fragment);
    var i := IndexOf(url, ':', 0);
    if i < |url| {
      IndexOfAppend(url, "#" + fragment, ':', 0);
      assert forall k :: 0 <= k < i ==> long[k] == url[k];
      assert long[i] == url[i];
      assert long[..i] == url[..i];
      assert HasSchemeEndingAt(long, i) == HasSchemeEndingAt(url, i);
      assert long[i + 1..] == url[i + 1..] + ("#" + fragment);
    } else {
      IndexOfPastPrefix(url, "#" + fragment, ':', 0);
      var j := IndexOf(long, ':', 0);
      assert long[|url|] == '#';
      assert !HasSchemeEndingAt(long, j) by {
        if j > |url| {
          AllSchemeCharsAt(long[..j]);
          assert long[..j][|url|] == '#';
        }
      }
    }
  }

  /** Appending text that begins with '#' leaves an authority unchanged. */
  lemma AuthorityIgnoresFragment(rest: string, tail: string)
    requires tail != [] && tail[0] == '#'
    ensures Authority(rest + tail) == Authority(rest)
  {
    if |rest| >= 2 {
      StartsWithAppend(rest, tail, "//");
      if StartsWith(rest, "//") {
        AuthorityEndAppend(rest, tail, 2);
        assert (rest + tail)[2..AuthorityEnd(rest, 2)] == rest[2..AuthorityEnd(rest, 2)];
      }
    } else {
      assert (rest + tail)[|rest|] == '#';
    }
  }

  /** Appending a fragment "#..." to a URL leaves its network location unchanged. */
  lemma NetlocIgnoresFragment(url: string, fragment: string)
    ensures Netloc(url + "#" + fragment) == Netloc(url)
  {
    assert url + "#" + fragment == url + ("#" + fragment);
    AfterSchemeIgnoresFragment(url, fragment);
    AuthorityIgnoresFragment(AfterScheme(url), "#" + fragment);
  }

  /** Appending a fragment keeps a URL clear of the two rejected prefixes. */
  lemma FragmentKeepsPrefixTests(base: Url, fragment: string)
    requires base != [] && !StartsWith(base, "javascript:") && !StartsWith(base, "#")
    ensures !StartsWith(base + "#" + fragment, "javascript:")
    ensures !StartsWith(base + "#" + fragment, "#")
  {
    var link := base + "#" + fragment;
    assert link == base + ("#" + fragment);
    StartsWithAppend(base, "#" + fragment, "#");
    if |base| >= 11 {
      StartsWithAppend(base, "#" + fragment, "javascript:");
    } else {
      assert link[|base|] == '#';
      assert forall k :: 0 <= k < 11 ==> "javascript:"[k] != '#';
    }
  }

  /** The page itself with a fragment is internal to it, unless the seed is
      empty or is itself rejected by its prefix. */
  lemma FragmentLinkIsInternal(base: Url, fragment: string)
    requires base != [] && !StartsWith(base, "javascript:") && !StartsWith(base, "#")
    ensures IsValidInternalLink(base, base + "#" + fragment)
  {
    FragmentKeepsPrefixTests(base, fragment);
    NetlocIgnoresFragment(base, fragment);
  }

  /** A URL that starts with a scheme and a ':' starts with "javascript:"
      exactly when the scheme is "javascript". */
  lemma JavascriptScheme(scheme: string, rest: string)
    requires forall k :: 0 <= k < |scheme| ==> IsSchemeChar(scheme[k])
    requires rest != [] && rest[0] == ':'
    ensures StartsWith(scheme + rest, "javascript:") <==> scheme == "javascript"
  {
    var url := scheme + rest;
    if |scheme| < 10 {
      assert url[|scheme|] == ':';
      assert "javascript:"[|scheme|] != ':';
    } else if |scheme| > 10 {
      assert url[10] == scheme[10] != ':';
    } else if scheme == "javascript" {
      assert url[..11] == "javascript:";
    } else {
      assert url[..10] == scheme;
    }
  }

  /** "scheme://..." is never empty nor fragment-only, and starts with
      "javascript:" exactly when the scheme is "javascript". */
  lemma AbsolutePrefixTests(scheme: string, host: string, tail: string)
    requires scheme != [] && IsAsciiLetter(scheme[0])
    requires forall k :: 0 <= k < |scheme| ==> IsSchemeChar(scheme[k])
    ensures scheme + "://" + host + tail != [] && !StartsWith(scheme + "://" + host + tail, "#")
    ensures StartsWith(scheme + "://" + host + tail, "javascript:") <==> scheme == "javascript"
  {
    var link := scheme + "://" + host + tail;
    assert link == scheme + ("://" + host + tail);
    JavascriptScheme(scheme, "://" + host + tail);
    assert link[0] == scheme[0];
  }
  lemma AbsoluteLinkIsInternalIffSameHost(
    baseScheme: string, baseHost: string, baseTail: string,
    scheme: string, host: string, tail: string)
    requires baseScheme != [] && IsAsciiLetter(baseScheme[0])
    requires forall k :: 0 <= k < |baseScheme| ==> IsSchemeChar(baseScheme[k])
    requires forall k :: 0 <= k < |baseHost| ==> !IsAuthorityDelimiter(baseHost[k])
    requires baseTail == [] || IsAuthorityDelimiter(baseTail[0])
    requires scheme != [] && IsAsciiLetter(scheme[0])
    requires forall k :: 0 <= k < |scheme| ==> IsSchemeChar(scheme[k])
    requires forall k :: 0 <= k < |host| ==> !IsAuthorityDelimiter(host[k])
    requires tail == [] || IsAuthorityDelimiter(tail[0])
    ensures IsValidInternalLink(baseScheme + "://" + baseHost + baseTail, scheme + "://" + host + tail)
        <==> scheme != "javascript" && (host == "" || host == baseHost)
  {
    NetlocOfAbsolute(baseScheme, baseHost, baseTail);
    NetlocOfAbsolute(scheme, host, tail);
    AbsolutePrefixTests(scheme, host, tail);
  }

  /** Examples of the link test, seeded at "http://a.com/x". */
  lemma ExampleSamePageFragment()
    ensures IsValidInternalLink("http://a.com/x", "http://a.com/x#section")
  {
    var base := "http://a.com/x";
    assert base[0] == 'h';
    assert !StartsWith(base, "javascript:") by { assert base[..11][0] != 'j'; }
    FragmentLinkIsInternal(base, "section");
    assert base + "#" + "section" == "http://a.com/x#section";
  }

  lemma ExampleJavascriptLink()
    ensures !IsValidInternalLink("http://a.com/x", "javascript:void(0)")
  {
    assert "javascript:void(0)"[..11] == "javascript:";
  }

  lemma ExampleOtherHost()
    ensures !IsValidInternalLink("http://a.com/x", "http://b.com/y")
  {
    AbsoluteLinkIsInternalIffSameHost("http", "a.com", "/x", "http", "b.com", "/y");
    assert "http" + "://" + "a.com" + "/x" == "http://a.com/x";
    assert "http" + "://" + "b.com" + "/y" == "http://b.com/y";
  }

  lemma ExampleRelativePath()
    ensures IsValidInternalLink("http://a.com/x", "/y")
  {
    assert "/y"[1] == 'y';
    assert !StartsWith("/y", "//") by { assert "/y"[..2][1] != '/'; }
    NetlocOfRelative("/y");
    assert !StartsWith("/y", "javascript:");
    assert !StartsWith("/y", "#") by { assert "/y"[0] == '/'; }
  }
}
