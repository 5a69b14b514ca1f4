/** The depth-bounded, depth-first site crawler (`crawl_website` and its inner
    `crawl`), with the process-wide set of visited URLs it keeps between calls. */
module Crawler {
  import opened Wrappers
  import opened Urls

  /** The raw `href` attribute of an anchor, before resolution. */
  type Href = string

  /** The part of the web the crawler sees. `pages` gives, for each URL, the
      `href`s of its anchors in document order, or `None` when fetching or
      parsing that page raises; a URL without an entry cannot be fetched
      either. `resolve` stands for resolving an `href` against the page it
      appears on. */
  datatype Site = Site(pages: map<Url, Option<seq<Href>>>, resolve: (Url, Href) -> Url)

  function Fetch(site: Site, url: Url): Option<seq<Href>>
  {
    if url in site.pages then site.pages[url] else None
  }

  function Elems<T>(s: seq<T>): set<T>
  {
    set x | x in s
  }

  predicate Distinct<T(==)>(s: seq<T>)
  {
    forall i, j :: 0 <= i < j < |s| ==> s[i] != s[j]
  }

  /** The URLs that `crawl(url, depth)` adds to the visited set, in the order
      it fetches them, when the set holds `visited` on entry. */
  function Order(site: Site, start: Url, maxDepth: int, visited: set<Url>, url: Url, depth: nat): seq<Url>
    decreases maxDepth - depth + 1, 1, 0
  {
    if depth > maxDepth || url in visited then []
    else
      [url] + match Fetch(site, url)
        case None => []
        case Some(hrefs) => Children(site, start, maxDepth, visited + {url}, url, hrefs, depth)
  }

  /** The URLs that the loop over the anchors `hrefs` of `page` (itself at
      `depth`) adds, in order, each accepted link crawled at `depth + 1`. */
  function Children(site: Site, start: Url, maxDepth: int, visited: set<Url>, page: Url, hrefs: seq<Href>, depth: nat): seq<Url>
    requires depth <= maxDepth
    decreases maxDepth - depth + 1, 0, |hrefs|
  {
    if hrefs == [] then []
    else
      var first := Follow(site, start, maxDepth, visited, site.resolve(page, hrefs[0]), depth + 1);
      first + Children(site, start, maxDepth, visited + Elems(first), page, hrefs[1..], depth)
  }

  /** What following one resolved link `target` adds: its crawl at `depth`
      when it is accepted against the seed, nothing otherwise. */
  function Follow(site: Site, start: Url, maxDepth: int, visited: set<Url>, target: Url, depth: nat): seq<Url>
    requires depth <= maxDepth + 1
    decreases maxDepth - depth + 1, 1, 1
  {
    if IsValidInternalLink(start, target) then Order(site, start, maxDepth, visited, target, depth) else []
  }

  /** One turn of the loop over the anchors of a page: once the crawl of the
      link at `i` is appended, the rest of the loop still yields the total. */
  lemma ChildrenStep(site: Site, start: Url, maxDepth: int, base: set<Url>, page: Url, hrefs: seq<Href>,
                     i: nat, depth: nat, done: seq<Url>, visited: set<Url>)
    requires depth <= maxDepth && i < |hrefs|
    requires done + Children(site, start, maxDepth, visited, page, hrefs[i..], depth)
             == Children(site, start, maxDepth, base, page, hrefs, depth)
    ensures var step := Follow(site, start, maxDepth, visited, site.resolve(page, hrefs[i]), depth + 1);
      (done + step) + Children(site, start, maxDepth, visited + Elems(step), page, hrefs[i + 1..], depth)
      == Children(site, start, maxDepth, base, page, hrefs, depth)
  {
    assert hrefs[i..][1..] == hrefs[i + 1..];
    var step := Follow(site, start, maxDepth, visited, site.resolve(page, hrefs[i]), depth + 1);
    ConcatAssoc(done, step, Children(site, start, maxDepth, visited + Elems(step), page, hrefs[i + 1..], depth));
  }

  lemma ElemsConcat<T>(a: seq<T>, b: seq<T>)
    ensures Elems(a + b) == Elems(a) + Elems(b)
  {
  }

  lemma ConcatAssoc<T>(a: seq<T>, b: seq<T>, c: seq<T>)
    ensures a + b + c == a + (b + c)
  {
  }

  /** Requesting a URL not requested before keeps the log free of repeats. */
  lemma LogFreshUrl(log: seq<Url>, url: Url)
    requires Distinct(log) && url !in Elems(log)
    ensures Distinct(log + [url]) && Elems(log + [url]) == Elems(log) + {url}
  {
  }

  /** `to` can be reached from `from` by following at most `hops` accepted
      links of pages that can be fetched. */
  ghost predicate Reachable(site: Site, start: Url, from: Url, to: Url, hops: nat)
    decreases hops
  {
    from == to ||
    (hops > 0 && Fetch(site, from).Some? &&
     exists h :: h in Fetch(site, from).value &&
       IsValidInternalLink(start, site.resolve(from, h)) &&
       Reachable(site, start, site.resolve(from, h), to, hops - 1))
  }

  lemma DistinctConcat<T>(a: seq<T>, b: seq<T>)
    requires Distinct(a) && Distinct(b)
    requires forall x :: x in b ==> x !in a
    ensures Distinct(a + b)
  {
    forall i, j | 0 <= i < j < |a + b|
      ensures (a + b)[i] != (a + b)[j]
    {
      if j < |a| {
      } else if i >= |a| {
        assert (a + b)[i] == b[i - |a|] && (a + b)[j] == b[j - |a|];
      } else {
        assert (a + b)[i] == a[i] && a[i] in a;
        assert (a + b)[j] == b[j - |a|] && b[j - |a|] in b;
      }
    }
  }

  /** A crawl requests each URL at most once, and never one that was already
      visited when it began, by this call or an earlier one in the process. */
  lemma {:induction false} OrderFresh(site: Site, start: Url, maxDepth: int, visited: set<Url>, url: Url, depth: nat)
    decreases maxDepth - depth + 1, 1, 0
    ensures Distinct(Order(site, start, maxDepth, visited, url, depth))
    ensures forall x :: x in Order(site, start, maxDepth, visited, url, depth) ==> x !in visited
  {
    if depth <= maxDepth && url !in visited {
      match Fetch(site, url)
      case None =>
      case Some(hrefs) =>
        ChildrenFresh(site, start, maxDepth, visited + {url}, url, hrefs, depth);
        DistinctConcat([url], Children(site, start, maxDepth, visited + {url}, url, hrefs, depth));
    }
  }

  lemma {:induction false} ChildrenFresh(site: Site, start: Url, maxDepth: int, visited: set<Url>, page: Url, hrefs: seq<Href>, depth: nat)
    requires depth <= maxDepth
    decreases maxDepth - depth + 1, 0, |hrefs|
    ensures Distinct(Children(site, start, maxDepth, visited, page, hrefs, depth))
    ensures forall x :: x in Children(site, start, maxDepth, visited, page, hrefs, depth) ==> x !in visited
  {
    if hrefs != [] {
      var target := site.resolve(page, hrefs[0]);
      var first := Follow(site, start, maxDepth, visited, target, depth + 1);
      if IsValidInternalLink(start, target) {
        OrderFresh(site, start, maxDepth, visited, target, depth + 1);
      }
      ChildrenFresh(site, start, maxDepth, visited + Elems(first), page, hrefs[1..], depth);
      DistinctConcat(first, Children(site, start, maxDepth, visited + Elems(first), page, hrefs[1..], depth));
    }
  }

  /** Every URL a crawl adds lies within the depth bound: it is reachable
      from `url` in at most `maxDepth - depth` accepted links, and every one
      but `url` itself was accepted against the seed. */
  lemma {:induction false} OrderReachable(site: Site, start: Url, maxDepth: int, visited: set<Url>, url: Url, depth: nat)
    decreases maxDepth - depth + 1, 1, 0
    ensures forall x :: x in Order(site, start, maxDepth, visited, url, depth) ==>
      depth <= maxDepth && Reachable(site, start, url, x, maxDepth - depth) &&
      (x == url || IsValidInternalLink(start, x))
  {
    if depth <= maxDepth && url !in visited {
      match Fetch(site, url)
      case None =>
      case Some(hrefs) =>
        ChildrenReachable(site, start, maxDepth, visited + {url}, url, hrefs, depth);
    }
  }

  lemma {:induction false} ChildrenReachable(site: Site, start: Url, maxDepth: int, visited: set<Url>, page: Url, hrefs: seq<Href>, depth: nat)
    requires depth <= maxDepth
    decreases maxDepth - depth + 1, 0, |hrefs|
    ensures forall x :: x in Children(site, start, maxDepth, visited, page, hrefs, depth) ==>
      depth < maxDepth && IsValidInternalLink(start, x) &&
      exists h :: h in hrefs && IsValidInternalLink(start, site.resolve(page, h)) &&
        Reachable(site, start, site.resolve(page, h), x, maxDepth - depth - 1)
  {
    if hrefs != [] {
      var target := site.resolve(page, hrefs[0]);
      var first := Follow(site, start, maxDepth, visited, target, depth + 1);
      if IsValidInternalLink(start, target) {
        OrderReachable(site, start, maxDepth, visited, target, depth + 1);
      }
      ChildrenReachable(site, start, maxDepth, visited + Elems(first), page, hrefs[1..], depth);
      forall x | x in Children(site, start, maxDepth, visited + Elems(first), page, hrefs[1..], depth)
        ensures exists h :: (h in hrefs && IsValidInternalLink(start, site.resolve(page, h)) &&
          Reachable(site, start, site.resolve(page, h), x, maxDepth - depth - 1))
      {
        var h :| h in hrefs[1..] && IsValidInternalLink(start, site.resolve(page, h)) &&
          Reachable(site, start, site.resolve(page, h), x, maxDepth - depth - 1);
        assert h in hrefs;
      }
      forall x | x in first
        ensures exists h :: (h in hrefs && IsValidInternalLink(start, site.resolve(page, h)) &&
          Reachable(site, start, site.resolve(page, h), x, maxDepth - depth - 1))
      {
        assert hrefs[0] in hrefs;
      }
    }
  }

  /** The loop over a page's anchors reaches every accepted link one level
      deeper: a link whose own request fails, or whose crawl is cut short,
      does not keep the links after it from being visited. */
  lemma {:induction false} ChildrenCoverLinks(site: Site, start: Url, maxDepth: int, visited: set<Url>, page: Url, hrefs: seq<Href>, depth: nat)
    requires depth < maxDepth
    decreases |hrefs|
    ensures forall h :: h in hrefs && IsValidInternalLink(start, site.resolve(page, h)) ==>
      site.resolve(page, h) in visited + Elems(Children(site, start, maxDepth, visited, page, hrefs, depth))
  {
    if hrefs != [] {
      var first := Follow(site, start, maxDepth, visited, site.resolve(page, hrefs[0]), depth + 1);
      var rest := Children(site, start, maxDepth, visited + Elems(first), page, hrefs[1..], depth);
      ChildrenCoverLinks(site, start, maxDepth, visited + Elems(first), page, hrefs[1..], depth);
      ElemsConcat(first, rest);
      forall h | h in hrefs && IsValidInternalLink(start, site.resolve(page, h))
        ensures site.resolve(page, h) in visited + Elems(first + rest)
      {
        if h == hrefs[0] {
          FollowVisitsTarget(site, start, maxDepth, visited, h, page, depth + 1);
        } else {
          assert h in hrefs[1..];
        }
      }
    }
  }

  /** Following an accepted link within the depth bound leaves it visited. */
  lemma FollowVisitsTarget(site: Site, start: Url, maxDepth: int, visited: set<Url>, h: Href, page: Url, depth: nat)
    requires depth <= maxDepth
    requires IsValidInternalLink(start, site.resolve(page, h))
    ensures site.resolve(page, h) in visited + Elems(Follow(site, start, maxDepth, visited, site.resolve(page, h), depth))
  {
  }

  /** A page whose request fails is still visited, but nothing below it. */
  lemma FailedFetchEndsBranch(site: Site, start: Url, maxDepth: int, visited: set<Url>, url: Url, depth: nat)
    requires depth <= maxDepth && url !in visited && Fetch(site, url).None?
    ensures Order(site, start, maxDepth, visited, url, depth) == [url]
  {
  }

  /** A page fetched below the depth bound has every accepted link on it
      visited, whether by this crawl or before it. */
  lemma OrderCoversLinks(site: Site, start: Url, maxDepth: int, visited: set<Url>, url: Url, depth: nat, h: Href)
    requires depth < maxDepth && url !in visited
    requires Fetch(site, url).Some? && h in Fetch(site, url).value
    requires IsValidInternalLink(start, site.resolve(url, h))
    ensures site.resolve(url, h) in visited + Elems(Order(site, start, maxDepth, visited, url, depth))
  {
    var hrefs := Fetch(site, url).value;
    var c := Children(site, start, maxDepth, visited + {url}, url, hrefs, depth);
    ChildrenCoverLinks(site, start, maxDepth, visited + {url}, url, hrefs, depth);
    ElemsConcat([url], c);
  }

  /** The module-level state of the crawler: the visited set that every call
      of `crawl_website` in the process shares. `fetched` records, in order,
      every URL the crawler has requested. */
  class CrawlerState {
    var visited: set<Url>
    ghost var fetched: seq<Url>

    /** Every visited URL was requested exactly once, and nothing else was. */
    ghost predicate Valid()
      reads this
    {
      visited == Elems(fetched) && Distinct(fetched)
    }

    constructor ()
      ensures Valid() && visited == {} && fetched == []
    {
      visited := {};
      fetched := [];
    }

    /** The inner `crawl(url, depth)`: it gives up on a URL that is too deep
        or already visited, marks `url` visited before requesting it, and on a
        successful request follows the page's anchors; a failed request ends
        this branch only. */
    method Crawl(site: Site, start: Url, maxDepth: int, url: Url, depth: nat)
      requires Valid()
      modifies this
      decreases maxDepth - depth + 1, 1
      ensures Valid()
      ensures fetched == old(fetched) + Order(site, start, maxDepth, old(visited), url, depth)
      ensures visited == old(visited) + Elems(Order(site, start, maxDepth, old(visited), url, depth))
    {
      if depth > maxDepth || url in visited {
        return;
      }
      LogFreshUrl(fetched, url);
      visited := visited + {url};
      fetched := fetched + [url];
      var page := Fetch(site, url);
      if page.Some? {
        FollowLinks(site, start, maxDepth, url, page.value, depth);
        ConcatAssoc(old(fetched), [url], Children(site, start, maxDepth, old(visited) + {url}, url, page.value, depth));
        ElemsConcat([url], Children(site, start, maxDepth, old(visited) + {url}, url, page.value, depth));
      }
    }

    /** The loop `for tag in links` of `crawl`: resolve each `href` against
        `page`, and crawl it one level deeper when it is accepted against the
        seed, in document order. */
    method FollowLinks(site: Site, start: Url, maxDepth: int, page: Url, hrefs: seq<Href>, depth: nat)
      requires Valid() && depth <= maxDepth
      modifies this
      decreases maxDepth - depth + 1, 0
      ensures Valid()
      ensures fetched == old(fetched) + Children(site, start, maxDepth, old(visited), page, hrefs, depth)
      ensures visited == old(visited) + Elems(Children(site, start, maxDepth, old(visited), page, hrefs, depth))
    {
      ghost var done: seq<Url> := [];
      var i := 0;
      while i < |hrefs|
        invariant 0 <= i <= |hrefs|
        invariant Valid()
        invariant fetched == old(fetched) + done
        invariant visited == old(visited) + Elems(done)
        invariant done + Children(site, start, maxDepth, visited, page, hrefs[i..], depth)
                  == Children(site, start, maxDepth, old(visited), page, hrefs, depth)
      {
        var target := site.resolve(page, hrefs[i]);
        ghost var before, beforeLog := visited, fetched;
        ghost var step := Follow(site, start, maxDepth, visited, target, depth + 1);
        if IsValidInternalLink(start, target) {
          Crawl(site, start, maxDepth, target, depth + 1);
        }
        assert visited == before + Elems(step) && fetched == beforeLog + step;
        ChildrenStep(site, start, maxDepth, old(visited), page, hrefs, i, depth, done, before);
        ConcatAssoc(old(fetched), done, step);
        ElemsConcat(done, step);
        done := done + step;
        i := i + 1;
      }
      assert hrefs[i..] == [];
    }

    /** `crawl_website(start_url, max_depth)`: crawl from the seed at depth 0
        and return every URL visited so far in the process. */
    method CrawlWebsite(site: Site, start: Url, maxDepth: int) returns (result: set<Url>)
      requires Valid()
      modifies this
      ensures Valid()
      ensures fetched == old(fetched) + Order(site, start, maxDepth, old(visited), start, 0)
      ensures result == visited == old(visited) + Elems(Order(site, start, maxDepth, old(visited), start, 0))
    {
      Crawl(site, start, maxDepth, start, 0);
      result := visited;
    }
  }
}
