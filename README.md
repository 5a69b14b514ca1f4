# RPA Business Opportunity Finder — crawl-then-classify core in Dafny

This project models the pipeline of `crawler_async.py` that finds pages describing automatable business processes:

- **`is_valid_internal_link`** (module `Urls`) decides whether a link is a same-site, followable link. It rejects empty links, `javascript:` links and bare fragments. Otherwise it compares the network location that `urlparse` gives the link with that of the base URL. A link with no network location always counts as internal.
- **`crawl_website`** (module `Crawler`) is a depth-first, depth-bounded crawl from a seed URL:
  - The process-wide `visited_urls` set is the field `visited` of the class `CrawlerState`. A URL that is already visited, or deeper than `max_depth`, is not crawled.
  - Every other URL is added to the set before its page is requested.
  - Each link is resolved against the current page, filtered against the *seed*, and crawled one level deeper.
  - A failed request abandons that page only.
  - The result is the whole set, including URLs visited by earlier calls.
- **`filter_relevant_urls_with_openai`** (modules `Classifier` and `Reply`) is the batched classifier:
  - It splits the URL list into batches and checks the disconnect probe before and after each batch.
  - It collects an 800-character preview of each page, skipping empty ones. It skips the batch when no preview is left.
  - It joins the previews into one prompt behind the caller's prompt or the default instruction, and sends it to the model.
  - It extracts the first `\[\s*{.*?}\s*\]` match (lazy, across lines) from the reply and decodes it.
  - It keeps the items whose lower-cased `rpa_opportunity` is non-empty and contains none of `no rpa`, `none`, `n/a`, `not identified` or `informational`.

The crawl is specified by the functions `Order`/`Children`/`Follow` (the URLs requested, in order). The method `CrawlerState.Crawl` is proved to append exactly `Order` to its log of requests and to the visited set. The classifier is specified by the function `Run`, the batch loop as a recursion, and its result `Outcome` records three things: the returned items, the URLs whose preview was requested, and the prompts sent. The methods `FilterRelevantUrls`, `RunBatches`, `ProcessBatch`, `CollectPreviews` and `AppendKept` keep the source's loops and are proved equal to those functions. The properties are proved about the functions.

Everything outside the program's own code is a parameter of the model: the network, HTML parsing, `urljoin`, `json.loads`, the model service and the disconnect callback. They are described under "Left out".

Four facts about the code shape the model:
- **Reply extraction.** The pattern's `.*?` is lazy, so the match ends at the first `}` that is followed by optional white space and `]`.
- **Batch size.** A negative size makes `range` empty, so nothing is fetched and nothing is returned (`Classify` yields `NoOutcome`). A size of 0 raises, so the model requires `batchSize != 0`.
- **Returned URLs.** The crawler returns the process-wide set, which includes URLs visited by earlier calls. `CrawlWebsite` states the result as the old set plus the URLs newly crawled, and `OrderReachable` states that the new ones are reachable from the seed.
- **Result URLs.** The `url` field of a returned item is never checked against the input list: the items are whatever the model's reply contains (see `Reply.ExampleReplyYieldsItsItem`).

## Model

| member | source | states |
|---|---|---|
| Urls.LinkTestCases | crawler_async.py:17-22 | an empty link, a `javascript:` link and a link starting with `#` are rejected; any other link is accepted iff its netloc is empty or equals the base's netloc |
| Urls.IndexOf | crawler_async.py:20-21 | the scheme split looks for the first `:`; the result is within bounds and, when below the length, points at that character |
| Urls.IndexOfIsFirst | crawler_async.py:20-21 | no earlier position holds the character, so `IndexOf` finds the first `:` |
| Urls.AuthorityEnd | crawler_async.py:20-21 | the netloc ends at a `/`, `?` or `#`, or at the end of the text |
| Urls.AuthorityEndIsFirst | crawler_async.py:20-21 | no earlier position of the netloc holds one of those delimiters |
| Urls.AllSchemeCharsAt | crawler_async.py:20-21 | the recursive scheme-character test holds iff every character is a scheme character |
| Urls.AfterScheme | crawler_async.py:20-21 | removing the scheme never lengthens the URL |
| Urls.NetlocOfAbsolute | crawler_async.py:20-22 | `scheme://host` followed by a path, query or fragment (or nothing) has netloc `host` |
| Urls.AuthorityOfHost | crawler_async.py:20-22 | after `//`, a host free of `/`, `?` and `#` followed by nothing or by one of them is exactly the netloc |
| Urls.NetlocOfRelative | crawler_async.py:21-22 | a path with no `:` that does not start with `//` has an empty netloc |
| Urls.NetlocIgnoresFragment | crawler_async.py:20-22 | appending `#fragment` to a URL leaves its netloc unchanged |
| Urls.AfterSchemeIgnoresFragment | crawler_async.py:20-21 | appending `#fragment` to a URL only appends it to the part after the scheme |
| Urls.AuthorityIgnoresFragment | crawler_async.py:21-22 | the netloc of a remainder is unchanged when a fragment is appended |
| Urls.FragmentKeepsPrefixTests | crawler_async.py:18 | a base that passes the prefix tests still passes them with a fragment appended |
| Urls.FragmentLinkIsInternal | crawler_async.py:17-22 | `base + "#section"` is internal to `base` for every base that passes the prefix tests |
| Urls.JavascriptScheme | crawler_async.py:18 | a `scheme:` link starts with `javascript:` iff its scheme is `javascript` |
| Urls.AbsolutePrefixTests | crawler_async.py:18 | an absolute `scheme://` link is non-empty, does not start with `#`, and starts with `javascript:` iff its scheme is `javascript` |
| Urls.AbsoluteLinkIsInternalIffSameHost | crawler_async.py:17-22 | for absolute base and link, the link is internal iff its scheme is not `javascript` and its host is empty or equals the base's host |
| Urls.ExampleSamePageFragment | crawler_async.py:17-22 | `http://a.com/x#section` is internal to `http://a.com/x` |
| Urls.ExampleJavascriptLink | crawler_async.py:18-19 | `javascript:void(0)` is not internal |
| Urls.ExampleOtherHost | crawler_async.py:20-22 | `http://b.com/y` is not internal to `http://a.com/x` |
| Urls.ExampleRelativePath | crawler_async.py:20-22 | `/y` is internal to `http://a.com/x` |
| Strings.ContainsAt | crawler_async.py:105 | Python's `keyword in text` (the recursive `Contains`) holds iff the keyword starts at some position of the text |
| Strings.JoinAppend | crawler_async.py:84 | joining one more part appends the separator and that part |
| Strings.JoinLength | crawler_async.py:84 | a joined text is as long as its parts plus one separator between each pair |
| Strings.JoinContainsEach | crawler_async.py:84 | every part occurs in the joined text |
| Crawler.OrderFresh | crawler_async.py:24-41 | the URLs one crawl requests are pairwise distinct and none of them was visited before the call |
| Crawler.ChildrenFresh | crawler_async.py:33-37 | the same for the URLs reached through the links of one page |
| Crawler.OrderReachable | crawler_async.py:24-41 | every URL a crawl requests lies at a depth within `max_depth`, is reachable from the URL crawled through internal links within the remaining hops, and is that URL or an internal link of the seed |
| Crawler.ChildrenReachable | crawler_async.py:33-37 | every URL reached from a page's links is an internal link of the seed, reachable from one of that page's accepted links within the remaining hops |
| Crawler.ChildrenCoverLinks | crawler_async.py:33-37 | below the depth bound, every accepted link of the page is visited afterwards, whether by this call or before it |
| Crawler.OrderCoversLinks | crawler_async.py:29-37 | when a fresh page is fetched below the depth bound, each of its accepted links is visited afterwards |
| Crawler.FollowVisitsTarget | crawler_async.py:36-37 | following an accepted link within the depth bound leaves the link visited, whether by this call or before it |
| Crawler.FailedFetchEndsBranch | crawler_async.py:28-39 | a fresh URL whose request fails is the only URL that crawl requests |
| Crawler.ChildrenStep | crawler_async.py:33-37 | one iteration of the link loop advances the specification by the crawl of that link |
| Crawler.LogFreshUrl | crawler_async.py:26-28 | adding an unvisited URL keeps the log duplicate-free and adds exactly that URL to the set |
| Crawler.CrawlerState.constructor | crawler_async.py:15 | a fresh process starts with an empty visited set and no requests |
| Crawler.CrawlerState.Crawl | crawler_async.py:25-39 | one call of `crawl` requests exactly the URLs of `Order`, in order, and adds exactly them to the visited set; the set and the log stay in step and duplicate-free |
| Crawler.CrawlerState.FollowLinks | crawler_async.py:33-37 | the link loop requests exactly the URLs of `Children`, in order, and adds exactly them to the visited set |
| Crawler.CrawlerState.CrawlWebsite | crawler_async.py:24-42 | the result is the whole visited set: the URLs visited before the call plus those of the crawl from the seed at depth 0 |
| Reply.SkipSpaces | crawler_async.py:98 | `\s*` stops at the first character that is not white space |
| Reply.SkipSpacesSkipsSpaces | crawler_async.py:98 | everything `\s*` skipped is white space |
| Reply.SpacesThenStop | crawler_async.py:98 | white space up to a non-space character is skipped exactly to that character |
| Reply.CloseFrom | crawler_async.py:98 | a closing `}`…`]` found from a position lies at or after it |
| Reply.CloseFromIsLeast | crawler_async.py:98 | `.*?}\s*\]` takes the first `}` that is followed by optional white space and `]`; with none there is no closing |
| Reply.MatchAt | crawler_async.py:98 | a match starting at a position has its `{` and `}` after that position |
| Reply.MatchAtIsLeast | crawler_async.py:98 | a match at a position exists iff the pattern can match there, and it has the least possible closing `}` |
| Reply.SearchFrom | crawler_async.py:98 | a match found from a position spans a slice of the text at or after it |
| Reply.SearchFromIsLeftmost | crawler_async.py:98 | `re.search` returns the match with the leftmost start, and no earlier position matches |
| Reply.MatchesSeenAtStart | crawler_async.py:98 | every instance of the pattern is found by the anchored matcher at its start, with a closing `}` no later than the instance's own |
| Reply.ExtractArrayNoneIff | crawler_async.py:98-100 | nothing is extracted iff the pattern matches nowhere in the reply |
| Reply.ExtractArrayFindsLeftmost | crawler_async.py:98-100 | an extracted text is the slice of a match that starts leftmost and, among those, has the earliest closing `}` |
| Reply.ExtractArrayIsLeftmostLazyMatch | crawler_async.py:98-100 | the extracted text is absent iff the pattern matches nowhere; otherwise it is the slice of a match that starts leftmost and, among those, ends at the first possible `}` |
| Reply.ExtractedIsBracketed | crawler_async.py:98-100 | an extracted text has at least four characters, starts with `[` and ends with `]` |
| Reply.ProseArrayIsFirst | crawler_async.py:98 | in `pre + "[{" + body + "}]" + post`, with no `[` in `pre` and no `}` in `body`, the match starting after `pre` with the closing `}` after `body` is leftmost and has the least closing |
| Reply.ProseArraySlice | crawler_async.py:100 | the slice after the prose is exactly the array text |
| Reply.ExtractArrayIsThe | crawler_async.py:98-100 | a match that starts leftmost and has the least closing is the one extracted |
| Reply.CloseIsUnique | crawler_async.py:98 | a `}` followed by white space closes at no more than one `]` |
| Reply.ExtractArrayAmidProse | crawler_async.py:98-100 | prose around an array whose body has no `}` is stripped: exactly `[{body}]` is extracted |
| Reply.NoArrayNoItems | crawler_async.py:98-111 | a reply in which the pattern matches nowhere yields no items, whatever the decoder does |
| Reply.Lower | crawler_async.py:104 | lower-casing keeps the length |
| Reply.ContainsAnyIff | crawler_async.py:105 | `any(keyword in text ...)` holds iff some keyword of the list occurs in the text |
| Reply.FirstRaise | crawler_async.py:103-104 | the index of the first item whose `.get(...).lower()` raises, or the length when none does |
| Reply.FilterMembers | crawler_async.py:103-106 | the reference filter keeps exactly the items that pass the opportunity test |
| Reply.FilterCons | crawler_async.py:103-106 | the reference filter, built from the back, also peels off from the front |
| Reply.FirstRaiseIsFirst | crawler_async.py:103-113 | no item before the first raising one raises, so the loop's `try` is left at the first raising item |
| Reply.KeptIsFilterBeforeRaise | crawler_async.py:103-113 | the items the loop appends are the filtered items before the first one that raises, in order |
| Reply.KeptMembers | crawler_async.py:103-106 | every appended item passes the test; when no item raises, every passing item is appended |
| Reply.AppendKept | crawler_async.py:103-106 | the item loop appends exactly the kept items to the accumulated results |
| Reply.NoRpaIsDropped | crawler_async.py:104-105 | any object whose `rpa_opportunity` starts with `No RPA` is dropped, whatever its other fields |
| Reply.MissingOpportunityIsDropped | crawler_async.py:104-105 | an item with no `rpa_opportunity` key reads as `""` and is dropped |
| Reply.OpportunityWithoutN | crawler_async.py:104-105 | any object whose `rpa_opportunity` is non-empty and has no `n` after lower-casing is kept, whatever its other fields, because every negative keyword contains `n` |
| Reply.NoPairNoContains | crawler_async.py:105 | a text in which each `c` is followed by something other than `d` contains no keyword that has `c` followed by `d` |
| Reply.KeywordPairs | crawler_async.py:105 | each negative keyword has an `n` followed by `o`, `/` or `f` |
| Reply.LoneN | crawler_async.py:104 | lower-casing a text with a single `n` or `N` gives a text whose only `n` is followed by the lower-cased next character |
| Reply.ExampleLoneN | crawler_async.py:104 | in `Automate invoice approval` lower-cased, the only `n` is followed by `v` |
| Reply.ExampleHasNoNegativeKeyword | crawler_async.py:104-105 | no negative keyword occurs in `Automate invoice approval` lower-cased |
| Reply.ExampleOpportunityIsKept | crawler_async.py:104-106 | any object whose `rpa_opportunity` is `Automate invoice approval` is kept, whatever its other fields |
| Reply.ExampleBodyHasNoBrace | crawler_async.py:98 | the worked example's object body contains no `}` |
| Reply.ExampleReplyYieldsItsItem | crawler_async.py:97-106 | for the reply `Sure! Here you go: [{"url":"u1","summary":"s","rpa_opportunity":"Automate invoice approval"}] Hope that helps!`, decoded to the one object with those three fields, the batch yields exactly that object |
| Classifier.PreviewIsBoundedPrefix | crawler_async.py:44-55 | a preview has at most 800 characters, is a prefix of the page text, is the whole text when that is short enough, and is `""` when fetching fails |
| Classifier.BlocksEmptyIff | crawler_async.py:75-82 | a batch contributes no block iff every preview in it is empty; there is at most one block per URL |
| Classifier.CollectPreviews | crawler_async.py:73-78 | the preview loop builds the `URL: …\nPreview: …` blocks of the batch's non-empty previews, in input order |
| Classifier.IntroIsNeverEmpty | crawler_async.py:60-84 | the prompt opens with the caller's prompt when it is non-empty and with the default instruction otherwise; the opening is never empty |
| Classifier.PromptCarriesEveryBlock | crawler_async.py:84 | the prompt starts with the intro and contains every preview block |
| Classifier.RunStopsBeforeBatch | crawler_async.py:66-69 | past the last URL, or when the probe answers true before a batch, the run ends with what it has |
| Classifier.RunStopsAfterBatch | crawler_async.py:118-120 | when the probe answers true after a batch that had previews, the run ends with that batch's outcome |
| Classifier.RunStep | crawler_async.py:66-120 | a batch that neither probe stops continues the run at the next batch offset from that batch's outcome |
| Classifier.AfterBatchShape | crawler_async.py:71-116 | a batch previews at least one URL, sends at most one prompt, and adds results only when it sends one |
| Classifier.AfterBatchFetches | crawler_async.py:71-78 | one batch previews exactly the next `batch_size` URLs (fewer at the end), after those already previewed |
| Classifier.RunFetchesInOrder | crawler_async.py:66-78 | previews are requested for a prefix of the input list, in order, each list entry at most once (a URL listed twice is previewed twice); with no probe every entry is previewed |
| Classifier.AfterBatchKeepsOpportunities | crawler_async.py:103-106 | one batch only appends to the results, and only items that pass the opportunity test |
| Classifier.RunKeepsOnlyOpportunities | crawler_async.py:66-120 | results only grow, and every result passes the opportunity test |
| Classifier.AfterBatchOpensWithIntro | crawler_async.py:84 | the prompt a batch sends, if any, opens with the chosen intro |
| Classifier.RunPromptsOpenWithIntro | crawler_async.py:84-93 | every prompt sent opens with the chosen intro |
| Classifier.RunPromptsPerBatch | crawler_async.py:71-93 | no more prompts are sent than URLs were previewed |
| Classifier.NoPreviewsInBatch | crawler_async.py:75-80 | when no page yields a preview, no batch has a block |
| Classifier.RunWithoutPreviews | crawler_async.py:80-82 | when no page yields a preview, no prompt is sent and no result is added |
| Classifier.OnGridBelow | crawler_async.py:66 | a batch offset on the way to the cancelled offset does not lie past it |
| Classifier.BatchBeforeCut | crawler_async.py:71-116 | a batch that ends before the cut processes the same whether the list is cut there or not |
| Classifier.RunStopsAtCancel | crawler_async.py:66-69 | when the probe answers true before the batch at `stop`, the run equals the run over the URLs before `stop` |
| Classifier.RunStopsAfterCancel | crawler_async.py:118-120 | when the probe answers true after the batch at `stop` and that batch had previews, the run equals the run over the URLs up to the end of that batch |
| Classifier.SkippedBatchContinues | crawler_async.py:80-82 | a batch without previews is skipped without consulting the probe after it: the run goes on at the next offset with only the previews recorded, whatever the probe would answer |
| Classifier.OnGridIsMultiple | crawler_async.py:66 | `range(i, …, batch_size)` reaches `stop` iff `stop - i` is a non-negative multiple of the batch size |
| Classifier.ClassifyProperties | crawler_async.py:57-122 | previews are requested for a prefix of the input list, in order, each list entry at most once, and every entry is previewed when there is no probe and the size is positive; every result names an opportunity; every prompt opens with the chosen intro; at most one prompt per previewed URL |
| Classifier.ClassifyStopsAtCancel | crawler_async.py:66-69 | cancelling before the batch at `stop` returns exactly what classifying the first `stop` URLs returns, and no preview past `stop` is requested |
| Classifier.ClassifyStopsAfterCancel | crawler_async.py:118-120 | cancelling after the batch at `stop`, a batch with previews, returns exactly what classifying the URLs up to the end of that batch returns, and no later URL is previewed |
| Classifier.ClassifyPreviewsRepeatedUrl | crawler_async.py:66-78 | without a probe, a URL listed twice is previewed twice: the preview loop runs once per list entry |
| Classifier.ClassifyEmpty | crawler_async.py:58-122 | an empty URL list returns no results, previews nothing and sends no prompt |
| Classifier.ClassifyWithoutPreviews | crawler_async.py:80-82 | when no page yields a preview, no prompt is sent and no result is returned |
| Classifier.ProcessBatch | crawler_async.py:71-116 | one batch yields the outcome `AfterBatch` specifies, and reports a skip iff the batch has no preview blocks |
| Classifier.RunBatches | crawler_async.py:66-120 | the batch loop, a `while` loop that leaves through a `done` flag where the code breaks, computes `Run` from offset 0 |
| Classifier.Iterate | crawler_async.py:66-120 | one turn of the loop: when it breaks (a probe answered true) its outcome is the run from that offset; otherwise the run from the next offset with its outcome equals the run from this one |
| Classifier.FilterRelevantUrls | crawler_async.py:57-122 | the classifier computes `Classify`: nothing for a negative batch size, otherwise the batch run with the chosen intro |

## Left out

- `urljoin` is the parameter `resolve` of `Crawler.Site`. The model uses the library's result and does not re-implement RFC 3986 resolution.
- `urlparse` is modelled on `urlsplit`'s netloc rule: a scheme is a letter followed by scheme characters up to the first `:`, and `//` then runs up to `/`, `?` or `#`. Three things are not modelled: the stripping of leading C0 controls and spaces, the removal of tab, carriage-return and newline characters, and the `ValueError`s `urlsplit` raises. It raises one for a malformed IPv6 netloc, and one from `_checknetloc` for a non-ASCII netloc whose NFKC form contains `/`, `?`, `#`, `@` or `:`.
- Such a `ValueError` raised by `urljoin` or `urlparse` at crawler_async.py:35-36 falls into the `try` at lines 29-39 and abandons the rest of that page's links. `Crawler.Site` can only express a failure before the link loop (`None`), so the model follows the later links where the program stops.
- Requests and HTML parsing are not modelled. A site is a map from URL to the `href` list of its anchors in document order, or `None` when the request or parsing raises. The `User-Agent` header is not modelled.
- `get_preview` is not modelled internally. The text it extracts is an oracle (`pageText`), with `None` for any failure; the model keeps only the truncation to `max_chars` and the empty string on failure. `pageText` is keyed by URL, so a URL listed twice gets the same preview both times; two requests for the same page that return different text are not modelled. The 10-second timeout and the removal of script, style, img and input tags are not modelled.
- The chat completion call is the oracle `reply(offset, prompt)`, with `None` when the call raises or the content is `None`. The model name, `temperature=0.3` and `max_tokens=1500` are not modelled.
- `json.loads` is the oracle `decode`, with `None` when it raises. The `Json` datatype keeps only strings, lists and objects.
- `on_disconnect` is modelled as two functions of the batch offset, `before` and `after`. Within one run the callback is called at most once before and once after each batch offset (crawler_async.py:66-69 and 118-120), so these two functions can express any sequence of answers.
- `await on_disconnect()` at crawler_async.py:67 and 118 lies outside every `try`: a callback that raises ends `filter_relevant_urls_with_openai` with that exception and the accumulated results are lost. `before` and `after` are total functions and cannot raise, so the model does not capture this. The callback passed in `rpa_web_app.py`, `req.is_disconnected`, returns a bool.
- `async`/`await` suspension and `print` logging are not modelled: the code runs one step at a time and logging changes no state.
- Reply.Lower: lower-cases ASCII letters only; Python's `str.lower` also maps non-ASCII capitals. For the keyword test at crawler_async.py:105 this changes nothing. The negative keywords are ASCII, every ASCII character lowers the same way in both, and lowering never empties a text. The only non-ASCII characters whose `str.lower` contains an ASCII letter are U+0130, which lowers to `i` followed by U+0307, and U+212A, which lowers to `k`. No keyword contains `k`, and no keyword ends in `i`, so an `i` followed by U+0307 cannot complete a keyword.
- Crawler.CrawlerState.CrawlWebsite: returns the visited set rather than `list(visited_urls)`, because the order of that list is unspecified.
- Recursion depth: Python's recursion limit, and the `RecursionError` it would raise on a very deep site, are not modelled.
- The Python defaults `max_depth=2` and `batch_size=8` are not modelled: `Crawler.CrawlerState.CrawlWebsite` and `Classifier.FilterRelevantUrls` always take both as explicit parameters. The only caller in the source, rpa_web_app.py:50-56, passes `batch_size=8` to `filter_relevant_urls_with_openai`. The `crawl_website` it calls at line 45 is imported from a `crawler` module (rpa_web_app.py:11) that is not part of this model, so nothing in the source calls the modelled `crawl_website`.
- The `model` parameter of `filter_relevant_urls_with_openai` is not modelled; it only reaches the service call.
- The web front end (`rpa_web_app.py`) and the spreadsheet export are not part of this model.
