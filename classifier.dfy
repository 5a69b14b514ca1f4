/** The batch classifier (`filter_relevant_urls_with_openai`): split the URL
    list into batches, build a prompt from the pages' previews, ask the
    model, and keep the opportunities its reply names, checking the
    caller's disconnect probe before and after each batch. */
module Classifier {
  import opened Wrappers
  import opened Strings
  import opened Reply
  import Urls

  type Url = Urls.Url

  /** Default `max_chars` of `get_preview`. */
  const PreviewMaxChars: nat := 800

  const DefaultIntro: string :=
    "For each of the following webpages, determine if it describes a business process or workflow that could be automated with RPA. If yes, summarize the RPA opportunity in one sentence.\n"
    + "Respond ONLY with a JSON array using this exact format:\n"
    + "[{\"url\": \"...\", \"summary\": \"...\", \"rpa_opportunity\": \"...\"}]\n\n"

  const Separator: string := "\n\n---\n\n"

  /** The disconnect probe, answered per batch (keyed by the batch's start
      offset) before the batch starts and after it ends. */
  datatype Probe = Probe(before: nat -> bool, after: nat -> bool)

  /** Everything the classifier learns from outside:
      - `pageText(u)`: the visible text `get_preview` extracts from `u`, or
        `None` when the request or parsing fails;
      - `reply(i, prompt)`: the model's reply text for the batch starting at
        `i`, or `None` when the call fails;
      - `decode(t)`: `json.loads(t)`, or `None` when it raises;
      - `probe`: the optional `on_disconnect` callback. */
  datatype Env = Env(
    pageText: Url -> Option<string>,
    reply: (nat, string) -> Option<string>,
    decode: string -> Option<Json>,
    probe: Option<Probe>)

  /** What the classifier does, as far as it is observable: the items it
      returns, the URLs whose preview it requested, and the prompts it sent. */
  datatype Outcome = Outcome(results: seq<Json>, fetched: seq<Url>, sent: seq<string>)

  const NoOutcome := Outcome([], [], [])

  function Min(a: int, b: int): int
  {
    if a <= b then a else b
  }

  // ---------------------------------------------------------------------
  // Previews and the prompt

  /** `get_preview`: the page text cut to `maxChars`, or "" on failure. */
  function Preview(text: Option<string>, maxChars: nat): string
  {
    match text
    case None => ""
    case Some(t) => t[..Min(|t|, maxChars)]
  }

  lemma PreviewIsBoundedPrefix(text: Option<string>, maxChars: nat)
    ensures |Preview(text, maxChars)| <= maxChars
    ensures text.None? ==> Preview(text, maxChars) == ""
    ensures text.Some? ==> StartsWith(text.value, Preview(text, maxChars))
    ensures text.Some? && |text.value| <= maxChars ==> Preview(text, maxChars) == text.value
  {
  }

  function Block(url: Url, preview: string): string
  {
    "URL: " + url + "\nPreview: " + preview
  }

  /** The preview blocks of a batch: one per URL with a non-empty preview,
      in batch order. */
  function Blocks(pageText: Url -> Option<string>, batch: seq<Url>): seq<string>
    decreases |batch|
  {
    if batch == [] then []
    else
      var url := batch[|batch| - 1];
      var p := Preview(pageText(url), PreviewMaxChars);
      Blocks(pageText, batch[..|batch| - 1]) + (if p != "" then [Block(url, p)] else [])
  }

  /** A batch is skipped exactly when none of its pages gives a preview;
      there is never more than one block per URL. */
  lemma {:induction false} BlocksEmptyIff(pageText: Url -> Option<string>, batch: seq<Url>)
    ensures Blocks(pageText, batch) == [] <==>
      forall k | 0 <= k < |batch| :: Preview(pageText(batch[k]), PreviewMaxChars) == ""
    ensures |Blocks(pageText, batch)| <= |batch|
    decreases |batch|
  {
    if batch != [] {
      BlocksEmptyIff(pageText, batch[..|batch| - 1]);
    }
  }

  /** The preview loop of one batch. */
  method CollectPreviews(pageText: Url -> Option<string>, batch: seq<Url>) returns (blocks: seq<string>)
    ensures blocks == Blocks(pageText, batch)
  {
    blocks := [];
    var k := 0;
    while k < |batch|
      invariant 0 <= k <= |batch|
      invariant blocks == Blocks(pageText, batch[..k])
    {
      var preview := Preview(pageText(batch[k]), PreviewMaxChars);
      if preview != "" {
        blocks := blocks + [Block(batch[k], preview)];
      }
      assert batch[..k + 1][..k] == batch[..k];
      k := k + 1;
    }
    assert batch[..k] == batch;
  }

  /** `prompt or default_prompt_intro`. */
  function Intro(prompt: Option<string>): string
  {
    match prompt
    case Some(p) => if p != "" then p else DefaultIntro
    case None => DefaultIntro
  }

  /** The intro is never empty: an empty or missing prompt falls back to the
      default one, and a given one is used as it is. */
  lemma IntroIsNeverEmpty(prompt: Option<string>)
    ensures Intro(prompt) != ""
    ensures prompt.Some? && prompt.value != "" ==> Intro(prompt) == prompt.value
    ensures prompt.None? || prompt.value == "" ==> Intro(prompt) == DefaultIntro
  {
  }

  /** The prompt sent for a batch: the intro, then the preview blocks. */
  function FullPrompt(intro: string, blocks: seq<string>): string
  {
    intro + Join(Separator, blocks)
  }

  /** The prompt opens with the intro and carries every preview block. */
  lemma PromptCarriesEveryBlock(intro: string, blocks: seq<string>)
    ensures StartsWith(FullPrompt(intro, blocks), intro)
    ensures forall k | 0 <= k < |blocks| :: Contains(FullPrompt(intro, blocks), blocks[k])
  {
    assert FullPrompt(intro, blocks)[..|intro|] == intro;
    forall k | 0 <= k < |blocks|
      ensures Contains(FullPrompt(intro, blocks), blocks[k])
    {
      JoinContainsEach(Separator, blocks, k);
      ContainsAppendLeft(intro, Join(Separator, blocks), blocks[k]);
    }
  }

  // ---------------------------------------------------------------------
  // The batch loop

  /** The batch starting at offset `i` (slicing clamps at the end). */
  function Batch(urls: seq<Url>, batchSize: nat, i: nat): seq<Url>
    requires i <= |urls|
  {
    urls[i..Min(i + batchSize, |urls|)]
  }

  /** The items one model reply contributes; a failed call contributes none. */
  function ReplyItems(env: Env, reply: Option<string>): seq<Json>
  {
    match reply
    case None => []
    case Some(t) => Kept(ItemsOf(env.decode, t))
  }

  predicate Stops(env: Env, before: bool, i: nat)
  {
    env.probe.Some? && (if before then env.probe.value.before(i) else env.probe.value.after(i))
  }

  /** The outcome after the batch starting at `i` has been processed: its
      previews requested and, unless it has none, its prompt sent and the
      reply's items kept. */
  function AfterBatch(urls: seq<Url>, batchSize: nat, intro: string, env: Env, i: nat, acc: Outcome): Outcome
    requires i <= |urls|
  {
    var batch := Batch(urls, batchSize, i);
    var blocks := Blocks(env.pageText, batch);
    if blocks == [] then acc.(fetched := acc.fetched + batch)
    else
      var full := FullPrompt(intro, blocks);
      Outcome(acc.results + ReplyItems(env, env.reply(i, full)), acc.fetched + batch, acc.sent + [full])
  }

  /** A skipped batch (`continue`) does not consult the probe afterwards. */
  predicate StopsAfter(urls: seq<Url>, batchSize: nat, env: Env, i: nat)
    requires i <= |urls|
  {
    Blocks(env.pageText, Batch(urls, batchSize, i)) != [] && Stops(env, false, i)
  }

  /** The loop from offset `i` on, given what was gathered so far. */
  function Run(urls: seq<Url>, batchSize: nat, intro: string, env: Env, i: nat, acc: Outcome): Outcome
    requires batchSize > 0
    decreases |urls| - i
  {
    if i >= |urls| || Stops(env, true, i) then acc
    else
      var next := AfterBatch(urls, batchSize, intro, env, i, acc);
      if StopsAfter(urls, batchSize, env, i) then next
      else Run(urls, batchSize, intro, env, i + batchSize, next)
  }

  /** One batch that neither probe stops hands the gathered outcome on. */
  lemma RunStep(urls: seq<Url>, batchSize: nat, intro: string, env: Env, i: nat, acc: Outcome)
    requires batchSize > 0 && i < |urls|
    requires !Stops(env, true, i) && !StopsAfter(urls, batchSize, env, i)
    ensures Run(urls, batchSize, intro, env, i, acc)
      == Run(urls, batchSize, intro, env, i + batchSize, AfterBatch(urls, batchSize, intro, env, i, acc))
  {
  }

  /** A disconnect reported before the batch at `i` ends the run there. */
  lemma RunStopsBeforeBatch(urls: seq<Url>, batchSize: nat, intro: string, env: Env, i: nat, acc: Outcome)
    requires batchSize > 0 && (i >= |urls| || Stops(env, true, i))
    ensures Run(urls, batchSize, intro, env, i, acc) == acc
  {
  }

  /** A disconnect reported after a batch that had previews ends the run
      with that batch's outcome. */
  lemma RunStopsAfterBatch(urls: seq<Url>, batchSize: nat, intro: string, env: Env, i: nat, acc: Outcome)
    requires batchSize > 0 && i < |urls| && !Stops(env, true, i) && StopsAfter(urls, batchSize, env, i)
    ensures Run(urls, batchSize, intro, env, i, acc) == AfterBatch(urls, batchSize, intro, env, i, acc)
  {
  }

  /** Previews are requested for a prefix of the input list, whole batches
      at a time, in order, each list entry at most once (a URL listed twice
      is previewed twice); without a probe every entry is previewed. */
  lemma {:induction false} RunFetchesInOrder(urls: seq<Url>, batchSize: nat, intro: string, env: Env, i: nat, acc: Outcome)
    requires batchSize > 0 && acc.fetched == urls[..Min(i, |urls|)]
    ensures var out := Run(urls, batchSize, intro, env, i, acc);
      Min(i, |urls|) <= |out.fetched| <= |urls| && out.fetched == urls[..|out.fetched|]
      && (env.probe.None? ==> out.fetched == urls)
    decreases |urls| - i
  {
    if i < |urls| && !Stops(env, true, i) {
      var next := AfterBatch(urls, batchSize, intro, env, i, acc);
      AfterBatchFetches(urls, batchSize, intro, env, i, acc);
      if StopsAfter(urls, batchSize, env, i) {
        RunStopsAfterBatch(urls, batchSize, intro, env, i, acc);
      } else {
        RunStep(urls, batchSize, intro, env, i, acc);
        RunFetchesInOrder(urls, batchSize, intro, env, i + batchSize, next);
      }
    }
  }

  /** A batch requests the previews of its URLs, right after those of the
      batches before it. */
  lemma AfterBatchFetches(urls: seq<Url>, batchSize: nat, intro: string, env: Env, i: nat, acc: Outcome)
    requires i <= |urls| && acc.fetched == urls[..i]
    ensures AfterBatch(urls, batchSize, intro, env, i, acc).fetched == urls[..Min(i + batchSize, |urls|)]
  {
    assert urls[..i] + Batch(urls, batchSize, i) == urls[..Min(i + batchSize, |urls|)];
  }

  predicate AllOpportunities(items: seq<Json>)
  {
    forall k | 0 <= k < |items| :: Judge(items[k]) == Keep
  }

  lemma AllOpportunitiesConcat(a: seq<Json>, b: seq<Json>)
    requires AllOpportunities(a) && AllOpportunities(b)
    ensures AllOpportunities(a + b)
  {
  }

  /** One batch adds only items whose opportunity passed the keyword filter. */
  lemma AfterBatchKeepsOpportunities(urls: seq<Url>, batchSize: nat, intro: string, env: Env, i: nat, acc: Outcome)
    requires i <= |urls| && AllOpportunities(acc.results)
    ensures var next := AfterBatch(urls, batchSize, intro, env, i, acc);
      acc.results <= next.results && AllOpportunities(next.results)
  {
    var blocks := Blocks(env.pageText, Batch(urls, batchSize, i));
    if blocks != [] {
      var reply := env.reply(i, FullPrompt(intro, blocks));
      if reply.Some? {
        KeptMembers(ItemsOf(env.decode, reply.value));
      }
      AllOpportunitiesConcat(acc.results, ReplyItems(env, reply));
    }
  }

  /** Results only grow, and everything added is an item whose opportunity
      passed the keyword filter. */
  lemma {:induction false} RunKeepsOnlyOpportunities(urls: seq<Url>, batchSize: nat, intro: string, env: Env, i: nat, acc: Outcome)
    requires batchSize > 0 && AllOpportunities(acc.results)
    ensures var out := Run(urls, batchSize, intro, env, i, acc);
      acc.results <= out.results && AllOpportunities(out.results)
    decreases |urls| - i
  {
    if i < |urls| && !Stops(env, true, i) {
      var next := AfterBatch(urls, batchSize, intro, env, i, acc);
      AfterBatchKeepsOpportunities(urls, batchSize, intro, env, i, acc);
      RunKeepsOnlyOpportunities(urls, batchSize, intro, env, i + batchSize, next);
    }
  }

  predicate OpenWith(prompts: seq<string>, intro: string)
  {
    forall k | 0 <= k < |prompts| :: StartsWith(prompts[k], intro)
  }

  /** Each prompt sent opens with the intro. */
  lemma {:induction false} RunPromptsOpenWithIntro(urls: seq<Url>, batchSize: nat, intro: string, env: Env, i: nat, acc: Outcome)
    requires batchSize > 0 && OpenWith(acc.sent, intro)
    ensures OpenWith(Run(urls, batchSize, intro, env, i, acc).sent, intro)
    decreases |urls| - i
  {
    if i < |urls| && !Stops(env, true, i) {
      var next := AfterBatch(urls, batchSize, intro, env, i, acc);
      AfterBatchOpensWithIntro(urls, batchSize, intro, env, i, acc);
      if !StopsAfter(urls, batchSize, env, i) {
        RunPromptsOpenWithIntro(urls, batchSize, intro, env, i + batchSize, next);
      }
    }
  }

  /** The prompt a batch sends, if any, opens with the intro. */
  lemma AfterBatchOpensWithIntro(urls: seq<Url>, batchSize: nat, intro: string, env: Env, i: nat, acc: Outcome)
    requires i <= |urls| && OpenWith(acc.sent, intro)
    ensures OpenWith(AfterBatch(urls, batchSize, intro, env, i, acc).sent, intro)
  {
    var blocks := Blocks(env.pageText, Batch(urls, batchSize, i));
    if blocks != [] {
      PromptCarriesEveryBlock(intro, blocks);
    }
  }

  /** One batch previews at least one URL, sends at most one prompt, and
      adds results only when it sends one. */
  lemma AfterBatchShape(urls: seq<Url>, batchSize: nat, intro: string, env: Env, i: nat, acc: Outcome)
    requires batchSize > 0 && i < |urls|
    ensures var next := AfterBatch(urls, batchSize, intro, env, i, acc);
      |acc.fetched| < |next.fetched| && |acc.sent| <= |next.sent| <= |acc.sent| + 1
      && (|next.sent| == |acc.sent| ==> next.results == acc.results)
  {
  }

  /** No more prompts are sent than URLs are previewed. */
  lemma {:induction false} RunPromptsPerBatch(urls: seq<Url>, batchSize: nat, intro: string, env: Env, i: nat, acc: Outcome)
    requires batchSize > 0 && |acc.sent| <= |acc.fetched|
    ensures var out := Run(urls, batchSize, intro, env, i, acc);
      |out.sent| <= |out.fetched|
    decreases |urls| - i
  {
    if i < |urls| && !Stops(env, true, i) {
      var next := AfterBatch(urls, batchSize, intro, env, i, acc);
      AfterBatchShape(urls, batchSize, intro, env, i, acc);
      if StopsAfter(urls, batchSize, env, i) {
        RunStopsAfterBatch(urls, batchSize, intro, env, i, acc);
      } else {
        RunStep(urls, batchSize, intro, env, i, acc);
        RunPromptsPerBatch(urls, batchSize, intro, env, i + batchSize, next);
      }
    }
  }

  predicate NoPreviews(pageText: Url -> Option<string>, urls: seq<Url>)
  {
    forall k | 0 <= k < |urls| :: Preview(pageText(urls[k]), PreviewMaxChars) == ""
  }

  /** A batch cut from pages without previews has no preview blocks. */
  lemma NoPreviewsInBatch(urls: seq<Url>, batchSize: nat, pageText: Url -> Option<string>, i: nat)
    requires i <= |urls| && NoPreviews(pageText, urls)
    ensures Blocks(pageText, Batch(urls, batchSize, i)) == []
  {
    var batch := Batch(urls, batchSize, i);
    BlocksEmptyIff(pageText, batch);
    forall k | 0 <= k < |batch|
      ensures Preview(pageText(batch[k]), PreviewMaxChars) == ""
    {
      assert batch[k] == urls[i + k];
    }
  }

  /** When no page yields a preview every batch is skipped: the model is
      never asked and nothing is returned. */
  lemma {:induction false} RunWithoutPreviews(urls: seq<Url>, batchSize: nat, intro: string, env: Env, i: nat, acc: Outcome)
    requires batchSize > 0 && NoPreviews(env.pageText, urls)
    ensures var out := Run(urls, batchSize, intro, env, i, acc);
      out.sent == acc.sent && out.results == acc.results
    decreases |urls| - i
  {
    if i < |urls| && !Stops(env, true, i) {
      NoPreviewsInBatch(urls, batchSize, env.pageText, i);
      var next := AfterBatch(urls, batchSize, intro, env, i, acc);
      assert next.sent == acc.sent && next.results == acc.results;
      RunStep(urls, batchSize, intro, env, i, acc);
      RunWithoutPreviews(urls, batchSize, intro, env, i + batchSize, next);
    }
  }

  /** `stop` is one of the offsets `i`, `i + batchSize`, ... the loop visits
      from `i` on. */
  predicate OnGrid(i: nat, stop: nat, batchSize: nat)
    requires batchSize > 0
    decreases stop - i
  {
    i == stop || (i < stop && OnGrid(i + batchSize, stop, batchSize))
  }

  lemma {:induction false} OnGridBelow(i: nat, stop: nat, batchSize: nat)
    requires batchSize > 0 && OnGrid(i, stop, batchSize)
    ensures i <= stop
    decreases stop - i
  {
    if i != stop {
      OnGridBelow(i + batchSize, stop, batchSize);
    }
  }

  /** A batch that ends at or before `stop` (or at the end of the list) is
      the same batch of the list cut at `stop`, and is processed alike. */
  lemma BatchBeforeCut(urls: seq<Url>, batchSize: nat, intro: string, env: Env, i: nat, acc: Outcome, stop: nat)
    requires i <= stop <= |urls| && Min(i + batchSize, |urls|) <= stop
    ensures Batch(urls, batchSize, i) == Batch(urls[..stop], batchSize, i)
    ensures AfterBatch(urls, batchSize, intro, env, i, acc) == AfterBatch(urls[..stop], batchSize, intro, env, i, acc)
    ensures StopsAfter(urls, batchSize, env, i) == StopsAfter(urls[..stop], batchSize, env, i)
  {
    assert Batch(urls, batchSize, i) == Batch(urls[..stop], batchSize, i);
  }

  /** A disconnect reported before the batch at offset `stop` makes the run
      exactly the run over the URLs before `stop`: later batches are never
      previewed, sent or counted. */
  lemma {:induction false} RunStopsAtCancel(urls: seq<Url>, batchSize: nat, intro: string, env: Env, i: nat, acc: Outcome, stop: nat)
    requires batchSize > 0 && OnGrid(i, stop, batchSize) && stop < |urls| && Stops(env, true, stop)
    ensures Run(urls, batchSize, intro, env, i, acc) == Run(urls[..stop], batchSize, intro, env, i, acc)
    decreases stop - i
  {
    if i != stop && !Stops(env, true, i) {
      OnGridBelow(i + batchSize, stop, batchSize);
      BatchBeforeCut(urls, batchSize, intro, env, i, acc, stop);
      var next := AfterBatch(urls, batchSize, intro, env, i, acc);
      if !StopsAfter(urls, batchSize, env, i) {
        RunStep(urls, batchSize, intro, env, i, acc);
        RunStep(urls[..stop], batchSize, intro, env, i, acc);
        RunStopsAtCancel(urls, batchSize, intro, env, i + batchSize, next, stop);
      }
    }
  }

  /** A disconnect reported after the batch at offset `stop`, a batch that
      had previews, makes the run exactly the run over the URLs up to the
      end of that batch: later batches are never previewed, sent or counted. */
  lemma {:induction false} RunStopsAfterCancel(urls: seq<Url>, batchSize: nat, intro: string, env: Env, i: nat, acc: Outcome, stop: nat)
    requires batchSize > 0 && OnGrid(i, stop, batchSize) && stop < |urls| && StopsAfter(urls, batchSize, env, stop)
    ensures Run(urls, batchSize, intro, env, i, acc) == Run(urls[..Min(stop + batchSize, |urls|)], batchSize, intro, env, i, acc)
    decreases stop - i
  {
    var cut := Min(stop + batchSize, |urls|);
    OnGridBelow(i, stop, batchSize);
    if !Stops(env, true, i) {
      if i == stop {
        BatchBeforeCut(urls, batchSize, intro, env, i, acc, cut);
      } else {
        OnGridBelow(i + batchSize, stop, batchSize);
        BatchBeforeCut(urls, batchSize, intro, env, i, acc, cut);
        var next := AfterBatch(urls, batchSize, intro, env, i, acc);
        if !StopsAfter(urls, batchSize, env, i) {
          RunStep(urls, batchSize, intro, env, i, acc);
          RunStep(urls[..cut], batchSize, intro, env, i, acc);
          RunStopsAfterCancel(urls, batchSize, intro, env, i + batchSize, next, stop);
        }
      }
    }
  }

  /** A batch without previews is skipped by `continue`: the probe is not
      consulted after it and the run goes on with the next batch, whatever
      the probe would have answered. */
  lemma SkippedBatchContinues(urls: seq<Url>, batchSize: nat, intro: string, env: Env, i: nat, acc: Outcome)
    requires batchSize > 0 && i < |urls| && !Stops(env, true, i)
    requires Blocks(env.pageText, Batch(urls, batchSize, i)) == []
    ensures Run(urls, batchSize, intro, env, i, acc)
      == Run(urls, batchSize, intro, env, i + batchSize, acc.(fetched := acc.fetched + Batch(urls, batchSize, i)))
  {
  }

  /** What `filter_relevant_urls_with_openai(urls, batch_size, prompt)`
      observably does: a negative batch size gives an empty range, so
      nothing happens. */
  function Classify(urls: seq<Url>, batchSize: int, prompt: Option<string>, env: Env): Outcome
    requires batchSize != 0
  {
    if batchSize < 0 then NoOutcome else Run(urls, batchSize, Intro(prompt), env, 0, NoOutcome)
  }

  lemma Distrib(a: int, b: int, m: int)
    ensures (a - b) * m == a * m - b * m
  {
  }

  lemma MulAtLeast(a: int, m: int)
    requires a >= 1 && m > 0
    ensures a * m >= m
  {
  }

  /** Euclidean division has one quotient and remainder. */
  lemma DivModUnique(x: int, m: int, q: int, r: int)
    requires m > 0 && 0 <= r < m && x == q * m + r
    ensures x % m == r
  {
    var q', r' := x / m, x % m;
    assert x == q' * m + r';
    Distrib(q, q', m);
    if q > q' {
      MulAtLeast(q - q', m);
    } else if q < q' {
      Distrib(q', q, m);
      MulAtLeast(q' - q, m);
    }
  }

  lemma ModSub(x: int, m: int)
    requires x >= m > 0
    ensures (x - m) % m == x % m
  {
    var q, r := x / m, x % m;
    assert x == q * m + r;
    Distrib(q, 1, m);
    DivModUnique(x - m, m, q - 1, r);
  }

  /** Without a probe the loop visits exactly the offsets `0, batchSize,
      2 * batchSize, ...` that Python's `range(0, len(urls), batch_size)`
      yields. */
  lemma {:induction false} OnGridIsMultiple(i: nat, stop: nat, batchSize: nat)
    requires batchSize > 0
    ensures OnGrid(i, stop, batchSize) <==> i <= stop && (stop - i) % batchSize == 0
    decreases stop - i
  {
    if i < stop {
      OnGridIsMultiple(i + batchSize, stop, batchSize);
      if stop - i < batchSize {
        DivModUnique(stop - i, batchSize, 0, stop - i);
      } else {
        ModSub(stop - i, batchSize);
      }
    }
  }

  /** What the classifier promises on every input. */
  lemma ClassifyProperties(urls: seq<Url>, batchSize: int, prompt: Option<string>, env: Env)
    requires batchSize != 0
    ensures var out := Classify(urls, batchSize, prompt, env);
      // previews are requested for a prefix of the input list, in order, each list entry at most once
      |out.fetched| <= |urls| && out.fetched == urls[..|out.fetched|]
      // without a disconnect probe every URL is previewed
      && (batchSize > 0 && env.probe.None? ==> out.fetched == urls)
      // every returned item names an opportunity
      && AllOpportunities(out.results)
      // every prompt opens with the chosen intro, one prompt per batch at most
      && OpenWith(out.sent, Intro(prompt)) && |out.sent| <= |out.fetched|
  {
    if batchSize > 0 {
      RunFetchesInOrder(urls, batchSize, Intro(prompt), env, 0, NoOutcome);
      RunKeepsOnlyOpportunities(urls, batchSize, Intro(prompt), env, 0, NoOutcome);
      RunPromptsOpenWithIntro(urls, batchSize, Intro(prompt), env, 0, NoOutcome);
      RunPromptsPerBatch(urls, batchSize, Intro(prompt), env, 0, NoOutcome);
    }
  }

  /** A disconnect reported before the batch at `stop` (a multiple of the
      batch size) gives the outcome of classifying only the URLs before
      `stop`: no URL from `stop` on is previewed, no prompt is sent for those
      batches, and the results gathered so far are returned. */
  lemma ClassifyStopsAtCancel(urls: seq<Url>, batchSize: int, prompt: Option<string>, env: Env, stop: nat)
    requires batchSize > 0 && stop % batchSize == 0 && stop < |urls|
    requires env.probe.Some? && env.probe.value.before(stop)
    ensures Classify(urls, batchSize, prompt, env) == Classify(urls[..stop], batchSize, prompt, env)
    ensures |Classify(urls, batchSize, prompt, env).fetched| <= stop
  {
    OnGridIsMultiple(0, stop, batchSize);
    RunStopsAtCancel(urls, batchSize, Intro(prompt), env, 0, NoOutcome, stop);
    RunFetchesInOrder(urls[..stop], batchSize, Intro(prompt), env, 0, NoOutcome);
  }

  /** A disconnect reported after the batch at `stop` (a multiple of the
      batch size) that had previews gives the outcome of classifying only the
      URLs up to the end of that batch: no later URL is previewed and no
      later prompt is sent. */
  lemma ClassifyStopsAfterCancel(urls: seq<Url>, batchSize: int, prompt: Option<string>, env: Env, stop: nat)
    requires batchSize > 0 && stop % batchSize == 0 && stop < |urls|
    requires Blocks(env.pageText, Batch(urls, batchSize, stop)) != []
    requires env.probe.Some? && env.probe.value.after(stop)
    ensures Classify(urls, batchSize, prompt, env) == Classify(urls[..Min(stop + batchSize, |urls|)], batchSize, prompt, env)
    ensures |Classify(urls, batchSize, prompt, env).fetched| <= Min(stop + batchSize, |urls|)
  {
    OnGridIsMultiple(0, stop, batchSize);
    RunStopsAfterCancel(urls, batchSize, Intro(prompt), env, 0, NoOutcome, stop);
    RunFetchesInOrder(urls[..Min(stop + batchSize, |urls|)], batchSize, Intro(prompt), env, 0, NoOutcome);
  }

  /** An empty URL list gives an empty result without any preview or model
      call. */
  lemma ClassifyEmpty(batchSize: int, prompt: Option<string>, env: Env)
    requires batchSize != 0
    ensures Classify([], batchSize, prompt, env) == NoOutcome
  {
  }

  /** Nothing removes repeated URLs: a URL listed twice is previewed twice. */
  lemma ClassifyPreviewsRepeatedUrl(u: Url, batchSize: int, prompt: Option<string>, env: Env)
    requires batchSize > 0 && env.probe.None?
    ensures Classify([u, u], batchSize, prompt, env).fetched == [u, u]
  {
    ClassifyProperties([u, u], batchSize, prompt, env);
  }

  /** When no page yields a preview the model is never asked and the result
      is empty. */
  lemma ClassifyWithoutPreviews(urls: seq<Url>, batchSize: int, prompt: Option<string>, env: Env)
    requires batchSize != 0 && NoPreviews(env.pageText, urls)
    ensures Classify(urls, batchSize, prompt, env).sent == []
    ensures Classify(urls, batchSize, prompt, env).results == []
  {
    if batchSize > 0 {
      RunWithoutPreviews(urls, batchSize, Intro(prompt), env, 0, NoOutcome);
    }
  }

  /** The body of one iteration, up to the probe after the batch; `skipped`
      tells whether the batch had no previews. */
  method ProcessBatch(urls: seq<Url>, batchSize: nat, intro: string, env: Env, i: nat, acc: Outcome)
    returns (next: Outcome, skipped: bool)
    requires i <= |urls|
    ensures next == AfterBatch(urls, batchSize, intro, env, i, acc)
    ensures skipped <==> Blocks(env.pageText, Batch(urls, batchSize, i)) == []
  {
    var batch := urls[i..Min(i + batchSize, |urls|)];
    var blocks := CollectPreviews(env.pageText, batch);
    var fetched := acc.fetched + batch;
    if blocks == [] {
      return acc.(fetched := fetched), true;
    }
    var full := FullPrompt(intro, blocks);
    var results := acc.results;
    var reply := env.reply(i, full);
    if reply.Some? {
      results := AppendKept(results, ItemsOf(env.decode, reply.value));
    }
    return Outcome(results, fetched, acc.sent + [full]), false;
  }

  method FilterRelevantUrls(urls: seq<Url>, batchSize: int, prompt: Option<string>, env: Env)
    returns (out: Outcome)
    requires batchSize != 0
    ensures out == Classify(urls, batchSize, prompt, env)
  {
    if batchSize < 0 {
      return NoOutcome;
    }
    out := RunBatches(urls, batchSize, Intro(prompt), env);
  }

  /** The batch loop, with the prompt's intro already chosen. */
  method RunBatches(urls: seq<Url>, batchSize: nat, intro: string, env: Env) returns (out: Outcome)
    requires batchSize > 0
    ensures out == Run(urls, batchSize, intro, env, 0, NoOutcome)
  {
    out := NoOutcome;
    var i: nat := 0;
    var done := false;
    while !done
      invariant Pending(urls, batchSize, intro, env, i, out, done) == Run(urls, batchSize, intro, env, 0, NoOutcome)
      decreases |urls| - i, !done
    {
      if i < |urls| {
        out, done := Iterate(urls, batchSize, intro, env, i, out);
        if !done {
          i := i + batchSize;
        }
      } else {
        RunStopsBeforeBatch(urls, batchSize, intro, env, i, out);
        done := true;
      }
    }
  }

  /** What the loop still has to do: nothing once it has broken off,
      otherwise the run from offset `i`. */
  function Pending(urls: seq<Url>, batchSize: nat, intro: string, env: Env, i: nat, out: Outcome, done: bool): Outcome
    requires batchSize > 0
  {
    if done then out else Run(urls, batchSize, intro, env, i, out)
  }

  /** One turn of the loop: the probe before the batch, the batch, and the
      probe after it unless the batch was skipped. `done` tells whether the
      loop breaks; otherwise the run goes on from the next offset. */
  method Iterate(urls: seq<Url>, batchSize: nat, intro: string, env: Env, i: nat, acc: Outcome)
    returns (next: Outcome, done: bool)
    requires batchSize > 0 && i < |urls|
    ensures done ==> next == Run(urls, batchSize, intro, env, i, acc)
    ensures !done ==> Run(urls, batchSize, intro, env, i + batchSize, next) == Run(urls, batchSize, intro, env, i, acc)
  {
    if env.probe.Some? && env.probe.value.before(i) {
      RunStopsBeforeBatch(urls, batchSize, intro, env, i, acc);
      return acc, true;
    }
    var skipped;
    next, skipped := ProcessBatch(urls, batchSize, intro, env, i, acc);
    if !skipped && env.probe.Some? && env.probe.value.after(i) {
      RunStopsAfterBatch(urls, batchSize, intro, env, i, acc);
      return next, true;
    }
    RunStep(urls, batchSize, intro, env, i, acc);
    done := false;
  }
}
