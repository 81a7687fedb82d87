/** The news endpoint `GET`: merge the feeds, fall back to demo data when
    nothing arrived, sort newest first, translate the newest 20 items in
    batches of 3 and append the rest unchanged. */
module Route {
  import opened Wrappers
  import opened News
  import opened Feeds
  import opened DateSort
  import opened Gemini

  /** Only this many of the newest items are translated. */
  const TopCount: nat := 20
  /** Items translated together before the pause. */
  const BatchSize: nat := 3
  /** Milliseconds in a day, the spacing of the demo items' dates. */
  const Day: int := 86400000

  function Min(a: int, b: int): int {
    if a < b then a else b
  }

  /** The fixed demo list; `now` is the time in milliseconds at which the
      module was loaded, since the dates are computed once with the constant. */
  function MockData(now: int): (r: seq<NewsItem>)
    ensures |r| == 4 && NewestFirst(r)
    ensures forall i :: 0 <= i < 4 ==> r[i].pubDate == Some(now - i * Day)
    ensures forall x :: x in r ==> x.category.Some? && IsCategory(x.category.value) && x.isTranslated == None
  {
    [ NewsItem("OpenAI 发布具备增强推理能力的 GPT-5 模型（演示数据）", Some("https://openai.com"), Some(now),
               "这是一条演示数据，因无法连接实时 RSS 源而显示。OpenAI 宣布了其最新的语言模型，具备更强的逻辑推理能力...",
               "TechCrunch (演示)", Some(ModelRelease), None),
      NewsItem("Google DeepMind 攻克重大生物学难题（演示数据）", Some("https://deepmind.google"), Some(now - Day),
               "DeepMind 的 AlphaFold 3 成功预测了复杂的生物分子结构，将加速药物研发进程...",
               "The Verge (演示)", Some(Industry), None),
      NewsItem("Anthropic 推出 Claude 3.5 Sonnet（演示数据）", Some("https://anthropic.com"), Some(now - 2 * Day),
               "新模型在编程和推理等多项基准测试中表现优异，超越了 GPT-4 的部分能力...",
               "TechCrunch (演示)", Some(ModelRelease), None),
      NewsItem("Meta 发布 Llama 4 开源模型（演示数据）", Some("https://ai.meta.com"), Some(now - 3 * Day),
               "Meta 继续推行开源策略，发布了拥有 4000 亿参数的 Llama 4，性能大幅提升...",
               "The Verge (演示)", Some(DevTools), None) ]
  }

  /** The two items agree on every field except title, summary and isTranslated. */
  predicate SameExceptText(a: NewsItem, b: NewsItem) {
    a.link == b.link && a.pubDate == b.pubDate && a.source == b.source && a.category == b.category
  }

  /** The item after its translation call: `{ ...item, title, summary,
      isTranslated }` when the call returned, `{ ...item, isTranslated: false }`
      when it threw (`None`). */
  function ApplyTranslation(item: NewsItem, outcome: Option<Translation>): (r: NewsItem)
    ensures SameExceptText(item, r) && r.isTranslated.Some?
    ensures outcome.None? ==> r == item.(isTranslated := Some(false))
    ensures outcome.Some? ==> r.title == outcome.value.title && r.summary == outcome.value.summary
    ensures outcome.Some? ==> r.isTranslated == Some(outcome.value.isTranslated)
  {
    match outcome
    case Some(t) => item.(title := t.title, summary := t.summary, isTranslated := Some(t.isTranslated))
    case None => item.(isTranslated := Some(false))
  }

  /** Translated items, the cache afterwards and the keys sent to the model. */
  datatype Run = Run(items: seq<NewsItem>, cache: map<Key, Pair>, calls: seq<Key>)

  /** Translating `items` one after another, starting from `cache`; the model
      would answer `replies(j)` for the j-th item. */
  function TranslateAll(enabled: bool, cache: map<Key, Pair>, items: seq<NewsItem>,
                        replies: nat -> ModelReply, parse: string -> Json): (r: Run)
    ensures |r.items| == |items|
    ensures forall j :: 0 <= j < |items| ==> SameExceptText(items[j], r.items[j]) && r.items[j].isTranslated.Some?
    ensures Extends(cache, r.cache)
    // a key that was already cached is never sent to the model
    ensures forall k :: k in r.calls ==> k !in cache
    decreases |items|
  {
    if items == [] then Run([], cache, [])
    else
      var n := |items| - 1;
      var prev := TranslateAll(enabled, cache, items[..n], replies, parse);
      var item := items[n];
      var step := TranslateStep(enabled, prev.cache, SourceCacheKey(item.title, item.summary), item.title, item.summary, replies(n), parse);
      var done := prev.items + [ApplyTranslation(item, Some(step.result))];
      assert forall j :: 0 <= j < n ==> done[j] == prev.items[j] && items[..n][j] == items[j];
      Run(done, step.cache, prev.calls + if step.called then [SourceCacheKey(item.title, item.summary)] else [])
  }

  /** `out` shows what translating `item` gave: an untranslated item is the
      original with the flag false, a translated one shows the entry `cache`
      holds under the item's key. */
  ghost predicate CarriesText(item: NewsItem, out: NewsItem, cache: map<Key, Pair>) {
    && (out.isTranslated == Some(false) ==> out == item.(isTranslated := Some(false)))
    && (out.isTranslated == Some(true) ==>
          SourceCacheKey(item.title, item.summary) in cache
          && cache[SourceCacheKey(item.title, item.summary)] == Pair(out.title, out.summary))
  }

  /** Every translated item shows the translation cached under its key, and
      every untranslated item is the original with the flag false. */
  lemma {:induction false} TranslateAllCarriesText(enabled: bool, cache: map<Key, Pair>, items: seq<NewsItem>,
                                                   replies: nat -> ModelReply, parse: string -> Json)
    ensures var r := TranslateAll(enabled, cache, items, replies, parse);
      forall j :: 0 <= j < |items| ==> CarriesText(items[j], r.items[j], r.cache)
    decreases |items|
  {
    if items != [] {
      var n := |items| - 1;
      TranslateAllCarriesText(enabled, cache, items[..n], replies, parse);
      var prev := TranslateAll(enabled, cache, items[..n], replies, parse);
      var r := TranslateAll(enabled, cache, items, replies, parse);
      var key := SourceCacheKey(items[n].title, items[n].summary);
      var step := TranslateStep(enabled, prev.cache, key, items[n].title, items[n].summary, replies(n), parse);
      assert r.items == prev.items + [ApplyTranslation(items[n], Some(step.result))];
      assert r.cache == step.cache && Extends(prev.cache, r.cache);
      forall j | 0 <= j < n ensures CarriesText(items[j], r.items[j], r.cache) {
        assert items[..n][j] == items[j] && r.items[j] == prev.items[j];
        assert CarriesText(items[j], prev.items[j], prev.cache);
      }
      assert CarriesText(items[n], r.items[n], r.cache);
    }
  }

  /** Without an API key nothing is translated, the cache stays as it was and
      the model is never called. */
  lemma {:induction false} TranslateAllDisabled(cache: map<Key, Pair>, items: seq<NewsItem>,
                                                replies: nat -> ModelReply, parse: string -> Json)
    ensures var r := TranslateAll(false, cache, items, replies, parse);
      && r.cache == cache && r.calls == []
      && forall j :: 0 <= j < |items| ==> r.items[j] == items[j].(isTranslated := Some(false))
    decreases |items|
  {
    if items != [] {
      var n := |items| - 1;
      TranslateAllDisabled(cache, items[..n], replies, parse);
      var prev := TranslateAll(false, cache, items[..n], replies, parse);
      forall j | 0 <= j < n ensures prev.items[j] == items[j].(isTranslated := Some(false)) {
        assert items[..n][j] == items[j];
      }
    }
  }

  /** The translated top `sorted[..k]`, followed by the rest, carries the
      translations position by position. */
  lemma TopCarriesText(enabled: bool, cache: map<Key, Pair>, sorted: seq<NewsItem>, k: nat,
                       replies: nat -> ModelReply, parse: string -> Json)
    requires k <= |sorted|
    ensures var run := TranslateAll(enabled, cache, sorted[..k], replies, parse);
      forall j :: 0 <= j < k ==> CarriesText(sorted[j], (run.items + sorted[k..])[j], run.cache)
  {
    var run := TranslateAll(enabled, cache, sorted[..k], replies, parse);
    TranslateAllCarriesText(enabled, cache, sorted[..k], replies, parse);
    assert forall j :: 0 <= j < k ==> sorted[..k][j] == sorted[j] && (run.items + sorted[k..])[j] == run.items[j];
  }

  /** Replacing the first `k` items by `top`, which changes only their text and
      flags, keeps the length, the rest and the newest-first order. */
  lemma TopThenRest(sorted: seq<NewsItem>, k: nat, top: seq<NewsItem>)
    requires k <= |sorted| && |top| == k
    requires forall j :: 0 <= j < k ==> SameExceptText(sorted[..k][j], top[j])
    ensures |top + sorted[k..]| == |sorted|
    ensures forall j :: 0 <= j < k ==> (top + sorted[k..])[j] == top[j] && SameExceptText(sorted[j], top[j])
    ensures forall j :: k <= j < |sorted| ==> (top + sorted[k..])[j] == sorted[j]
    ensures NewestFirst(sorted) ==> NewestFirst(top + sorted[k..])
  {
    var items := top + sorted[k..];
    assert forall j :: 0 <= j < k ==> sorted[..k][j] == sorted[j];
    assert forall j :: 0 <= j < |sorted| ==> DateKey(items[j]) == DateKey(sorted[j]);
  }

  /** The response list for a non-empty sorted list: the first 20 translated,
      the rest appended as they are. */
  function Plan(sorted: seq<NewsItem>, enabled: bool, cache: map<Key, Pair>,
                replies: nat -> ModelReply, parse: string -> Json): (r: Run)
    ensures |r.items| == |sorted|
    ensures forall j :: TopCount <= j < |sorted| ==> r.items[j] == sorted[j]
    ensures forall j :: 0 <= j < Min(TopCount, |sorted|) ==>
      SameExceptText(sorted[j], r.items[j]) && r.items[j].isTranslated.Some?
    ensures forall j :: 0 <= j < Min(TopCount, |sorted|) ==> CarriesText(sorted[j], r.items[j], r.cache)
    ensures NewestFirst(sorted) ==> NewestFirst(r.items)
    ensures !enabled ==> forall j :: 0 <= j < Min(TopCount, |sorted|) ==> r.items[j].isTranslated == Some(false)
  {
    var k := Min(TopCount, |sorted|);
    var run := TranslateAll(enabled, cache, sorted[..k], replies, parse);
    var items := run.items + sorted[k..];
    TopCarriesText(enabled, cache, sorted, k, replies, parse);
    TopThenRest(sorted, k, run.items);
    assert !enabled ==> forall j :: 0 <= j < k ==> items[j].isTranslated == Some(false) by {
      if !enabled {
        TranslateAllDisabled(cache, sorted[..k], replies, parse);
      }
    }
    Run(items, run.cache, run.calls)
  }

  /** The endpoint's JSON body, without the `lastUpdated` display string. */
  datatype Response = Response(success: bool, data: seq<NewsItem>, isMock: bool, geminiEnabled: bool)

  /** One more item: translating `top[..j + 1]` is translating `top[..j]` and
      then `top[j]` against the cache that left behind. */
  lemma TranslateAllNext(enabled: bool, cache: map<Key, Pair>, top: seq<NewsItem>, j: nat,
                         replies: nat -> ModelReply, parse: string -> Json)
    requires j < |top|
    ensures var prev := TranslateAll(enabled, cache, top[..j], replies, parse);
      var key := SourceCacheKey(top[j].title, top[j].summary);
      var step := TranslateStep(enabled, prev.cache, key, top[j].title, top[j].summary, replies(j), parse);
      TranslateAll(enabled, cache, top[..j + 1], replies, parse)
        == Run(prev.items + [ApplyTranslation(top[j], Some(step.result))], step.cache,
               prev.calls + if step.called then [key] else [])
  {
    assert top[..j + 1][..j] == top[..j];
  }

  /** The translator's state after translating `top[..n]` from `cache0`. */
  ghost predicate TranslatedUpTo(t: Translator, top: seq<NewsItem>, n: nat, replies: nat -> ModelReply,
                                 cache0: map<Key, Pair>, calls0: seq<Key>, translated: seq<NewsItem>)
    requires n <= |top|
    reads t
  {
    var run := TranslateAll(t.enabled, cache0, top[..n], replies, t.parse);
    translated == run.items && t.cache == run.cache && t.calls == calls0 + run.calls
  }

  /** One item: `top[j]` translated and its result appended to `translated`. */
  method TranslateOne(t: Translator, top: seq<NewsItem>, j: nat, replies: nat -> ModelReply,
                      ghost cache0: map<Key, Pair>, ghost calls0: seq<Key>, translated: seq<NewsItem>)
    returns (extended: seq<NewsItem>)
    requires j < |top|
    requires TranslatedUpTo(t, top, j, replies, cache0, calls0, translated)
    modifies t
    ensures TranslatedUpTo(t, top, j + 1, replies, cache0, calls0, extended)
  {
    var item := top[j];
    ghost var prev := TranslateAll(t.enabled, cache0, top[..j], replies, t.parse);
    TranslateAllNext(t.enabled, cache0, top, j, replies, t.parse);
    var result := t.TranslateNews(item.title, item.summary, replies(j));
    ghost var step := TranslateStep(t.enabled, prev.cache, SourceCacheKey(item.title, item.summary), item.title, item.summary, replies(j), t.parse);
    ghost var added := if step.called then [SourceCacheKey(item.title, item.summary)] else [];
    assert t.calls == calls0 + (prev.calls + added);
    extended := translated + [ApplyTranslation(item, Some(result))];
  }

  /** One batch: `top[lo..hi]` translated one after another, the results
      appended to `translated` in order. */
  method TranslateBatch(t: Translator, top: seq<NewsItem>, lo: nat, hi: nat, replies: nat -> ModelReply,
                        ghost cache0: map<Key, Pair>, ghost calls0: seq<Key>, translated: seq<NewsItem>)
    returns (extended: seq<NewsItem>)
    requires lo <= hi <= |top|
    requires TranslatedUpTo(t, top, lo, replies, cache0, calls0, translated)
    modifies t
    ensures TranslatedUpTo(t, top, hi, replies, cache0, calls0, extended)
  {
    extended := translated;
    var j := lo;
    while j < hi
      invariant lo <= j <= hi
      invariant TranslatedUpTo(t, top, j, replies, cache0, calls0, extended)
    {
      extended := TranslateOne(t, top, j, replies, cache0, calls0, extended);
      j := j + 1;
    }
  }

  /** The translation loop: batches of 3 from the front of `top`, with a
      pause after every batch but the last. */
  method TranslateTop(t: Translator, top: seq<NewsItem>, replies: nat -> ModelReply)
    returns (translated: seq<NewsItem>, pauses: nat, ghost batches: seq<(int, int)>)
    modifies t
    ensures var run := TranslateAll(t.enabled, old(t.cache), top, replies, t.parse);
      translated == run.items && t.cache == run.cache && t.calls == old(t.calls) + run.calls
    ensures |batches| == (|top| + BatchSize - 1) / BatchSize
    ensures forall b :: 0 <= b < |batches| ==> batches[b] == (b * BatchSize, Min(b * BatchSize + BatchSize, |top|))
    ensures pauses == if top == [] then 0 else |batches| - 1
  {
    ghost var cache0, calls0 := t.cache, t.calls;
    translated, pauses, batches := [], 0, [];
    var i := 0;
    while i < |top|
      invariant i == |batches| * BatchSize
      invariant i > 0 ==> i - BatchSize < |top|
      invariant forall b :: 0 <= b < |batches| ==> batches[b] == (b * BatchSize, Min(b * BatchSize + BatchSize, |top|))
      invariant pauses == if i == 0 then 0 else if i < |top| then |batches| else |batches| - 1
      invariant TranslatedUpTo(t, top, Min(i, |top|), replies, cache0, calls0, translated)
      decreases |top| - i
    {
      var batchEnd := Min(i + BatchSize, |top|);
      translated := TranslateBatch(t, top, i, batchEnd, replies, cache0, calls0, translated);
      batches := batches + [(i, batchEnd)];
      if i + BatchSize < |top| {
        pauses := pauses + 1;
      }
      i := i + BatchSize;
    }
    assert top[..Min(i, |top|)] == top;
  }

  /** `GET`: `results` holds one parsed feed per feed URL, `None` where the
      fetch or the parse failed; `now` is the load time the demo dates use. */
  method Get(t: Translator, results: seq<Option<Feed>>, now: int, replies: nat -> ModelReply)
    returns (resp: Response)
    requires |results| == |FeedUrls|
    modifies t
    ensures resp.success && resp.geminiEnabled == t.enabled
    ensures Collect(results) == [] ==>
      resp.data == MockData(now) && resp.isMock && t.cache == old(t.cache) && t.calls == old(t.calls)
    ensures Collect(results) != [] ==>
      var run := Plan(SortByDate(Collect(results)), t.enabled, old(t.cache), replies, t.parse);
      !resp.isMock && resp.data == run.items && t.cache == run.cache && t.calls == old(t.calls) + run.calls
  {
    var allItems := Collect(results);
    if |allItems| == 0 {
      return Response(true, MockData(now), true, t.enabled);
    }
    var sorted := new NewsItem[|allItems|](i requires 0 <= i < |allItems| => allItems[i]);
    assert sorted[..] == allItems;
    SortByDateInPlace(sorted);
    var k := Min(TopCount, sorted.Length);
    var itemsToTranslate := sorted[..k];
    var remainingItems := sorted[k..];
    var translatedItems, pauses, batches := TranslateTop(t, itemsToTranslate, replies);
    var finalItems := translatedItems + remainingItems;
    return Response(true, finalItems, false, t.enabled);
  }

  /** What a non-demo response holds: every merged item once, newest first,
      translations confined to the first 20 positions and to title, summary
      and isTranslated. */
  lemma {:induction false} ResponseShape(results: seq<Option<Feed>>, enabled: bool, cache: map<Key, Pair>,
                                         replies: nat -> ModelReply, parse: string -> Json)
    requires Collect(results) != []
    ensures var sorted := SortByDate(Collect(results));
      var data := Plan(sorted, enabled, cache, replies, parse).items;
      && |data| == |Collect(results)|
      && NewestFirst(data)
      && multiset(sorted) == multiset(Collect(results))
      && (forall j :: TopCount <= j < |data| ==> data[j] == sorted[j] && data[j].isTranslated == None)
      && (forall j :: 0 <= j < |data| ==> SameExceptText(sorted[j], data[j]))
      && (!enabled ==> forall j :: 0 <= j < |data| ==> data[j].isTranslated != Some(true))
  {
    var sorted := SortByDate(Collect(results));
    SortByDateSorts(Collect(results));
    forall j | 0 <= j < |sorted| ensures sorted[j] in Collect(results) {
      assert sorted[j] in multiset(sorted);
    }
  }
}
