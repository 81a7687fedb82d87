# AI tech news aggregator — a Dafny model of its core

The system is a small Next.js site. A server endpoint reads two AI-news RSS
feeds (TechCrunch and The Verge) and turns each entry into a news item. It
tags each item with one of three Chinese category labels using keyword
matching. If no feed delivered anything it falls back to four demo items.
Otherwise it sorts the items newest first and asks a generative model to
translate the newest 20 into Chinese. The translations run in batches of
three, go through a process-wide memo cache, and the remaining items are
appended untranslated. The page then filters the list by category and strips
HTML from each summary before showing it.

The model is organised as follows:

- `wrappers.dfy`: `Wrappers` holds the `Option` type.
- `text.dfy`: `Text` holds the string primitives the source relies on.
  - `includes`, as `Contains` and `Occurs`.
  - ASCII `toLowerCase`, as `Lower`.
  - `trim`, with the ECMAScript whitespace set.
- `news.dfy`: `News` holds the shared `NewsItem` record, the category labels and JavaScript `||` on optional strings.
- `categorize.dfy`: `Categorize` holds `assignCategory`.
- `feeds.dfy`: `Feeds` holds per-entry normalisation, the source label and the merge of the per-feed results.
- `datesort.dfy`: `DateSort` holds the newest-first sort.
  - `SortByDate` is the stable insertion sort that specifies it.
  - `SortByDateInPlace` is an in-place insertion sort on an array, proved equal to `SortByDate`.
- `gemini.dfy`: `Gemini` holds `translateNews`.
  - `TranslateStep` is a function that specifies one call.
  - The class `Translator` owns the cache as a `map` field keyed by the source's string `${title}|${summary}` (`SourceCacheKey`), and its method `TranslateNews` is proved against `TranslateStep`.
- `route.dfy`: `Route` holds the endpoint `GET`.
  - The demo data.
  - The per-item translation result.
  - `TranslateAll`, a fold that specifies the translation of a list.
  - The batch loop (`TranslateTop`, `TranslateBatch`, `TranslateOne`), proved against `TranslateAll` and also stating the batch boundaries and the number of pauses.
  - `Get`, which ties the whole response to `Plan(SortByDate(Collect(results)), …)`.
- `page.dfy`: `Page` holds the page's category filter and the summary clean-up.

Oracles are parameters:

- Each feed arrives already parsed, as `Option<Feed>`, where `None` means the fetch or the parse failed.
- The model's answer for the j-th translated item is `replies(j)`.
- `JSON.parse` is a function `parse` fixed when the `Translator` is created.
- Whether a `GEMINI_API_KEY` is set is the boolean `enabled`.

## Model

| member | source | states |
|---|---|---|
| Categorize.AssignCategory | app/api/news/route.ts:56-65 | result is one of the three labels; model release iff a model keyword occurs in the lower-cased title+summary; dev tools iff no model keyword but a tool keyword occurs; industry iff neither occurs |
| Categorize.ContainsAny | app/api/news/route.ts:58-60 | the chain of `includes` calls is true iff some keyword of the list occurs in the text |
| Categorize.CategoryIgnoresCase | app/api/news/route.ts:57 | lower-casing title or summary beforehand never changes the category |
| Categorize.KeywordAcrossBoundary | app/api/news/route.ts:57-58 | matching runs on the concatenation: "Open GP" and "T-5 ships" are each industry news but together are a model release |
| Categorize.GptTitleIsModelRelease | app/api/news/route.ts:58-59 | a title naming GPT in capitals is a model release |
| Text.Contains | app/api/news/route.ts:58 | `includes` is true iff the pattern occurs at some index of the text |
| Text.Lower | app/api/news/route.ts:57 | `toLowerCase` on ASCII: the length is kept, each letter A-Z becomes its lower-case letter (code point + 32), every other character is unchanged, so no upper-case ASCII letter is left |
| Text.LowerConcat | app/api/news/route.ts:57 | lower-casing distributes over concatenation and is idempotent |
| Text.Trim | lib/gemini.ts:39 | the result has no leading or trailing whitespace, is no longer than the input, and equals the input when the input has no edge whitespace |
| Text.TrimDropsOnlySpace | lib/gemini.ts:39 | the trimmed text is a window of the input and everything outside the window is whitespace |
| Feeds.SourceLabel | app/api/news/route.ts:84 | "The Verge" exactly when the feed title is present and contains "Verge", "TechCrunch" otherwise |
| Feeds.Normalize | app/api/news/route.ts:79-86 | title defaults to ""; link and date are copied; the summary is the first non-empty of snippet and content, else ""; the category is computed from title and snippet only; not yet translated |
| Feeds.FeedItems | app/api/news/route.ts:79-90 | a failed feed contributes no items; a parsed feed contributes one normalised item per entry, in order |
| Feeds.Collect | app/api/news/route.ts:93-94 | every merged item carries a valid category and no translation flag |
| Feeds.CollectEmpty | app/api/news/route.ts:93-107 | the merged list is empty exactly when every feed failed or had no entries, which is when the demo data is served |
| Route.MockData | app/api/news/route.ts:20-53 | four demo items, newest first, one day apart, each with a valid category and no translation flag |
| DateSort.SortByDate | app/api/news/route.ts:119-123 | the order `allItems.sort` leaves: same length as the input; order, permutation and stability are stated by the three lemmas below |
| DateSort.SortByDateKeepsItems | app/api/news/route.ts:119-123 | the sorted list holds exactly the input items, each as often as in the input |
| DateSort.SortByDateSorts | app/api/news/route.ts:119-123 | the sorted list is newest first (a missing date counts as 0) and is a permutation of the input |
| DateSort.SortByDateIsStable | app/api/news/route.ts:119-123 | items with the same publication time keep their input order, as with the stable JavaScript sort |
| DateSort.InsertIsStable | app/api/news/route.ts:119-123 | inserting into a newest-first list keeps the order of the items sharing any one date, the new item last among its equals |
| DateSort.InsertInPlace | app/api/news/route.ts:119-123 | moves `a[i]` left past the strictly older items: the prefix becomes the old prefix with `a[i]` inserted at the returned index, and the rest of the array is unchanged |
| DateSort.SortByDateInPlace | app/api/news/route.ts:119-123 | the array afterwards holds `SortByDate` of its old contents |
| Route.ApplyTranslation | app/api/news/route.ts:136-142 | only title, summary and isTranslated change; a resolved call puts the translation's title and summary on the item; a thrown call yields the item with isTranslated false |
| Route.TranslateAll | app/api/news/route.ts:134-146 | with the cache keyed by `${title}\|${summary}`: same length, only text fields and flag change, every item gets a flag, the cache only grows, and a key already cached is never sent to the model |
| Route.TranslateAllCarriesText | app/api/news/route.ts:136-146 | each untranslated item comes back as the original with isTranslated false; each translated item's key is in the final cache and maps to exactly the item's new title and summary |
| Route.TranslateAllDisabled | app/api/news/route.ts:134-146 | without an API key every item comes back unchanged with isTranslated false, the cache is untouched and the model is never called |
| Route.Plan | app/api/news/route.ts:128-154 | the newest 20 are translated in order, the rest are appended unchanged, the length is kept, newest-first order survives, and without a key none of the 20 is marked translated; each of the 20 is either the original with isTranslated false or carries the text the final cache holds under its key |
| Route.TopCarriesText | app/api/news/route.ts:128-146 | every one of the newest 20 is either the original marked untranslated or carries the text the final cache holds under its key |
| Route.TopThenRest | app/api/news/route.ts:128-154 | appending the untranslated rest to the translated top keeps the length, puts the rest unchanged after the top, and keeps newest-first order |
| Route.TranslateOne | app/api/news/route.ts:136-139 | translating the next item extends the translated prefix, cache and call log exactly as `TranslateAll` on one more item |
| Route.TranslateBatch | app/api/news/route.ts:135-146 | after one batch the translated prefix, cache and call log are those of `TranslateAll` on the prefix up to the batch end |
| Route.TranslateTop | app/api/news/route.ts:131-152 | the loop's output, cache and call log equal `TranslateAll` on the whole slice; batches are [3b, min(3b+3, n)); there is one pause between consecutive batches and none after the last |
| Route.Get | app/api/news/route.ts:67-162 | given one result per feed URL: always success; the demo list with isMock when nothing was collected, with cache and calls untouched; otherwise the data, cache and calls of `Plan` over the date-sorted merged list |
| Route.ResponseShape | app/api/news/route.ts:118-154 | the non-demo data holds every merged item once, newest first; beyond position 20 items are untranslated and unchanged; translation never changes link, date, source or category; without a key nothing is marked translated |
| Gemini.StripFences | lib/gemini.ts:39 | removing the fence markers never lengthens the text |
| Gemini.StripFencesKeepsPlain | lib/gemini.ts:39 | text with no backtick and not ending in a newline is kept as it is, ahead of the cleaned rest |
| Gemini.StripFencesOther | lib/gemini.ts:39 | a character that opens neither "```" nor "\n```" is kept and scanning goes on after it |
| Gemini.StripFencesDropsMarker | lib/gemini.ts:39 | "```json" with its newline, "```json" not followed by a newline, "\n```", and "```" not followed by "json" are each removed and scanning resumes right after them |
| Gemini.StripFencesNoBacktick | lib/gemini.ts:39 | text without a backtick passes through the fence removal unchanged |
| Gemini.FencedReplyUnwrapped | lib/gemini.ts:38-39 | a reply wrapped as "```json\n" + body + "\n```" is reduced to the body |
| Gemini.CleanReply | lib/gemini.ts:39 | a reply without backticks is only trimmed |
| Gemini.TranslateStep | lib/gemini.ts:11-61 | the model is called iff a key is configured and the key is not cached; the result is translated iff configured and (cache hit or the reply parses to a non-null value); otherwise the original text comes back and the cache is untouched; a translated result is what the cache holds under the key; entries are only added, and only under this key |
| Gemini.ParsedFieldsFallBack | lib/gemini.ts:49-55 | on a parsed reply each missing or empty field falls back to the original text, and the pair is stored under the key |
| Gemini.RepeatAfterSuccessIsHit | lib/gemini.ts:21-24 | after a successful translation the same key is a cache hit: no model call, same result, same cache, whatever the model would answer |
| Gemini.SourceCacheKey | lib/gemini.ts:21 | the key is the title, one bar, then the summary |
| Gemini.SourceCacheKeyInjective | lib/gemini.ts:21 | when neither title contains a bar, equal keys mean equal titles and equal summaries |
| Gemini.SourceCacheKeyCollides | lib/gemini.ts:21 | two different (title, summary) pairs share the source's string key |
| Gemini.SourceKeyServesOtherTranslation | lib/gemini.ts:21-24 | with the string key, the second of two colliding items is served the first item's translation without a model call |
| Gemini.PairKeyServesOnlyItsOwnItem | lib/gemini.ts:21-24 | with the pair as key, an entry stored for one item is never served for another: the second item goes to the model |
| Gemini.Translator.constructor | lib/gemini.ts:9 | the translator starts with an empty cache and no calls |
| Gemini.Translator.TranslateNews | lib/gemini.ts:11-61 | the returned translation, the new cache and the call log are those of `TranslateStep` on the old cache under the key `${title}\|${summary}` |
| Page.Keep | app/page.tsx:62 | the filtered list is no longer than the input, is a sub-multiset of it, and holds exactly the input items that match the selection |
| Page.FilterNews | app/page.tsx:60-62 | the shown list is no longer than the full list and holds exactly the items that match the selection, every item under "all" |
| Page.FilterNewsSpec | app/page.tsx:60-62 | "all" shows the list unchanged; any other selection shows exactly the matching items |
| Page.FilterNewsAppend | app/page.tsx:60-62 | filtering distributes over concatenation, so the shown items keep their order |
| Page.UncategorisedUnderIndustry | app/page.tsx:62 | among the page's buttons, an item without a category is listed under exactly "all" and industry news |
| Page.StripTags | app/page.tsx:204 | removing tags never lengthens the text and introduces no character that was not in it |
| Page.StripTagsKeepsPlain | app/page.tsx:204 | text before the first '<' is kept as it is, ahead of the stripped rest |
| Page.StripTagsOther | app/page.tsx:204 | a character that does not open a tag is kept and stripping goes on after it |
| Page.StripTagsDropsTag | app/page.tsx:204 | a tag `<t>` with a non-empty body free of '>' is removed and the text after it is stripped in turn |
| Page.StripTagsLeavesNoTag | app/page.tsx:204 | no `<…>` tag is left after stripping |
| Page.StripTagsNoTagUnchanged | app/page.tsx:204 | text without a tag is left unchanged |
| Page.StripTagsIdempotent | app/page.tsx:204 | stripping twice is stripping once |
| Page.ReplaceNbsp | app/page.tsx:204 | replacing the entity never lengthens the text |
| Page.ReplaceNbspKeepsPlain | app/page.tsx:204 | text before the first '&' is kept as it is, ahead of the replaced rest |
| Page.ReplaceNbspOther | app/page.tsx:204 | a character that does not open "&nbsp;" is kept and replacing goes on after it |
| Page.ReplaceNbspEntity | app/page.tsx:204 | a leading "&nbsp;" becomes exactly one space and the rest is replaced in turn |
| Page.ReplaceNbspLeavesNone | app/page.tsx:204 | no "&nbsp;" is left after the replacement |
| Page.ReplaceNbspNoEntity | app/page.tsx:204 | text without "&nbsp;" passes through unchanged |
| Page.CleanSummary | app/page.tsx:204 | the shown summary is no longer than the stored one |
| Page.CleanSummaryPlainText | app/page.tsx:204 | a summary with no '<' and no "&nbsp;" is shown as it is |

## Left out

- Fetching the feeds, the RSS parser, the User-Agent header and the 5-second timeout are not modelled. Each feed is an already parsed `Option<Feed>`, and `None` covers every fetch or parse failure (route.ts 71-90).
- Timing is not modelled:
  - `Promise.all` concurrency across feeds is left out.
  - The one-second `setTimeout` between batches is represented only by the count of pauses.
  - Route-level revalidation caching is left out.
- Route.TranslateTop: the items of one batch run concurrently in the source, but the model translates them one after another. Two items with the same key inside one batch would both miss the cache there and the last write would win. In the model the second item is a hit.
- Publication dates are integers in milliseconds. An unparsable date string, which makes the JavaScript comparator return NaN, is not modelled.
- `lastUpdated` and its `zh-CN` locale formatting are not modelled, because they are display only.
- The demo dates are taken as a parameter `now`, the time the module was loaded.
- The outer `catch` of `GET` (route.ts 163-172) is not modelled. No modelled step can throw, so it is unreachable in the model.
- `translateNews` never rejects, because all its failures are caught inside it. So the per-item `catch` at route.ts 140-141 never runs. It is kept in `Route.ApplyTranslation`'s `None` case, but the loop always passes `Some`.
- Text.Lower: lower-cases ASCII letters only. JavaScript's `toLowerCase` also maps other scripts. None of the keywords contains a non-ASCII letter, but a non-ASCII letter that lower-cases to an ASCII one (KELVIN SIGN to 'k') is not followed.
- Feeds.Normalize: a missing entry title becomes "" rather than `undefined`. The source differs downstream: its cache key is then "undefined|" + summary and its prompt says "Title: undefined". So the source shares one cache entry between a missing title and the title "undefined", while the model keeps those two apart and instead shares one entry (key "|" + summary) between a missing title and the empty title. In the source's JSON output an untranslated item with a missing title has no title field.
- Gemini.TranslateStep: the parsed JSON is reduced to `Malformed`, `null` or an object with optional string `title`/`summary`. Non-string truthy fields (numbers, objects) are not modelled.
- The prompt text and the model name are not modelled. The model's answer is an oracle.
- Feeds.Normalize follows the code: the category is computed from the title and `contentSnippet` only, not from the summary that falls back to `content`.
- DateSort.SortByDateInPlace: the model uses a different algorithm from the engine's sort. The result is the same because both are stable and use the same key.

## Findings

| source | as written | input that shows it | evidently intended | confidence | as-written member | corrected member |
|---|---|---|---|---|---|---|
| lib/gemini.ts:21 | the cache key is the string title + "\|" + summary, which is not injective | translate ("a\|b", "c") and then ("a", "b\|c"): both have key "a\|b\|c", so the second is served the first item's translation | a key that identifies the (title, summary) pair, so a cached translation is only returned for the item it was made for; the translator itself keeps the key as written, and the corrected key is stated through the key-generic `TranslateStep` | not executed; feed titles often contain "\|", but a collision also needs matching summary text | Gemini.SourceKeyServesOtherTranslation | Gemini.PairKeyServesOnlyItsOwnItem |
