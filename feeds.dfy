/** Normalisation of parsed feed entries into news items, and the merge of
    the per-feed results of the news endpoint. The HTTP fetch and the RSS
    parser are outside the model: each feed arrives as an already parsed
    `Feed`, or as `None` when fetching or parsing it failed. */
module Feeds {
  import opened Wrappers
  import opened Text
  import opened News
  import opened Categorize

  /** The two feeds the endpoint reads, in order. */
  const FeedUrls: seq<string> := [
    "https://techcrunch.com/category/artificial-intelligence/feed/",
    "https://www.theverge.com/rss/artificial-intelligence/index.xml"]

  const TheVerge: string := "The Verge"
  const TechCrunch: string := "TechCrunch"

  /** One entry as the RSS parser reports it; every field may be missing.
      `pubDate` is the entry's publication time in milliseconds. */
  datatype RawItem = RawItem(
    title: Option<string>,
    link: Option<string>,
    pubDate: Option<int>,
    contentSnippet: Option<string>,
    content: Option<string>)

  /** A parsed feed: its own title and its entries. */
  datatype Feed = Feed(title: Option<string>, items: seq<RawItem>)

  /** The source label: "The Verge" exactly when the feed's title mentions
      "Verge" (case-sensitively), "TechCrunch" otherwise. */
  function SourceLabel(feedTitle: Option<string>): (r: string)
    ensures r == TheVerge || r == TechCrunch
    ensures r == TheVerge <==> feedTitle.Some? && Occurs("Verge", feedTitle.value)
  {
    if feedTitle.Some? && Contains(feedTitle.value, "Verge") then TheVerge else TechCrunch
  }

  /** One entry as a news item. The summary is the first non-empty of the
      snippet and the content; the category is computed from the title and
      the snippet only; the item is not yet translated. */
  function Normalize(feedTitle: Option<string>, item: RawItem): (n: NewsItem)
    ensures n.title == item.title.GetOr("") && n.link == item.link && n.pubDate == item.pubDate
    ensures n.isTranslated == None
    ensures n.summary == if Truthy(item.contentSnippet) then item.contentSnippet.value
                         else if Truthy(item.content) then item.content.value else ""
    ensures n.source == SourceLabel(feedTitle)
    ensures n.category.Some? && IsCategory(n.category.value)
    ensures n.category.value == AssignCategory(item.title.GetOr(""), Or(item.contentSnippet, ""))
  {
    NewsItem(
      title := item.title.GetOr(""),
      link := item.link,
      pubDate := item.pubDate,
      summary := Or(item.contentSnippet, Or(item.content, "")),
      source := SourceLabel(feedTitle),
      category := Some(AssignCategory(item.title.GetOr(""), Or(item.contentSnippet, ""))),
      isTranslated := None)
  }

  /** The items one feed contributes: none when its fetch failed. */
  function FeedItems(result: Option<Feed>): (r: seq<NewsItem>)
    ensures result.None? ==> r == []
    ensures result.Some? ==> (|r| == |result.value.items| &&
      forall i :: 0 <= i < |r| ==> r[i] == Normalize(result.value.title, result.value.items[i]))
  {
    match result
    case None => []
    case Some(feed) => seq(|feed.items|, i requires 0 <= i < |feed.items| => Normalize(feed.title, feed.items[i]))
  }

  /** `results.flat()`: the items of all feeds, feed by feed, in feed order. */
  function Collect(results: seq<Option<Feed>>): (r: seq<NewsItem>)
    ensures forall x :: x in r ==> x.category.Some? && IsCategory(x.category.value) && x.isTranslated == None
  {
    if results == [] then [] else FeedItems(results[0]) + Collect(results[1..])
  }

  /** The merged list is empty exactly when every feed failed or had no entries. */
  lemma {:induction false} CollectEmpty(results: seq<Option<Feed>>)
    ensures Collect(results) == [] <==>
      forall i :: 0 <= i < |results| ==> results[i].None? || results[i].value.items == []
  {
    if results != [] {
      CollectEmpty(results[1..]);
      assert forall i :: 1 <= i < |results| ==> results[i] == results[1..][i - 1];
    }
  }
}
