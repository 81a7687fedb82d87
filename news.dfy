/** The news item record shared by the endpoint and the page, and the
    category labels the categoriser and the page filter agree on. */
module News {
  import opened Wrappers

  /** The three category labels and the page's "all" selection. */
  const ModelRelease: string := "大模型发布"
  const DevTools: string := "开发工具"
  const Industry: string := "行业资讯"
  const All: string := "全部"

  /** The filter buttons of the page, in display order. */
  const Categories: seq<string> := [All, ModelRelease, DevTools, Industry]

  predicate IsCategory(c: string) {
    c == ModelRelease || c == DevTools || c == Industry
  }

  /** One card of the list. `pubDate` is a timestamp in milliseconds;
      `category` and `isTranslated` are optional fields of the JSON shape. */
  datatype NewsItem = NewsItem(
    title: string,
    link: Option<string>,
    pubDate: Option<int>,
    summary: string,
    source: string,
    category: Option<string>,
    isTranslated: Option<bool>)

  /** JavaScript truthiness of an optional string: absent and "" are falsy. */
  predicate Truthy(o: Option<string>) {
    o.Some? && o.value != ""
  }

  /** `o || fallback` for an optional string. */
  function Or(o: Option<string>, fallback: string): string {
    if Truthy(o) then o.value else fallback
  }
}
