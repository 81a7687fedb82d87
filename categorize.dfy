/** The keyword categoriser `assignCategory` of the news endpoint. */
module Categorize {
  import opened Text
  import opened News

  /** Model-name keywords, checked first. */
  const ModelKeywords: seq<string> := ["gpt", "claude", "gemini", "llama", "model"]
  /** Developer-tool keywords, checked when no model keyword matched. */
  const ToolKeywords: seq<string> := ["tool", "sdk", "api", "github", "code"]

  /** Some keyword of `keywords` occurs in `text`. */
  ghost predicate MentionsAny(text: string, keywords: seq<string>) {
    exists k :: k in keywords && Occurs(k, text)
  }

  /** `text.includes(k0) || text.includes(k1) || ...`, left to right. */
  function ContainsAny(text: string, keywords: seq<string>): (b: bool)
    ensures b <==> MentionsAny(text, keywords)
  {
    if keywords == [] then false
    else
      assert forall k :: k in keywords <==> k == keywords[0] || k in keywords[1..];
      Contains(text, keywords[0]) || ContainsAny(text, keywords[1..])
  }

  /** The category of an item from its title and summary: matching runs on the
      lower-cased concatenation, model keywords take priority over tool
      keywords, and everything else is industry news. */
  function AssignCategory(title: string, summary: string): (r: string)
    ensures IsCategory(r)
    ensures r == ModelRelease <==> MentionsAny(Lower(title + summary), ModelKeywords)
    ensures r == DevTools <==>
      !MentionsAny(Lower(title + summary), ModelKeywords) && MentionsAny(Lower(title + summary), ToolKeywords)
    ensures r == Industry <==>
      !MentionsAny(Lower(title + summary), ModelKeywords) && !MentionsAny(Lower(title + summary), ToolKeywords)
  {
    var text := Lower(title + summary);
    if ContainsAny(text, ModelKeywords) then ModelRelease
    else if ContainsAny(text, ToolKeywords) then DevTools
    else Industry
  }

  /** The category ignores letter case: lower-casing either part first gives
      the same answer. */
  lemma CategoryIgnoresCase(title: string, summary: string)
    ensures AssignCategory(Lower(title), Lower(summary)) == AssignCategory(title, summary)
  {
    LowerConcat(title, summary);
    LowerConcat(Lower(title), Lower(summary));
    LowerConcat(title, title);
    LowerConcat(summary, summary);
  }

  /** No keyword of `keywords` occurs in `text`, shown by naming for each
      keyword one of its characters that `text` lacks. */
  lemma {:induction false} NoKeyword(text: string, keywords: seq<string>, absent: seq<char>)
    requires |absent| == |keywords|
    requires forall i :: 0 <= i < |keywords| ==> absent[i] in keywords[i] && absent[i] !in text
    ensures !MentionsAny(text, keywords)
  {
    forall k | k in keywords ensures !Occurs(k, text) {
      var i :| 0 <= i < |keywords| && keywords[i] == k;
      AbsentCharNoOccurrence(k, text, absent[i]);
    }
  }

  /** A keyword may straddle the title/summary boundary: neither "Open GP" nor
      "T-5 ships" is a model release on its own, but together they spell "gpt". */
  lemma KeywordAcrossBoundary()
    ensures AssignCategory("Open GP", "") == Industry
    ensures AssignCategory("", "T-5 ships") == Industry
    ensures AssignCategory("Open GP", "T-5 ships") == ModelRelease
  {
    BoundaryHalvesHaveNoKeyword();
    var text := Lower("Open GP" + "T-5 ships");
    assert text[5..8] == "gpt";
    assert OccursAt("gpt", text, 5);
  }

  /** Neither half of the boundary example mentions a keyword by itself. */
  lemma BoundaryHalvesHaveNoKeyword()
    ensures !MentionsAny(Lower("Open GP" + ""), ModelKeywords)
    ensures !MentionsAny(Lower("Open GP" + ""), ToolKeywords)
    ensures !MentionsAny(Lower("" + "T-5 ships"), ModelKeywords)
    ensures !MentionsAny(Lower("" + "T-5 ships"), ToolKeywords)
  {
    assert Lower("Open GP" + "") == "open gp";
    NoKeyword("open gp", ModelKeywords, "tcmlm");
    NoKeyword("open gp", ToolKeywords, "tsaic");
    assert Lower("" + "T-5 ships") == "t-5 ships";
    NoKeyword("t-5 ships", ModelKeywords, "gcglm");
    NoKeyword("t-5 ships", ToolKeywords, "odagc");
  }

  /** Example: a title naming GPT is a model release. */
  lemma GptTitleIsModelRelease()
    ensures AssignCategory("GPT-5 launches", "") == ModelRelease
  {
    assert OccursAt("gpt", Lower("GPT-5 launches" + ""), 0);
  }
}
