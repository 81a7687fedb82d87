/** The memoising translator `translateNews`. The generative model and
    `JSON.parse` are outside the model: the model's answer for one call is a
    `ModelReply` argument and the parser is the function `parse` fixed when
    the translator is created. */
module Gemini {
  import opened Wrappers
  import opened Text
  import opened News

  /** A translated title and summary, the value stored in the cache. */
  datatype Pair = Pair(title: string, summary: string)

  /** What `translateNews` resolves to. */
  datatype Translation = Translation(title: string, summary: string, isTranslated: bool)

  /** The outcome of one model call: it threw, or it answered with a text. */
  datatype ModelReply = CallFailed | Replied(text: string)

  /** What `JSON.parse` gives for the cleaned text: a syntax error, `null`, or
      some other value whose `title` and `summary` properties may be missing.
      Reading a property of `null` throws, which the translator catches. */
  datatype Json = Malformed | Null | Value(title: Option<string>, summary: Option<string>)

  /** The cache key: the string `SourceCacheKey(title, summary)`. */
  type Key = string

  /** The result of one call together with the cache after it and whether the
      model was called. */
  datatype Step<K> = Step(result: Translation, cache: map<K, Pair>, called: bool)

  /** Every entry of `m` is still in `m2` with the same value. */
  ghost predicate Extends<K, V>(m: map<K, V>, m2: map<K, V>) {
    forall k :: k in m ==> k in m2 && m2[k] == m[k]
  }

  /** `text.replace(/```json\n?|\n?```/g, "")`: scanning left to right, drops
      each "```json" with the newline after it if any, and each "```" with
      the newline before it if any. */
  function StripFences(s: string): (r: string)
    ensures |r| <= |s|
    decreases |s|
  {
    if StartsWith(s, "```json") then
      if StartsWith(s, "```json\n") then StripFences(s[8..]) else StripFences(s[7..])
    else if StartsWith(s, "\n```") then StripFences(s[4..])
    else if StartsWith(s, "```") then StripFences(s[3..])
    else if s == [] then []
    else [s[0]] + StripFences(s[1..])
  }

  /** Text without backticks holds no fence marker and passes unchanged. */
  lemma {:induction false} StripFencesNoBacktick(s: string)
    requires '`' !in s
    ensures StripFences(s) == s
  {
    if s != [] {
      assert !StartsWith(s, "```") && !StartsWith(s, "```json") by {
        assert s[0] != '`';
      }
      assert !StartsWith(s, "\n```") by {
        if |s| >= 4 { assert s[1] != '`'; }
      }
      StripFencesNoBacktick(s[1..]);
    }
  }

  lemma {:induction false} StripClosingFence(body: string)
    requires '`' !in body
    ensures StripFences(body + "\n```") == body
    decreases |body|
  {
    var s := body + "\n```";
    if body == [] {
      assert s == "\n```";
      assert s[4..] == [];
    } else {
      assert s[0] == body[0] && s[0] != '`';
      assert s[1] != '`' by {
        if |body| > 1 { assert s[1] == body[1]; } else { assert s[1] == '\n'; }
      }
      assert !StartsWith(s, "```json") && !StartsWith(s, "```") && !StartsWith(s, "\n```");
      assert s[1..] == body[1..] + "\n```";
      StripClosingFence(body[1..]);
    }
  }

  /** A reply wrapped in a "```json" fence is unwrapped to its content. */
  lemma FencedReplyUnwrapped(body: string)
    requires '`' !in body
    ensures StripFences("```json\n" + body + "\n```") == body
  {
    var s := "```json\n" + body + "\n```";
    assert StartsWith(s, "```json\n") by {
      assert s[..8] == "```json\n";
    }
    assert s[8..] == body + "\n```";
    StripClosingFence(body);
  }

  /** Text with no backtick and not ending in a newline is kept as it is,
      ahead of the cleaned rest. */
  lemma {:induction false} StripFencesKeepsPlain(p: string, s: string)
    requires '`' !in p && (p == [] || p[|p| - 1] != '\n')
    ensures StripFences(p + s) == p + StripFences(s)
    decreases |p|
  {
    if p == [] {
      assert p + s == s;
    } else {
      assert '`' !in p[1..] && (p[1..] == [] || p[1..][|p[1..]| - 1] != '\n');
      StripFencesKeepsPlain(p[1..], s);
      KeepsPlainStep(p, s);
    }
  }

  /** One step of `StripFencesKeepsPlain`: the first character of the plain
      prefix is kept ahead of the rest. */
  lemma KeepsPlainStep(p: string, s: string)
    requires p != [] && '`' !in p && p[|p| - 1] != '\n'
    requires StripFences(p[1..] + s) == p[1..] + StripFences(s)
    ensures StripFences(p + s) == p + StripFences(s)
  {
    var t := p[1..] + s;
    var rest := StripFences(s);
    PlainHeadOpensNoMarker(p, s);
    StripFencesOther(p[0], t);
    ConsConcat(p, s);
    ConsConcat(p, rest);
  }

  /** The first character of such a plain prefix opens no marker. */
  lemma PlainHeadOpensNoMarker(p: string, s: string)
    requires p != [] && '`' !in p && p[|p| - 1] != '\n'
    ensures !StartsWith([p[0]] + (p[1..] + s), "```")
    ensures !StartsWith([p[0]] + (p[1..] + s), "\n```")
  {
    var u := [p[0]] + (p[1..] + s);
    assert u[0] == p[0] && p[0] in p;
    if |p| > 1 {
      assert u[1] == p[1] && p[1] in p;
    }
  }

  /** A character that opens no marker is kept. */
  lemma StripFencesOther(c: char, s: string)
    requires !StartsWith([c] + s, "```") && !StartsWith([c] + s, "\n```")
    ensures StripFences([c] + s) == [c] + StripFences(s)
  {
    assert !StartsWith([c] + s, "```json") by {
      if |s| >= 6 { assert ([c] + s)[..3] == ([c] + s)[..7][..3]; }
    }
    assert ([c] + s)[1..] == s;
  }

  /** Each marker is dropped and scanning resumes right after it: "```json"
      with its newline, "```json" without one, a newline with "```", and a
      bare "```". */
  lemma StripFencesDropsMarker(s: string)
    ensures StripFences("```json\n" + s) == StripFences(s)
    ensures !StartsWith(s, "\n") ==> StripFences("```json" + s) == StripFences(s)
    ensures StripFences("\n```" + s) == StripFences(s)
    ensures !StartsWith("```" + s, "```json") ==> StripFences("```" + s) == StripFences(s)
  {
    var a := "```json\n" + s;
    assert a[..7] == "```json" && a[..8] == "```json\n" && a[8..] == s;
    var b := "```json" + s;
    assert b[..7] == "```json" && b[7..] == s;
    if !StartsWith(s, "\n") {
      assert !StartsWith(b, "```json\n") by {
        if |b| >= 8 { assert b[7] == s[0] && s[..1] == [s[0]]; }
      }
    }
    var c := "\n```" + s;
    assert c[..4] == "\n```" && c[4..] == s && c[0] == '\n';
    var d := "```" + s;
    assert d[..3] == "```" && d[3..] == s;
  }

  /** The cleaned reply handed to the JSON parser. */
  function CleanReply(text: string): (r: string)
    ensures '`' !in text ==> r == Trim(text)
  {
    if '`' !in text then StripFencesNoBacktick(text); Trim(StripFences(text))
    else Trim(StripFences(text))
  }

  /** The model answered and its cleaned answer parsed to a non-null value. */
  predicate Parses(reply: ModelReply, parse: string -> Json) {
    reply.Replied? && parse(CleanReply(reply.text)).Value?
  }

  /** One call of `translateNews` for the given cache and cache key. */
  function TranslateStep<K(==)>(enabled: bool, cache: map<K, Pair>, key: K,
                                title: string, summary: string,
                                reply: ModelReply, parse: string -> Json): (o: Step<K>)
    // the model is called only when translation is configured and the key is not cached
    ensures o.called <==> enabled && key !in cache
    // translated exactly on a cache hit or a reply that parses
    ensures o.result.isTranslated <==> enabled && (key in cache || Parses(reply, parse))
    // otherwise the original text comes back and the cache is untouched
    ensures !o.result.isTranslated ==>
      o.result.title == title && o.result.summary == summary && o.cache == cache
    // a translated result is what the cache now holds under the key
    ensures o.result.isTranslated ==> key in o.cache && o.cache[key] == Pair(o.result.title, o.result.summary)
    // entries are only ever added, and only under this key
    ensures Extends(cache, o.cache) && o.cache.Keys <= cache.Keys + {key}
  {
    if !enabled then
      Step(Translation(title, summary, false), cache, false)
    else if key in cache then
      Step(Translation(cache[key].title, cache[key].summary, true), cache, false)
    else
      match reply
      case CallFailed => Step(Translation(title, summary, false), cache, true)
      case Replied(text) =>
        match parse(CleanReply(text))
        case Malformed => Step(Translation(title, summary, false), cache, true)
        case Null => Step(Translation(title, summary, false), cache, true)
        case Value(t, s) =>
          var stored := Pair(Or(t, title), Or(s, summary));
          Step(Translation(stored.title, stored.summary, true), cache[key := stored], true)
  }

  /** On a parsed reply each field falls back to the original text when the
      parsed field is missing or empty, and the pair is stored under the key. */
  lemma ParsedFieldsFallBack<K>(cache: map<K, Pair>, key: K, title: string, summary: string,
                                text: string, parse: string -> Json)
    requires key !in cache && parse(CleanReply(text)).Value?
    ensures var v := parse(CleanReply(text));
      var o := TranslateStep(true, cache, key, title, summary, Replied(text), parse);
      && o.result == Translation(Or(v.title, title), Or(v.summary, summary), true)
      && o.cache == cache[key := Pair(Or(v.title, title), Or(v.summary, summary))]
  {
  }

  /** After a successful call, calling again with the same key makes no model
      call, whatever the model would answer, and returns the same translation. */
  lemma RepeatAfterSuccessIsHit<K>(enabled: bool, cache: map<K, Pair>, key: K,
                                   title: string, summary: string,
                                   reply1: ModelReply, reply2: ModelReply, parse: string -> Json)
    requires TranslateStep(enabled, cache, key, title, summary, reply1, parse).result.isTranslated
    ensures var first := TranslateStep(enabled, cache, key, title, summary, reply1, parse);
      var second := TranslateStep(enabled, first.cache, key, title, summary, reply2, parse);
      !second.called && second.result == first.result && second.cache == first.cache
  {
    var first := TranslateStep(enabled, cache, key, title, summary, reply1, parse);
    var second := TranslateStep(enabled, first.cache, key, title, summary, reply2, parse);
    assert second.cache.Keys == first.cache.Keys;
  }

  /** The cache key `${title}|${summary}`: the title, a bar, then the summary. */
  function SourceCacheKey(title: string, summary: string): (k: Key)
    ensures |k| == |title| + 1 + |summary|
    ensures k[..|title|] == title && k[|title|] == '|' && k[|title| + 1..] == summary
  {
    title + "|" + summary
  }

  /** The key determines the item when titles contain no bar: the first bar of
      the key then separates title from summary. */
  lemma SourceCacheKeyInjective(t1: string, s1: string, t2: string, s2: string)
    requires '|' !in t1 && '|' !in t2
    requires SourceCacheKey(t1, s1) == SourceCacheKey(t2, s2)
    ensures t1 == t2 && s1 == s2
  {
    var k := SourceCacheKey(t1, s1);
    assert forall i :: 0 <= i < |t1| ==> k[i] == t1[i] && t1[i] in t1;
    assert forall i :: 0 <= i < |t2| ==> k[i] == t2[i] && t2[i] in t2;
    assert k[|t1|] == '|' && k[|t2|] == '|';
  }

  /** The source's key is ambiguous once a title contains a bar: two
      different (title, summary) pairs share the key "a|b|c". */
  lemma SourceCacheKeyCollides()
    ensures ("a|b", "c") != ("a", "b|c")
    ensures SourceCacheKey("a|b", "c") == SourceCacheKey("a", "b|c")
  {
  }

  /** With the source's key, translating ("a", "b|c") after ("a|b", "c") was
      translated to X/Y makes no model call and returns X/Y, the translation of
      the other item. */
  lemma SourceKeyServesOtherTranslation(text: string, reply: ModelReply, parse: string -> Json)
    requires parse(CleanReply(text)) == Value(Some("X"), Some("Y"))
    ensures var first := TranslateStep(true, map[], SourceCacheKey("a|b", "c"), "a|b", "c", Replied(text), parse);
      var second := TranslateStep(true, first.cache, SourceCacheKey("a", "b|c"), "a", "b|c", reply, parse);
      && first.result == Translation("X", "Y", true)
      && !second.called && second.result == Translation("X", "Y", true)
  {
    SourceCacheKeyCollides();
    ParsedFieldsFallBack(map[], SourceCacheKey("a|b", "c"), "a|b", "c", text, parse);
  }

  /** Keyed by the (title, summary) pair instead, an entry stored for one item
      is never served for a different item: the second call goes to the model. */
  lemma PairKeyServesOnlyItsOwnItem(cache: map<(string, string), Pair>, t1: string, s1: string, reply1: ModelReply,
                                    t2: string, s2: string, reply2: ModelReply, parse: string -> Json)
    requires (t1, s1) != (t2, s2) && (t2, s2) !in cache
    ensures var first := TranslateStep(true, cache, (t1, s1), t1, s1, reply1, parse);
      var second := TranslateStep(true, first.cache, (t2, s2), t2, s2, reply2, parse);
      second.called && (second.result.isTranslated <==> Parses(reply2, parse))
  {
  }

  /** The translator of one server process: whether an API key (and so a
      model) is configured, the JSON parser, and the process-wide cache. */
  class Translator {
    const enabled: bool
    const parse: string -> Json
    var cache: map<Key, Pair>
    /** The keys sent to the model, in call order. */
    ghost var calls: seq<Key>

    constructor (enabled: bool, parse: string -> Json)
      ensures this.enabled == enabled && this.parse == parse
      ensures cache == map[] && calls == []
    {
      this.enabled := enabled;
      this.parse := parse;
      cache := map[];
      calls := [];
    }

    /** `translateNews(title, summary)`, where `reply` is what the model would
        answer if it were called now. */
    method TranslateNews(title: string, summary: string, reply: ModelReply) returns (r: Translation)
      modifies this
      ensures var o := TranslateStep(enabled, old(cache), SourceCacheKey(title, summary), title, summary, reply, parse);
        && r == o.result && cache == o.cache
        && calls == old(calls) + (if o.called then [SourceCacheKey(title, summary)] else [])
    {
      if !enabled {
        return Translation(title, summary, false);
      }
      var key := SourceCacheKey(title, summary);
      if key in cache {
        var stored := cache[key];
        return Translation(stored.title, stored.summary, true);
      }
      calls := calls + [key];
      match reply {
        case CallFailed =>
          return Translation(title, summary, false);
        case Replied(text) =>
          var cleanText := CleanReply(text);
          var translated := parse(cleanText);
          match translated {
            case Malformed =>
              return Translation(title, summary, false);
            case Null =>
              return Translation(title, summary, false);
            case Value(t, s) =>
              var resultData := Pair(Or(t, title), Or(s, summary));
              cache := cache[key := resultData];
              return Translation(resultData.title, resultData.summary, true);
          }
      }
    }
  }
}
