/** The two display helpers of the news page: the category filter
    `filteredNews` and the summary clean-up applied before a summary is shown. */
module Page {
  import opened Wrappers
  import opened Text
  import opened News

  /** The filter test for one item under a selection other than "all": its
      category equals the selection, or it has no category and the selection
      is industry news. */
  predicate Matches(item: NewsItem, selected: string) {
    (item.category.Some? && item.category.value == selected) || (!Truthy(item.category) && selected == Industry)
  }

  /** `news.filter(item => ...)`: the matching items in their original order. */
  function Keep(news: seq<NewsItem>, selected: string): (r: seq<NewsItem>)
    ensures |r| <= |news|
    ensures forall x :: x in r <==> x in news && Matches(x, selected)
    ensures multiset(r) <= multiset(news)
  {
    if news == [] then []
    else
      assert news == [news[0]] + news[1..];
      (if Matches(news[0], selected) then [news[0]] else []) + Keep(news[1..], selected)
  }

  /** `filteredNews`: everything under "all", the matching items otherwise. */
  function FilterNews(news: seq<NewsItem>, selected: string): (r: seq<NewsItem>)
    ensures |r| <= |news|
    ensures forall x :: x in r <==> x in news && (selected == All || Matches(x, selected))
  {
    if selected == All then news else Keep(news, selected)
  }

  /** Filtering distributes over concatenation, so the kept items keep their
      relative order. */
  lemma {:induction false} KeepAppend(a: seq<NewsItem>, b: seq<NewsItem>, selected: string)
    ensures Keep(a + b, selected) == Keep(a, selected) + Keep(b, selected)
  {
    if a == [] {
      assert a + b == b;
    } else {
      assert (a + b)[1..] == a[1..] + b;
      KeepAppend(a[1..], b, selected);
    }
  }

  /** The selection "all" shows the list as it is; any other selection shows
      an order-preserving part of it holding exactly the matching items. */
  lemma FilterNewsSpec(news: seq<NewsItem>, selected: string)
    ensures selected == All ==> FilterNews(news, selected) == news
    ensures selected != All ==> forall x :: x in FilterNews(news, selected) <==> x in news && Matches(x, selected)
    ensures |FilterNews(news, selected)| <= |news|
  {
  }

  /** Filtering distributes over concatenation, so the shown items keep their
      relative order. */
  lemma FilterNewsAppend(a: seq<NewsItem>, b: seq<NewsItem>, selected: string)
    ensures FilterNews(a + b, selected) == FilterNews(a, selected) + FilterNews(b, selected)
  {
    KeepAppend(a, b, selected);
  }

  /** An item with no category, or an empty one, is listed under "all" and
      under industry news, and under no other button of the page. */
  lemma UncategorisedUnderIndustry(news: seq<NewsItem>, item: NewsItem, selected: string)
    requires item in news && !Truthy(item.category) && selected in Categories
    ensures item in FilterNews(news, selected) <==> selected == All || selected == Industry
  {
  }

  /** Index of the first `c` in `s`, if any. */
  function FirstIndexOf(s: string, c: char): (r: Option<nat>)
    ensures r.Some? ==> r.value < |s| && s[r.value] == c && c !in s[..r.value]
    ensures r.None? ==> c !in s
  {
    if s == [] then None
    else if s[0] == c then Some(0)
    else match FirstIndexOf(s[1..], c)
      case None => None
      case Some(k) => assert s[..k + 1] == [s[0]] + s[1..][..k]; Some(k + 1)
  }

  /** A tag in the sense of /<[^>]+>/ starts at index `i` of `s`: a '<', at
      least one character other than '>', then a '>'. The tag ends at the
      first '>' after the '<'. */
  predicate TagAt(s: string, i: nat) {
    i < |s| && s[i] == '<' && match FirstIndexOf(s[i + 1..], '>')
      case Some(k) => k >= 1
      case None => false
  }

  /** `s.replace(/<[^>]+>/g, '')`: scanning left to right, drops each tag. */
  function StripTags(s: string): (r: string)
    ensures |r| <= |s|
    ensures forall c :: c in r ==> c in s
    decreases |s|
  {
    if s == [] then []
    else if TagAt(s, 0) then
      var k := FirstIndexOf(s[1..], '>').value;
      StripTags(s[k + 2..])
    else [s[0]] + StripTags(s[1..])
  }

  /** No tag is left in the text. */
  ghost predicate NoTag(s: string) {
    forall i :: 0 <= i < |s| ==> !TagAt(s, i)
  }

  lemma TagAtShift(c: char, s: string, i: nat)
    requires i < |s|
    ensures TagAt([c] + s, i + 1) == TagAt(s, i)
  {
    assert ([c] + s)[i + 1..] == s[i..];
    assert ([c] + s)[i + 1 + 1..] == s[i + 1..];
  }

  /** Stripping leaves no tag behind. */
  lemma {:induction false} StripTagsLeavesNoTag(s: string)
    ensures NoTag(StripTags(s))
    decreases |s|
  {
    if s == [] {
    } else if TagAt(s, 0) {
      StripTagsLeavesNoTag(s[FirstIndexOf(s[1..], '>').value + 2..]);
    } else {
      var rest := StripTags(s[1..]);
      StripTagsLeavesNoTag(s[1..]);
      var r := [s[0]] + rest;
      assert r == StripTags(s);
      forall i | 0 <= i < |r| ensures !TagAt(r, i) {
        if i > 0 {
          TagAtShift(s[0], rest, i - 1);
        } else if s[0] == '<' {
          match FirstIndexOf(s[1..], '>')
          case None =>
            assert '>' !in rest;
            assert r[1..] == rest;
          case Some(k) =>
            assert k == 0;
            assert s[1] == '>';
            assert !TagAt(s[1..], 0);
            assert rest == [s[1]] + StripTags(s[2..]) by {
              assert s[1..][1..] == s[2..];
            }
            assert r[1..][0] == '>';
        }
      }
    }
  }

  /** Text without a tag passes through unchanged. */
  lemma {:induction false} StripTagsNoTagUnchanged(s: string)
    requires NoTag(s)
    ensures StripTags(s) == s
    decreases |s|
  {
    if s != [] {
      assert !TagAt(s, 0);
      forall i | 0 <= i < |s| - 1 ensures !TagAt(s[1..], i) {
        TagAtShift(s[0], s[1..], i);
        assert [s[0]] + s[1..] == s;
        assert !TagAt(s, i + 1);
      }
      StripTagsNoTagUnchanged(s[1..]);
    }
  }

  /** Text before the first '<' is kept as it is. */
  lemma {:induction false} StripTagsKeepsPlain(p: string, s: string)
    requires '<' !in p
    ensures StripTags(p + s) == p + StripTags(s)
    decreases |p|
  {
    if p == [] {
      assert p + s == s;
    } else {
      assert p[0] in p;
      StripTagsKeepsPlain(p[1..], s);
      ConsConcat(p, s);
      assert !TagAt([p[0]] + (p[1..] + s), 0);
      StripTagsOther(p[0], p[1..] + s);
      ConsConcat(p, StripTags(s));
    }
  }

  /** The first `c` of `t + [c] + s` is at `|t|` when `t` has none. */
  lemma FirstIndexAfter(t: string, c: char, s: string)
    requires c !in t
    ensures FirstIndexOf(t + [c] + s, c) == Some(|t|)
  {
    var u := t + [c] + s;
    assert u[|t|] == c;
    assert forall i :: 0 <= i < |t| ==> u[i] == t[i];
    assert u[..|t| + 1][|t|] == c;
  }

  /** A tag `<t>` with a non-empty body free of '>' is dropped. */
  lemma StripTagsDropsTag(t: string, s: string)
    requires t != [] && '>' !in t
    ensures StripTags("<" + t + ">" + s) == StripTags(s)
  {
    var u := "<" + t + ">" + s;
    assert u[1..] == t + ['>'] + s;
    FirstIndexAfter(t, '>', s);
    assert TagAt(u, 0);
    assert u[|t| + 2..] == s;
  }

  /** A character that opens no tag is kept. */
  lemma StripTagsOther(c: char, s: string)
    requires !TagAt([c] + s, 0)
    ensures StripTags([c] + s) == [c] + StripTags(s)
  {
    assert ([c] + s)[1..] == s;
  }

  /** Stripping twice is stripping once. */
  lemma StripTagsIdempotent(s: string)
    ensures StripTags(StripTags(s)) == StripTags(s)
  {
    StripTagsLeavesNoTag(s);
    StripTagsNoTagUnchanged(StripTags(s));
  }

  /** Text without '<' has no tag and passes through unchanged. */
  lemma StripTagsNoAngle(s: string)
    requires '<' !in s
    ensures StripTags(s) == s
  {
    assert NoTag(s);
    StripTagsNoTagUnchanged(s);
  }

  const Nbsp: string := "&nbsp;"

  /** `s.replace(/&nbsp;/g, ' ')`: scanning left to right, each "&nbsp;"
      becomes one space. */
  function ReplaceNbsp(s: string): (r: string)
    ensures |r| <= |s|
    decreases |s|
  {
    if s == [] then []
    else if StartsWith(s, Nbsp) then " " + ReplaceNbsp(s[|Nbsp|..])
    else [s[0]] + ReplaceNbsp(s[1..])
  }

  /** Text without "&nbsp;" passes through unchanged. */
  lemma {:induction false} ReplaceNbspNoEntity(s: string)
    requires !Occurs(Nbsp, s)
    ensures ReplaceNbsp(s) == s
    decreases |s|
  {
    if s != [] {
      OccursUnfold(Nbsp, s);
      ReplaceNbspNoEntity(s[1..]);
    }
  }

  lemma {:induction false} ReplaceNbspKeepsPrefix(t: string, p: string)
    requires ' ' !in p && StartsWith(ReplaceNbsp(t), p)
    ensures StartsWith(t, p)
    decreases |p|
  {
    if p != [] {
      assert t != [] && !StartsWith(t, Nbsp) by {
        assert p[0] != ' ';
      }
      assert ReplaceNbsp(t) == [t[0]] + ReplaceNbsp(t[1..]);
      ReplaceNbspKeepsPrefix(t[1..], p[1..]);
      assert t[..|p|] == [t[0]] + t[1..][..|p| - 1];
      assert p == [p[0]] + p[1..];
    }
  }

  /** Text before the first '&' is kept as it is. */
  lemma {:induction false} ReplaceNbspKeepsPlain(p: string, s: string)
    requires '&' !in p
    ensures ReplaceNbsp(p + s) == p + ReplaceNbsp(s)
    decreases |p|
  {
    if p == [] {
      assert p + s == s;
    } else {
      assert p[0] in p;
      ReplaceNbspKeepsPlain(p[1..], s);
      ConsConcat(p, s);
      assert !StartsWith([p[0]] + (p[1..] + s), Nbsp) by {
        var u := [p[0]] + (p[1..] + s);
        if |Nbsp| <= |u| { assert u[..|Nbsp|][0] == p[0] && Nbsp[0] == '&'; }
      }
      ReplaceNbspOther(p[0], p[1..] + s);
      ConsConcat(p, ReplaceNbsp(s));
    }
  }

  /** A character that does not open "&nbsp;" is kept. */
  lemma ReplaceNbspOther(c: char, s: string)
    requires !StartsWith([c] + s, Nbsp)
    ensures ReplaceNbsp([c] + s) == [c] + ReplaceNbsp(s)
  {
    assert ([c] + s)[1..] == s;
  }

  /** A leading "&nbsp;" becomes one space. */
  lemma ReplaceNbspEntity(s: string)
    ensures ReplaceNbsp(Nbsp + s) == " " + ReplaceNbsp(s)
  {
    var u := Nbsp + s;
    assert u[..|Nbsp|] == Nbsp;
    assert u[|Nbsp|..] == s;
  }

  /** Every "&nbsp;" is replaced: none is left in the result. */
  lemma {:induction false} ReplaceNbspLeavesNone(s: string)
    ensures !Occurs(Nbsp, ReplaceNbsp(s))
    decreases |s|
  {
    var r := ReplaceNbsp(s);
    if s == [] {
      assert !OccursAt(Nbsp, r, 0);
    } else if StartsWith(s, Nbsp) {
      ReplaceNbspLeavesNone(s[|Nbsp|..]);
      assert r == " " + ReplaceNbsp(s[|Nbsp|..]);
      OccursUnfold(Nbsp, r);
      assert r[1..] == ReplaceNbsp(s[|Nbsp|..]);
      assert r[0] == ' ';
      StartsWithCons(r, '&', "nbsp;");
    } else {
      ReplaceNbspLeavesNone(s[1..]);
      assert r == [s[0]] + ReplaceNbsp(s[1..]);
      OccursUnfold(Nbsp, r);
      assert r[0] == s[0] && r[1..] == ReplaceNbsp(s[1..]);
      StartsWithCons(r, '&', "nbsp;");
      StartsWithCons(s, '&', "nbsp;");
      ReplaceNbspPrefixFrom(s[1..], "nbsp;");
    }
  }

  /** Contrapositive form of `ReplaceNbspKeepsPrefix`. */
  lemma ReplaceNbspPrefixFrom(t: string, p: string)
    requires ' ' !in p
    ensures StartsWith(ReplaceNbsp(t), p) ==> StartsWith(t, p)
  {
    if StartsWith(ReplaceNbsp(t), p) {
      ReplaceNbspKeepsPrefix(t, p);
    }
  }

  /** The summary as shown on a card: tags removed first, then each
      "&nbsp;" replaced by a space. */
  function CleanSummary(summary: string): (r: string)
    ensures |r| <= |summary|
  {
    ReplaceNbsp(StripTags(summary))
  }

  /** A summary with no '<' and no "&nbsp;" is shown as it is. */
  lemma CleanSummaryPlainText(summary: string)
    requires '<' !in summary && !Occurs(Nbsp, summary)
    ensures CleanSummary(summary) == summary
  {
    StripTagsNoAngle(summary);
    ReplaceNbspNoEntity(summary);
  }
}
