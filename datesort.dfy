/** The newest-first ordering of the news endpoint: `allItems.sort` with a
    comparator on publication time where a missing date counts as 0. The
    JavaScript sort is stable, so its result is the stable insertion sort
    `SortByDate`; the array is reordered in place by `SortByDateInPlace`. */
module DateSort {
  import opened Wrappers
  import opened News

  /** The sort key: the publication time, 0 when missing. */
  function DateKey(item: NewsItem): int {
    item.pubDate.GetOr(0)
  }

  /** Publication times never increase along `s`. */
  ghost predicate NewestFirst(s: seq<NewsItem>) {
    forall i, j :: 0 <= i < j < |s| ==> DateKey(s[i]) >= DateKey(s[j])
  }

  /** Places `x` after every item at least as new as it; the result holds the
      items of `s` and `x`. */
  function Insert(x: NewsItem, s: seq<NewsItem>): (r: seq<NewsItem>)
    ensures |r| == |s| + 1
  {
    if s == [] then [x]
    else if DateKey(s[0]) < DateKey(x) then [x] + s
    else [s[0]] + Insert(x, s[1..])
  }

  lemma {:induction false} InsertKeepsItems(x: NewsItem, s: seq<NewsItem>)
    ensures multiset(Insert(x, s)) == multiset(s) + multiset{x}
  {
    if s != [] && DateKey(s[0]) >= DateKey(x) {
      InsertKeepsItems(x, s[1..]);
      assert s == [s[0]] + s[1..];
    }
  }

  /** The stable newest-first order of `s`, built by inserting the items
      one after another in their original order. */
  function SortByDate(s: seq<NewsItem>): (r: seq<NewsItem>)
    ensures |r| == |s|
    decreases |s|
  {
    if s == [] then [] else Insert(s[|s| - 1], SortByDate(s[..|s| - 1]))
  }

  lemma {:induction false} InsertKeepsOrder(x: NewsItem, s: seq<NewsItem>)
    requires NewestFirst(s)
    ensures NewestFirst(Insert(x, s))
  {
    if s != [] && DateKey(s[0]) >= DateKey(x) {
      InsertKeepsOrder(x, s[1..]);
      InsertKeepsItems(x, s[1..]);
      var t := Insert(x, s[1..]);
      forall k | 0 <= k < |t| ensures DateKey(t[k]) <= DateKey(s[0]) {
        assert t[k] in multiset(t);
        if t[k] != x {
          assert t[k] in multiset(s[1..]);
          var m :| 0 <= m < |s[1..]| && s[1..][m] == t[k];
          assert s[m + 1] == t[k];
        }
      }
    }
  }

  /** The sorted list holds exactly the input items. */
  lemma {:induction false} SortByDateKeepsItems(s: seq<NewsItem>)
    ensures multiset(SortByDate(s)) == multiset(s)
    decreases |s|
  {
    if s != [] {
      var init, last := s[..|s| - 1], s[|s| - 1];
      SortByDateKeepsItems(init);
      InsertKeepsItems(last, SortByDate(init));
      assert s == init + [last];
    }
  }

  /** The sorted list is newest-first. */
  lemma {:induction false} SortByDateIsNewestFirst(s: seq<NewsItem>)
    ensures NewestFirst(SortByDate(s))
    decreases |s|
  {
    if s != [] {
      var init := s[..|s| - 1];
      SortByDateIsNewestFirst(init);
      InsertKeepsOrder(s[|s| - 1], SortByDate(init));
    }
  }

  /** The sorted list is newest-first and a permutation of the input. */
  lemma SortByDateSorts(s: seq<NewsItem>)
    ensures NewestFirst(SortByDate(s))
    ensures multiset(SortByDate(s)) == multiset(s)
    ensures |SortByDate(s)| == |s|
  {
    SortByDateIsNewestFirst(s);
    SortByDateKeepsItems(s);
  }

  /** The items published at time `d`, in order. */
  function WithDate(s: seq<NewsItem>, d: int): seq<NewsItem> {
    if s == [] then []
    else (if DateKey(s[0]) == d then [s[0]] else []) + WithDate(s[1..], d)
  }

  lemma {:induction false} WithDateAppend(a: seq<NewsItem>, b: seq<NewsItem>, d: int)
    ensures WithDate(a + b, d) == WithDate(a, d) + WithDate(b, d)
  {
    if a == [] {
      assert a + b == b;
    } else {
      var ab := a + b;
      assert ab[0] == a[0];
      assert ab[1..] == a[1..] + b;
      assert WithDate(ab, d) == (if DateKey(a[0]) == d then [a[0]] else []) + WithDate(a[1..] + b, d);
      WithDateAppend(a[1..], b, d);
    }
  }

  lemma {:induction false} WithDateNone(s: seq<NewsItem>, d: int)
    requires forall k :: 0 <= k < |s| ==> DateKey(s[k]) < d
    ensures WithDate(s, d) == []
  {
    if s != [] {
      WithDateNone(s[1..], d);
    }
  }

  lemma {:induction false} InsertIsStable(x: NewsItem, s: seq<NewsItem>, d: int)
    requires NewestFirst(s)
    ensures WithDate(Insert(x, s), d) == WithDate(s, d) + WithDate([x], d)
  {
    if s == [] {
    } else if DateKey(s[0]) < DateKey(x) {
      assert Insert(x, s) == [x] + s;
      WithDateAppend([x], s, d);
      if DateKey(x) == d {
        assert forall k :: 0 <= k < |s| ==> DateKey(s[k]) <= DateKey(s[0]);
        WithDateNone(s, d);
      }
    } else {
      assert Insert(x, s) == [s[0]] + Insert(x, s[1..]);
      assert NewestFirst(s[1..]) by {
        forall i, j | 0 <= i < j < |s| - 1 ensures DateKey(s[1..][i]) >= DateKey(s[1..][j]) {
          assert s[1..][i] == s[i + 1] && s[1..][j] == s[j + 1];
        }
      }
      InsertIsStable(x, s[1..], d);
      WithDateAppend([s[0]], Insert(x, s[1..]), d);
      WithDateAppend([s[0]], s[1..], d);
      assert [s[0]] + s[1..] == s;
    }
  }

  /** The sort is stable: the items of any one publication time keep their
      relative order. Together with `SortByDateSorts` this fixes the result. */
  lemma {:induction false} SortByDateIsStable(s: seq<NewsItem>, d: int)
    ensures WithDate(SortByDate(s), d) == WithDate(s, d)
    decreases |s|
  {
    if s != [] {
      var init, last := s[..|s| - 1], s[|s| - 1];
      assert SortByDate(s) == Insert(last, SortByDate(init));
      SortByDateIsStable(init, d);
      SortByDateIsNewestFirst(init);
      InsertIsStable(last, SortByDate(init), d);
      WithDateAppend(init, [last], d);
      assert init + [last] == s;
    }
  }

  /** Inserting `x` into a sorted list lands it at position `j` when every
      item before `j` is at least as new and every item from `j` on is older. */
  lemma {:induction false} InsertAt(x: NewsItem, s: seq<NewsItem>, j: nat)
    requires NewestFirst(s) && j <= |s|
    requires j > 0 ==> DateKey(s[j - 1]) >= DateKey(x)
    requires forall m :: j <= m < |s| ==> DateKey(s[m]) < DateKey(x)
    ensures Insert(x, s) == s[..j] + [x] + s[j..]
  {
    if j == 0 {
      assert s[j..] == s;
    } else {
      InsertAt(x, s[1..], j - 1);
      assert s[1..][..j - 1] == s[1..j];
      assert s[1..][j - 1..] == s[j..];
      assert s[..j] == [s[0]] + s[1..j];
    }
  }

  /** One step of the insertion sort: moves `a[i]` left past the items of
      `a[..i]` older than it, stopping at index `j`. */
  method InsertInPlace(a: array<NewsItem>, i: nat) returns (j: nat)
    requires i < a.Length
    modifies a
    ensures j <= i
    ensures a[..i + 1] == old(a[..i])[..j] + [old(a[i])] + old(a[..i])[j..]
    ensures a[i + 1..] == old(a[i + 1..])
    ensures j > 0 ==> DateKey(old(a[j - 1])) >= DateKey(old(a[i]))
    ensures forall m :: j <= m < i ==> DateKey(old(a[m])) < DateKey(old(a[i]))
  {
    ghost var before := a[..];
    var x := a[i];
    j := i;
    while j > 0 && DateKey(a[j - 1]) < DateKey(x)
      invariant 0 <= j <= i
      invariant forall m :: 0 <= m < j ==> a[m] == before[m]
      invariant forall m :: j < m <= i ==> a[m] == before[m - 1]
      invariant forall m :: i < m < a.Length ==> a[m] == before[m]
      invariant forall m :: j <= m < i ==> DateKey(before[m]) < DateKey(x)
    {
      a[j] := a[j - 1];
      j := j - 1;
    }
    a[j] := x;
    ShiftedIsInsert(a[..i + 1], before[..i], x, j);
    assert a[i + 1..] == before[i + 1..];
  }

  lemma ShiftedIsInsert(r: seq<NewsItem>, s: seq<NewsItem>, x: NewsItem, j: nat)
    requires |r| == |s| + 1 && j <= |s| && r[j] == x
    requires forall m :: 0 <= m < j ==> r[m] == s[m]
    requires forall m :: j < m < |r| ==> r[m] == s[m - 1]
    ensures r == s[..j] + [x] + s[j..]
  {
  }

  /** Placing `s[i]` into the sorted `s[..i]` the way `InsertInPlace` does
      gives the sorted `s[..i + 1]`. */
  lemma InsertStep(s: seq<NewsItem>, i: nat, sorted: seq<NewsItem>, j: nat, r: seq<NewsItem>)
    requires i < |s| && sorted == SortByDate(s[..i]) && |sorted| == i && j <= i
    requires j > 0 ==> DateKey(sorted[j - 1]) >= DateKey(s[i])
    requires forall m :: j <= m < i ==> DateKey(sorted[m]) < DateKey(s[i])
    requires r == sorted[..j] + [s[i]] + sorted[j..]
    ensures r == SortByDate(s[..i + 1])
  {
    SortByDateIsNewestFirst(s[..i]);
    InsertAt(s[i], sorted, j);
    assert s[..i + 1][..i] == s[..i];
    assert s[..i + 1][i] == s[i];
  }

  /** `allItems.sort(...)`: insertion sort of the array, in place. */
  method SortByDateInPlace(a: array<NewsItem>)
    modifies a
    ensures a[..] == SortByDate(old(a[..]))
  {
    ghost var input := a[..];
    var i := 0;
    while i < a.Length
      invariant 0 <= i <= a.Length
      invariant a[..i] == SortByDate(input[..i])
      invariant a[i..] == input[i..]
    {
      assert a[i] == input[i] && a[i + 1..] == input[i + 1..];
      ghost var sorted := a[..i];
      var j := InsertInPlace(a, i);
      InsertStep(input, i, sorted, j, a[..i + 1]);
      i := i + 1;
    }
    assert input[..a.Length] == input;
  }
}
