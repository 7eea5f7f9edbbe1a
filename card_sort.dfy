/**
 * The `change` handler of the sort selector in
 * public/paginas/sistema/artigos.js: the cards are sorted with a comparator
 * chosen by the selected value and re-appended in the new order.
 * `Array.prototype.sort` is stable, so it is modelled by a stable insertion
 * sort driven by the same comparator. `collate` stands for
 * `String.prototype.localeCompare`.
 */
module CardSort {
  /** A card as the comparator sees it: its title and the timestamp of its `data-date`. */
  datatype Card = Card(title: string, when: int)

  const DateDesc := "date-desc"
  const DateAsc := "date-asc"
  const TitleAsc := "title-asc"
  const TitleDesc := "title-desc"

  /** The comparator of the `switch (sortValue)`; an unknown value compares every pair as equal. */
  function Compare(sortValue: string, a: Card, b: Card, collate: (string, string) -> int): int {
    if sortValue == DateDesc then b.when - a.when
    else if sortValue == DateAsc then a.when - b.when
    else if sortValue == TitleAsc then collate(a.title, b.title)
    else if sortValue == TitleDesc then collate(b.title, a.title)
    else 0
  }

  /** Inserts `x` after every card of `s` that does not compare above it. */
  function Insert(s: seq<Card>, x: Card, v: string, collate: (string, string) -> int): (r: seq<Card>)
    ensures |r| == |s| + 1
  {
    if s == [] then [x]
    else
      var n := |s| - 1;
      if Compare(v, s[n], x, collate) > 0 then Insert(s[..n], x, v, collate) + [s[n]]
      else s + [x]
  }

  /** `articles.sort(comparator)` */
  function Sort(cards: seq<Card>, v: string, collate: (string, string) -> int): (r: seq<Card>)
    ensures |r| == |cards|
  {
    if cards == [] then []
    else
      var n := |cards| - 1;
      Insert(Sort(cards[..n], v, collate), cards[n], v, collate)
  }

  lemma {:induction false} InsertPermutes(s: seq<Card>, x: Card, v: string, collate: (string, string) -> int)
    ensures multiset(Insert(s, x, v, collate)) == multiset(s) + multiset{x}
  {
    if s != [] {
      var n := |s| - 1;
      assert s == s[..n] + [s[n]];
      if Compare(v, s[n], x, collate) > 0 {
        InsertPermutes(s[..n], x, v, collate);
      }
    }
  }

  /** Whatever the selected value, the sorted cards are a permutation of the cards. */
  lemma {:induction false} SortPermutes(cards: seq<Card>, v: string, collate: (string, string) -> int)
    ensures multiset(Sort(cards, v, collate)) == multiset(cards)
  {
    if cards != [] {
      var n := |cards| - 1;
      assert cards == cards[..n] + [cards[n]];
      SortPermutes(cards[..n], v, collate);
      InsertPermutes(Sort(cards[..n], v, collate), cards[n], v, collate);
    }
  }

  /** A selected value none of the cases names leaves the cards in their order. */
  lemma {:induction false} UnknownValueKeepsOrder(cards: seq<Card>, v: string, collate: (string, string) -> int)
    requires v != DateDesc && v != DateAsc && v != TitleAsc && v != TitleDesc
    ensures Sort(cards, v, collate) == cards
  {
    if cards != [] {
      var n := |cards| - 1;
      UnknownValueKeepsOrder(cards[..n], v, collate);
      assert cards == cards[..n] + [cards[n]];
    }
  }

  /** The two date cases order by a key: the timestamp, negated for `date-desc`. */
  function DateKey(v: string, c: Card): int {
    if v == DateDesc then -c.when else c.when
  }

  predicate IsDateSort(v: string) {
    v == DateDesc || v == DateAsc
  }

  /** Under a date case the comparator is the difference of the keys. */
  lemma CompareIsKeyDifference(v: string, a: Card, b: Card, collate: (string, string) -> int)
    requires IsDateSort(v)
    ensures Compare(v, a, b, collate) == DateKey(v, a) - DateKey(v, b)
  {
  }

  ghost predicate SortedByKey(v: string, s: seq<Card>) {
    forall i, j :: 0 <= i < j < |s| ==> DateKey(v, s[i]) <= DateKey(v, s[j])
  }

  /** Inserting a card whose key is at most `b` into cards whose keys are at most `b` keeps every key at most `b`. */
  lemma {:induction false} InsertBelow(s: seq<Card>, x: Card, v: string, collate: (string, string) -> int, b: int)
    requires forall i :: 0 <= i < |s| ==> DateKey(v, s[i]) <= b
    requires DateKey(v, x) <= b
    ensures forall i :: 0 <= i < |s| + 1 ==> DateKey(v, Insert(s, x, v, collate)[i]) <= b
  {
    if s != [] {
      var n := |s| - 1;
      if Compare(v, s[n], x, collate) > 0 {
        assert forall i :: 0 <= i < n ==> s[..n][i] == s[i];
        InsertBelow(s[..n], x, v, collate, b);
        var front := Insert(s[..n], x, v, collate);
        var r := front + [s[n]];
        assert Insert(s, x, v, collate) == r;
        forall i | 0 <= i < |r|
          ensures DateKey(v, r[i]) <= b
        {
          if i < |front| {
            assert r[i] == front[i];
          }
        }
      } else {
        assert forall i :: 0 <= i < |s| ==> (s + [x])[i] == s[i];
      }
    }
  }

  lemma {:induction false} InsertKeepsSorted(s: seq<Card>, x: Card, v: string, collate: (string, string) -> int)
    requires IsDateSort(v) && SortedByKey(v, s)
    ensures SortedByKey(v, Insert(s, x, v, collate))
  {
    if s != [] {
      var n := |s| - 1;
      var last := s[n];
      CompareIsKeyDifference(v, last, x, collate);
      assert forall i :: 0 <= i < n ==> DateKey(v, s[..n][i]) <= DateKey(v, last);
      if Compare(v, last, x, collate) > 0 {
        var front := Insert(s[..n], x, v, collate);
        InsertKeepsSorted(s[..n], x, v, collate);
        InsertBelow(s[..n], x, v, collate, DateKey(v, last));
        var r := front + [last];
        assert Insert(s, x, v, collate) == r;
        assert DateKey(v, x) < DateKey(v, last);
        forall i, j | 0 <= i < j < |r|
          ensures DateKey(v, r[i]) <= DateKey(v, r[j])
        {
          if j < |front| {
            assert r[i] == front[i] && r[j] == front[j];
          } else {
            assert r[i] == front[i] && r[j] == last;
            assert DateKey(v, front[i]) <= DateKey(v, last);
          }
        }
      } else {
        var r := s + [x];
        assert Insert(s, x, v, collate) == r;
        forall i, j | 0 <= i < j < |r|
          ensures DateKey(v, r[i]) <= DateKey(v, r[j])
        {
          if j < |s| {
            assert r[i] == s[i] && r[j] == s[j];
          } else {
            assert r[i] == s[i] && r[j] == x;
          }
        }
      }
    }
  }

  /** Under a date case the result is ordered by the key. */
  lemma {:induction false} DateSortSorted(cards: seq<Card>, v: string, collate: (string, string) -> int)
    requires IsDateSort(v)
    ensures SortedByKey(v, Sort(cards, v, collate))
  {
    if cards != [] {
      var n := |cards| - 1;
      DateSortSorted(cards[..n], v, collate);
      InsertKeepsSorted(Sort(cards[..n], v, collate), cards[n], v, collate);
    }
  }

  /** `date-desc` puts the newest card first; `date-asc` puts the oldest first. */
  lemma DateOrders(cards: seq<Card>, collate: (string, string) -> int)
    ensures var r := Sort(cards, DateDesc, collate);
      forall i, j :: 0 <= i < j < |r| ==> r[i].when >= r[j].when
    ensures var r := Sort(cards, DateAsc, collate);
      forall i, j :: 0 <= i < j < |r| ==> r[i].when <= r[j].when
  {
    DateSortSorted(cards, DateDesc, collate);
    DateSortSorted(cards, DateAsc, collate);
  }
}
