/**
 * News articles as the news endpoint delivers them, and the rule that
 * keeps only the articles published on the current local day.
 */
module News {

  /**
   * One article record. `categories` is the raw pipe-delimited label
   * string; `publishedOn` is in Unix seconds.
   */
  datatype Article = Article(
    title: string,
    body: string,
    imageUrl: string,
    source: string,
    publishedOn: int,
    categories: string,
    url: string)

  /** `sub` is `s` with some elements left out, the rest kept in order. */
  predicate IsSubsequence<T(==)>(sub: seq<T>, s: seq<T>)
    decreases |s|
  {
    if s == [] then sub == []
    else (sub != [] && sub[0] == s[0] && IsSubsequence(sub[1..], s[1..]))
         || IsSubsequence(sub, s[1..])
  }

  /** Seconds in a day. */
  const SecondsPerDay: int := 86400

  /**
   * The local calendar day of the instant `t` (Unix seconds) in a time
   * zone `offset` seconds east of UTC: the number of local midnights
   * since the epoch, rounded down (Dafny's `/` floors for a positive
   * divisor, so instants before 1970 fall on the right day as well).
   */
  function LocalDay(offset: int, t: int): int {
    (t + offset) / SecondsPerDay
  }

  /** The instant at which local day `d` begins. */
  function LocalMidnight(offset: int, d: int): int {
    d * SecondsPerDay - offset
  }

  /** Whether `a` was published on the same day (by `dayOf`) as `now`. */
  predicate PublishedToday(a: Article, now: int, dayOf: int -> int) {
    dayOf(a.publishedOn) == dayOf(now)
  }

  /**
   * `filterTodayNews`: the articles whose publication day equals the
   * day of `now`, in their original order. Both instants are truncated
   * to their day by `dayOf` before they are compared.
   */
  function FilterToday(news: seq<Article>, now: int, dayOf: int -> int): (r: seq<Article>)
    ensures |r| <= |news|
  {
    if news == [] then []
    else
      (if PublishedToday(news[0], now, dayOf) then [news[0]] else [])
      + FilterToday(news[1..], now, dayOf)
  }

  /** The filter keeps an article exactly when it was published today. */
  lemma {:induction false} FilterTodayMembership(news: seq<Article>, now: int, dayOf: int -> int, a: Article)
    ensures a in FilterToday(news, now, dayOf) <==> a in news && PublishedToday(a, now, dayOf)
  {
    if news != [] {
      FilterTodayMembership(news[1..], now, dayOf, a);
      assert news == [news[0]] + news[1..];
    }
  }

  /** The filter's result is a subsequence of its input. */
  lemma {:induction false} FilterTodaySubsequence(news: seq<Article>, now: int, dayOf: int -> int)
    ensures IsSubsequence(FilterToday(news, now, dayOf), news)
  {
    if news != [] {
      var rest := FilterToday(news[1..], now, dayOf);
      FilterTodaySubsequence(news[1..], now, dayOf);
      if PublishedToday(news[0], now, dayOf) {
        assert ([news[0]] + rest)[1..] == rest;
      } else {
        assert FilterToday(news, now, dayOf) == rest;
      }
    }
  }

  /** Filtering a concatenation filters each part. */
  lemma {:induction false} FilterTodayAppend(a: seq<Article>, b: seq<Article>, now: int, dayOf: int -> int)
    ensures FilterToday(a + b, now, dayOf) == FilterToday(a, now, dayOf) + FilterToday(b, now, dayOf)
  {
    if a == [] {
      assert a + b == b;
    } else {
      var head := if PublishedToday(a[0], now, dayOf) then [a[0]] else [];
      assert (a + b)[0] == a[0];
      assert (a + b)[1..] == a[1..] + b;
      assert FilterToday(a + b, now, dayOf) == head + FilterToday(a[1..] + b, now, dayOf);
      FilterTodayAppend(a[1..], b, now, dayOf);
      assert FilterToday(a, now, dayOf) == head + FilterToday(a[1..], now, dayOf);
    }
  }

  /** Filtering again with the same `now` changes nothing. */
  lemma {:induction false} FilterTodayIdempotent(news: seq<Article>, now: int, dayOf: int -> int)
    ensures FilterToday(FilterToday(news, now, dayOf), now, dayOf) == FilterToday(news, now, dayOf)
  {
    if news != [] {
      var head := if PublishedToday(news[0], now, dayOf) then [news[0]] else [];
      var rest := FilterToday(news[1..], now, dayOf);
      FilterTodayAppend(head, rest, now, dayOf);
      FilterTodayIdempotent(news[1..], now, dayOf);
      if head != [] {
        assert FilterToday(head, now, dayOf) == head by {
          assert head[1..] == [];
        }
      }
    }
  }

  /** The filter keeps nothing exactly when no article is from today. */
  lemma FilterTodayEmpty(news: seq<Article>, now: int, dayOf: int -> int)
    ensures FilterToday(news, now, dayOf) == [] <==>
            forall a :: a in news ==> !PublishedToday(a, now, dayOf)
  {
    if FilterToday(news, now, dayOf) != [] {
      var a := FilterToday(news, now, dayOf)[0];
      FilterTodayMembership(news, now, dayOf, a);
    }
    forall a | a in news && PublishedToday(a, now, dayOf)
      ensures a in FilterToday(news, now, dayOf)
    {
      FilterTodayMembership(news, now, dayOf, a);
    }
  }

  /**
   * With a local-time day, "today" runs from the local midnight that
   * starts the day of `now` up to one second before the next: the last
   * second of the day is kept and the first second of the next day is
   * not, nor the second before the day began.
   */
  lemma TodayBoundaries(offset: int, now: int)
    ensures var d := LocalDay(offset, now);
            && LocalDay(offset, LocalMidnight(offset, d)) == d
            && LocalDay(offset, LocalMidnight(offset, d) + SecondsPerDay - 1) == d
            && LocalDay(offset, LocalMidnight(offset, d) + SecondsPerDay) == d + 1
            && LocalDay(offset, LocalMidnight(offset, d) - 1) == d - 1
  {
    var d := LocalDay(offset, now);
    var m := LocalMidnight(offset, d);
    assert m + offset == d * SecondsPerDay;
    assert (d * SecondsPerDay) / SecondsPerDay == d;
    assert (d * SecondsPerDay + SecondsPerDay - 1) / SecondsPerDay == d;
    assert (d * SecondsPerDay + SecondsPerDay) / SecondsPerDay == d + 1;
    assert (d * SecondsPerDay - 1) / SecondsPerDay == d - 1;
  }

  /** The boundary cases of `TodayBoundaries`, as the filter sees them. */
  lemma FilterTodayBoundaries(offset: int, now: int, before: Article, first: Article, last: Article, next: Article)
    requires var m := LocalMidnight(offset, LocalDay(offset, now));
             && before.publishedOn == m - 1
             && first.publishedOn == m
             && last.publishedOn == m + SecondsPerDay - 1
             && next.publishedOn == m + SecondsPerDay
    ensures FilterToday([before, first, last, next], now, t => LocalDay(offset, t)) == [first, last]
  {
    TodayBoundaries(offset, now);
    var dayOf := t => LocalDay(offset, t);
    assert dayOf(before.publishedOn) != dayOf(now);
    assert dayOf(first.publishedOn) == dayOf(now);
    assert dayOf(last.publishedOn) == dayOf(now);
    assert dayOf(next.publishedOn) != dayOf(now);
    var s := [before, first, last, next];
    assert s[1..] == [first, last, next];
    assert s[1..][1..] == [last, next];
    assert s[1..][1..][1..] == [next];
    assert FilterToday([next], now, dayOf) == [];
    assert FilterToday([last, next], now, dayOf) == [last];
    assert FilterToday([first, last, next], now, dayOf) == [first, last];
  }
}
