/**
 * The deterministic part of `init`: from the fetched articles to the
 * page that is shown, either an error message or the loaded news with
 * its index and navigation.
 */
module Page {
  import opened JsStrings
  import opened News
  import opened Categories
  import opened Navigation

  /** The outcome of the news request; the request itself happens outside the model. */
  datatype FetchResult = Fetched(news: seq<Article>) | FetchFailed

  const NoNewsMessage: string := "No news available for today. Please check back later."
  const LoadFailedMessage: string := "Failed to load news. Please try again later."

  /** What the page shows once loading ends. */
  datatype PageState =
    | ErrorShown(message: string)
    | Ready(today: seq<Article>, index: CategoryIndex, nav: seq<NavEntry>, shown: seq<Article>)

  /**
   * A failed fetch shows the generic error; an empty "today" shows the
   * no-news message; otherwise today's articles are categorized, which
   * throws (and so shows the generic error) for a label inherited from
   * `Object.prototype`; else the navigation is built and all of today's
   * articles are shown.
   */
  function LoadPage(fetched: FetchResult, now: int, dayOf: int -> int): (page: PageState)
    ensures fetched.FetchFailed? ==> page == ErrorShown(LoadFailedMessage)
    ensures fetched.Fetched? ==>
              (page == ErrorShown(NoNewsMessage) <==> forall a :: a in fetched.news ==> !PublishedToday(a, now, dayOf))
    ensures fetched.Fetched? ==>
              (page.Ready? <==> && (exists a :: a in fetched.news && PublishedToday(a, now, dayOf))
                                && InheritedLabelFree(FilterToday(fetched.news, now, dayOf)))
    ensures (&& fetched.Fetched?
             && (exists a :: a in fetched.news && PublishedToday(a, now, dayOf))
             && !InheritedLabelFree(FilterToday(fetched.news, now, dayOf)))
            ==> page == ErrorShown(LoadFailedMessage)
    ensures page.Ready? ==>
              && fetched.Fetched?
              && page.today == FilterToday(fetched.news, now, dayOf)
              && page.today != []
              && (forall a :: a in page.today <==> a in fetched.news && PublishedToday(a, now, dayOf))
              && IsSubsequence(page.today, fetched.news)
              && page.index == CategoryIndexOf(page.today)
              && Valid(page.index)
              && (forall c :: Lookup(page.index, c) == Occurrences(page.today, c))
              && (forall c :: c in page.index.lists <==> c in AllLabels(page.today))
              && page.nav == NavList(page.index)
              && page.nav[0] == AllEntry
              && page.shown == page.today
  {
    match fetched
    case FetchFailed => ErrorShown(LoadFailedMessage)
    case Fetched(news) =>
      var today := FilterToday(news, now, dayOf);
      FilterTodayEmpty(news, now, dayOf);
      FilterTodaySubsequence(news, now, dayOf);
      assert |NoNewsMessage| != |LoadFailedMessage|;
      if |today| == 0 then ErrorShown(NoNewsMessage)
      else
        CategorizeAsWrittenFacts(today);
        CategorizeFacts(today);
        assert forall a :: a in today <==> a in news && PublishedToday(a, now, dayOf) by {
          forall a ensures a in today <==> a in news && PublishedToday(a, now, dayOf) {
            FilterTodayMembership(news, now, dayOf, a);
          }
        }
        match CategorizeAsWritten(today)
        case TypeError(_) => ErrorShown(LoadFailedMessage)
        case Built(index) => Ready(today, index, NavList(index), today)
  }

  /** A click on the navigation entry for `category` replaces what is shown. */
  function Click(page: PageState, category: string): (next: PageState)
    requires page.Ready?
    ensures next.Ready? && next.today == page.today && next.index == page.index && next.nav == page.nav
    ensures next.shown == SelectCategory(page.today, page.index, category)
  {
    page.(shown := SelectCategory(page.today, page.index, category))
  }

  lemma BitcoinLabels(a: Article)
    requires a.categories == "Bitcoin"
    ensures Labels(a) == ["Bitcoin"]
  {
    assert Pipe !in a.categories;
  }

  /** Of the three fetched articles only the two from today are kept. */
  lemma ThreeArticlesToday(old1: Article, new1: Article, new2: Article, now: int, dayOf: int -> int)
    requires !PublishedToday(old1, now, dayOf)
    requires PublishedToday(new1, now, dayOf) && PublishedToday(new2, now, dayOf)
    ensures FilterToday([old1, new1, new2], now, dayOf) == [new1, new2]
  {
    var fetched := [old1, new1, new2];
    var today := [new1, new2];
    assert fetched[1..] == today && today[1..] == [new2] && [new2][1..] == [];
    assert FilterToday([new2], now, dayOf) == [new2];
    assert FilterToday(today, now, dayOf) == today;
  }

  lemma TwoArticlesLabels(new1: Article, new2: Article)
    requires Labels(new1) == ["Bitcoin"] && Labels(new2) == ["Bitcoin", "Mining"]
    ensures AllLabels([new1, new2]) == ["Bitcoin", "Bitcoin", "Mining"]
  {
    var today := [new1, new2];
    assert today[..1] == [new1] && [new1][..0] == [];
    assert AllLabels([new1]) == ["Bitcoin"];
  }

  lemma TwoArticlesMining(new1: Article, new2: Article)
    requires Labels(new1) == ["Bitcoin"] && Labels(new2) == ["Bitcoin", "Mining"]
    ensures Occurrences([new1, new2], "Mining") == [new2]
  {
    var today := [new1, new2];
    assert today[..1] == [new1] && [new1][..0] == [];
    CountMining();
    assert Repeat(new1, 0) == [];
    assert Occurrences([new1], "Mining") == [];
    assert Repeat(new2, 1) == [new2];
  }

  lemma TwoArticlesOrder(new1: Article, new2: Article)
    requires Labels(new1) == ["Bitcoin"] && Labels(new2) == ["Bitcoin", "Mining"]
    ensures CategoryIndexOf([new1, new2]).order == ["Bitcoin", "Mining"]
  {
    CategorizeFacts([new1, new2]);
    TwoArticlesLabels(new1, new2);
    DedupThree();
  }

  lemma TwoArticlesKeys(new1: Article, new2: Article)
    requires Labels(new1) == ["Bitcoin"] && Labels(new2) == ["Bitcoin", "Mining"]
    ensures Pinned !in CategoryIndexOf([new1, new2]).lists
  {
    CategorizeFacts([new1, new2]);
    TwoArticlesLabels(new1, new2);
    assert Pinned !in ["Bitcoin", "Bitcoin", "Mining"];
  }

  lemma TwoArticlesLookup(new1: Article, new2: Article)
    requires Labels(new1) == ["Bitcoin"] && Labels(new2) == ["Bitcoin", "Mining"]
    ensures Lookup(CategoryIndexOf([new1, new2]), "Mining") == [new2]
  {
    CategorizeFacts([new1, new2]);
    TwoArticlesMining(new1, new2);
  }

  lemma TwoArticlesIndex(new1: Article, new2: Article)
    requires Labels(new1) == ["Bitcoin"] && Labels(new2) == ["Bitcoin", "Mining"]
    ensures var idx := CategoryIndexOf([new1, new2]);
            && idx.order == ["Bitcoin", "Mining"]
            && Pinned !in idx.lists
            && Lookup(idx, "Mining") == [new2]
  {
    TwoArticlesOrder(new1, new2);
    TwoArticlesKeys(new1, new2);
    TwoArticlesLookup(new1, new2);
  }

  lemma TwoArticlesNav(idx: CategoryIndex)
    requires idx.order == ["Bitcoin", "Mining"] && Pinned !in idx.lists
    ensures NavList(idx) == [AllEntry, EntryFor("Bitcoin"), EntryFor("Mining")]
  {
    WithoutNoPinned();
    var e := EntriesFor(["Bitcoin", "Mining"]);
    assert e == [EntryFor("Bitcoin"), EntryFor("Mining")];
  }

  /**
   * Three fetched articles, one from yesterday and two from today with
   * categories "Bitcoin" and "Bitcoin|Mining": the page shows the two,
   * the navigation reads "all", "Bitcoin", "Mining", and selecting
   * "Mining" shows exactly the second of them.
   */
  lemma ThreeArticles(old1: Article, new1: Article, new2: Article, now: int, dayOf: int -> int)
    requires !PublishedToday(old1, now, dayOf)
    requires PublishedToday(new1, now, dayOf) && PublishedToday(new2, now, dayOf)
    requires new1.categories == "Bitcoin" && new2.categories == "Bitcoin|Mining"
    ensures var page := LoadPage(Fetched([old1, new1, new2]), now, dayOf);
            && page.Ready?
            && page.shown == [new1, new2]
            && page.nav == [AllEntry, EntryFor("Bitcoin"), EntryFor("Mining")]
            && Click(page, "Mining").shown == [new2]
  {
    var fetched := [old1, new1, new2];
    ThreeArticlesToday(old1, new1, new2, now, dayOf);
    TwoArticlesPrepared(new1, new2);
    var idx := CategoryIndexOf([new1, new2]);
    assert new1 in fetched && PublishedToday(new1, now, dayOf);
    var page := LoadPage(Fetched(fetched), now, dayOf);
    assert page.Ready? && page.today == [new1, new2] && page.index == idx;
    assert Click(page, "Mining").shown == Lookup(idx, "Mining");
  }

  /** The labels, index and navigation of the two articles from today. */
  lemma TwoArticlesPrepared(new1: Article, new2: Article)
    requires new1.categories == "Bitcoin" && new2.categories == "Bitcoin|Mining"
    ensures var idx := CategoryIndexOf([new1, new2]);
            && InheritedLabelFree([new1, new2])
            && Lookup(idx, "Mining") == [new2]
            && NavList(idx) == [AllEntry, EntryFor("Bitcoin"), EntryFor("Mining")]
  {
    BitcoinLabels(new1);
    var left, right := "Bitcoin", "Mining";
    assert new2.categories == left + [Pipe] + right;
    assert Pipe !in left && Pipe !in right;
    LabelsOfPair(new2, left, right);
    TwoArticlesFree(new1, new2);
    TwoArticlesIndex(new1, new2);
    TwoArticlesNav(CategoryIndexOf([new1, new2]));
  }

  lemma TwoArticlesFree(new1: Article, new2: Article)
    requires Labels(new1) == ["Bitcoin"] && Labels(new2) == ["Bitcoin", "Mining"]
    ensures InheritedLabelFree([new1, new2])
  {
    TwoArticlesLabels(new1, new2);
    OrdinaryNames();
  }

  lemma OrdinaryNames()
    ensures "Bitcoin" !in ObjectPrototypeNames && "Mining" !in ObjectPrototypeNames
  {
  }

  /**
   * The finding seen from the page: one article of today labelled
   * "constructor" makes `init` show the generic load error.
   */
  lemma ConstructorPageFails(a: Article, now: int, dayOf: int -> int)
    requires PublishedToday(a, now, dayOf) && a.categories == "constructor"
    ensures LoadPage(Fetched([a]), now, dayOf) == ErrorShown(LoadFailedMessage)
  {
    assert [a][1..] == [];
    assert FilterToday([a], now, dayOf) == [a];
    ConstructorLabelThrows(a);
    CategorizeAsWrittenFacts([a]);
    assert a in [a];
  }

  lemma DedupThree()
    ensures Dedup(["Bitcoin", "Bitcoin", "Mining"]) == ["Bitcoin", "Mining"]
  {
    var s := ["Bitcoin", "Bitcoin", "Mining"];
    assert s[..2] == ["Bitcoin", "Bitcoin"];
    assert s[..2][..1] == ["Bitcoin"];
    assert s[..2][..1][..0] == [];
    assert Dedup(["Bitcoin"]) == ["Bitcoin"];
    assert Dedup(["Bitcoin", "Bitcoin"]) == ["Bitcoin"];
    assert "Mining" != "Bitcoin";
    assert "Mining" !in ["Bitcoin"];
  }

  lemma WithoutNoPinned()
    ensures Without(["Bitcoin", "Mining"], Pinned) == ["Bitcoin", "Mining"]
  {
    var s := ["Bitcoin", "Mining"];
    assert s[..1] == ["Bitcoin"] && s[..1][..0] == [];
    assert "Bitcoin" != Pinned && "Mining" != Pinned;
  }

  lemma CountMining()
    ensures Count(["Bitcoin"], "Mining") == 0
    ensures Count(["Bitcoin", "Mining"], "Mining") == 1
  {
    assert ["Bitcoin"][..0] == [];
    assert ["Bitcoin", "Mining"][..1] == ["Bitcoin"];
    assert "Mining" != "Bitcoin";
  }
}
