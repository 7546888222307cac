/**
 * The category navigation (`displayCategories`) with its icon table,
 * and the category selection made by a click on the navigation.
 */
module Navigation {
  import opened JsStrings
  import opened News
  import opened Categories

  /** `categoryIcons`: category name to icon class. */
  const CategoryIcons: map<string, string> := map[
    "Blockchain" := "fas fa-link",
    "Bitcoin" := "fab fa-bitcoin",
    "Ethereum" := "fab fa-ethereum",
    "Altcoin" := "fas fa-coins",
    "Trading" := "fas fa-chart-line",
    "Mining" := "fas fa-microchip",
    "ICO" := "fas fa-rocket",
    "Regulation" := "fas fa-gavel",
    "Exchange" := "fas fa-exchange-alt",
    "Wallet" := "fas fa-wallet",
    "ICP" := "fas fa-infinity",
    "Default" := "fas fa-newspaper"
  ]

  /** The category the source pins second in the navigation. */
  const Pinned: string := "ICP"

  /** The `data-category` value of the synthetic entry that shows every article. */
  const AllCategory: string := "all"

  /** `categoryIcons[name] || categoryIcons['Default']`. */
  function IconFor(name: string): (icon: string)
    ensures icon in CategoryIcons.Values
    ensures name in CategoryIcons ==> icon == CategoryIcons[name]
    ensures name !in CategoryIcons ==> icon == "fas fa-newspaper"
  {
    if name in CategoryIcons then CategoryIcons[name] else CategoryIcons["Default"]
  }

  /** One link of the navigation: its `data-category`, icon and caption. */
  datatype NavEntry = NavEntry(category: string, icon: string, caption: string)

  const AllEntry: NavEntry := NavEntry(AllCategory, "fas fa-globe", "All")

  /** The pinned entry, whose icon the source reads straight from the table. */
  const PinnedEntry: NavEntry := NavEntry(Pinned, CategoryIcons[Pinned], Pinned)

  /** The entry for an ordinary category. */
  function EntryFor(name: string): NavEntry {
    NavEntry(name, IconFor(name), name)
  }

  /** `s` with every occurrence of `x` removed. */
  function Without(s: seq<string>, x: string): seq<string> {
    if s == [] then []
    else Without(s[..|s| - 1], x) + (if s[|s| - 1] == x then [] else [s[|s| - 1]])
  }

  function EntriesFor(labels: seq<string>): (r: seq<NavEntry>)
    ensures |r| == |labels|
    ensures forall k :: 0 <= k < |r| ==> r[k] == EntryFor(labels[k])
  {
    seq(|labels|, k requires 0 <= k < |labels| => EntryFor(labels[k]))
  }

  /** The number of leading entries before the ordinary categories. */
  function HeadLength(idx: CategoryIndex): nat {
    if Pinned in idx.lists then 2 else 1
  }

  /** The leading entries: "all", then the pinned category when it exists. */
  function NavHead(idx: CategoryIndex): (head: seq<NavEntry>)
    ensures |head| == HeadLength(idx) && head[0] == AllEntry
  {
    [AllEntry] + (if Pinned in idx.lists then [PinnedEntry] else [])
  }

  /** The pinned entry is the ordinary entry its name would get. */
  lemma PinnedIcon()
    ensures PinnedEntry == EntryFor(Pinned)
  {
    assert Pinned in CategoryIcons;
  }

  /**
   * The navigation for `idx`: the "all" entry, then the pinned entry
   * when that category exists, then every other key in index order.
   */
  function NavList(idx: CategoryIndex): (nav: seq<NavEntry>)
    ensures |nav| >= 1 && nav[0] == AllEntry
  {
    NavHead(idx) + EntriesFor(Without(idx.order, Pinned))
  }

  /** `displayCategories`, accumulating the entries as the source does. */
  method DisplayCategories(idx: CategoryIndex) returns (nav: seq<NavEntry>)
    ensures nav == NavList(idx)
  {
    nav := [AllEntry];
    if Pinned in idx.lists {
      nav := nav + [PinnedEntry];
    }
    ghost var head := nav;
    for k := 0 to |idx.order|
      invariant nav == head + EntriesFor(Without(idx.order[..k], Pinned))
    {
      var category := idx.order[k];
      assert idx.order[..k + 1][..k] == idx.order[..k];
      if category != Pinned {
        nav := nav + [NavEntry(category, IconFor(category), category)];
      }
    }
    assert idx.order[..|idx.order|] == idx.order;
  }

  // ----- Properties of the navigation -----

  lemma {:induction false} WithoutFacts(s: seq<string>, x: string)
    ensures x !in Without(s, x)
    ensures forall y :: y != x ==> (y in Without(s, x) <==> y in s)
    ensures Distinct(s) ==> Distinct(Without(s, x))
    ensures |Without(s, x)| <= |s|
  {
    if s != [] {
      var pre := s[..|s| - 1];
      WithoutFacts(pre, x);
      assert s == pre + [s[|s| - 1]];
      if Distinct(s) {
        var last := s[|s| - 1];
        assert Distinct(pre);
        assert last !in pre;
        var w := Without(pre, x);
        if last != x {
          assert last !in w;
          assert forall i :: 0 <= i < |w| ==> (w + [last])[i] == w[i];
        }
      }
    }
  }

  /** The `data-category` values of the entries, in order. */
  function CategoriesOf(nav: seq<NavEntry>): (r: seq<string>)
    ensures |r| == |nav|
    ensures forall k :: 0 <= k < |nav| ==> r[k] == nav[k].category
  {
    seq(|nav|, k requires 0 <= k < |nav| => nav[k].category)
  }

  /** The navigation's categories: "all", the pinned one when present, then the rest. */
  lemma NavCategories(idx: CategoryIndex)
    ensures CategoriesOf(NavList(idx))
            == [AllCategory] + (if Pinned in idx.lists then [Pinned] else []) + Without(idx.order, Pinned)
  {
    var rest := Without(idx.order, Pinned);
    var expected := [AllCategory] + (if Pinned in idx.lists then [Pinned] else []) + rest;
    var nav := NavList(idx);
    NavTail(idx);
    assert |CategoriesOf(nav)| == |expected|;
    forall k | 0 <= k < |nav| ensures CategoriesOf(nav)[k] == expected[k] {
      if k >= HeadLength(idx) {
        assert nav[HeadLength(idx) + (k - HeadLength(idx))] == EntryFor(rest[k - HeadLength(idx)]);
      } else if k == 1 {
        assert nav[1] == PinnedEntry;
      }
    }
  }

  /** The second entry is the pinned category exactly when it exists. */
  lemma NavSecondIsPinned(idx: CategoryIndex)
    ensures (|NavList(idx)| >= 2 && NavList(idx)[1].category == Pinned) <==> Pinned in idx.lists
    ensures Pinned in idx.lists ==> NavList(idx)[1] == PinnedEntry
  {
    var rest := Without(idx.order, Pinned);
    WithoutFacts(idx.order, Pinned);
    if Pinned !in idx.lists && |rest| >= 1 {
      assert NavList(idx)[1] == EntryFor(rest[0]);
      assert rest[0] in rest;
    }
  }

  /**
   * For a well-formed index every key gets exactly one entry (the
   * pinned one included), and no name outside the index gets one; the
   * name "all" is the exception: its key gets a second entry beside
   * the synthetic one.
   */
  lemma NavEntriesOnce(idx: CategoryIndex, c: string)
    requires Valid(idx)
    ensures c != AllCategory ==> Count(CategoriesOf(NavList(idx)), c) == if c in idx.lists then 1 else 0
    ensures c == AllCategory ==> Count(CategoriesOf(NavList(idx)), c) == if c in idx.lists then 2 else 1
  {
    var rest := Without(idx.order, Pinned);
    var pinned := if Pinned in idx.lists then [Pinned] else [];
    NavCategories(idx);
    WithoutFacts(idx.order, Pinned);
    CountDistinct(rest, c);
    CountAppend([AllCategory] + pinned, rest, c);
    CountAppend([AllCategory], pinned, c);
    assert Count([AllCategory], c) == if c == AllCategory then 1 else 0 by {
      assert [AllCategory][..0] == [];
    }
    if pinned != [] {
      assert pinned[..0] == [];
    }
  }

  lemma NavTail(idx: CategoryIndex)
    ensures |NavList(idx)| == HeadLength(idx) + |Without(idx.order, Pinned)|
    ensures forall k :: 0 <= k < |Without(idx.order, Pinned)| ==>
              NavList(idx)[HeadLength(idx) + k] == EntryFor(Without(idx.order, Pinned)[k])
  {
    var head: seq<NavEntry> := NavHead(idx);
    var tail: seq<NavEntry> := EntriesFor(Without(idx.order, Pinned));
    forall k | 0 <= k < |tail| ensures (head + tail)[|head| + k] == tail[k] {
    }
  }

  lemma NavIcons(idx: CategoryIndex)
    ensures forall k :: 1 <= k < |NavList(idx)| ==> NavList(idx)[k].icon == IconFor(NavList(idx)[k].category)
  {
    var head: seq<NavEntry> := NavHead(idx);
    var tail: seq<NavEntry> := EntriesFor(Without(idx.order, Pinned));
    PinnedIcon();
    forall k | 1 <= k < |head + tail| ensures (head + tail)[k].icon == IconFor((head + tail)[k].category) {
      if k < |head| {
        assert (head + tail)[k] == head[k] == PinnedEntry;
      } else {
        assert (head + tail)[k] == tail[k - |head|];
      }
    }
  }

  /**
   * After the leading entries come the ordinary keys, in index order;
   * every entry but "all" has the icon `IconFor` gives its category.
   */
  lemma NavOrder(idx: CategoryIndex)
    ensures |NavList(idx)| == HeadLength(idx) + |Without(idx.order, Pinned)|
    ensures forall k :: 0 <= k < |Without(idx.order, Pinned)| ==>
              NavList(idx)[HeadLength(idx) + k] == EntryFor(Without(idx.order, Pinned)[k])
    ensures forall k :: 1 <= k < |NavList(idx)| ==> NavList(idx)[k].icon == IconFor(NavList(idx)[k].category)
  {
    NavTail(idx);
    NavIcons(idx);
  }

  // ----- Selecting a category -----

  /**
   * The click handler: "all" shows every article of today; any other
   * name shows its list in the index, or nothing when it has none.
   */
  function SelectCategory(today: seq<Article>, idx: CategoryIndex, category: string): (shown: seq<Article>)
    ensures category == AllCategory ==> shown == today
    ensures category != AllCategory && category in idx.lists ==> shown == idx.lists[category]
    ensures category != AllCategory && category !in idx.lists ==> shown == []
  {
    if category == AllCategory then today else Lookup(idx, category)
  }

  /**
   * On the index of today's articles, selecting a name other than
   * "all" shows exactly the articles that carry it, each once per time
   * it carries it.
   */
  lemma SelectShowsCarriers(today: seq<Article>, category: string, a: Article)
    requires category != AllCategory
    ensures var shown := SelectCategory(today, CategoryIndexOf(today), category);
            && shown == Occurrences(today, category)
            && (a in shown <==> a in today && category in Labels(a))
  {
    CategorizeFacts(today);
    CategorizeMembership(today, category, a);
  }

  /**
   * A real category called "all" cannot be shown: its entry carries the
   * same `data-category` as the synthetic one, which shows everything.
   */
  lemma AllCategoryShadowed(today: seq<Article>, idx: CategoryIndex)
    requires Valid(idx) && AllCategory in idx.lists
    ensures Count(CategoriesOf(NavList(idx)), AllCategory) == 2
    ensures SelectCategory(today, idx, AllCategory) == today
  {
    NavEntriesOnce(idx, AllCategory);
  }
}
