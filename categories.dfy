/**
 * `categorizeNews`: the index from category label to the articles that
 * carry it. Every article is pushed under each piece of its
 * `categories` string split on `|`, pieces untrimmed, one push per
 * piece; a label's list is created the first time the label is met.
 *
 * The JavaScript object is modelled as a map together with the order in
 * which its keys were first inserted (the order `Object.keys` reports
 * for keys that do not look like array indices).
 */
module Categories {
  import opened JsStrings
  import opened News

  const Pipe: char := '|'

  /** The category labels of an article: its `categories` split on `|`. */
  function Labels(a: Article): (r: seq<string>)
    ensures |r| >= 1
  {
    Split(a.categories, Pipe)
  }

  /** An article with one pipe between two pipe-free sides carries the two sides. */
  lemma LabelsOfPair(a: Article, left: string, right: string)
    requires a.categories == left + [Pipe] + right
    requires Pipe !in left && Pipe !in right
    ensures Labels(a) == [left, right]
  {
    SplitPair(left, Pipe, right);
  }

  datatype CategoryIndex = CategoryIndex(order: seq<string>, lists: map<string, seq<Article>>)

  const EmptyIndex: CategoryIndex := CategoryIndex([], map[])

  predicate Distinct<T(==)>(s: seq<T>) {
    forall i, j :: 0 <= i < j < |s| ==> s[i] != s[j]
  }

  /**
   * The shape every index built here has: each key is listed once in
   * insertion order, the listed keys are the map's keys, and no list is
   * empty (so `categories[label]` is truthy exactly for present labels).
   */
  ghost predicate Valid(idx: CategoryIndex) {
    && Distinct(idx.order)
    && (forall c :: c in idx.lists <==> c in idx.order)
    && (forall c :: c in idx.lists ==> idx.lists[c] != [])
  }

  /** `index[c] || []`. */
  function Lookup(idx: CategoryIndex, c: string): seq<Article> {
    if c in idx.lists then idx.lists[c] else []
  }

  /**
   * One step of the inner loop: create the list for `c` if the index has
   * none, then push `a` onto it.
   */
  function Push(idx: CategoryIndex, c: string, a: Article): CategoryIndex {
    var created := if c in idx.lists then idx else CategoryIndex(idx.order + [c], idx.lists[c := []]);
    CategoryIndex(created.order, created.lists[c := created.lists[c] + [a]])
  }

  /** The (label, article) pushes that one article causes, in order. */
  function TagWith(labels: seq<string>, a: Article): (r: seq<(string, Article)>)
    ensures |r| == |labels|
    ensures forall k :: 0 <= k < |r| ==> r[k] == (labels[k], a)
  {
    seq(|labels|, k requires 0 <= k < |labels| => (labels[k], a))
  }

  /** All pushes `categorizeNews` performs on `news`, in order. */
  function Pairs(news: seq<Article>): seq<(string, Article)> {
    if news == [] then []
    else
      var last := news[|news| - 1];
      Pairs(news[..|news| - 1]) + TagWith(Labels(last), last)
  }

  /** The index after performing the pushes `ps` on an empty object. */
  function Build(ps: seq<(string, Article)>): CategoryIndex {
    if ps == [] then EmptyIndex
    else
      var p := ps[|ps| - 1];
      Push(Build(ps[..|ps| - 1]), p.0, p.1)
  }

  /** The value `categorizeNews(news)` returns. */
  function CategoryIndexOf(news: seq<Article>): CategoryIndex {
    Build(Pairs(news))
  }

  /** `categorizeNews`, as the nested loop the source runs. */
  method Categorize(news: seq<Article>) returns (idx: CategoryIndex)
    ensures idx == CategoryIndexOf(news)
    ensures Valid(idx)
    ensures forall c :: Lookup(idx, c) == Occurrences(news, c)
    ensures forall c :: c in idx.lists <==> c in AllLabels(news)
    ensures idx.order == Dedup(AllLabels(news))
    ensures TotalLength(idx) == TokenCount(news)
  {
    var order: seq<string> := [];
    var categories: map<string, seq<Article>> := map[];
    for i := 0 to |news|
      invariant CategoryIndex(order, categories) == Build(Pairs(news[..i]))
    {
      var article := news[i];
      var labels := Split(article.categories, Pipe);
      ghost var done := Pairs(news[..i]);
      assert done + TagWith(labels[..0], article) == done;
      for j := 0 to |labels|
        invariant CategoryIndex(order, categories) == Build(done + TagWith(labels[..j], article))
      {
        var category := labels[j];
        ghost var before := CategoryIndex(order, categories);
        if category !in categories {
          categories := categories[category := []];
          order := order + [category];
        }
        categories := categories[category := categories[category] + [article]];
        assert CategoryIndex(order, categories) == Push(before, category, article);
        InnerStep(done, labels, j, article);
      }
      assert labels[..|labels|] == labels;
      PairsSnoc(news, i);
    }
    assert news[..|news|] == news;
    idx := CategoryIndex(order, categories);
    CategorizeFacts(news);
  }

  lemma BuildSnoc(ps: seq<(string, Article)>, p: (string, Article))
    ensures Build(ps + [p]) == Push(Build(ps), p.0, p.1)
  {
    assert (ps + [p])[..|ps|] == ps;
  }

  /** One pass of the inner loop is one more push. */
  lemma InnerStep(done: seq<(string, Article)>, labels: seq<string>, j: nat, a: Article)
    requires j < |labels|
    ensures Build(done + TagWith(labels[..j + 1], a)) == Push(Build(done + TagWith(labels[..j], a)), labels[j], a)
  {
    TagWithSnoc(labels, j, a);
    assert done + TagWith(labels[..j + 1], a) == (done + TagWith(labels[..j], a)) + [(labels[j], a)];
    BuildSnoc(done + TagWith(labels[..j], a), (labels[j], a));
  }

  lemma TagWithSnoc(labels: seq<string>, j: nat, a: Article)
    requires j < |labels|
    ensures TagWith(labels[..j + 1], a) == TagWith(labels[..j], a) + [(labels[j], a)]
  {
  }

  lemma PairsSnoc(news: seq<Article>, i: nat)
    requires i < |news|
    ensures Pairs(news[..i + 1]) == Pairs(news[..i]) + TagWith(Labels(news[i]), news[i])
  {
    assert news[..i + 1][..i] == news[..i];
  }

  // ----- Reference descriptions of the index -----

  /** `n` copies of `a`. */
  function Repeat(a: Article, n: nat): (r: seq<Article>)
    ensures |r| == n
    ensures forall k :: 0 <= k < n ==> r[k] == a
  {
    seq(n, _ => a)
  }

  /**
   * What the list for `c` should hold: the articles of `news` in order,
   * each repeated as often as `c` occurs among its labels.
   */
  function Occurrences(news: seq<Article>, c: string): seq<Article> {
    if news == [] then []
    else
      var last := news[|news| - 1];
      Occurrences(news[..|news| - 1], c) + Repeat(last, Count(Labels(last), c))
  }

  /** All labels of all articles, in order, repetitions included. */
  function AllLabels(news: seq<Article>): seq<string> {
    if news == [] then [] else AllLabels(news[..|news| - 1]) + Labels(news[|news| - 1])
  }

  /** Total number of `|`-split pieces over all articles. */
  function TokenCount(news: seq<Article>): nat {
    if news == [] then 0 else TokenCount(news[..|news| - 1]) + |Labels(news[|news| - 1])|
  }

  /** `s` without repetitions, each element kept at its first occurrence. */
  function Dedup<T(==)>(s: seq<T>): seq<T> {
    if s == [] then []
    else
      var d := Dedup(s[..|s| - 1]);
      if s[|s| - 1] in d then d else d + [s[|s| - 1]]
  }

  /** Sum of the list lengths over the keys in `order`. */
  function SumLengths(order: seq<string>, lists: map<string, seq<Article>>): nat {
    if order == [] then 0
    else
      var c := order[|order| - 1];
      SumLengths(order[..|order| - 1], lists) + (if c in lists then |lists[c]| else 0)
  }

  function TotalLength(idx: CategoryIndex): nat {
    SumLengths(idx.order, idx.lists)
  }

  /** The articles pushed under `c` by the pushes `ps`. */
  function Select(ps: seq<(string, Article)>, c: string): seq<Article> {
    if ps == [] then []
    else
      var p := ps[|ps| - 1];
      Select(ps[..|ps| - 1], c) + (if p.0 == c then [p.1] else [])
  }

  function PairLabels(ps: seq<(string, Article)>): (r: seq<string>)
    ensures |r| == |ps|
    ensures forall k :: 0 <= k < |ps| ==> r[k] == ps[k].0
  {
    seq(|ps|, k requires 0 <= k < |ps| => ps[k].0)
  }

  // ----- Properties of Build -----

  lemma {:induction false} CountDistinct<T>(s: seq<T>, x: T)
    requires Distinct(s)
    ensures Count(s, x) == if x in s then 1 else 0
  {
    if s != [] {
      var pre := s[..|s| - 1];
      assert s == pre + [s[|s| - 1]];
      assert Distinct(pre);
      CountDistinct(pre, x);
    }
  }

  lemma {:induction false} DedupFacts<T>(s: seq<T>)
    ensures Distinct(Dedup(s))
    ensures forall x :: x in Dedup(s) <==> x in s
  {
    if s != [] {
      var pre := s[..|s| - 1];
      DedupFacts(pre);
      assert s == pre + [s[|s| - 1]];
    }
  }

  lemma {:induction false} SumLengthsUnaffected(order: seq<string>, lists: map<string, seq<Article>>, c: string, v: seq<Article>)
    requires c !in order
    ensures SumLengths(order, lists[c := v]) == SumLengths(order, lists)
  {
    if order != [] {
      assert order[|order| - 1] != c;
      SumLengthsUnaffected(order[..|order| - 1], lists, c, v);
    }
  }

  lemma {:induction false} SumLengthsUpdate(order: seq<string>, lists: map<string, seq<Article>>, c: string, v: seq<Article>)
    requires Distinct(order) && c in order && c in lists
    ensures SumLengths(order, lists[c := v]) == SumLengths(order, lists) - |lists[c]| + |v|
  {
    var pre, last := order[..|order| - 1], order[|order| - 1];
    assert order == pre + [last];
    if last == c {
      assert c !in pre;
      SumLengthsUnaffected(pre, lists, c, v);
    } else {
      SumLengthsUpdate(pre, lists, c, v);
    }
  }

  lemma PushValid(idx: CategoryIndex, c: string, a: Article)
    requires Valid(idx)
    ensures Valid(Push(idx, c, a))
  {
    var r := Push(idx, c, a);
    if c !in idx.lists {
      assert r.order == idx.order + [c];
      assert c !in idx.order;
      forall i, j | 0 <= i < j < |r.order| ensures r.order[i] != r.order[j] {
        if j == |idx.order| {
          assert r.order[i] == idx.order[i] && idx.order[i] in idx.order;
        }
      }
      forall x ensures x in r.lists <==> x in r.order {
        assert x in r.order <==> x in idx.order || x == c;
      }
    }
  }

  lemma PushLookup(idx: CategoryIndex, c: string, a: Article)
    ensures forall x :: Lookup(Push(idx, c, a), x) == Lookup(idx, x) + (if x == c then [a] else [])
  {
    var r := Push(idx, c, a);
    forall x ensures Lookup(r, x) == Lookup(idx, x) + (if x == c then [a] else []) {
      if x == c {
        assert r.lists[c] == Lookup(idx, c) + [a];
      } else {
        assert (x in r.lists <==> x in idx.lists) && (x in r.lists ==> r.lists[x] == idx.lists[x]);
      }
    }
  }

  lemma PushTotal(idx: CategoryIndex, c: string, a: Article)
    requires Valid(idx)
    ensures TotalLength(Push(idx, c, a)) == TotalLength(idx) + 1
  {
    var r := Push(idx, c, a);
    if c in idx.lists {
      assert r.lists == idx.lists[c := idx.lists[c] + [a]];
      SumLengthsUpdate(idx.order, idx.lists, c, idx.lists[c] + [a]);
    } else {
      assert r.order == idx.order + [c];
      assert r.order[..|idx.order|] == idx.order;
      assert r.lists[c] == [a];
      assert r.lists == idx.lists[c := [a]];
      assert c !in idx.order;
      SumLengthsUnaffected(idx.order, idx.lists, c, [a]);
    }
  }

  /** Pushing onto an index adds to exactly the pushed label's list. */
  lemma PushFacts(idx: CategoryIndex, c: string, a: Article)
    requires Valid(idx)
    ensures Valid(Push(idx, c, a))
    ensures forall x :: Lookup(Push(idx, c, a), x) == Lookup(idx, x) + (if x == c then [a] else [])
    ensures Push(idx, c, a).order == if c in idx.lists then idx.order else idx.order + [c]
    ensures TotalLength(Push(idx, c, a)) == TotalLength(idx) + 1
  {
    PushValid(idx, c, a);
    PushLookup(idx, c, a);
    PushTotal(idx, c, a);
  }

  lemma {:induction false} BuildValid(ps: seq<(string, Article)>)
    ensures Valid(Build(ps))
    ensures TotalLength(Build(ps)) == |ps|
  {
    if ps != [] {
      var pre, p := ps[..|ps| - 1], ps[|ps| - 1];
      BuildValid(pre);
      PushValid(Build(pre), p.0, p.1);
      PushTotal(Build(pre), p.0, p.1);
    }
  }

  lemma {:induction false} BuildLookup(ps: seq<(string, Article)>)
    ensures forall c :: Lookup(Build(ps), c) == Select(ps, c)
  {
    if ps != [] {
      var pre, p := ps[..|ps| - 1], ps[|ps| - 1];
      BuildLookup(pre);
      PushLookup(Build(pre), p.0, p.1);
    }
  }

  lemma {:induction false} BuildOrder(ps: seq<(string, Article)>)
    ensures Build(ps).order == Dedup(PairLabels(ps))
  {
    if ps != [] {
      var pre, p := ps[..|ps| - 1], ps[|ps| - 1];
      var prior := Build(pre);
      BuildOrder(pre);
      BuildValid(pre);
      var labels := PairLabels(pre);
      assert PairLabels(ps)[..|ps| - 1] == labels;
      assert p.0 in prior.lists <==> p.0 in Dedup(labels);
    }
  }

  /** After any sequence of pushes onto an empty object: */
  lemma BuildFacts(ps: seq<(string, Article)>)
    ensures Valid(Build(ps))
    ensures forall c :: Lookup(Build(ps), c) == Select(ps, c)
    ensures Build(ps).order == Dedup(PairLabels(ps))
    ensures TotalLength(Build(ps)) == |ps|
  {
    BuildValid(ps);
    BuildLookup(ps);
    BuildOrder(ps);
  }

  // ----- From pushes back to articles -----

  lemma {:induction false} SelectAppend(a: seq<(string, Article)>, b: seq<(string, Article)>, c: string)
    ensures Select(a + b, c) == Select(a, c) + Select(b, c)
  {
    if b == [] {
      assert a + b == a;
    } else {
      assert (a + b)[..|a + b| - 1] == a + b[..|b| - 1];
      SelectAppend(a, b[..|b| - 1], c);
    }
  }

  lemma {:induction false} SelectTagWith(labels: seq<string>, a: Article, c: string)
    ensures Select(TagWith(labels, a), c) == Repeat(a, Count(labels, c))
  {
    if labels != [] {
      var pre := labels[..|labels| - 1];
      assert TagWith(labels, a)[..|labels| - 1] == TagWith(pre, a);
      SelectTagWith(pre, a, c);
    }
  }

  lemma {:induction false} PairLabelsAppend(a: seq<(string, Article)>, b: seq<(string, Article)>)
    ensures PairLabels(a + b) == PairLabels(a) + PairLabels(b)
  {
  }

  lemma {:induction false} PairsFacts(news: seq<Article>)
    ensures forall c :: Select(Pairs(news), c) == Occurrences(news, c)
    ensures PairLabels(Pairs(news)) == AllLabels(news)
    ensures |Pairs(news)| == TokenCount(news)
  {
    if news != [] {
      var pre, last := news[..|news| - 1], news[|news| - 1];
      PairsFacts(pre);
      forall c ensures Select(Pairs(news), c) == Occurrences(news, c) {
        SelectAppend(Pairs(pre), TagWith(Labels(last), last), c);
        SelectTagWith(Labels(last), last, c);
      }
      PairLabelsAppend(Pairs(pre), TagWith(Labels(last), last));
      assert PairLabels(TagWith(Labels(last), last)) == Labels(last);
    }
  }

  /** The facts the method `Categorize` promises about its result. */
  lemma CategorizeFacts(news: seq<Article>)
    ensures Valid(CategoryIndexOf(news))
    ensures forall c :: Lookup(CategoryIndexOf(news), c) == Occurrences(news, c)
    ensures forall c :: c in CategoryIndexOf(news).lists <==> c in AllLabels(news)
    ensures CategoryIndexOf(news).order == Dedup(AllLabels(news))
    ensures TotalLength(CategoryIndexOf(news)) == TokenCount(news)
  {
    BuildFacts(Pairs(news));
    PairsFacts(news);
    DedupFacts(AllLabels(news));
  }

  // ----- What the index promises, in terms of the articles -----

  lemma {:induction false} AllLabelsMembership(news: seq<Article>, c: string)
    ensures c in AllLabels(news) <==> exists a :: a in news && c in Labels(a)
  {
    if news != [] {
      var pre, last := news[..|news| - 1], news[|news| - 1];
      AllLabelsMembership(pre, c);
      assert news == pre + [last];
    }
  }

  lemma {:induction false} OccurrencesMembership(news: seq<Article>, c: string, a: Article)
    ensures a in Occurrences(news, c) <==> a in news && c in Labels(a)
  {
    if news != [] {
      var pre, last := news[..|news| - 1], news[|news| - 1];
      OccurrencesMembership(pre, c, a);
      CountPositive(Labels(last), c);
      var n := Count(Labels(last), c);
      if n > 0 {
        assert Repeat(last, n)[0] == last;
      }
      assert a in Repeat(last, n) ==> a == last;
      assert news == pre + [last];
    }
  }

  /**
   * Each article is listed under every label it carries and under no
   * other, and the keys of the index are exactly the labels carried,
   * untrimmed and empty ones included.
   */
  lemma CategorizeMembership(news: seq<Article>, c: string, a: Article)
    ensures a in Lookup(CategoryIndexOf(news), c) <==> a in news && c in Labels(a)
    ensures c in CategoryIndexOf(news).lists <==> exists b :: b in news && c in Labels(b)
  {
    CategorizeFacts(news);
    OccurrencesMembership(news, c, a);
    AllLabelsMembership(news, c);
  }

  /** Every push lands in some list: the list lengths add up to the pieces. */
  lemma CategorizeTotal(news: seq<Article>)
    ensures TotalLength(CategoryIndexOf(news)) == TokenCount(news)
    ensures TokenCount(news) == |AllLabels(news)|
  {
    CategorizeFacts(news);
    PairsFacts(news);
  }

  lemma {:induction false} SubsequenceSnoc<T>(sub: seq<T>, s: seq<T>, x: T)
    requires IsSubsequence(sub, s)
    ensures IsSubsequence(sub + [x], s + [x])
    ensures IsSubsequence(sub, s + [x])
    decreases |s|
  {
    if s == [] {
      assert sub == [];
      assert ([x])[1..] == [];
    } else {
      assert (s + [x])[1..] == s[1..] + [x];
      if sub != [] && sub[0] == s[0] && IsSubsequence(sub[1..], s[1..]) {
        SubsequenceSnoc(sub[1..], s[1..], x);
        assert (sub + [x])[1..] == sub[1..] + [x];
      } else {
        SubsequenceSnoc(sub, s[1..], x);
      }
    }
  }

  /**
   * When no article repeats `c` among its labels, the list for `c` is a
   * subsequence of the articles: their relative order is kept.
   */
  lemma {:induction false} OccurrencesSubsequence(news: seq<Article>, c: string)
    requires forall a :: a in news ==> Count(Labels(a), c) <= 1
    ensures IsSubsequence(Occurrences(news, c), news)
  {
    if news != [] {
      var pre, last := news[..|news| - 1], news[|news| - 1];
      assert news == pre + [last];
      OccurrencesSubsequence(pre, c);
      SubsequenceSnoc(Occurrences(pre, c), pre, last);
      if Count(Labels(last), c) == 1 {
        assert Repeat(last, 1) == [last];
      } else {
        assert Repeat(last, 0) == [];
        assert Occurrences(news, c) == Occurrences(pre, c);
      }
    }
  }

  /** A label that repeats within one article gets that article once per repetition. */
  lemma RepeatedLabel(a: Article)
    requires a.categories == "A|A"
    ensures CategoryIndexOf([a]) == CategoryIndex(["A"], map["A" := [a, a]])
  {
    assert a.categories == "A" + [Pipe] + "A";
    IndexOfJoined("A", Pipe, "A");
    assert Pipe !in "A";
    assert a.categories[2..] == "A";
    assert a.categories[..1] == "A";
    assert Split("A", Pipe) == ["A"];
    assert Labels(a) == ["A", "A"];
    var ps := Pairs([a]);
    assert [a][..0] == [];
    assert ps == Pairs([]) + TagWith(Labels(a), a);
    assert ps == TagWith(Labels(a), a);
    assert ps == [("A", a), ("A", a)];
    assert ps[..1] == [("A", a)];
    assert ps[..1][..0] == [];
    var one := Push(EmptyIndex, "A", a);
    assert [] + ["A"] == ["A"];
    assert [] + [a] == [a];
    assert one.lists.Keys == {"A"} && one.lists["A"] == [a];
    assert one == CategoryIndex(["A"], map["A" := [a]]);
    assert Build(ps[..1]) == one;
    assert [a] + [a] == [a, a];
    assert Push(one, "A", a).lists == one.lists["A" := [a, a]];
    assert Push(one, "A", a) == CategoryIndex(["A"], map["A" := [a, a]]);
  }

  // ----- The index as the source builds it on a plain JavaScript object -----

  /**
   * The names an empty JavaScript object inherits from `Object.prototype`.
   * For these `categories[label]` is already truthy before any push.
   */
  const ObjectPrototypeNames: set<string> := {
    "constructor", "__proto__", "hasOwnProperty", "isPrototypeOf",
    "propertyIsEnumerable", "toLocaleString", "toString", "valueOf",
    "__defineGetter__", "__defineSetter__", "__lookupGetter__", "__lookupSetter__"
  }

  /** Either the built index or the `TypeError` thrown for a label. */
  datatype Outcome = Built(index: CategoryIndex) | TypeError(name: string)

  /**
   * One push on an object whose prototype has the members `inherited`:
   * an own list is pushed onto; an inherited member is truthy, so no
   * list is created and `.push` is not a function; otherwise a list is
   * created and pushed onto.
   */
  function PushAsWritten(idx: CategoryIndex, c: string, a: Article, inherited: set<string>): Outcome {
    if c in idx.lists then Built(Push(idx, c, a))
    else if c in inherited then TypeError(c)
    else Built(Push(idx, c, a))
  }

  function BuildAsWritten(ps: seq<(string, Article)>, inherited: set<string>): Outcome {
    if ps == [] then Built(EmptyIndex)
    else
      var p := ps[|ps| - 1];
      match BuildAsWritten(ps[..|ps| - 1], inherited)
      case TypeError(c) => TypeError(c)
      case Built(idx) => PushAsWritten(idx, p.0, p.1, inherited)
  }

  /** `categorizeNews(news)` as written, on a plain `{}` object. */
  function CategorizeAsWritten(news: seq<Article>): Outcome {
    BuildAsWritten(Pairs(news), ObjectPrototypeNames)
  }

  /** The keys of the index are the labels pushed, in any order. */
  lemma BuildKeys(ps: seq<(string, Article)>)
    ensures forall c :: c in Build(ps).lists <==> c in PairLabels(ps)
  {
    BuildValid(ps);
    BuildOrder(ps);
    DedupFacts(PairLabels(ps));
  }

  lemma {:induction false} BuildAsWrittenAgrees(ps: seq<(string, Article)>, inherited: set<string>)
    requires forall k :: 0 <= k < |ps| ==> ps[k].0 !in inherited
    ensures BuildAsWritten(ps, inherited) == Built(Build(ps))
  {
    if ps != [] {
      var pre := ps[..|ps| - 1];
      assert forall k :: 0 <= k < |pre| ==> pre[k] == ps[k];
      BuildAsWrittenAgrees(pre, inherited);
    }
  }

  lemma {:induction false} BuildAsWrittenThrows(ps: seq<(string, Article)>, inherited: set<string>)
    requires exists k :: 0 <= k < |ps| && ps[k].0 in inherited
    ensures BuildAsWritten(ps, inherited).TypeError?
  {
    var pre, p := ps[..|ps| - 1], ps[|ps| - 1];
    if exists k :: 0 <= k < |pre| && pre[k].0 in inherited {
      BuildAsWrittenThrows(pre, inherited);
    } else {
      assert forall m :: 0 <= m < |pre| ==> pre[m] == ps[m];
      assert p.0 in inherited;
      BuildAsWrittenAgrees(pre, inherited);
      BuildKeys(pre);
      assert p.0 !in PairLabels(pre) by {
        forall m | 0 <= m < |pre| ensures PairLabels(pre)[m] != p.0 {
          assert pre[m].0 !in inherited;
        }
      }
    }
  }

  /**
   * The source agrees with the map model exactly when no label is an
   * inherited name; as soon as one is, it throws.
   */
  lemma BuildAsWrittenFacts(ps: seq<(string, Article)>, inherited: set<string>)
    ensures (forall k :: 0 <= k < |ps| ==> ps[k].0 !in inherited) ==> BuildAsWritten(ps, inherited) == Built(Build(ps))
    ensures (exists k :: 0 <= k < |ps| && ps[k].0 in inherited) ==> BuildAsWritten(ps, inherited).TypeError?
  {
    if forall k :: 0 <= k < |ps| ==> ps[k].0 !in inherited {
      BuildAsWrittenAgrees(ps, inherited);
    } else {
      BuildAsWrittenThrows(ps, inherited);
    }
  }

  /** No label of `news` is a name a plain `{}` inherits. */
  predicate InheritedLabelFree(news: seq<Article>) {
    forall k :: 0 <= k < |AllLabels(news)| ==> AllLabels(news)[k] !in ObjectPrototypeNames
  }

  /**
   * `categorizeNews` as written returns the map model's index exactly
   * when no label is an inherited name, and throws otherwise.
   */
  lemma CategorizeAsWrittenFacts(news: seq<Article>)
    ensures InheritedLabelFree(news) ==> CategorizeAsWritten(news) == Built(CategoryIndexOf(news))
    ensures !InheritedLabelFree(news) ==> CategorizeAsWritten(news).TypeError?
  {
    var ps := Pairs(news);
    var labels := AllLabels(news);
    PairsFacts(news);
    assert forall k :: 0 <= k < |ps| ==> labels[k] == ps[k].0;
    if InheritedLabelFree(news) {
      BuildAsWrittenAgrees(ps, ObjectPrototypeNames);
    } else {
      var k :| 0 <= k < |labels| && labels[k] in ObjectPrototypeNames;
      assert ps[k].0 in ObjectPrototypeNames;
      BuildAsWrittenThrows(ps, ObjectPrototypeNames);
    }
  }

  lemma SingleArticlePairs(a: Article)
    ensures Pairs([a]) == TagWith(Labels(a), a)
  {
    assert [a][..0] == [];
  }

  lemma PushEmpty(c: string, a: Article)
    ensures Push(EmptyIndex, c, a) == CategoryIndex([c], map[c := [a]])
  {
    var one := Push(EmptyIndex, c, a);
    assert [] + [a] == [a];
    assert [] + [c] == [c];
    assert one.lists.Keys == {c} && one.lists[c] == [a];
  }

  lemma BuildSingle(p: (string, Article))
    ensures Build([p]) == Push(EmptyIndex, p.0, p.1)
  {
    assert [p][..0] == [];
  }

  lemma OneLabelIndex(a: Article)
    requires Pipe !in a.categories
    ensures Pairs([a]) == [(a.categories, a)]
    ensures CategoryIndexOf([a]) == CategoryIndex([a.categories], map[a.categories := [a]])
  {
    SingleArticlePairs(a);
    BuildSingle((a.categories, a));
    PushEmpty(a.categories, a);
  }

  /** An article labelled "constructor" makes `categorizeNews` throw. */
  lemma ConstructorLabelThrows(a: Article)
    requires a.categories == "constructor"
    ensures CategorizeAsWritten([a]) == TypeError("constructor")
    ensures CategoryIndexOf([a]) == CategoryIndex(["constructor"], map["constructor" := [a]])
  {
    assert Pipe !in a.categories by {
      assert forall k :: 0 <= k < |a.categories| ==> a.categories[k] != Pipe;
    }
    OneLabelIndex(a);
    var ps := Pairs([a]);
    assert ps[..0] == [];
    assert BuildAsWritten(ps[..0], ObjectPrototypeNames) == Built(EmptyIndex);
    assert "constructor" in ObjectPrototypeNames;
    assert PushAsWritten(EmptyIndex, "constructor", a, ObjectPrototypeNames) == TypeError("constructor");
  }
}
