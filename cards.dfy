/**
 * The text shown on an article card (`displayNews`): the body excerpt
 * and the tag chips.
 */
module Cards {
  import opened JsStrings
  import opened News
  import opened Categories

  /** Number of body characters the excerpt keeps. */
  const ExcerptLength: nat := 150

  const Ellipsis: string := "..."

  /**
   * `body.substring(0, 150) + "..."`: a hard cut after 150 characters,
   * and the ellipsis is appended even when nothing was cut.
   */
  function Excerpt(body: string): (r: string)
    ensures |r| >= |Ellipsis| && r[|r| - |Ellipsis|..] == Ellipsis
    ensures var kept := r[..|r| - |Ellipsis|];
            && kept <= body
            && |kept| == if |body| < ExcerptLength then |body| else ExcerptLength
    ensures |body| <= ExcerptLength ==> r == body + Ellipsis
  {
    var n := if |body| < ExcerptLength then |body| else ExcerptLength;
    body[..n] + Ellipsis
  }

  /** Every piece trimmed, in order. */
  function TrimAll(pieces: seq<string>): (r: seq<string>)
    ensures |r| == |pieces|
    ensures forall k :: 0 <= k < |r| ==> r[k] == Trim(pieces[k])
    ensures forall k :: 0 <= k < |r| ==> IsTrimmed(r[k])
  {
    if pieces == [] then [] else [Trim(pieces[0])] + TrimAll(pieces[1..])
  }

  /**
   * The tag chips: one per `|`-split piece of `categories`, same order,
   * each piece trimmed.
   */
  function Tags(categories: string): (r: seq<string>)
    ensures |r| == |Split(categories, Pipe)|
    ensures forall k :: 0 <= k < |r| ==> IsTrimmed(r[k])
    ensures forall k :: 0 <= k < |r| ==> r[k] == Trim(Split(categories, Pipe)[k])
  {
    TrimAll(Split(categories, Pipe))
  }

  /** There is one chip more than `categories` has pipes, and no chip holds a pipe. */
  lemma TagCount(categories: string)
    ensures |Tags(categories)| == Count(categories, Pipe) + 1
    ensures forall k :: 0 <= k < |Tags(categories)| ==> Pipe !in Tags(categories)[k]
  {
    SplitLength(categories, Pipe);
    var pieces := Split(categories, Pipe);
    forall k | 0 <= k < |pieces| ensures Pipe !in Tags(categories)[k] {
      TrimKeepsAbsent(pieces[k], Pipe);
    }
  }

  /** Every chip is trimmed already: trimming it again changes nothing. */
  lemma TagsTrimmed(categories: string)
    ensures forall k :: 0 <= k < |Tags(categories)| ==> Trim(Tags(categories)[k]) == Tags(categories)[k]
  {
    var pieces := Split(categories, Pipe);
    forall k | 0 <= k < |pieces| ensures Trim(Tags(categories)[k]) == Tags(categories)[k] {
      TrimIdempotent(pieces[k]);
    }
  }

  /** What one card shows, before dates and markup are formatted. */
  datatype Card = Card(
    imageUrl: string,
    title: string,
    excerpt: string,
    source: string,
    publishedOn: int,
    tags: seq<string>,
    url: string)

  /** The card `displayNews` builds for one article. */
  function CardOf(a: Article): (c: Card)
    ensures c.excerpt == Excerpt(a.body) && |c.excerpt| <= ExcerptLength + |Ellipsis|
    ensures c.tags == Tags(a.categories) && |c.tags| == |Labels(a)|
    ensures c.title == a.title && c.url == a.url && c.imageUrl == a.imageUrl
    ensures c.source == a.source && c.publishedOn == a.publishedOn
  {
    Card(a.imageUrl, a.title, Excerpt(a.body), a.source, a.publishedOn, Tags(a.categories), a.url)
  }

  lemma MiningTrim()
    ensures Trim(" Mining") == "Mining"
  {
    var s := " Mining";
    assert IsWhite(s[0]);
    assert s[1..] == "Mining";
    TrimStartTrimmed("Mining");
    TrimEndTrimmed("Mining");
  }

  lemma TagsOfTwo(categories: string, p: string, q: string)
    requires Split(categories, Pipe) == [p, q]
    ensures Tags(categories) == [Trim(p), Trim(q)]
  {
    assert Tags(categories) == TrimAll([p, q]);
    TrimAllTwo(p, q);
  }

  lemma TrimAllTwo(p: string, q: string)
    ensures TrimAll([p, q]) == [Trim(p), Trim(q)]
  {
    assert [p, q][1..] == [q] && [q][1..] == [];
  }

  lemma AsymmetryTags(a: Article)
    requires Split(a.categories, Pipe) == ["Bitcoin", " Mining"]
    ensures Tags(a.categories) == ["Bitcoin", "Mining"]
  {
    TagsOfTwo(a.categories, "Bitcoin", " Mining");
    MiningTrim();
    BitcoinTrim();
  }

  lemma BitcoinTrim()
    ensures Trim("Bitcoin") == "Bitcoin"
  {
    assert !IsWhite('B') && !IsWhite('n');
    TrimStartTrimmed("Bitcoin");
    TrimEndTrimmed("Bitcoin");
  }

  lemma AsymmetryIndex(a: Article)
    requires Labels(a) == ["Bitcoin", " Mining"]
    ensures " Mining" in CategoryIndexOf([a]).lists && "Mining" !in CategoryIndexOf([a]).lists
  {
    CategorizeMembership([a], " Mining", a);
    CategorizeMembership([a], "Mining", a);
    assert "Mining" !in Labels(a);
  }

  /**
   * Index keys are untrimmed while chips are trimmed: for
   * "Bitcoin| Mining" the chip reads "Mining" but the index key is
   * " Mining", and there is no key "Mining".
   */
  lemma TrimAsymmetry(a: Article)
    requires a.categories == "Bitcoin| Mining"
    ensures Labels(a) == ["Bitcoin", " Mining"]
    ensures Tags(a.categories) == ["Bitcoin", "Mining"]
    ensures " Mining" in CategoryIndexOf([a]).lists && "Mining" !in CategoryIndexOf([a]).lists
  {
    var left, right := "Bitcoin", " Mining";
    assert a.categories == left + [Pipe] + right;
    assert Pipe !in left && Pipe !in right;
    LabelsOfPair(a, left, right);
    AsymmetryTags(a);
    AsymmetryIndex(a);
  }
}
