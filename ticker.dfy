/**
 * The price ticker (`updatePriceTicker`): one item per price entry,
 * flagged up or down by the sign of the 24-hour change.
 */
module Ticker {
  import opened JsStrings

  /** One entry of the price endpoint: the USD price and its 24-hour change in percent. */
  datatype Quote = Quote(usd: real, change: real)

  const UpClass: string := "price-up"
  const DownClass: string := "price-down"
  const UpArrow: string := "\U{25B2}"
  const DownArrow: string := "\U{25BC}"

  /** One ticker segment, before the numbers are formatted. */
  datatype TickerItem = TickerItem(symbol: string, cssClass: string, arrow: string, usd: real, change: real)

  predicate IsUp(item: TickerItem) {
    item.cssClass == UpClass && item.arrow == UpArrow
  }

  predicate IsDown(item: TickerItem) {
    item.cssClass == DownClass && item.arrow == DownArrow
  }

  /**
   * The segment for one coin: its id upper-cased, and the up class and
   * arrow exactly when the change is not negative (zero counts as up).
   */
  function TickerItemFor(coin: string, q: Quote): (item: TickerItem)
    ensures item.symbol == ToUpper(coin)
    ensures item.usd == q.usd && item.change == q.change
    ensures IsUp(item) <==> q.change >= 0.0
    ensures IsDown(item) <==> q.change < 0.0
  {
    var up := q.change >= 0.0;
    TickerItem(ToUpper(coin), if up then UpClass else DownClass, if up then UpArrow else DownArrow, q.usd, q.change)
  }

  /** `updatePriceTicker`: the segments for the entries, in entry order. */
  method UpdateTicker(prices: seq<(string, Quote)>) returns (items: seq<TickerItem>)
    ensures |items| == |prices|
    ensures forall k :: 0 <= k < |prices| ==> items[k] == TickerItemFor(prices[k].0, prices[k].1)
  {
    items := [];
    for k := 0 to |prices|
      invariant |items| == k
      invariant forall m :: 0 <= m < k ==> items[m] == TickerItemFor(prices[m].0, prices[m].1)
    {
      var (coin, data) := prices[k];
      var priceChange := data.change;
      var changeClass := if priceChange >= 0.0 then UpClass else DownClass;
      var changeIcon := if priceChange >= 0.0 then UpArrow else DownArrow;
      items := items + [TickerItem(ToUpper(coin), changeClass, changeIcon, data.usd, priceChange)];
    }
  }

  /** A falling bitcoin price gives a "down" segment for "BITCOIN". */
  lemma FallingBitcoin()
    ensures TickerItemFor("bitcoin", Quote(50000.005, -2.345))
            == TickerItem("BITCOIN", DownClass, DownArrow, 50000.005, -2.345)
  {
    var up := ToUpper("bitcoin");
    assert up == "BITCOIN" by {
      assert |up| == 7;
      forall k | 0 <= k < 7 ensures up[k] == "BITCOIN"[k] {
        assert 'a' <= "bitcoin"[k] <= 'z';
      }
    }
  }
}
