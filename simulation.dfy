/** What-if sale: one hypothetical FIFO Sell against a symbol's current lots. */
module Simulation {
  import opened Trades
  import opened Fifo
  import opened LotQueues
  import Gains

  /** simulate_sell(symbol, shares): rebuilds the symbol's queue from its own
      rows (every other row is skipped), then matches one more Sell of
      `shares` at the live price, dropping any excess as a real Sell would.
      The result is None when the live price is unavailable. The ledger is a
      value, so nothing any other query sees can change. */
  method SimulateSell(ledger: seq<Trade>, symbol: Symbol, shares: int, livePrice: Option<Price>)
    returns (proceeds: Option<int>)
    ensures livePrice.None? ==> proceeds.None?
    ensures livePrice.Some? ==>
      proceeds == Some(Gain(Taken(SymbolQueue(ledger, symbol), shares), livePrice.value))
  {
    var holdings: seq<Lot> := [];
    for i := 0 to |ledger|
      invariant holdings == SymbolQueue(ledger[..i], symbol)
    {
      var t := ledger[i];
      assert ledger[..i + 1][..i] == ledger[..i];
      if t.symbol != symbol {
        continue;
      }
      if t.side == Buy {
        holdings := holdings + [Lot(t.shares, t.price)];
      } else {
        holdings := ConsumeLots(holdings, t.shares);
      }
    }
    assert ledger[..|ledger|] == ledger;

    match livePrice
    case None =>
      proceeds := None;
    case Some(salePrice) =>
      var _, gain := MatchSell(holdings, shares, salePrice);
      proceeds := Some(gain);
  }

  /** The hypothetical sale matches min(shares, held) shares of the lots the
      ledger's own replay leaves, and drops the rest. */
  lemma SimulatedSaleMatchesHeld(ledger: seq<Trade>, symbol: Symbol, shares: int)
    requires WellFormed(ledger)
    ensures Total(Taken(SymbolQueue(ledger, symbol), shares))
         == Matchable(shares, Total(Queue(Lots(ledger), symbol)))
  {
    QueueAccounting(ledger, symbol);
    QueueIsSymbolQueue(ledger, symbol);
    SellLeavesTotal(SymbolQueue(ledger, symbol), shares);
  }

  /** Selling at least everything held at the live price realizes exactly
      the symbol's unrealized gain at that price. */
  lemma SellingEverythingRealizesUnrealized(ledger: seq<Trade>, quote: Symbol -> Option<Price>, k: int, shares: int)
    requires WellFormed(ledger)
    requires 0 <= k < |Gains.Unrealized(ledger, quote)|
    requires quote(Gains.Unrealized(ledger, quote)[k].symbol).Some?
    requires shares >= Total(SymbolQueue(ledger, Gains.Unrealized(ledger, quote)[k].symbol))
    ensures var v := Gains.Unrealized(ledger, quote)[k];
      v.gain == Some(Gain(Taken(SymbolQueue(ledger, v.symbol), shares), quote(v.symbol).value) as real)
  {
    var v := Gains.Unrealized(ledger, quote)[k];
    var q := SymbolQueue(ledger, v.symbol);
    Gains.UnrealizedEntry(ledger, quote, k);
    QueueAccounting(ledger, v.symbol);
    SellAll(q, shares);
    GainIsProceedsMinusCost(q, quote(v.symbol).value);
  }
}
