/** Realized gains (FIFO), unrealized gains (average cost against a live
    price) and the combined profit-and-loss summary. */
module Gains {
  import opened Trades
  import opened Fifo
  import opened LotQueues

  /** Total realized gain of the ledger: every Sell adds the gain of its
      fills against its symbol's queue, all priced at that Sell's own price. */
  function Realized(ledger: seq<Trade>): int {
    if ledger == [] then 0
    else
      var t := ledger[|ledger| - 1];
      var init := ledger[..|ledger| - 1];
      Realized(init) + (if t.side == Sell then Gain(Taken(Queue(Lots(init), t.symbol), t.shares), t.price) else 0)
  }

  /** realized_gains(): one replay; a Buy appends a lot, a Sell runs the FIFO
      matching loop and adds its gain. */
  method RealizedGains(ledger: seq<Trade>) returns (gains: int)
    ensures gains == Realized(ledger)
  {
    var buyQueues: map<Symbol, seq<Lot>> := map[];
    gains := 0;
    for i := 0 to |ledger|
      invariant buyQueues == Lots(ledger[..i])
      invariant gains == Realized(ledger[..i])
    {
      var t := ledger[i];
      assert ledger[..i + 1][..i] == ledger[..i];
      if t.side == Buy {
        buyQueues := buyQueues[t.symbol := Queue(buyQueues, t.symbol) + [Lot(t.shares, t.price)]];
      } else if t.shares > 0 {
        // a Sell of no shares fails the loop test before the queue is looked up
        var rest, gain := MatchSell(Queue(buyQueues, t.symbol), t.shares, t.price);
        buyQueues := buyQueues[t.symbol := rest];
        gains := gains + gain;
      }
    }
    assert ledger[..|ledger|] == ledger;
  }

  /** The realized gain is the sum, over the ordered log of every match, of
      matched * (sale price - lot price). */
  lemma {:induction false} RealizedIsSumOfMatches(ledger: seq<Trade>)
    ensures Realized(ledger) == MatchGain(Trace(ledger))
    decreases |ledger|
  {
    if ledger != [] {
      var t := ledger[|ledger| - 1];
      var init := ledger[..|ledger| - 1];
      RealizedIsSumOfMatches(init);
      if t.side == Sell {
        var fills := Taken(Queue(Lots(init), t.symbol), t.shares);
        MatchGainConcat(Trace(init), Priced(t.symbol, fills, t.price));
        MatchGainPriced(t.symbol, fills, t.price);
      } else {
        assert Trace(ledger) == Trace(init) + [];
        assert Trace(init) + [] == Trace(init);
      }
    }
  }

  /** A ledger of Buys only realizes nothing. */
  lemma {:induction false} OnlyBuysRealizeNothing(ledger: seq<Trade>)
    requires forall i :: 0 <= i < |ledger| ==> ledger[i].side == Buy
    ensures Realized(ledger) == 0
    decreases |ledger|
  {
    if ledger != [] {
      OnlyBuysRealizeNothing(ledger[..|ledger| - 1]);
    }
  }

  /** Buys of 10 at 100 and 10 at 200, then a Sell of 15 at 500, realize
      10 * 400 + 5 * 300 = 5500 (that is, 55.00 in whole currency units). */
  lemma FifoExample(s: Symbol)
    ensures Realized([Trade("d1", s, Buy, 10, 100), Trade("d2", s, Buy, 10, 200), Trade("d3", s, Sell, 15, 500)]) == 5500
  {
    var l := [Trade("d1", s, Buy, 10, 100), Trade("d2", s, Buy, 10, 200), Trade("d3", s, Sell, 15, 500)];
    assert l[..2][..1] == l[..1];
    assert l[..1][..0] == [];
    assert l[..1][0] == l[0] && l[..2][1] == l[1];
    assert Lots(l[..1][..0]) == map[];
    assert Apply([], l[0]) == [Lot(10, 100)];
    assert Lots(l[..1]) == map[][s := Apply(Queue(map[], s), l[0])];
    assert Lots(l[..1]) == map[s := [Lot(10, 100)]];
    assert Apply([Lot(10, 100)], l[1]) == [Lot(10, 100), Lot(10, 200)];
    assert Lots(l[..2]) == map[s := [Lot(10, 100), Lot(10, 200)]];
    var q := [Lot(10, 100), Lot(10, 200)];
    assert q[1..] == [Lot(10, 200)];
    assert Taken([Lot(10, 200)], 5) == [Lot(5, 200)];
    assert Taken(q, 15) == [Lot(10, 100), Lot(5, 200)];
    assert Gain([Lot(10, 100), Lot(5, 200)], 500) == 5500;
    assert Realized(l[..1]) == 0;
    assert Realized(l[..2]) == 0;
  }

  // ---------------------------------------------------------------------
  // Unrealized gains

  /** The unrealized gain of one symbol, or None when its live price is
      unavailable. */
  datatype Valuation = Valuation(symbol: Symbol, gain: Option<real>)

  /** (current price - average cost) * remaining shares, with the average
      cost total_cost / total_shares. */
  function AverageCostGain(q: seq<Lot>, current: Price): real
    requires Total(q) != 0
  {
    (current as real - Cost(q) as real / Total(q) as real) * Total(q) as real
  }

  function Valuate(q: seq<Lot>, price: Option<Price>): Option<real>
    requires Total(q) != 0
  {
    match price
    case None => None
    case Some(current) => Some(AverageCostGain(q, current))
  }

  /** One valuation per symbol of `order` whose queue is not empty of shares,
      in that order. */
  function ValuationsOver(order: seq<Symbol>, queues: map<Symbol, seq<Lot>>, quote: Symbol -> Option<Price>): seq<Valuation> {
    if order == [] then []
    else
      var s := order[|order| - 1];
      var q := Queue(queues, s);
      ValuationsOver(order[..|order| - 1], queues, quote)
        + (if Total(q) == 0 then [] else [Valuation(s, Valuate(q, quote(s)))])
  }

  /** The unrealized gains of the ledger under a price snapshot `quote`. */
  function Unrealized(ledger: seq<Trade>, quote: Symbol -> Option<Price>): seq<Valuation> {
    ValuationsOver(SymbolsOf(ledger), Lots(ledger), quote)
  }

  /** unrealized_gains(): replays the ledger into per-symbol queues, then, in
      the table's insertion order, values each symbol that still holds
      shares at its average cost against the live price. */
  method UnrealizedGains(ledger: seq<Trade>, quote: Symbol -> Option<Price>) returns (results: seq<Valuation>)
    ensures results == Unrealized(ledger, quote)
  {
    var holdings: map<Symbol, seq<Lot>> := map[];
    var order: seq<Symbol> := [];
    for i := 0 to |ledger|
      invariant holdings == Lots(ledger[..i])
      invariant order == SymbolsOf(ledger[..i])
    {
      var t := ledger[i];
      assert ledger[..i + 1][..i] == ledger[..i];
      LotsKeys(ledger[..i]);
      if t.side == Buy || t.shares > 0 {
        if t.symbol !in holdings {
          order := order + [t.symbol];
        }
        if t.side == Buy {
          holdings := holdings[t.symbol := Queue(holdings, t.symbol) + [Lot(t.shares, t.price)]];
        } else {
          var rest := ConsumeLots(Queue(holdings, t.symbol), t.shares);
          holdings := holdings[t.symbol := rest];
        }
      }
    }
    assert ledger[..|ledger|] == ledger;
    assert holdings == Lots(ledger) && order == SymbolsOf(ledger);

    results := [];
    for j := 0 to |order|
      invariant results == ValuationsOver(order[..j], holdings, quote)
    {
      assert order[..j + 1][..j] == order[..j];
      var symbol := order[j];
      var buys := Queue(holdings, symbol);
      var totalShares := Total(buys);
      if totalShares != 0 {
        // the live price is looked up only for a symbol that still holds shares
        results := results + [Valuation(symbol, Valuate(buys, quote(symbol)))];
      }
    }
    assert order[..|order|] == order;
  }

  /** The average-cost formula is exact: it equals current price times the
      remaining shares minus their total cost. */
  lemma AverageCostIsExact(q: seq<Lot>, current: Price)
    requires Total(q) != 0
    ensures AverageCostGain(q, current) == (current * Total(q) - Cost(q)) as real
  {
    var t, c := Total(q) as real, Cost(q) as real;
    assert (c / t) * t == c;
    assert (current as real - c / t) * t == current as real * t - (c / t) * t;
  }

  /** Each entry of ValuationsOver is a symbol of `order` whose queue holds
      shares, valued from that queue. */
  lemma {:induction false} ValuedEntries(order: seq<Symbol>, queues: map<Symbol, seq<Lot>>, quote: Symbol -> Option<Price>, k: int)
    requires 0 <= k < |ValuationsOver(order, queues, quote)|
    ensures var v := ValuationsOver(order, queues, quote)[k];
      v.symbol in order && Total(Queue(queues, v.symbol)) != 0
      && v.gain == Valuate(Queue(queues, v.symbol), quote(v.symbol))
    decreases |order|
  {
    var init := order[..|order| - 1];
    var s := order[|order| - 1];
    assert order == init + [s];
    var vi := ValuationsOver(init, queues, quote);
    if k < |vi| {
      ValuedEntries(init, queues, quote, k);
      assert ValuationsOver(order, queues, quote)[k] == vi[k];
    }
  }

  /** Every symbol of `order` whose queue holds shares has an entry. */
  lemma {:induction false} ValuedComplete(order: seq<Symbol>, queues: map<Symbol, seq<Lot>>, quote: Symbol -> Option<Price>, x: Symbol)
    requires x in order && Total(Queue(queues, x)) != 0
    ensures exists k :: 0 <= k < |ValuationsOver(order, queues, quote)| && ValuationsOver(order, queues, quote)[k].symbol == x
    decreases |order|
  {
    var init := order[..|order| - 1];
    var s := order[|order| - 1];
    assert order == init + [s];
    var vs := ValuationsOver(order, queues, quote);
    var vi := ValuationsOver(init, queues, quote);
    if x in init {
      ValuedComplete(init, queues, quote, x);
      var k :| 0 <= k < |vi| && vi[k].symbol == x;
      assert vs[k] == vi[k];
    } else {
      assert vs[|vi|].symbol == s;
    }
  }

  /** No symbol has two entries. */
  predicate NoRepeatedSymbol(vs: seq<Valuation>) {
    forall i, j :: 0 <= i < j < |vs| ==> vs[i].symbol != vs[j].symbol
  }

  /** Without repeats in `order`, no symbol has two entries. */
  lemma {:induction false} ValuedDistinct(order: seq<Symbol>, queues: map<Symbol, seq<Lot>>, quote: Symbol -> Option<Price>)
    requires forall i, j :: 0 <= i < j < |order| ==> order[i] != order[j]
    ensures NoRepeatedSymbol(ValuationsOver(order, queues, quote))
    decreases |order|
  {
    if order != [] {
      var init := order[..|order| - 1];
      var s := order[|order| - 1];
      assert order == init + [s];
      var vs := ValuationsOver(order, queues, quote);
      var vi := ValuationsOver(init, queues, quote);
      ValuedDistinct(init, queues, quote);
      assert s !in init;
      var q := Queue(queues, s);
      assert vs == vi + (if Total(q) == 0 then [] else [Valuation(s, Valuate(q, quote(s)))]);
      forall i, j | 0 <= i < j < |vs| ensures vs[i].symbol != vs[j].symbol {
        if j < |vi| {
          assert vs[i] == vi[i] && vs[j] == vi[j];
          assert vi[i].symbol != vi[j].symbol;
        } else {
          assert j == |vi| && Total(q) != 0;
          assert vs[i] == vi[i];
          ValuedEntries(init, queues, quote, i);
          assert vs[j].symbol == s;
        }
      }
    }
  }

  /** No symbol has two entries in the unrealized gains. */
  lemma UnrealizedDistinct(ledger: seq<Trade>, quote: Symbol -> Option<Price>)
    ensures NoRepeatedSymbol(Unrealized(ledger, quote))
  {
    assert Unrealized(ledger, quote) == ValuationsOver(SymbolsOf(ledger), Lots(ledger), quote);
    ValuedDistinct(SymbolsOf(ledger), Lots(ledger), quote);
  }

  /** The unrealized gains list exactly the symbols that still hold shares:
      a fully sold symbol has no entry. */
  lemma UnrealizedListsHeldSymbols(ledger: seq<Trade>, quote: Symbol -> Option<Price>, s: Symbol)
    requires WellFormed(ledger)
    ensures Total(SymbolQueue(ledger, s)) > 0 <==>
      exists k :: 0 <= k < |Unrealized(ledger, quote)| && Unrealized(ledger, quote)[k].symbol == s
  {
    var vs := Unrealized(ledger, quote);
    LotsKeys(ledger);
    QueueIsSymbolQueue(ledger, s);
    BalanceBackedByLots(ledger, s);
    if Total(SymbolQueue(ledger, s)) > 0 {
      ValuedComplete(SymbolsOf(ledger), Lots(ledger), quote, s);
    }
    if exists k :: 0 <= k < |vs| && vs[k].symbol == s {
      var k :| 0 <= k < |vs| && vs[k].symbol == s;
      ValuedEntries(SymbolsOf(ledger), Lots(ledger), quote, k);
    }
  }

  /** Entry `k` of the unrealized gains is None when its symbol's price is
      unavailable, and otherwise exactly current * held - cost of the
      symbol's remaining FIFO lots. */
  lemma UnrealizedEntry(ledger: seq<Trade>, quote: Symbol -> Option<Price>, k: int)
    requires WellFormed(ledger)
    requires 0 <= k < |Unrealized(ledger, quote)|
    ensures var v := Unrealized(ledger, quote)[k];
      var q := SymbolQueue(ledger, v.symbol);
      Total(q) > 0 &&
      (quote(v.symbol).None? ==> v.gain.None?) &&
      (quote(v.symbol).Some? ==> v.gain == Some((quote(v.symbol).value * Total(q) - Cost(q)) as real))
  {
    var v := Unrealized(ledger, quote)[k];
    ValuedEntries(SymbolsOf(ledger), Lots(ledger), quote, k);
    QueueIsSymbolQueue(ledger, v.symbol);
    BalanceBackedByLots(ledger, v.symbol);
    var q := SymbolQueue(ledger, v.symbol);
    if quote(v.symbol).Some? {
      AverageCostIsExact(q, quote(v.symbol).value);
    }
  }

  // ---------------------------------------------------------------------
  // The unavailable-price sentinel of the code as written

  /** The price fetcher reports an unavailable price as -1.0, that is -100
      cents, and unrealized_gains uses it as if it were a price. */
  const UnavailableSentinel: Price := -100

  /** One symbol's valuation as the code computes it: an unavailable price
      becomes the sentinel. */
  function ValuateAsWritten(q: seq<Lot>, price: Option<Price>): (r: real)
    requires Total(q) != 0
    ensures price.None? ==> r == (UnavailableSentinel * Total(q) - Cost(q)) as real
  {
    var current := if price.Some? then price.value else UnavailableSentinel;
    AverageCostIsExact(q, current);
    AverageCostGain(q, current)
  }

  lemma {:induction false} CostNonNegative(q: seq<Lot>)
    requires AllPositive(q)
    requires forall i :: 0 <= i < |q| ==> q[i].price >= 0
    ensures Cost(q) >= 0
  {
    if q != [] {
      CostNonNegative(q[1..]);
    }
  }

  /** As written, a held symbol whose price cannot be fetched is reported
      with a loss larger than its whole cost basis; the model reports it as
      unknown instead. */
  lemma UnavailablePriceFabricatesLoss(q: seq<Lot>)
    requires q != [] && AllPositive(q)
    requires forall i :: 0 <= i < |q| ==> q[i].price >= 0
    ensures Total(q) > 0
    ensures ValuateAsWritten(q, None) < -(Cost(q) as real)
    ensures Valuate(q, None) == None
  {
    TotalNonNegative(q[1..]);
    CostNonNegative(q);
  }

  /** 10 shares bought at 1.00 with the price unavailable: the code reports
      -20.00 (in cents, -2000). */
  lemma UnavailablePriceExample()
    ensures ValuateAsWritten([Lot(10, 100)], None) == -2000.0
    ensures Valuate([Lot(10, 100)], None) == None
  {
    assert Total([Lot(10, 100)]) == 10;
    assert Cost([Lot(10, 100)]) == 1000;
  }

  // ---------------------------------------------------------------------
  // Profit and loss

  /** The P&L summary. The unrealized total is None when some held symbol has
      no live price. */
  datatype Summary = Summary(realized: int, unrealized: Option<real>)

  /** Sum of the unrealized gains, known only when every entry is known. */
  function TotalUnrealized(vs: seq<Valuation>): (r: Option<real>)
    ensures r.Some? <==> forall k :: 0 <= k < |vs| ==> vs[k].gain.Some?
  {
    if vs == [] then Some(0.0)
    else
      match (vs[0].gain, TotalUnrealized(vs[1..]))
      case (Some(g), Some(rest)) => Some(g + rest)
      case _ => None
  }

  /** pnl(): realized gains and the sum of unrealized gains. */
  method Pnl(ledger: seq<Trade>, quote: Symbol -> Option<Price>) returns (summary: Summary)
    ensures summary.realized == Realized(ledger)
    ensures summary.unrealized == TotalUnrealized(Unrealized(ledger, quote))
    ensures (forall s :: quote(s).Some?) ==> summary.unrealized.Some?
  {
    var realized := RealizedGains(ledger);
    var unrealized := UnrealizedGains(ledger, quote);
    summary := Summary(realized, TotalUnrealized(unrealized));
    forall k | 0 <= k < |unrealized| ensures (forall s :: quote(s).Some?) ==> unrealized[k].gain.Some? {
      ValuedEntries(SymbolsOf(ledger), Lots(ledger), quote, k);
    }
  }

  /** An empty ledger has no gain of either kind. */
  lemma EmptyLedgerPnl(quote: Symbol -> Option<Price>)
    ensures Realized([]) == 0
    ensures TotalUnrealized(Unrealized([], quote)) == Some(0.0)
  {
  }
}
