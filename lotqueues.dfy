/** The replay of the ledger into one FIFO lot queue per symbol, and the
    ordered log of the matches its Sells produce. */
module LotQueues {
  import opened Trades
  import opened Fifo

  /** A symbol's queue in a per-symbol table; an absent symbol has the empty
      queue, as a defaultdict gives. */
  function Queue(queues: map<Symbol, seq<Lot>>, s: Symbol): seq<Lot> {
    if s in queues then queues[s] else []
  }

  /** Whether replaying `t` looks its symbol's queue up, creating it when
      absent. The Sell loop tests `shares > 0` before it looks the queue up,
      so a Sell of no shares leaves the table as it is. */
  predicate Touches(t: Trade) {
    t.side == Buy || t.shares > 0
  }

  /** One row applied to its symbol's queue: a Buy appends a lot, a Sell
      consumes from the front. */
  function Apply(q: seq<Lot>, t: Trade): seq<Lot> {
    if t.side == Buy then q + [Lot(t.shares, t.price)] else Remaining(q, t.shares)
  }

  /** The per-symbol queues after replaying the whole ledger in order. */
  function Lots(ledger: seq<Trade>): map<Symbol, seq<Lot>> {
    if ledger == [] then map[]
    else
      var m := Lots(ledger[..|ledger| - 1]);
      var t := ledger[|ledger| - 1];
      if Touches(t) then m[t.symbol := Apply(Queue(m, t.symbol), t)] else m
  }

  /** The queue of one symbol, rebuilt by replaying only that symbol's rows. */
  function SymbolQueue(ledger: seq<Trade>, s: Symbol): seq<Lot> {
    if ledger == [] then []
    else
      var q := SymbolQueue(ledger[..|ledger| - 1], s);
      var t := ledger[|ledger| - 1];
      if t.symbol == s then Apply(q, t) else q
  }

  /** The symbols of the replay table in insertion order (the iteration
      order of a Python dict): each symbol once, where it is first touched. */
  function SymbolsOf(ledger: seq<Trade>): (r: seq<Symbol>)
    ensures forall i, j :: 0 <= i < j < |r| ==> r[i] != r[j]
  {
    if ledger == [] then []
    else
      var o := SymbolsOf(ledger[..|ledger| - 1]);
      var t := ledger[|ledger| - 1];
      if Touches(t) && t.symbol !in o then o + [t.symbol] else o
  }

  /** One entry of the match log: `shares` of `symbol` bought at `cost` and
      sold at `salePrice`. */
  datatype Match = Match(symbol: Symbol, shares: int, cost: Price, salePrice: Price)

  function Priced(s: Symbol, fills: seq<Lot>, salePrice: Price): seq<Match> {
    if fills == [] then []
    else [Match(s, fills[0].shares, fills[0].price, salePrice)] + Priced(s, fills[1..], salePrice)
  }

  /** The ordered log of every match the replay's Sells produce. */
  function Trace(ledger: seq<Trade>): seq<Match> {
    if ledger == [] then []
    else
      var t := ledger[|ledger| - 1];
      var init := ledger[..|ledger| - 1];
      Trace(init) + (if t.side == Sell then Priced(t.symbol, Taken(Queue(Lots(init), t.symbol), t.shares), t.price) else [])
  }

  /** Shares of `s` matched over a log. */
  function MatchedShares(ms: seq<Match>, s: Symbol): int {
    if ms == [] then 0
    else (if ms[0].symbol == s then ms[0].shares else 0) + MatchedShares(ms[1..], s)
  }

  /** Sum over a log of matched * (sale price - lot price). */
  function MatchGain(ms: seq<Match>): int {
    if ms == [] then 0 else ms[0].shares * (ms[0].salePrice - ms[0].cost) + MatchGain(ms[1..])
  }

  // ---------------------------------------------------------------------

  /** Nothing touches other symbols: a symbol's queue in the full replay is
      the queue rebuilt from that symbol's rows alone. */
  lemma {:induction false} QueueIsSymbolQueue(ledger: seq<Trade>, s: Symbol)
    ensures Queue(Lots(ledger), s) == SymbolQueue(ledger, s)
    decreases |ledger|
  {
    if ledger != [] {
      QueueIsSymbolQueue(ledger[..|ledger| - 1], s);
    }
  }

  /** Replaying only a symbol's trade history rebuilds the same queue. */
  lemma {:induction false} HistoryRebuildsQueue(ledger: seq<Trade>, s: Symbol)
    ensures SymbolQueue(TradeHistory(ledger, s), s) == SymbolQueue(ledger, s)
    decreases |ledger|
  {
    if ledger != [] {
      var init := ledger[..|ledger| - 1];
      var t := ledger[|ledger| - 1];
      HistoryRebuildsQueue(init, s);
      var h := TradeHistory(init, s);
      if t.symbol == s {
        assert (h + [t])[..|h + [t]| - 1] == h;
      }
    }
  }

  /** The table's keys are exactly the symbols of its insertion order. */
  lemma {:induction false} LotsKeys(ledger: seq<Trade>)
    ensures forall s :: s in Lots(ledger) <==> s in SymbolsOf(ledger)
    decreases |ledger|
  {
    if ledger != [] {
      LotsKeys(ledger[..|ledger| - 1]);
    }
  }

  /** The queue invariant of a well-formed ledger: every lot positive, and
      the queue holds what was bought minus what was matched. */
  lemma {:induction false} QueueAccounting(ledger: seq<Trade>, s: Symbol)
    requires WellFormed(ledger)
    ensures AllPositive(SymbolQueue(ledger, s))
    ensures Total(SymbolQueue(ledger, s)) == Bought(ledger, s) - MatchedShares(Trace(ledger), s)
    decreases |ledger|
  {
    if ledger != [] {
      var init := ledger[..|ledger| - 1];
      var t := ledger[|ledger| - 1];
      QueueAccounting(init, s);
      QueueIsSymbolQueue(init, t.symbol);
      var q := SymbolQueue(init, s);
      var added := if t.side == Sell then Priced(t.symbol, Taken(Queue(Lots(init), t.symbol), t.shares), t.price) else [];
      MatchedSharesConcat(Trace(init), added, s);
      if t.symbol == s {
        if t.side == Buy {
          TotalAppend(q, Lot(t.shares, t.price));
        } else {
          MatchingKeepsLotsPositive(q, t.shares);
          SellLeavesTotal(q, t.shares);
          MatchedSharesPriced(t.symbol, Taken(q, t.shares), t.price, s);
        }
      } else if t.side == Sell {
        MatchedSharesPriced(t.symbol, Taken(Queue(Lots(init), t.symbol), t.shares), t.price, s);
      }
    }
  }

  /** Every share of the arithmetic balance is backed by an unsold lot: the
      queue never holds fewer shares than bought minus sold (it holds more
      when an oversized Sell was dropped), and never a negative amount. */
  lemma {:induction false} BalanceBackedByLots(ledger: seq<Trade>, s: Symbol)
    requires WellFormed(ledger)
    ensures Net(ledger, s) <= Total(SymbolQueue(ledger, s))
    ensures 0 <= Total(SymbolQueue(ledger, s))
    decreases |ledger|
  {
    if ledger != [] {
      var init := ledger[..|ledger| - 1];
      var t := ledger[|ledger| - 1];
      BalanceBackedByLots(init, s);
      QueueAccounting(init, s);
      var q := SymbolQueue(init, s);
      if t.symbol == s {
        if t.side == Buy {
          TotalAppend(q, Lot(t.shares, t.price));
        } else {
          SellLeavesTotal(q, t.shares);
        }
      }
    }
  }

  lemma {:induction false} MatchedSharesConcat(a: seq<Match>, b: seq<Match>, s: Symbol)
    ensures MatchedShares(a + b, s) == MatchedShares(a, s) + MatchedShares(b, s)
  {
    if a != [] {
      assert (a + b)[1..] == a[1..] + b;
      MatchedSharesConcat(a[1..], b, s);
    } else {
      assert a + b == b;
    }
  }

  lemma {:induction false} MatchedSharesPriced(sym: Symbol, fills: seq<Lot>, p: Price, s: Symbol)
    ensures MatchedShares(Priced(sym, fills, p), s) == if sym == s then Total(fills) else 0
  {
    if fills != [] {
      MatchedSharesPriced(sym, fills[1..], p, s);
    }
  }

  lemma {:induction false} MatchGainConcat(a: seq<Match>, b: seq<Match>)
    ensures MatchGain(a + b) == MatchGain(a) + MatchGain(b)
  {
    if a != [] {
      assert (a + b)[1..] == a[1..] + b;
      MatchGainConcat(a[1..], b);
    } else {
      assert a + b == b;
    }
  }

  lemma {:induction false} MatchGainPriced(sym: Symbol, fills: seq<Lot>, p: Price)
    ensures MatchGain(Priced(sym, fills, p)) == Gain(fills, p)
  {
    if fills != [] {
      MatchGainPriced(sym, fills[1..], p);
    }
  }

  /** A symbol that is only ever bought never appears in the match log. */
  lemma {:induction false} OnlyBoughtNeverMatched(ledger: seq<Trade>, s: Symbol)
    requires forall i :: 0 <= i < |ledger| && ledger[i].symbol == s ==> ledger[i].side == Buy
    ensures forall k :: 0 <= k < |Trace(ledger)| ==> Trace(ledger)[k].symbol != s
    decreases |ledger|
  {
    if ledger != [] {
      var init := ledger[..|ledger| - 1];
      var t := ledger[|ledger| - 1];
      OnlyBoughtNeverMatched(init, s);
      if t.side == Sell {
        PricedSymbol(t.symbol, Taken(Queue(Lots(init), t.symbol), t.shares), t.price);
      }
    }
  }

  lemma {:induction false} PricedSymbol(sym: Symbol, fills: seq<Lot>, p: Price)
    ensures |Priced(sym, fills, p)| == |fills|
    ensures forall k :: 0 <= k < |fills| ==> Priced(sym, fills, p)[k] == Match(sym, fills[k].shares, fills[k].price, p)
  {
    if fills != [] {
      PricedSymbol(sym, fills[1..], p);
    }
  }
}
