/** The trade ledger: the ordered, immutable sequence of Buy/Sell records
    that every query of the accounting engine folds over. */
module Trades {

  datatype Option<+T> = None | Some(value: T)

  type Symbol = string

  /** Prices are whole numbers of the smallest currency unit (cents). */
  type Price = int

  datatype Side = Buy | Sell

  /** One row of the trade table. The share count is the table's integer
      column, read without any check; the operations below do what the code
      does for any integer. */
  datatype Trade = Trade(date: string, symbol: Symbol, side: Side, shares: int, price: Price)

  /** The assumption of the property lemmas: every row moves a positive
      number of shares. Nothing in the code enforces it. */
  predicate WellFormed(ledger: seq<Trade>) {
    forall i :: 0 <= i < |ledger| ==> ledger[i].shares > 0
  }

  /** Shares of `s` bought over the ledger. */
  function Bought(ledger: seq<Trade>, s: Symbol): int {
    if ledger == [] then 0
    else
      var t := ledger[|ledger| - 1];
      Bought(ledger[..|ledger| - 1], s) + (if t.symbol == s && t.side == Buy then t.shares else 0)
  }

  /** Shares of `s` sold over the ledger. */
  function Sold(ledger: seq<Trade>, s: Symbol): int {
    if ledger == [] then 0
    else
      var t := ledger[|ledger| - 1];
      Sold(ledger[..|ledger| - 1], s) + (if t.symbol == s && t.side == Sell then t.shares else 0)
  }

  /** The arithmetic balance of `s`: bought minus sold, not lot-aware. */
  function Net(ledger: seq<Trade>, s: Symbol): int {
    Bought(ledger, s) - Sold(ledger, s)
  }

  /** trade_history(symbol): the rows of one symbol, in ledger order. */
  function TradeHistory(ledger: seq<Trade>, s: Symbol): (r: seq<Trade>)
    ensures |r| <= |ledger|
    ensures forall t :: t in r <==> t in ledger && t.symbol == s
  {
    if ledger == [] then []
    else
      var t := ledger[|ledger| - 1];
      var h := TradeHistory(ledger[..|ledger| - 1], s);
      assert ledger == ledger[..|ledger| - 1] + [t];
      if t.symbol == s then h + [t] else h
  }

  /** The history keeps ledger order: the history of two consecutive stretches
      of the ledger is the history of the first followed by that of the second. */
  lemma {:induction false} HistoryOfConcat(a: seq<Trade>, b: seq<Trade>, s: Symbol)
    ensures TradeHistory(a + b, s) == TradeHistory(a, s) + TradeHistory(b, s)
    decreases |b|
  {
    if b != [] {
      var b' := b[..|b| - 1];
      assert (a + b)[..|a + b| - 1] == a + b';
      assert (a + b)[|a + b| - 1] == b[|b| - 1];
      HistoryOfConcat(a, b', s);
    } else {
      assert a + b == a;
    }
  }

  /** The history of a symbol carries all of its shares: the balance
      computed from it alone is the balance computed from the whole ledger. */
  lemma {:induction false} HistoryKeepsBalance(ledger: seq<Trade>, s: Symbol)
    ensures Bought(TradeHistory(ledger, s), s) == Bought(ledger, s)
    ensures Sold(TradeHistory(ledger, s), s) == Sold(ledger, s)
    decreases |ledger|
  {
    if ledger != [] {
      var init := ledger[..|ledger| - 1];
      var t := ledger[|ledger| - 1];
      HistoryKeepsBalance(init, s);
      var h := TradeHistory(init, s);
      if t.symbol == s {
        assert (h + [t])[..|h + [t]| - 1] == h;
      }
    }
  }

  /** A symbol that is only ever bought has nothing sold, so its balance is
      everything bought. */
  lemma {:induction false} OnlyBoughtBalance(ledger: seq<Trade>, s: Symbol)
    requires forall i :: 0 <= i < |ledger| && ledger[i].symbol == s ==> ledger[i].side == Buy
    ensures Sold(ledger, s) == 0
    ensures Net(ledger, s) == Bought(ledger, s)
    decreases |ledger|
  {
    if ledger != [] {
      OnlyBoughtBalance(ledger[..|ledger| - 1], s);
    }
  }

  /** Over a well-formed ledger nothing is bought or sold in negative amounts. */
  lemma {:induction false} BoughtSoldNonNegative(ledger: seq<Trade>, s: Symbol)
    requires WellFormed(ledger)
    ensures Bought(ledger, s) >= 0 && Sold(ledger, s) >= 0
    decreases |ledger|
  {
    if ledger != [] {
      BoughtSoldNonNegative(ledger[..|ledger| - 1], s);
    }
  }
}
