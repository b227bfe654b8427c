/** Sell validation: a forward pass that flags every Sell larger than the
    running balance of its symbol. */
module Validator {
  import opened Trades
  import opened Fifo
  import opened LotQueues
  import Positions

  /** An invalid sell: on `date`, `requested` shares of `symbol` were sold
      while the running balance was `owned`. */
  datatype Violation = Violation(date: string, symbol: Symbol, requested: int, owned: int)

  /** The violation a row raises, if any; the balance is the arithmetic
      balance of every earlier row. */
  function Check(before: seq<Trade>, t: Trade): seq<Violation> {
    var owned := Net(before, t.symbol);
    if t.side == Sell && owned < t.shares then [Violation(t.date, t.symbol, t.shares, owned)] else []
  }

  /** Every violation of the ledger, in ledger order. */
  function Violations(ledger: seq<Trade>): seq<Violation> {
    if ledger == [] then []
    else
      var init := ledger[..|ledger| - 1];
      Violations(init) + Check(init, ledger[|ledger| - 1])
  }

  /** validate_trades(): keeps a running balance per symbol, flags each Sell
      larger than it and then reduces the balance by the full amount
      requested, so the balance may go negative and the pass goes on. */
  method ValidateTrades(ledger: seq<Trade>) returns (errors: seq<Violation>)
    ensures errors == Violations(ledger)
  {
    errors := [];
    var balances: map<Symbol, int> := map[];
    for i := 0 to |ledger|
      invariant forall s :: Positions.Balance(balances, s) == Bought(ledger[..i], s) - Sold(ledger[..i], s)
      invariant errors == Violations(ledger[..i])
    {
      var t := ledger[i];
      assert ledger[..i + 1][..i] == ledger[..i];
      if t.side == Buy {
        balances := balances[t.symbol := Positions.Balance(balances, t.symbol) + t.shares];
      } else {
        if Positions.Balance(balances, t.symbol) < t.shares {
          errors := errors + [Violation(t.date, t.symbol, t.shares, Positions.Balance(balances, t.symbol))];
        }
        balances := balances[t.symbol := Positions.Balance(balances, t.symbol) - t.shares];
      }
    }
    assert ledger[..|ledger|] == ledger;
  }

  /** Every violation is a Sell of the ledger that asked for more than the
      balance of the rows before it. */
  lemma {:induction false} ViolationsAreOversizedSells(ledger: seq<Trade>, k: int)
    requires 0 <= k < |Violations(ledger)|
    ensures var v := Violations(ledger)[k];
      v.owned < v.requested &&
      exists i :: 0 <= i < |ledger| && ledger[i] == Trade(v.date, v.symbol, Sell, v.requested, ledger[i].price)
                && v.owned == Net(ledger[..i], v.symbol)
    decreases |ledger|
  {
    var init := ledger[..|ledger| - 1];
    var n := |ledger| - 1;
    if k < |Violations(init)| {
      ViolationsAreOversizedSells(init, k);
      var v := Violations(ledger)[k];
      var i :| 0 <= i < |init| && init[i] == Trade(v.date, v.symbol, Sell, v.requested, init[i].price)
               && v.owned == Net(init[..i], v.symbol);
      assert init[..i] == ledger[..i];
    } else {
      assert ledger[..n] == init;
    }
  }

  /** Conversely, every Sell row that asks for more than the balance of the
      rows before it raises a violation carrying that balance. */
  lemma {:induction false} OversizedSellsAreViolations(ledger: seq<Trade>, i: int)
    requires 0 <= i < |ledger| && ledger[i].side == Sell
    requires Net(ledger[..i], ledger[i].symbol) < ledger[i].shares
    ensures Violation(ledger[i].date, ledger[i].symbol, ledger[i].shares, Net(ledger[..i], ledger[i].symbol))
            in Violations(ledger)
    decreases |ledger|
  {
    var init := ledger[..|ledger| - 1];
    if i < |init| {
      assert init[i] == ledger[i] && init[..i] == ledger[..i];
      OversizedSellsAreViolations(init, i);
    } else {
      assert ledger[..i] == init;
    }
  }

  /** A ledger has no violation exactly when no symbol's balance is ever
      negative after any prefix of it (for a ledger of positive share counts). */
  lemma {:induction false} NoViolationsIffNeverNegative(ledger: seq<Trade>)
    requires WellFormed(ledger)
    ensures Violations(ledger) == [] <==>
      forall k, s :: 0 <= k <= |ledger| ==> Net(ledger[..k], s) >= 0
    decreases |ledger|
  {
    if ledger != [] {
      var init := ledger[..|ledger| - 1];
      var t := ledger[|ledger| - 1];
      NoViolationsIffNeverNegative(init);
      forall k | 0 <= k <= |init| ensures init[..k] == ledger[..k] { }
      assert ledger[..|ledger|] == ledger;
      if Violations(ledger) == [] {
        forall k, s | 0 <= k <= |ledger| ensures Net(ledger[..k], s) >= 0 {
          if k == |ledger| {
            assert Net(init[..|init|], s) >= 0;
            assert init[..|init|] == init;
          }
        }
      } else if Violations(init) == [] {
        assert Check(init, t) != [];
        assert Net(ledger, t.symbol) < 0;
      }
    }
  }

  /** Without a violation no Sell is ever dropped, so each symbol's queue
      holds exactly its arithmetic balance. */
  lemma {:induction false} NoViolationsQueueIsBalance(ledger: seq<Trade>, s: Symbol)
    requires WellFormed(ledger)
    requires Violations(ledger) == []
    ensures Total(SymbolQueue(ledger, s)) == Net(ledger, s)
    decreases |ledger|
  {
    if ledger != [] {
      var init := ledger[..|ledger| - 1];
      var t := ledger[|ledger| - 1];
      NoViolationsQueueIsBalance(init, s);
      QueueAccounting(init, s);
      var q := SymbolQueue(init, s);
      if t.symbol == s {
        if t.side == Buy {
          TotalAppend(q, Lot(t.shares, t.price));
        } else {
          assert Check(init, t) == [];
          SellLeavesTotal(q, t.shares);
        }
      }
    }
  }

  /** Buy 10 AAPL, then Sell 20: exactly one violation, with 10 owned. */
  lemma OversizedSellExample(d1: string, d2: string, p1: Price, p2: Price)
    ensures Violations([Trade(d1, "AAPL", Buy, 10, p1), Trade(d2, "AAPL", Sell, 20, p2)])
         == [Violation(d2, "AAPL", 20, 10)]
  {
    var l := [Trade(d1, "AAPL", Buy, 10, p1), Trade(d2, "AAPL", Sell, 20, p2)];
    assert l[..1] == [l[0]];
    assert l[..1][..0] == [];
    assert Bought(l[..1], "AAPL") == 10 && Sold(l[..1], "AAPL") == 0;
    assert Violations(l[..1]) == [];
    assert Check(l[..1], l[1]) == [Violation(d2, "AAPL", 20, 10)];
  }

  /** No clamping: after the oversized Sell the balance stays at -10, so a
      later Buy of 5 and Sell of 5 is flagged again, with -5 owned. */
  lemma BalanceDriftExample(p: Price)
    ensures Violations([Trade("d1", "X", Buy, 10, p), Trade("d2", "X", Sell, 20, p),
                        Trade("d3", "X", Buy, 5, p), Trade("d4", "X", Sell, 5, p)])
         == [Violation("d2", "X", 20, 10), Violation("d4", "X", 5, -5)]
  {
    var l := [Trade("d1", "X", Buy, 10, p), Trade("d2", "X", Sell, 20, p),
              Trade("d3", "X", Buy, 5, p), Trade("d4", "X", Sell, 5, p)];
    assert l[..3][..2] == l[..2];
    assert l[..2][..1] == l[..1];
    assert l[..1][..0] == [];
    assert Bought(l[..1], "X") == 10 && Sold(l[..1], "X") == 0;
    assert Bought(l[..2], "X") == 10 && Sold(l[..2], "X") == 20;
    assert Bought(l[..3], "X") == 15 && Sold(l[..3], "X") == 20;
    assert Violations(l[..1]) == [];
    assert Violations(l[..2]) == [Violation("d2", "X", 20, 10)];
    assert Violations(l[..3]) == [Violation("d2", "X", 20, 10)];
    assert Check(l[..3], l[3]) == [Violation("d4", "X", 5, -5)];
  }
}
