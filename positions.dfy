/** Current holdings: the arithmetic balance of every symbol. */
module Positions {
  import opened Trades

  /** The running balance of a table of balances; an absent symbol is 0, as
      a defaultdict(int) gives. */
  function Balance(balances: map<Symbol, int>, s: Symbol): int {
    if s in balances then balances[s] else 0
  }

  /** portfolio(): sums Buy shares and subtracts Sell shares per symbol in one
      pass, then keeps the symbols whose balance is strictly positive. */
  method Portfolio(ledger: seq<Trade>) returns (holdings: map<Symbol, int>)
    ensures forall s :: s in holdings <==> Bought(ledger, s) - Sold(ledger, s) > 0
    ensures forall s :: s in holdings ==> holdings[s] == Bought(ledger, s) - Sold(ledger, s)
  {
    var balances: map<Symbol, int> := map[];
    for i := 0 to |ledger|
      invariant forall s :: Balance(balances, s) == Bought(ledger[..i], s) - Sold(ledger[..i], s)
    {
      var t := ledger[i];
      assert ledger[..i + 1][..i] == ledger[..i];
      if t.side == Buy {
        balances := balances[t.symbol := Balance(balances, t.symbol) + t.shares];
      } else {
        balances := balances[t.symbol := Balance(balances, t.symbol) - t.shares];
      }
    }
    assert ledger[..|ledger|] == ledger;
    holdings := map k | k in balances && balances[k] > 0 :: balances[k];
  }

  /** A symbol of a well-formed ledger that is bought at least once and never
      sold has a strictly positive balance equal to everything bought; by the
      ensures of Portfolio it is then held, with value Bought(ledger, s). */
  lemma {:induction false} OnlyBoughtHolding(ledger: seq<Trade>, s: Symbol)
    requires WellFormed(ledger)
    requires forall i :: 0 <= i < |ledger| && ledger[i].symbol == s ==> ledger[i].side == Buy
    requires exists i :: 0 <= i < |ledger| && ledger[i].symbol == s
    ensures Bought(ledger, s) - Sold(ledger, s) > 0
    ensures Bought(ledger, s) - Sold(ledger, s) == Bought(ledger, s)
    decreases |ledger|
  {
    var init := ledger[..|ledger| - 1];
    var t := ledger[|ledger| - 1];
    OnlyBoughtBalance(ledger, s);
    BoughtSoldNonNegative(init, s);
    if t.symbol != s {
      var i :| 0 <= i < |ledger| && ledger[i].symbol == s;
      assert i < |init| && init[i] == ledger[i];
      OnlyBoughtHolding(init, s);
    }
  }
}
