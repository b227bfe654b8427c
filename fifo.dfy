/** FIFO lot matching for one symbol: a queue of unsold purchase lots,
    oldest first, from which a Sell consumes shares at the front. */
module Fifo {
  import opened Trades

  /** One purchased batch not yet sold: remaining share count and unit cost.
      The same shape records a fill: the shares a Sell took from one lot and
      that lot's unit cost. */
  datatype Lot = Lot(shares: int, price: Price)

  function Min(a: int, b: int): int { if a <= b then a else b }

  function Max(a: int, b: int): int { if a >= b then a else b }

  /** Total remaining shares of a queue. */
  function Total(q: seq<Lot>): int {
    if q == [] then 0 else q[0].shares + Total(q[1..])
  }

  /** Total cost of a queue: shares times unit cost, summed over the lots. */
  function Cost(q: seq<Lot>): int {
    if q == [] then 0 else q[0].shares * q[0].price + Cost(q[1..])
  }

  predicate AllPositive(q: seq<Lot>) {
    forall i :: 0 <= i < |q| ==> q[i].shares > 0
  }

  /** The queue left after a Sell of `n` shares. On each step the Sell takes
      min(what is left to sell, front lot); a fully matched front lot is
      removed, a partly matched one keeps its price and loses the matched
      shares. The loop stops when nothing is left to sell or the queue is
      empty, so excess shares are dropped. */
  function Remaining(q: seq<Lot>, n: int): seq<Lot>
    decreases |q|
  {
    if n <= 0 || q == [] then q
    else
      var matched := Min(n, q[0].shares);
      if matched == q[0].shares then Remaining(q[1..], n - matched)
      else q[0 := Lot(q[0].shares - matched, q[0].price)]
  }

  /** The fills of a Sell of `n` shares, in matching order: one per lot touched. */
  function Taken(q: seq<Lot>, n: int): seq<Lot>
    decreases |q|
  {
    if n <= 0 || q == [] then []
    else
      var matched := Min(n, q[0].shares);
      [Lot(matched, q[0].price)] + (if matched == q[0].shares then Taken(q[1..], n - matched) else [])
  }

  /** Gain of a list of fills sold at `salePrice`: the sum of
      matched * (salePrice - lot price). */
  function Gain(fills: seq<Lot>, salePrice: Price): int {
    if fills == [] then 0
    else fills[0].shares * (salePrice - fills[0].price) + Gain(fills[1..], salePrice)
  }

  /** How many shares a Sell of `n` can match against a queue holding `total`. */
  function Matchable(n: int, total: int): int {
    if n <= 0 then 0 else Min(n, total)
  }

  // ---------------------------------------------------------------------
  // The per-share view: a queue as the sequence of unit costs of the
  // shares it holds, oldest first. FIFO means a Sell takes a prefix of it.

  function Repeat(c: Price, k: int): (r: seq<Price>)
    ensures |r| == Max(k, 0)
    ensures forall i :: 0 <= i < |r| ==> r[i] == c
  {
    if k <= 0 then [] else [c] + Repeat(c, k - 1)
  }

  function Units(q: seq<Lot>): seq<Price> {
    if q == [] then [] else Repeat(q[0].price, q[0].shares) + Units(q[1..])
  }

  /** Gain of selling each unit of `us` at `salePrice`. */
  function UnitGain(us: seq<Price>, salePrice: Price): int {
    if us == [] then 0 else (salePrice - us[0]) + UnitGain(us[1..], salePrice)
  }

  lemma {:induction false} UnitsLength(q: seq<Lot>)
    requires AllPositive(q)
    ensures |Units(q)| == Total(q)
  {
    if q != [] {
      UnitsLength(q[1..]);
    }
  }

  lemma RepeatSplit(c: Price, k: int, j: int)
    requires 0 <= j <= k
    ensures Repeat(c, k)[..j] == Repeat(c, j)
    ensures Repeat(c, k)[j..] == Repeat(c, k - j)
  {
  }

  /** Matching keeps every lot count positive, in the queue and in the fills. */
  lemma {:induction false} MatchingKeepsLotsPositive(q: seq<Lot>, n: int)
    requires AllPositive(q)
    ensures AllPositive(Remaining(q, n))
    ensures AllPositive(Taken(q, n))
    decreases |q|
  {
    if n > 0 && q != [] {
      var matched := Min(n, q[0].shares);
      if matched == q[0].shares {
        MatchingKeepsLotsPositive(q[1..], n - matched);
      }
    }
  }

  /** FIFO, share by share: a Sell of `n` takes the oldest
      Matchable(n, Total(q)) shares of the queue and leaves the rest in order. */
  lemma {:induction false} FifoByUnits(q: seq<Lot>, n: int)
    requires AllPositive(q)
    ensures 0 <= Matchable(n, Total(q)) <= |Units(q)|
    ensures Units(Taken(q, n)) == Units(q)[..Matchable(n, Total(q))]
    ensures Units(Remaining(q, n)) == Units(q)[Matchable(n, Total(q))..]
    decreases |q|
  {
    UnitsLength(q);
    if n > 0 && q != [] {
      UnitsLength(q[1..]);
      if n >= q[0].shares {
        // the front lot is matched whole
        var s0, c0, tail := q[0].shares, q[0].price, q[1..];
        FifoByUnits(tail, n - s0);
        var k' := Matchable(n - s0, Total(tail));
        assert Matchable(n, Total(q)) == s0 + k';
        var rest := Taken(tail, n - s0);
        assert Taken(q, n) == [Lot(s0, c0)] + rest;
        UnitsCons(Lot(s0, c0), rest);
        assert Remaining(q, n) == Remaining(tail, n - s0);
        ConcatSlices(Repeat(c0, s0), Units(tail), k');
      } else {
        FifoSplitFront(q, n);
      }
    }
  }

  lemma UnitsCons(l: Lot, r: seq<Lot>)
    ensures Units([l] + r) == Repeat(l.price, l.shares) + Units(r)
  {
    assert ([l] + r)[1..] == r;
  }

  lemma ConcatSlices<T>(a: seq<T>, b: seq<T>, j: int)
    requires 0 <= j <= |b|
    ensures (a + b)[..|a| + j] == a + b[..j]
    ensures (a + b)[|a| + j..] == b[j..]
  {
  }

  /** The step of FifoByUnits where the front lot is matched in part. */
  lemma FifoSplitFront(q: seq<Lot>, n: int)
    requires AllPositive(q) && q != [] && 0 < n < q[0].shares
    requires |Units(q[1..])| == Total(q[1..])
    ensures Units(Taken(q, n)) == Units(q)[..Matchable(n, Total(q))]
    ensures Units(Remaining(q, n)) == Units(q)[Matchable(n, Total(q))..]
  {
    var s0, c0, tail := q[0].shares, q[0].price, q[1..];
    var front := Repeat(c0, s0);
    assert Units(q) == front + Units(tail);
    assert Matchable(n, Total(q)) == n;
    RepeatSplit(c0, s0, n);
    var r := q[0 := Lot(s0 - n, c0)];
    assert Remaining(q, n) == r;
    assert r[1..] == tail;
    assert Units(r) == Repeat(c0, s0 - n) + Units(tail);
    assert Taken(q, n) == [Lot(n, c0)];
    assert Units(Taken(q, n)) == Repeat(c0, n) + Units([]);
    assert (front + Units(tail))[..n] == front[..n];
    assert (front + Units(tail))[n..] == front[n..] + Units(tail);
  }

  /** After a Sell of `n` shares the queue holds max(0, before - n) shares,
      and the fills hold exactly the rest: any excess beyond the queue is
      dropped, matched against nothing. */
  lemma SellLeavesTotal(q: seq<Lot>, n: int)
    requires AllPositive(q)
    ensures Total(Remaining(q, n)) == if n <= 0 then Total(q) else Max(0, Total(q) - n)
    ensures Total(Taken(q, n)) == Matchable(n, Total(q))
    ensures Total(Taken(q, n)) + Total(Remaining(q, n)) == Total(q)
  {
    FifoByUnits(q, n);
    MatchingKeepsLotsPositive(q, n);
    UnitsLength(q);
    UnitsLength(Taken(q, n));
    UnitsLength(Remaining(q, n));
    var k := Matchable(n, Total(q));
    assert |Units(q)[..k]| == k;
    assert |Units(q)[k..]| == Total(q) - k;
  }

  /** The shape of the queue after a Sell: an untouched suffix of the old
      queue, except that its front lot may be a partly matched lot, which
      keeps its price and has lost some but not all of its shares. */
  lemma {:induction false} RemainingShape(q: seq<Lot>, n: int)
    requires AllPositive(q)
    ensures |Remaining(q, n)| <= |q|
    ensures var r := Remaining(q, n); var d := |q| - |r|;
      r != [] ==> r[1..] == q[d + 1..] && r[0].price == q[d].price && 0 < r[0].shares <= q[d].shares
    decreases |q|
  {
    if n > 0 && q != [] {
      var matched := Min(n, q[0].shares);
      if matched == q[0].shares {
        RemainingShape(q[1..], n - matched);
        var r := Remaining(q, n);
        var d := |q| - |r|;
        if r != [] {
          assert q[1..][d - 1 + 1..] == q[d + 1..];
          assert q[1..][d - 1] == q[d];
        }
      }
    }
  }

  /** A Sell of at least everything held takes every lot whole and empties the queue. */
  lemma {:induction false} SellAll(q: seq<Lot>, n: int)
    requires AllPositive(q)
    requires n >= Total(q)
    ensures Taken(q, n) == q
    ensures Remaining(q, n) == []
    decreases |q|
  {
    if q != [] {
      UnitsLength(q[1..]);
      assert n >= q[0].shares > 0;
      SellAll(q[1..], n - q[0].shares);
      assert [Lot(q[0].shares, q[0].price)] + q[1..] == q;
    }
  }

  lemma {:induction false} UnitGainConcat(a: seq<Price>, b: seq<Price>, p: Price)
    ensures UnitGain(a + b, p) == UnitGain(a, p) + UnitGain(b, p)
  {
    if a != [] {
      assert (a + b)[1..] == a[1..] + b;
      UnitGainConcat(a[1..], b, p);
    } else {
      assert a + b == b;
    }
  }

  lemma {:induction false} UnitGainRepeat(c: Price, k: int, p: Price)
    requires k >= 0
    ensures UnitGain(Repeat(c, k), p) == k * (p - c)
  {
    if k > 0 {
      UnitGainRepeat(c, k - 1, p);
      assert Repeat(c, k)[1..] == Repeat(c, k - 1);
    }
  }

  /** The gain of positive fills is the gain of selling each of their shares. */
  lemma {:induction false} GainIsUnitGain(fills: seq<Lot>, p: Price)
    requires AllPositive(fills)
    ensures Gain(fills, p) == UnitGain(Units(fills), p)
  {
    if fills != [] {
      GainIsUnitGain(fills[1..], p);
      UnitGainRepeat(fills[0].price, fills[0].shares, p);
      UnitGainConcat(Repeat(fills[0].price, fills[0].shares), Units(fills[1..]), p);
    }
  }

  /** The gain of a Sell is the sum, over the oldest Matchable(n, Total(q))
      shares of the queue, of sale price minus that share's cost. */
  lemma GainByUnits(q: seq<Lot>, n: int, p: Price)
    requires AllPositive(q)
    ensures 0 <= Matchable(n, Total(q)) <= |Units(q)|
    ensures Gain(Taken(q, n), p) == UnitGain(Units(q)[..Matchable(n, Total(q))], p)
  {
    FifoByUnits(q, n);
    MatchingKeepsLotsPositive(q, n);
    GainIsUnitGain(Taken(q, n), p);
  }

  /** The gain of fills is what they sell for minus what they cost. */
  lemma {:induction false} GainIsProceedsMinusCost(fills: seq<Lot>, p: Price)
    ensures Gain(fills, p) == p * Total(fills) - Cost(fills)
  {
    if fills != [] {
      GainIsProceedsMinusCost(fills[1..], p);
      var s0, c0 := fills[0].shares, fills[0].price;
      assert s0 * (p - c0) == p * s0 - s0 * c0;
      assert p * (s0 + Total(fills[1..])) == p * s0 + p * Total(fills[1..]);
    }
  }

  lemma {:induction false} TotalAppend(q: seq<Lot>, l: Lot)
    ensures Total(q + [l]) == Total(q) + l.shares
  {
    if q != [] {
      assert (q + [l])[1..] == q[1..] + [l];
      TotalAppend(q[1..], l);
    }
  }

  lemma TotalNonNegative(q: seq<Lot>)
    requires AllPositive(q)
    ensures Total(q) >= 0
  {
    UnitsLength(q);
  }

  // ---------------------------------------------------------------------
  // The two loops of the source that consume a Sell from a queue.

  /** The matching loop of realized_gains and of the hypothetical sale in
      simulate_sell: consumes `shares` from the front of `lots` and adds up
      matched * (salePrice - lot price). */
  method MatchSell(lots: seq<Lot>, shares: int, salePrice: Price) returns (rest: seq<Lot>, gain: int)
    ensures rest == Remaining(lots, shares)
    ensures gain == Gain(Taken(lots, shares), salePrice)
  {
    rest, gain := lots, 0;
    var toSell := shares;
    while toSell > 0 && rest != []
      invariant Remaining(rest, toSell) == Remaining(lots, shares)
      invariant gain + Gain(Taken(rest, toSell), salePrice) == Gain(Taken(lots, shares), salePrice)
      decreases |rest|, if toSell > 0 then 1 else 0
    {
      var front := rest[0];
      var matched := Min(toSell, front.shares);
      gain := gain + matched * (salePrice - front.price);
      toSell := toSell - matched;
      if matched == front.shares {
        rest := rest[1..];
      } else {
        rest := rest[0 := Lot(front.shares - matched, front.price)];
      }
    }
  }

  /** The replay loop of unrealized_gains and of the queue rebuild in
      simulate_sell: the same consumption, with no gain accumulated. */
  method ConsumeLots(lots: seq<Lot>, shares: int) returns (rest: seq<Lot>)
    ensures rest == Remaining(lots, shares)
  {
    rest := lots;
    var toSell := shares;
    while toSell > 0 && rest != []
      invariant Remaining(rest, toSell) == Remaining(lots, shares)
      decreases |rest|, if toSell > 0 then 1 else 0
    {
      var front := rest[0];
      var matched := Min(front.shares, toSell);
      if matched == front.shares {
        rest := rest[1..];
      } else {
        rest := rest[0 := Lot(front.shares - matched, front.price)];
      }
      toSell := toSell - matched;
    }
  }
}
