/** A trade, the priced population, and powers of ten. */
module Trades {

  /** Timestamps are nanoseconds since Go's zero time; amounts are unbounded integers. */
  datatype Trade = Trade(
    source: string, ledger: nat, txHash: string, opIndex: nat, time: int, base: int, quote: int)

  datatype Side = Base | Quote

  /** Both legs strictly positive. */
  predicate Priceable(t: Trade) { t.base > 0 && t.quote > 0 }

  function Amount(t: Trade, side: Side): int { if side == Base then t.base else t.quote }

  /** Quote per base. */
  function Price(t: Trade): real
    requires Priceable(t)
  {
    t.quote as real / t.base as real
  }

  /** The sum of one leg over the priced trades. */
  function Volume(trades: seq<Trade>, side: Side): (v: nat) {
    if trades == [] then 0
    else
      var t := trades[|trades| - 1];
      Volume(trades[..|trades| - 1], side) + if Priceable(t) then Amount(t, side) else 0
  }

  function Pow10(n: nat): (p: nat)
    ensures p >= 1
  {
    if n == 0 then 1 else 10 * Pow10(n - 1)
  }

  lemma {:induction false} Pow10Add(m: nat, n: nat)
    ensures Pow10(m + n) == Pow10(m) * Pow10(n)
  {
    if m != 0 {
      Pow10Add(m - 1, n);
      assert Pow10(m + n) == 10 * Pow10(m - 1 + n);
    }
  }
}
