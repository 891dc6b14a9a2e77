/** The order of position-sensitive trade slices. */
module TradeOrder {
  import opened Trades
  import opened Sorting
  import StringOrder

  /** Close time, ledger, transaction hash, operation index, then source. */
  predicate TradeOrderLess(a: Trade, b: Trade) {
    if a.time != b.time then a.time < b.time
    else if a.ledger != b.ledger then a.ledger < b.ledger
    else if a.txHash != b.txHash then StringOrder.Less(a.txHash, b.txHash)
    else if a.opIndex != b.opIndex then a.opIndex < b.opIndex
    else StringOrder.Less(a.source, b.source)
  }

  lemma Transitive(a: Trade, b: Trade, c: Trade)
    requires TradeOrderLess(a, b) && TradeOrderLess(b, c)
    ensures TradeOrderLess(a, c)
  {
    if a.txHash == c.txHash && a.txHash != b.txHash && StringOrder.Less(a.txHash, b.txHash) {
      StringOrder.LessAsymmetric(a.txHash, b.txHash);
    }
    if StringOrder.Less(a.txHash, b.txHash) && StringOrder.Less(b.txHash, c.txHash) {
      StringOrder.LessTransitive(a.txHash, b.txHash, c.txHash);
    }
    if StringOrder.Less(a.source, b.source) && StringOrder.Less(b.source, c.source) {
      StringOrder.LessTransitive(a.source, b.source, c.source);
    }
  }

  /** The order leaves two trades tied only when all five keys agree. */
  lemma TiedExactly(a: Trade, b: Trade)
    ensures !TradeOrderLess(a, b) && !TradeOrderLess(b, a) <==>
              a.time == b.time && a.ledger == b.ledger && a.txHash == b.txHash && a.opIndex == b.opIndex && a.source == b.source
  {
    StringOrder.LessTotal(a.txHash, b.txHash);
    StringOrder.LessTotal(a.source, b.source);
    StringOrder.LessIrreflexive(a.source);
  }

  lemma Between(a: Trade, b: Trade, c: Trade)
    requires TradeOrderLess(a, c)
    ensures TradeOrderLess(a, b) || TradeOrderLess(b, c)
  {
    TiedExactly(a, b);
    if TradeOrderLess(b, a) { Transitive(b, a, c); }
  }

  lemma TradeOrderStrictWeak()
    ensures StrictWeak(TradeOrderLess)
  {
    forall x ensures !TradeOrderLess(x, x) { TiedExactly(x, x); }
    forall x, y, z | TradeOrderLess(x, y) && TradeOrderLess(y, z) ensures TradeOrderLess(x, z) { Transitive(x, y, z); }
    forall x, y, z | TradeOrderLess(x, z) ensures TradeOrderLess(x, y) || TradeOrderLess(y, z) { Between(x, y, z); }
  }
}
