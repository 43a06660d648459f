/** Card rows (pairwise task relationships) and the two columns `load_data` derives
    from them (app.py lines 10-15). */
module Cards {
  import opened Wrappers
  import opened Signals

  /** A row of the cards table as stored. `score` is None when missing or not an integer. */
  datatype CardRow = CardRow(
    matchId: string, cardType: string,
    aId: string, aProd: string, aCap: string,
    bId: string, bProd: string, bCap: string,
    score: Option<int>, signals: Option<string>)

  /** A loaded card: the stored fields plus `cross_product` and `signals_count`. */
  datatype Card = Card(
    matchId: string, cardType: string,
    aId: string, aProd: string, aCap: string,
    bId: string, bProd: string, bCap: string,
    score: Option<int>, signals: Option<string>,
    crossProduct: bool, signalsCount: nat)

  /** The derived columns agree with the stored ones. */
  predicate WellDerived(c: Card)
  {
    && c.crossProduct == (c.aProd != c.bProd)
    && c.signalsCount == SignalsCount(c.signals)
  }

  /** `c` carries exactly the stored fields of `r`, and correct derived columns. */
  predicate LoadedFrom(c: Card, r: CardRow)
  {
    && c.matchId == r.matchId && c.cardType == r.cardType
    && c.aId == r.aId && c.aProd == r.aProd && c.aCap == r.aCap
    && c.bId == r.bId && c.bProd == r.bProd && c.bCap == r.bCap
    && c.score == r.score && c.signals == r.signals
    && WellDerived(c)
  }

  /** Adds `cross_product` and `signals_count` to every row, keeping the row order. */
  method LoadCards(rows: seq<CardRow>) returns (cards: seq<Card>)
    ensures |cards| == |rows|
    ensures forall i :: 0 <= i < |rows| ==> LoadedFrom(cards[i], rows[i])
  {
    cards := [];
    var i := 0;
    while i < |rows|
      invariant 0 <= i <= |rows|
      invariant |cards| == i
      invariant forall k :: 0 <= k < i ==> LoadedFrom(cards[k], rows[k])
    {
      var r := rows[i];
      var text := if r.signals.Some? then r.signals.value else "";
      var count := CountNonEmpty(Split(text));
      cards := cards + [Card(r.matchId, r.cardType, r.aId, r.aProd, r.aCap,
                             r.bId, r.bProd, r.bCap, r.score, r.signals,
                             r.aProd != r.bProd, count)];
      i := i + 1;
    }
  }
}
