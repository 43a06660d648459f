/** The Inbox list (app.py line 74): the filtered cards sorted by `type` ascending, then
    `score` descending with missing scores last, then `signals_count` descending, stably,
    and cut to the first 100. */
module Inbox {
  import opened Wrappers
  import opened Seqs
  import opened StableSort
  import opened Cards
  import opened Strings

  /** The most cards the Inbox shows. */
  const InboxLimit: nat := 100

  /** `x` sorts before `y` in a descending score column whose missing values go last. */
  predicate ScoreAbove(x: Option<int>, y: Option<int>)
  {
    x.Some? && (y.None? || x.value > y.value)
  }

  /** `a` sorts strictly before `b` under the Inbox's three sort keys. */
  predicate CardLess(a: Card, b: Card)
  {
    || LexLess(a.cardType, b.cardType)
    || (a.cardType == b.cardType &&
         (|| ScoreAbove(a.score, b.score)
          || (a.score == b.score && a.signalsCount > b.signalsCount)))
  }

  /** `a` and `b` agree on all three sort keys. */
  predicate SameSortKey(a: Card, b: Card)
  {
    a.cardType == b.cardType && a.score == b.score && a.signalsCount == b.signalsCount
  }

  lemma CardTrichotomy(a: Card, b: Card)
    ensures CardLess(a, b) || CardLess(b, a) || SameSortKey(a, b)
  {
    LexTotal(a.cardType, b.cardType);
  }

  lemma CardTransitive(a: Card, b: Card, c: Card)
    requires CardLess(a, b) && CardLess(b, c)
    ensures CardLess(a, c)
  {
    if LexLess(a.cardType, b.cardType) && LexLess(b.cardType, c.cardType) {
      LexTransitive(a.cardType, b.cardType, c.cardType);
    }
  }

  /** The Inbox order is a strict weak order whose ties are exactly equal sort keys. */
  lemma CardLessOrder()
    ensures StrictWeakOrder(CardLess)
    ensures forall a, b :: Equivalent(CardLess, a, b) <==> SameSortKey(a, b)
  {
    forall a ensures !CardLess(a, a) {
      LexIrreflexive(a.cardType);
    }
    forall a, b, c | CardLess(a, b) && CardLess(b, c) ensures CardLess(a, c) {
      CardTransitive(a, b, c);
    }
    forall a, b, c | CardLess(a, c) ensures CardLess(a, b) || CardLess(b, c) {
      CardTrichotomy(a, b);
      if CardLess(b, a) {
        CardTransitive(b, a, c);
      }
    }
    forall a, b ensures Equivalent(CardLess, a, b) <==> SameSortKey(a, b) {
      CardTrichotomy(a, b);
      LexIrreflexive(a.cardType);
    }
  }

  /** The full sorted list is sorted under the Inbox order. */
  lemma SortedByInboxOrder(f: seq<Card>)
    ensures SortedBy(SortBy(f, CardLess), CardLess)
  {
    CardLessOrder();
    SortBySorted(f, CardLess);
  }

  /** `f_cards.sort_values(["type", "score", "signals_count"], ascending=[True, False, False]).head(100)`. */
  function InboxOrder(f: seq<Card>): (r: seq<Card>)
    ensures |r| == if |f| < InboxLimit then |f| else InboxLimit
    ensures multiset(r) <= multiset(f)
    ensures SortedBy(r, CardLess)
  {
    var sorted := SortBy(f, CardLess);
    SortedByInboxOrder(f);
    var n := if |f| < InboxLimit then |f| else InboxLimit;
    assert sorted == sorted[..n] + sorted[n..];
    sorted[..n]
  }

  /** The Inbox read column by column: `type` never decreases; within a type `score` never
      increases and missing scores come last; within a type and score `signals_count`
      never increases. Every shown card is a filtered card. */
  lemma InboxColumns(f: seq<Card>)
    ensures var r := InboxOrder(f);
      forall i, j :: 0 <= i < j < |r| ==>
        && !LexLess(r[j].cardType, r[i].cardType)
        && (r[i].cardType == r[j].cardType ==> !ScoreAbove(r[j].score, r[i].score))
        && (r[i].cardType == r[j].cardType && r[i].score.None? ==> r[j].score.None?)
        && (r[i].cardType == r[j].cardType && r[i].score == r[j].score ==> r[i].signalsCount >= r[j].signalsCount)
    ensures forall c :: c in InboxOrder(f) ==> c in f
  {
    var r := InboxOrder(f);
    forall c | c in r ensures c in f {
      assert c in multiset(r);
    }
  }

  /** Ties keep their filtered order: the shown cards with any given sort key are the first
      of the filtered cards with that key, in the same order. */
  lemma InboxStable(f: seq<Card>, e: Card)
    ensures Where(InboxOrder(f), EquivalentTo(CardLess, e)) <= Where(f, EquivalentTo(CardLess, e))
  {
    var sorted := SortBy(f, CardLess);
    var n := |InboxOrder(f)|;
    CardLessOrder();
    SortByStable(f, CardLess, e);
    assert sorted == sorted[..n] + sorted[n..];
    WhereConcat(sorted[..n], sorted[n..], EquivalentTo(CardLess, e));
  }

  /** Nothing cut by the head(100) sorts strictly before a card that is shown. */
  lemma InboxShowsFirst(f: seq<Card>, c: Card)
    requires multiset(InboxOrder(f))[c] < multiset(f)[c]
    ensures forall i :: 0 <= i < |InboxOrder(f)| ==> !CardLess(c, InboxOrder(f)[i])
  {
    var sorted := SortBy(f, CardLess);
    var r := InboxOrder(f);
    var n := |r|;
    SortedByInboxOrder(f);
    assert r == sorted[..n];
    assert sorted == sorted[..n] + sorted[n..];
    assert multiset(sorted[n..])[c] > 0;
    var k :| 0 <= k < |sorted[n..]| && sorted[n..][k] == c;
    assert sorted[n + k] == c;
  }
}
