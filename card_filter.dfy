/** The sidebar filter chain over the loaded cards (app.py lines 43-57) and the per-type
    tab views (lines 109, 115, 121). */
module CardFilter {
  import opened Wrappers
  import opened Seqs
  import opened Cards

  /** The sidebar selections. `minScore` is the slider value. */
  datatype Criteria = Criteria(
    types: set<string>, products: set<string>, capabilities: set<string>,
    onlyCross: bool, minScore: int)

  /** The card types the score threshold applies to. */
  const ScoredTypes: set<string> := {"synergy", "duplicate"}

  /** `pass_score`: a synergy or duplicate card passes iff its score is an integer at least
      `minScore`; a card of any other type always passes. */
  predicate PassScore(c: Card, minScore: int)
  {
    if c.cardType in ScoredTypes then
      match c.score
      case Some(v) => v >= minScore
      case None => false
    else true
  }

  predicate TypeSelected(crit: Criteria, c: Card)
  {
    c.cardType in crit.types
  }

  predicate ProductSelected(crit: Criteria, c: Card)
  {
    c.aProd in crit.products || c.bProd in crit.products
  }

  /** An empty capability selection does not filter. */
  predicate CapabilitySelected(crit: Criteria, c: Card)
  {
    crit.capabilities == {} || c.aCap in crit.capabilities || c.bCap in crit.capabilities
  }

  predicate CrossSelected(crit: Criteria, c: Card)
  {
    !crit.onlyCross || c.crossProduct
  }

  /** A card survives the chain iff it passes all five groups. */
  predicate Keep(crit: Criteria, c: Card)
  {
    && TypeSelected(crit, c)
    && ProductSelected(crit, c)
    && CapabilitySelected(crit, c)
    && CrossSelected(crit, c)
    && PassScore(c, crit.minScore)
  }

  function KeepMask(crit: Criteria): Card -> bool
  {
    c => Keep(crit, c)
  }

  /** The specification of the chain: the cards passing all five groups, in input order. */
  function Filtered(cards: seq<Card>, crit: Criteria): seq<Card>
  {
    Where(cards, KeepMask(crit))
  }

  /** The chain as the dashboard runs it: `f_cards` narrowed one mask at a time,
      the capability and cross-product masks only when selected. */
  method ApplyFilters(cards: seq<Card>, crit: Criteria) returns (f: seq<Card>)
    ensures f == Filtered(cards, crit)
  {
    var byType := (c: Card) => c.cardType in crit.types;
    f := Where(cards, byType);

    var byProduct := (c: Card) => c.aProd in crit.products || c.bProd in crit.products;
    ghost var upToProduct := (c: Card) => TypeSelected(crit, c) && ProductSelected(crit, c);
    WhereComposes(cards, byType, byProduct, upToProduct);
    f := Where(f, byProduct);

    ghost var upToCapability := (c: Card) =>
      TypeSelected(crit, c) && ProductSelected(crit, c) && CapabilitySelected(crit, c);
    if crit.capabilities != {} {
      var byCapability := (c: Card) => c.aCap in crit.capabilities || c.bCap in crit.capabilities;
      WhereComposes(cards, upToProduct, byCapability, upToCapability);
      f := Where(f, byCapability);
    } else {
      WhereAgree(cards, upToProduct, upToCapability);
    }

    ghost var upToCross := (c: Card) =>
      TypeSelected(crit, c) && ProductSelected(crit, c) && CapabilitySelected(crit, c) && CrossSelected(crit, c);
    if crit.onlyCross {
      var byCross := (c: Card) => c.crossProduct == true;
      WhereComposes(cards, upToCapability, byCross, upToCross);
      f := Where(f, byCross);
    } else {
      WhereAgree(cards, upToCapability, upToCross);
    }

    var byScore := (c: Card) => PassScore(c, crit.minScore);
    WhereComposes(cards, upToCross, byScore, KeepMask(crit));
    f := Where(f, byScore);
  }

  /** The result is an order-preserving subsequence of the input holding exactly the cards
      that pass all five groups (each as often as in the input). */
  lemma FilteredSelects(cards: seq<Card>, crit: Criteria)
    ensures IsSubseq(Filtered(cards, crit), cards)
    ensures forall c :: c in Filtered(cards, crit) <==> c in cards && Keep(crit, c)
    ensures forall c :: multiset(Filtered(cards, crit))[c] == if Keep(crit, c) then multiset(cards)[c] else 0
  {
    WhereIsSubseq(cards, KeepMask(crit));
    WhereMembers(cards, KeepMask(crit));
    forall c ensures multiset(Filtered(cards, crit))[c] == if Keep(crit, c) then multiset(cards)[c] else 0 {
      WhereCount(cards, KeepMask(crit), c);
    }
  }

  /** Every kept card has a selected type and a selected product on one of its sides,
      a selected capability on one side when any is selected, and is cross-product when
      that box is ticked. */
  lemma FilteredCardsMatch(cards: seq<Card>, crit: Criteria, c: Card)
    requires c in Filtered(cards, crit)
    ensures c.cardType in crit.types
    ensures c.aProd in crit.products || c.bProd in crit.products
    ensures crit.capabilities != {} ==> c.aCap in crit.capabilities || c.bCap in crit.capabilities
    ensures crit.onlyCross ==> c.crossProduct
    ensures crit.onlyCross && WellDerived(c) ==> c.aProd != c.bProd
  {
    FilteredSelects(cards, crit);
  }

  /** The product mask has no guard: selecting no product keeps no card. */
  lemma NoProductsNoCards(cards: seq<Card>, crit: Criteria)
    requires crit.products == {}
    ensures Filtered(cards, crit) == []
  {
    if Filtered(cards, crit) != [] {
      FilteredCardsMatch(cards, crit, Filtered(cards, crit)[0]);
    }
  }

  /** An empty capability selection leaves the list as the other four groups make it;
      a non-empty one keeps exactly the cards with a selected capability on one side. */
  lemma CapabilityGroup(cards: seq<Card>, crit: Criteria)
    ensures crit.capabilities == {} ==>
      forall c :: c in Filtered(cards, crit) <==>
        c in cards && TypeSelected(crit, c) && ProductSelected(crit, c)
        && CrossSelected(crit, c) && PassScore(c, crit.minScore)
    ensures crit.capabilities != {} ==>
      forall c :: c in Filtered(cards, crit) <==>
        c in cards && (c.aCap in crit.capabilities || c.bCap in crit.capabilities)
        && TypeSelected(crit, c) && ProductSelected(crit, c)
        && CrossSelected(crit, c) && PassScore(c, crit.minScore)
  {
    FilteredSelects(cards, crit);
  }

  /** Selecting no capability keeps every card that some capability selection would keep. */
  lemma EmptyCapabilitiesKeepMost(cards: seq<Card>, crit: Criteria, other: set<string>)
    requires crit.capabilities == {}
    ensures IsSubseq(Filtered(cards, crit.(capabilities := other)), Filtered(cards, crit))
  {
    WhereMonotone(cards, KeepMask(crit), KeepMask(crit.(capabilities := other)));
  }

  /** The score rule as the dashboard applies it: every synergy or duplicate card it keeps
      has an integer score at least the threshold (so a missing or unparseable score is
      never shown), and a card of any other type that meets the other four groups is
      kept whatever the threshold. */
  lemma PassScoreRule(cards: seq<Card>, crit: Criteria)
    ensures forall c :: c in Filtered(cards, crit) && c.cardType in ScoredTypes ==>
      c.score.Some? && c.score.value >= crit.minScore
    ensures forall c, m: int ::
      (c in cards && c.cardType !in ScoredTypes && TypeSelected(crit, c) && ProductSelected(crit, c)
       && CapabilitySelected(crit, c) && CrossSelected(crit, c))
      ==> c in Filtered(cards, crit.(minScore := m))
  {
    FilteredSelects(cards, crit);
    forall m: int {
      FilteredSelects(cards, crit.(minScore := m));
    }
  }

  /** Raising the score threshold can only remove cards. */
  lemma RaisingMinScoreNarrows(cards: seq<Card>, crit: Criteria, higher: int)
    requires crit.minScore <= higher
    ensures IsSubseq(Filtered(cards, crit.(minScore := higher)), Filtered(cards, crit))
  {
    WhereMonotone(cards, KeepMask(crit), KeepMask(crit.(minScore := higher)));
  }

  /** Widening the type, product or (non-empty) capability selection, or unticking
      "cross-product only", can only add cards. */
  lemma WideningSelectionAddsCards(cards: seq<Card>, narrow: Criteria, wide: Criteria)
    requires narrow.types <= wide.types && narrow.products <= wide.products
    requires narrow.capabilities <= wide.capabilities
    requires narrow.capabilities == {} ==> wide.capabilities == {}
    requires wide.onlyCross ==> narrow.onlyCross
    requires narrow.minScore >= wide.minScore
    ensures IsSubseq(Filtered(cards, narrow), Filtered(cards, wide))
  {
    WhereMonotone(cards, KeepMask(wide), KeepMask(narrow));
  }

  /** Applying the same criteria a second time changes nothing. */
  lemma FilterIdempotent(cards: seq<Card>, crit: Criteria)
    ensures Filtered(Filtered(cards, crit), crit) == Filtered(cards, crit)
  {
    WhereComposes(cards, KeepMask(crit), KeepMask(crit), KeepMask(crit));
  }

  /** The tab view of one card type: `f_cards[f_cards["type"] == t]`. */
  function TabView(f: seq<Card>, t: string): seq<Card>
  {
    Where(f, (c: Card) => c.cardType == t)
  }

  /** A tab shows, in filtered order, exactly the filtered cards of its type. */
  lemma TabViewSelects(f: seq<Card>, t: string)
    ensures IsSubseq(TabView(f, t), f)
    ensures forall c :: c in TabView(f, t) <==> c in f && c.cardType == t
  {
    WhereIsSubseq(f, (c: Card) => c.cardType == t);
    WhereMembers(f, (c: Card) => c.cardType == t);
  }

  /** When every card is a synergy, conflict or duplicate, the three tabs together
      show each filtered card exactly once. */
  lemma {:induction false} TabViewsPartition(f: seq<Card>)
    requires forall c :: c in f ==> c.cardType in {"synergy", "conflict", "duplicate"}
    ensures |TabView(f, "synergy")| + |TabView(f, "conflict")| + |TabView(f, "duplicate")| == |f|
  {
    if f != [] {
      assert forall c :: c in f[1..] ==> c in f;
      TabViewsPartition(f[1..]);
    }
  }

  /** The scenario of one synergy card with score 70 linking products X and Y:
      selecting product X keeps it at threshold 50 and drops it at 80. */
  lemma ProductAndScoreScenario(m1: Card, crit: Criteria)
    requires m1.cardType == "synergy" && m1.aProd == "X" && m1.bProd == "Y" && m1.score == Some(70)
    requires crit.types == {"synergy"} && crit.products == {"X"} && crit.capabilities == {}
    requires !crit.onlyCross
    ensures crit.minScore == 50 ==> Filtered([m1], crit) == [m1]
    ensures crit.minScore == 80 ==> Filtered([m1], crit) == []
  {
  }
}
