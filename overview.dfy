/** The Overview tab's two aggregates over the filtered cards: the dense
    (`a_prod` x `type`) count grid (app.py line 130) and the fifteen most frequent
    capabilities over both sides of every card (line 134). */
module Overview {
  import opened Seqs
  import opened StableSort
  import opened Cards
  import opened Strings

  // ---------------------------------------------------------------- the grid

  /** Row labels, column labels, and one count per (row, column). */
  datatype Grid = Grid(rows: seq<string>, cols: seq<string>, cells: seq<seq<nat>>)

  function AProds(f: seq<Card>): seq<string>
  {
    seq(|f|, i requires 0 <= i < |f| => f[i].aProd)
  }

  function Types(f: seq<Card>): seq<string>
  {
    seq(|f|, i requires 0 <= i < |f| => f[i].cardType)
  }

  /** The number of cards with `a_prod == p` and `type == t`. */
  function CountCell(f: seq<Card>, p: string, t: string): nat
  {
    if f == [] then 0
    else (if f[0].aProd == p && f[0].cardType == t then 1 else 0) + CountCell(f[1..], p, t)
  }

  /** The number of cards with `a_prod == p`. */
  function CountProduct(f: seq<Card>, p: string): nat
  {
    if f == [] then 0 else (if f[0].aProd == p then 1 else 0) + CountProduct(f[1..], p)
  }

  function CountRow(f: seq<Card>, p: string, cols: seq<string>): (row: seq<nat>)
    ensures |row| == |cols|
    ensures forall j :: 0 <= j < |cols| ==> row[j] == CountCell(f, p, cols[j])
  {
    if cols == [] then [] else [CountCell(f, p, cols[0])] + CountRow(f, p, cols[1..])
  }

  function CountCells(f: seq<Card>, rows: seq<string>, cols: seq<string>): (cells: seq<seq<nat>>)
    ensures |cells| == |rows|
    ensures forall i :: 0 <= i < |rows| ==> cells[i] == CountRow(f, rows[i], cols)
  {
    if rows == [] then [] else [CountRow(f, rows[0], cols)] + CountCells(f, rows[1..], cols)
  }

  /** The distinct values of a key column in ascending order, as `groupby` orders its keys. */
  function SortedLabels(xs: seq<string>): (labels: seq<string>)
    ensures NoDups(labels) && SortedBy(labels, LexLess)
    ensures forall x :: x in labels <==> x in xs
  {
    var distinct := Distinct(xs);
    var labels := SortBy(distinct, LexLess);
    LexLessOrder();
    SortBySorted(distinct, LexLess);
    NoDupsPermutation(labels, distinct);
    assert forall x :: x in labels <==> x in distinct by {
      forall x ensures x in labels <==> x in distinct {
        assert x in multiset(labels) <==> x in multiset(distinct);
      }
    }
    labels
  }

  /** Every card's `a_prod` and `type` occur in the corresponding key columns. */
  lemma KeyColumns(f: seq<Card>)
    ensures forall c :: c in f ==> c.aProd in AProds(f) && c.cardType in Types(f)
  {
    forall c | c in f ensures c.aProd in AProds(f) && c.cardType in Types(f) {
      var i :| 0 <= i < |f| && f[i] == c;
      assert AProds(f)[i] == c.aProd && Types(f)[i] == c.cardType;
    }
  }

  /** `groupby(["a_prod", "type"]).size().unstack(fill_value=0)`: one row per distinct
      `a_prod` and one column per distinct `type`, both in ascending order; every cell holds
      its count, zero when no card has that combination. */
  function ProductTypeGrid(f: seq<Card>): (g: Grid)
    ensures NoDups(g.rows) && SortedBy(g.rows, LexLess)
    ensures NoDups(g.cols) && SortedBy(g.cols, LexLess)
    ensures forall c :: c in f ==> c.aProd in g.rows && c.cardType in g.cols
    ensures forall p :: p in g.rows ==> p in AProds(f)
    ensures forall t :: t in g.cols ==> t in Types(f)
    ensures |g.cells| == |g.rows|
    ensures forall i, j :: 0 <= i < |g.rows| && 0 <= j < |g.cols| ==>
      |g.cells[i]| == |g.cols| && g.cells[i][j] == CountCell(f, g.rows[i], g.cols[j])
  {
    var rows, cols := SortedLabels(AProds(f)), SortedLabels(Types(f));
    KeyColumns(f);
    Grid(rows, cols, CountCells(f, rows, cols))
  }

  function Sum(s: seq<nat>): nat
  {
    if s == [] then 0 else s[0] + Sum(s[1..])
  }

  function Total(cells: seq<seq<nat>>): nat
  {
    if cells == [] then 0 else Sum(cells[0]) + Total(cells[1..])
  }

  /** The sum of the `a_prod` counts over the labels `rows`. */
  function ProductsTotal(f: seq<Card>, rows: seq<string>): nat
  {
    if rows == [] then 0 else CountProduct(f, rows[0]) + ProductsTotal(f, rows[1..])
  }

  lemma {:induction false} RowOfNoCards(p: string, cols: seq<string>)
    ensures Sum(CountRow([], p, cols)) == 0
  {
    if cols != [] {
      RowOfNoCards(p, cols[1..]);
    }
  }

  /** Removing the first card lowers a row's sum by the number of its type's columns. */
  lemma {:induction false} RowPeel(f: seq<Card>, p: string, cols: seq<string>)
    requires f != []
    ensures Sum(CountRow(f, p, cols))
         == Sum(CountRow(f[1..], p, cols)) + (if f[0].aProd == p then multiset(cols)[f[0].cardType] else 0)
  {
    if cols != [] {
      RowPeel(f, p, cols[1..]);
      assert cols == [cols[0]] + cols[1..];
    }
  }

  /** With distinct columns covering every type, a grid row adds up to its product's count. */
  lemma {:induction false} RowSum(f: seq<Card>, p: string, cols: seq<string>)
    requires NoDups(cols)
    requires forall c :: c in f ==> c.cardType in cols
    ensures Sum(CountRow(f, p, cols)) == CountProduct(f, p)
  {
    if f == [] {
      RowOfNoCards(p, cols);
    } else {
      assert forall c :: c in f[1..] ==> c in f;
      RowSum(f[1..], p, cols);
      RowPeel(f, p, cols);
      NoDupsCounts(cols);
      assert f[0].cardType in multiset(cols);
    }
  }

  lemma {:induction false} CellsTotal(f: seq<Card>, rows: seq<string>, cols: seq<string>)
    requires NoDups(cols)
    requires forall c :: c in f ==> c.cardType in cols
    ensures Total(CountCells(f, rows, cols)) == ProductsTotal(f, rows)
  {
    if rows != [] {
      RowSum(f, rows[0], cols);
      CellsTotal(f, rows[1..], cols);
    }
  }

  lemma {:induction false} ProductsPeel(f: seq<Card>, rows: seq<string>)
    requires f != []
    ensures ProductsTotal(f, rows) == ProductsTotal(f[1..], rows) + multiset(rows)[f[0].aProd]
  {
    if rows != [] {
      ProductsPeel(f, rows[1..]);
      assert rows == [rows[0]] + rows[1..];
    }
  }

  lemma {:induction false} ProductsOfNoCards(rows: seq<string>)
    ensures ProductsTotal([], rows) == 0
  {
    if rows != [] {
      ProductsOfNoCards(rows[1..]);
    }
  }

  /** With distinct row labels covering every product, the product counts add up to the
      number of cards. */
  lemma {:induction false} ProductsAddUp(f: seq<Card>, rows: seq<string>)
    requires NoDups(rows)
    requires forall c :: c in f ==> c.aProd in rows
    ensures ProductsTotal(f, rows) == |f|
  {
    if f == [] {
      ProductsOfNoCards(rows);
    } else {
      assert forall c :: c in f[1..] ==> c in f;
      ProductsAddUp(f[1..], rows);
      ProductsPeel(f, rows);
      NoDupsCounts(rows);
      assert f[0].aProd in multiset(rows);
    }
  }

  /** Every grid row adds up to the number of filtered cards of that product, and the whole
      grid adds up to the number of filtered cards. */
  lemma GridTotal(f: seq<Card>)
    ensures var g := ProductTypeGrid(f);
      && (forall i :: 0 <= i < |g.rows| ==> Sum(g.cells[i]) == CountProduct(f, g.rows[i]))
      && Total(g.cells) == |f|
  {
    var g := ProductTypeGrid(f);
    forall i | 0 <= i < |g.rows| ensures Sum(g.cells[i]) == CountProduct(f, g.rows[i]) {
      RowSum(f, g.rows[i], g.cols);
    }
    CellsTotal(f, g.rows, g.cols);
    ProductsAddUp(f, g.rows);
  }

  // ------------------------------------------------------ top capabilities

  /** One line of `value_counts()`: a capability and how often it occurs. */
  datatype CapCount = CapCount(capability: string, count: nat)

  /** The most capabilities the Overview lists. */
  const TopCapabilityCount: nat := 15

  function ACaps(f: seq<Card>): seq<string>
  {
    seq(|f|, i requires 0 <= i < |f| => f[i].aCap)
  }

  function BCaps(f: seq<Card>): seq<string>
  {
    seq(|f|, i requires 0 <= i < |f| => f[i].bCap)
  }

  /** `pd.concat([f_cards["a_cap"], f_cards["b_cap"]])`. */
  function Pooled(f: seq<Card>): seq<string>
  {
    ACaps(f) + BCaps(f)
  }

  /** The occurrence count of each of `keys` in `pooled`. */
  function Tally(keys: seq<string>, pooled: seq<string>): seq<CapCount>
  {
    seq(|keys|, i requires 0 <= i < |keys| => CapCount(keys[i], multiset(pooled)[keys[i]]))
  }

  /** `value_counts` order: higher counts first. */
  predicate MoreFrequent(x: CapCount, y: CapCount)
  {
    x.count > y.count
  }

  lemma MoreFrequentOrder()
    ensures StrictWeakOrder(MoreFrequent)
  {
  }

  /** The counts of the distinct capabilities, first-seen order, sorted stably by count. */
  function RankedCapabilities(f: seq<Card>): seq<CapCount>
  {
    var pooled := Pooled(f);
    SortBy(Tally(Distinct(pooled), pooled), MoreFrequent)
  }

  /** Every ranked entry is a distinct pooled capability with its true count, and the
      entries come in non-increasing count order. */
  lemma RankedCapabilitiesFacts(f: seq<Card>)
    ensures var ranked := RankedCapabilities(f);
      && SortedBy(ranked, MoreFrequent)
      && (forall e :: e in ranked ==> e.capability in Pooled(f) && e.count == multiset(Pooled(f))[e.capability])
      && (forall v :: v in Pooled(f) ==> CapCount(v, multiset(Pooled(f))[v]) in ranked)
      && NoDups(ranked)
  {
    var pooled := Pooled(f);
    var keys := Distinct(pooled);
    var tally := Tally(keys, pooled);
    var ranked := RankedCapabilities(f);
    MoreFrequentOrder();
    SortBySorted(tally, MoreFrequent);
    forall e | e in ranked ensures e in tally {
      assert e in multiset(ranked);
    }
    forall v | v in pooled ensures CapCount(v, multiset(pooled)[v]) in ranked {
      var i :| 0 <= i < |keys| && keys[i] == v;
      assert tally[i] == CapCount(v, multiset(pooled)[v]);
      assert tally[i] in multiset(tally);
    }
    assert NoDups(tally);
    NoDupsPermutation(ranked, tally);
  }

  /** `value_counts().head(15)`: at most fifteen distinct capabilities in non-increasing
      count order, each with its occurrences in `a_cap` plus its occurrences in `b_cap`. */
  function TopCapabilities(f: seq<Card>): (top: seq<CapCount>)
    ensures |top| <= TopCapabilityCount
    ensures forall i, j :: 0 <= i < j < |top| ==> top[i].count >= top[j].count
    ensures forall e :: e in top ==>
      e.count == multiset(ACaps(f))[e.capability] + multiset(BCaps(f))[e.capability] && e.count > 0
    ensures forall i, j :: 0 <= i < j < |top| ==> top[i].capability != top[j].capability
  {
    var ranked := RankedCapabilities(f);
    RankedCapabilitiesFacts(f);
    var n := if |ranked| < TopCapabilityCount then |ranked| else TopCapabilityCount;
    ranked[..n]
  }

  /** The list really is the top: a capability that occurs but is not listed means the list
      is full and the capability occurs no more often than any listed one. */
  lemma TopCapabilitiesAreTop(f: seq<Card>, v: string)
    requires v in Pooled(f)
    requires forall e :: e in TopCapabilities(f) ==> e.capability != v
    ensures |TopCapabilities(f)| == TopCapabilityCount
    ensures forall e :: e in TopCapabilities(f) ==> multiset(Pooled(f))[v] <= e.count
  {
    var ranked := RankedCapabilities(f);
    var top := TopCapabilities(f);
    RankedCapabilitiesFacts(f);
    var entry := CapCount(v, multiset(Pooled(f))[v]);
    var k :| 0 <= k < |ranked| && ranked[k] == entry;
    assert top == ranked[..|top|];
    assert k >= |top|;
    forall e | e in top ensures multiset(Pooled(f))[v] <= e.count {
      var i :| 0 <= i < |top| && top[i] == e;
      assert !MoreFrequent(ranked[k], ranked[i]);
    }
  }
}
