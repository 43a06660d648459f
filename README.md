# SwarmAgent dashboard pipeline — a Dafny model

SwarmAgent's Streamlit demo (`app.py`) shows "cards": pairwise relationships (synergy,
conflict, duplicate) between "tasks". Under the widgets sits a small pipeline, and this
project models it and proves its properties:

- **Loading cards** adds two derived columns: `cross_product` (the two tasks belong to
  different products) and `signals_count` (the number of non-empty `", "`-separated
  signal tokens). Module `Signals` models Python's `str.split(", ")` exactly. Module
  `Cards` derives the columns row by row in a loop.
- **The sidebar filter chain** narrows the cards one boolean mask at a time. The masks
  are type, product on either side, capability on either side (only when some capability
  is selected), cross-product only (only when ticked), and the score rule `pass_score`.
  Module `CardFilter` holds the chain as a method, proved equal to a one-pass
  specification, plus the per-type tab views.
- **`task_line`** summarises a task by id, with the goal cut to 80 characters. An unknown
  id comes back unchanged (module `Tasks`).
- **The Inbox** sorts the filtered cards by `type` ascending, then `score` descending with
  missing scores last, then `signals_count` descending, and keeps the first 100. Module
  `Inbox` models this with a generic stable insertion sort (module `StableSort`) over a
  proved strict weak order; Python's string order lives in module `Strings`.
- **The Overview** shows a zero-filled (`a_prod` × `type`) count grid and the fifteen
  most frequent capabilities over both sides of each card (module `Overview`).
- **The action log** gets one record per click. The record's `action` is the first word
  of the chosen radio option. The store is read whole, extended and rewritten. A failure
  leaves it unchanged (class `ActionLog.ActionLogStore`).

Tables are sequences of records. A `score` that is missing or is not an integer is
`None`. The click timestamp and whether the log file can be read and written are
parameters.

Widening a filter criterion only adds rows, with one exception. Going from the empty
capability selection (no capability filter, app.py:45) to a non-empty one removes rows.
So `CardFilter.WideningSelectionAddsCards` requires the narrower capability selection to
be non-empty whenever the wider one is. `CardFilter.EmptyCapabilitiesKeepMost` states the
empty-selection case.

## Model

| member | source | states |
|---|---|---|
| `Signals.Split` | app.py:14 | `split(", ")` always yields at least one piece, and the first piece is a prefix of the text |
| `Signals.JoinSplit` | app.py:14 | joining the pieces of a split with ", " gives back the original text |
| `Signals.SplitPiecesSeparatorFree` | app.py:14 | no piece produced by the split contains the separator |
| `Signals.SplitJoin` | app.py:14 | splitting a ", "-join of separator-free tokens gives back exactly those tokens |
| `Signals.SignalsCountOfJoin` | app.py:14 | `signals_count` of a cell written as joined tokens is the number of non-empty tokens |
| `Signals.SignalsCountBaseCases` | app.py:14 | a missing (fillna "") or empty cell counts 0, a non-empty single token counts 1 |
| `Cards.LoadCards` | app.py:13-14 | every loaded card keeps its stored fields, has `cross_product == (a_prod != b_prod)` and `signals_count == SignalsCount(signals)`, in row order |
| `CardFilter.ApplyFilters` | app.py:43-57 | the step-by-step chain (capability and cross masks applied only when selected) equals the one-pass AND of the five groups |
| `CardFilter.FilteredSelects` | app.py:43-57 | the result is an order-preserving subsequence of the input holding exactly the cards passing all groups, with their multiplicities |
| `CardFilter.FilteredCardsMatch` | app.py:43-48 | every kept card has a selected type and a selected product on one side, a selected capability on one side when any is selected, and is cross-product when that box is ticked |
| `CardFilter.NoProductsNoCards` | app.py:44 | the unguarded product mask: an empty product selection keeps no card |
| `CardFilter.CapabilityGroup` | app.py:45-46 | an empty capability selection applies no capability condition; a non-empty one keeps exactly the cards with `a_cap` or `b_cap` selected |
| `CardFilter.EmptyCapabilitiesKeepMost` | app.py:45-46 | the empty capability selection keeps a superset, in order, of what any capability selection keeps |
| `CardFilter.PassScoreRule` | app.py:50-57 | every synergy or duplicate card the filter keeps has an integer score at least `min_score` (a missing or unparseable score is never shown); a card of another type that meets the other four groups is kept at every threshold |
| `CardFilter.RaisingMinScoreNarrows` | app.py:50-57 | raising `min_score` yields a subsequence of the previous result |
| `CardFilter.WideningSelectionAddsCards` | app.py:43-57 | widening types, products, a non-empty capability selection, unticking cross-only or lowering the threshold yields a supersequence |
| `CardFilter.FilterIdempotent` | app.py:43-57 | filtering the filtered list with the same criteria changes nothing |
| `CardFilter.TabViewSelects` | app.py:109 | a tab view is an order-preserving subsequence holding exactly the filtered cards of its type |
| `CardFilter.TabViewsPartition` | app.py:107-123 | when every type is synergy, conflict or duplicate, the three tab views' sizes add up to the filtered count |
| `CardFilter.ProductAndScoreScenario` | app.py:43-57 | a synergy card X–Y with score 70 is kept under product X at threshold 50 and dropped at 80 |
| `Tasks.FindTask` | app.py:59-62 | the lookup finds a task with the id iff one exists in the table |
| `Tasks.Truncate` | app.py:63 | `s[:n]` is a prefix of `s` of length min(n, len) |
| `Tasks.TaskLine` | app.py:60-64 | an unknown id returns the id unchanged; a known one returns a line starting with the id and ending with the goal cut to at most 80 characters |
| `Tasks.KnownTaskLine` | app.py:60-64 | with unique ids, a task's line ends with exactly the first min(80, len(goal)) characters of its goal |
| `Strings.LexLessOrder` | app.py:74 | Python string order (by code point) is a strict weak order |
| `Inbox.CardLessOrder` | app.py:74 | the three-key Inbox order is a strict weak order whose ties are exactly equal (type, score, signals_count) |
| `StableSort.SortBySorted` | app.py:74 | the insertion sort's result is sorted under any strict weak order |
| `StableSort.SortByStable` | app.py:74 | the sort is stable: the elements of each key class keep their input order |
| `Inbox.InboxOrder` | app.py:74 | the Inbox holds min(100, n) cards drawn from the filtered list, sorted by the three keys |
| `Inbox.InboxColumns` | app.py:74 | `type` never decreases; within a type `score` never increases with missing last; within type and score `signals_count` never increases; every shown card is a filtered card |
| `Inbox.InboxStable` | app.py:74 | cards with equal keys appear in their filtered order: the shown ones of each key are a prefix of that key's filtered cards |
| `Inbox.InboxShowsFirst` | app.py:74 | no card cut by `head(100)` sorts strictly before a shown card |
| `Overview.SortedLabels` | app.py:130 | grid labels are the distinct values of the key column, without duplicates, in ascending order |
| `Overview.ProductTypeGrid` | app.py:130 | rows are the distinct `a_prod`s, columns the distinct types, and cell (p, t) counts the cards with `a_prod = p` and `type = t` (zero-filled) |
| `Overview.GridTotal` | app.py:130 | each grid row sums to its product's card count and the whole grid sums to the filtered count |
| `Overview.RankedCapabilitiesFacts` | app.py:134 | the ranked capability counts are sorted by count, hold every pooled capability once, each with its true count |
| `Overview.TopCapabilities` | app.py:134 | at most 15 distinct capabilities, counts non-increasing, each count = occurrences in `a_cap` + occurrences in `b_cap` (> 0) |
| `Overview.TopCapabilitiesAreTop` | app.py:134 | a capability that occurs but is not listed means the list is full and it occurs no more often than any listed one |
| `ActionLog.FirstWord` | app.py:92 | `split(" ")[0]` is the prefix before the first space, and it holds no space |
| `ActionLog.RecordedAction` | app.py:86-95 | the three radio options record `meet`, `adr` and `dismiss`; the other fields come from the card and the timestamp |
| `ActionLog.Appended` | app.py:97-101 | with no log the result is the one record; otherwise N+1 records, the first N unchanged and the last the new one |
| `ActionLog.ClicksAppendInOrder` | app.py:96-101 | after a run of successful clicks the log is the records it held, followed by one record per click in click order |
| `ActionLog.ActionLogStore.Append` | app.py:96-105 | on success the log becomes `Appended(old log, rec)` and existing records stay a prefix; on a read or write failure the outcome is the error and the log is unchanged |

## Left out

- Streamlit rendering: page setup, sidebar widgets, tabs, expanders, `st.json`/`st.dataframe`, success and error notices (app.py:7, 35-41, 66-138). These are UI; the model starts from the selected values and returns what is displayed.
- CSV reading and writing through pandas and the `@st.cache_data` memoisation (app.py:9-12, 98, 102). This is library I/O: tables are sequences of records and the log file is a field of `ActionLogStore`.
- The writable-directory probe with its `/tmp` fallback (app.py:20-31), and the replacement of the source CSVs by uploads (app.py:140-149). These are filesystem side effects.
- The timestamp `datetime.utcnow().isoformat()` (app.py:89) is a clock; `ts` is a parameter.
- Whether the log file can be read and written is a parameter of `Append`, not modelled I/O.
- pandas' numeric coercion of `score` (floats, NaN, `int(70.9) == 70`) is floating point: a score is `Option<int>`, `None` for missing or unparseable.
- A missing `goal`, `a_prod` or other text cell other than `signals` (pandas NaN) is not modelled: those fields are plain strings.
- The search box `query` (app.py:41) is read but never applied, so it has no behaviour.
- The lost-update race between concurrent sessions rewriting the log is concurrency.
- Cards.LoadCards: builds the loaded table as a new sequence row by row instead of adding columns to the DataFrame in place; the result is the same table.
- Tasks.FindTask: with a repeated task id pandas' `.loc` returns several rows and `task_line` formats them as Series; the model takes the first task with that id.
- Inbox.InboxOrder: pandas' multi-key `sort_values` is taken to be stable, as its lexsort-based implementation is.
- Overview.TopCapabilities: `value_counts` tie order is modelled as first-appearance order; pandas leaves it to its hash-table implementation.
- The full-task detail lookup `t.loc[row['a_id']]` (app.py:79) is rendering; `FindTask` returning None is the case where it would raise.
- Inbox.InboxOrder: the score order (numeric, descending, missing last) assumes pandas reads `score` as a numeric column. If any score cell is non-numeric text, the whole column is text and `sort_values` at app.py:74 compares scores as strings ("abc" before "9" before "70" before "100"); that text-column order is not modelled.
- Inbox.InboxOrder: when the masks at app.py:43-48 leave no card, `DataFrame.apply(pass_score, axis=1)` at app.py:57 on the empty frame returns an empty float Series rather than a boolean mask, so `f_cards[...]` keeps no columns and `sort_values(by=["type", ...])` at app.py:74 raises and aborts the page; the model shows an empty Inbox (and empty tabs and grid) instead.
- CardFilter.NoProductsNoCards: an empty product selection empties the table, which is exactly the empty-frame case above; the model states the empty result and does not model the page aborting that follows it.
