/** The holdings table (`src/components/HoldingsTable.tsx`): the ticker
    search, the column sort, and the header-click state machine that picks
    the sort column and direction. */
module HoldingsTable {
  import opened Wrappers
  import Text
  import Sorting

  /** `HoldingData`: a position with its id and derived figures. */
  datatype Holding = Holding(
    id: string,
    ticker: string,
    quantity: real,
    avgCost: Option<real>,
    currentPrice: real,
    marketValue: real,
    portfolioShare: real,
    profitLoss: real)

  /** The columns whose header sorts the table. */
  datatype SortField = Ticker | Quantity | AvgCost | CurrentPrice | MarketValue | PortfolioShare | ProfitLoss

  datatype SortState = SortState(field: SortField, order: Sorting.Order)

  /** The table opens sorted by market value, largest first. */
  const InitialSortState: SortState := SortState(MarketValue, Sorting.Desc)

  function Flip(o: Sorting.Order): Sorting.Order {
    if o == Sorting.Asc then Sorting.Desc else Sorting.Asc
  }

  /** `handleSort`: clicking the current column flips the direction;
      clicking another column sorts by it, largest first. */
  function HandleSort(state: SortState, field: SortField): (r: SortState)
    ensures r.field == field
    ensures field == state.field ==> r.order != state.order
    ensures field != state.field ==> r.order == Sorting.Desc
  {
    if field == state.field then SortState(field, Flip(state.order)) else SortState(field, Sorting.Desc)
  }

  /** Two clicks on the current column restore the state. */
  lemma SortToggleTwice(state: SortState)
    ensures HandleSort(HandleSort(state, state.field), state.field) == state
  {
  }

  /** Whatever the state, clicking a column and then the same column again
      leaves that column sorted smallest first. */
  lemma ClickTwiceNewColumn(state: SortState, field: SortField)
    requires field != state.field
    ensures HandleSort(HandleSort(state, field), field) == SortState(field, Sorting.Asc)
  {
  }

  /** The search matches a holding whose lower-cased ticker contains the
      lower-cased term. */
  predicate Matches(h: Holding, term: string) {
    Text.Contains(Text.Lower(h.ticker), Text.Lower(term))
  }

  /** The search filter, in the original order. */
  function FilterByTicker(holdings: seq<Holding>, term: string): (r: seq<Holding>)
    ensures forall h :: h in r ==> h in holdings && Matches(h, term)
    ensures forall h :: h in holdings && Matches(h, term) ==> h in r
    ensures |r| <= |holdings|
  {
    if holdings == [] then []
    else (if Matches(holdings[0], term) then [holdings[0]] else []) + FilterByTicker(holdings[1..], term)
  }

  /** An empty search keeps every holding, in order. */
  lemma {:induction false} EmptySearchKeepsAll(holdings: seq<Holding>)
    ensures FilterByTicker(holdings, "") == holdings
  {
    if holdings != [] {
      assert Text.OccursAt(Text.Lower(holdings[0].ticker), Text.Lower(""), 0);
      EmptySearchKeepsAll(holdings[1..]);
    }
  }

  /** The sort key of a column: the ticker as text, any other column as a
      number with a missing cost counting as 0. */
  function SortKey(h: Holding, field: SortField): (k: Sorting.Key)
    ensures field == Ticker <==> k.StrKey?
  {
    match field
    case Ticker => Sorting.StrKey(h.ticker)
    case Quantity => Sorting.NumKey(h.quantity)
    case AvgCost => Sorting.NumKey(h.avgCost.GetOr(0.0))
    case CurrentPrice => Sorting.NumKey(h.currentPrice)
    case MarketValue => Sorting.NumKey(h.marketValue)
    case PortfolioShare => Sorting.NumKey(h.portfolioShare)
    case ProfitLoss => Sorting.NumKey(h.profitLoss)
  }

  /** `filteredAndSorted`: the matching holdings, sorted by the state's
      column in its direction. */
  function FilteredAndSorted(holdings: seq<Holding>, term: string, state: SortState): (r: seq<Holding>)
    ensures multiset(r) == multiset(FilterByTicker(holdings, term))
    ensures |r| == |FilterByTicker(holdings, term)|
    ensures forall i, j :: 0 <= i < j < |r| ==> Sorting.InOrder(SortKey(r[i], state.field), SortKey(r[j], state.field), state.order)
  {
    Sorting.Sort(FilterByTicker(holdings, term), h => SortKey(h, state.field), state.order)
  }

  /** Every displayed holding matches the search, and every matching
      holding is displayed. */
  lemma DisplayedAreMatches(holdings: seq<Holding>, term: string, state: SortState)
    ensures forall h :: h in FilteredAndSorted(holdings, term, state) <==> h in holdings && Matches(h, term)
  {
    var f := FilterByTicker(holdings, term);
    var r := FilteredAndSorted(holdings, term, state);
    forall h ensures h in r <==> h in f {
      assert h in r <==> h in multiset(r);
      assert h in f <==> h in multiset(f);
    }
  }

  /** The number a numeric column shows, a missing cost counting as 0. */
  function NumericValue(h: Holding, field: SortField): real
    requires field != Ticker
  {
    SortKey(h, field).n
  }

  /** Numeric columns come out non-decreasing when ascending and
      non-increasing when descending. */
  lemma NumericColumnOrdered(holdings: seq<Holding>, term: string, state: SortState)
    requires state.field != Ticker
    ensures
      var r := FilteredAndSorted(holdings, term, state);
      forall i, j :: 0 <= i < j < |r| ==>
        if state.order == Sorting.Asc then NumericValue(r[i], state.field) <= NumericValue(r[j], state.field)
        else NumericValue(r[i], state.field) >= NumericValue(r[j], state.field)
  {
  }

  /** The ticker column comes out in lexicographic order of the tickers. */
  lemma TickerColumnOrdered(holdings: seq<Holding>, term: string, order: Sorting.Order)
    ensures
      var r := FilteredAndSorted(holdings, term, SortState(Ticker, order));
      forall i, j :: 0 <= i < j < |r| ==>
        if order == Sorting.Asc then Sorting.StrLe(r[i].ticker, r[j].ticker) else Sorting.StrLe(r[j].ticker, r[i].ticker)
  {
  }
}
