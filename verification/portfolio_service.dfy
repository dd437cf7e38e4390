/** The portfolio repository (`src/services/portfolioService.ts`) over an
    abstract store: the list of portfolios and the positions map of local
    storage, and the current portfolio id of session storage. Fresh ids and
    timestamps are parameters. */
module PortfolioService {
  import opened Wrappers
  import opened Models

  datatype Store = Store(
    portfolios: seq<Portfolio>,
    positions: map<string, seq<Position>>,
    currentId: Option<string>)

  const NotFound: string := "Portfolio not found"

  /** `findIndex` by id: the first portfolio carrying `id`. */
  function FindIndex(portfolios: seq<Portfolio>, id: string): (r: Option<nat>)
    ensures r.None? <==> forall j :: 0 <= j < |portfolios| ==> portfolios[j].id != id
    ensures r.Some? ==> r.value < |portfolios| && portfolios[r.value].id == id
    ensures r.Some? ==> forall j :: 0 <= j < r.value ==> portfolios[j].id != id
  {
    if portfolios == [] then None
    else if portfolios[0].id == id then Some(0)
    else
      match FindIndex(portfolios[1..], id)
      case None => None
      case Some(k) => Some(k + 1)
  }

  /** `getPortfolio`: the first portfolio with that id, if any. */
  function GetPortfolio(store: Store, id: string): (r: Option<Portfolio>)
    ensures r.None? <==> forall p :: p in store.portfolios ==> p.id != id
    ensures r.Some? ==> r.value in store.portfolios && r.value.id == id
    ensures r.Some? ==> exists i :: 0 <= i < |store.portfolios| && store.portfolios[i] == r.value &&
                                    forall j :: 0 <= j < i ==> store.portfolios[j].id != id
  {
    match FindIndex(store.portfolios, id)
    case None => None
    case Some(i) => Some(store.portfolios[i])
  }

  /** `getPositions`: the stored list, or none when nothing is stored. */
  function GetPositions(store: Store, portfolioId: string): (r: seq<Position>)
    ensures portfolioId in store.positions ==> r == store.positions[portfolioId]
    ensures portfolioId !in store.positions ==> r == []
  {
    if portfolioId in store.positions then store.positions[portfolioId] else []
  }

  /** `createPortfolio` with `id` and `now` for the generated id and clock. */
  function CreatePortfolio(store: Store, id: string, now: string, cashAmount: real, monthlyContribution: real,
                           riskTolerance: real, positions: seq<Position>): (r: (Store, Portfolio))
    ensures r.1.id == id && r.1.userId.None?
    ensures r.1.cashAmount == cashAmount && r.1.monthlyContribution == monthlyContribution && r.1.riskTolerance == riskTolerance
    ensures r.1.createdAt == r.1.updatedAt == now
    ensures |r.0.portfolios| == |store.portfolios| + 1
    ensures r.0.portfolios[..|store.portfolios|] == store.portfolios && r.0.portfolios[|store.portfolios|] == r.1
    ensures id in r.0.positions && r.0.positions[id] == positions
    ensures forall k :: k != id ==> (k in r.0.positions <==> k in store.positions)
    ensures forall k :: k != id && k in store.positions ==> r.0.positions[k] == store.positions[k]
    ensures r.0.currentId == Some(id)
  {
    var p := Portfolio(id, None, cashAmount, monthlyContribution, riskTolerance, now, now);
    (Store(store.portfolios + [p], store.positions[id := positions], Some(id)), p)
  }

  /** The fields `updatePortfolio` accepts; absent ones are `None`. */
  datatype Updates = Updates(
    cashAmount: Option<real>,
    monthlyContribution: Option<real>,
    riskTolerance: Option<real>,
    positions: Option<seq<Position>>)

  /** `updatePortfolio` with `now` for the clock: unknown ids fail and
      change nothing; supplied fields replace the stored ones (`??`, so an
      explicit 0 counts as supplied); supplied positions, even none,
      replace the stored list. */
  function UpdatePortfolio(store: Store, id: string, updates: Updates, now: string): (r: Result<(Store, Portfolio), string>)
    ensures r.Failure? <==> forall p :: p in store.portfolios ==> p.id != id
    ensures r.Failure? ==> r.error == NotFound
    ensures r.Success? ==>
      var (s, p) := r.value;
      var old_ := GetPortfolio(store, id).value;
      && p.id == id && p.userId == old_.userId && p.createdAt == old_.createdAt && p.updatedAt == now
      && p.cashAmount == updates.cashAmount.GetOr(old_.cashAmount)
      && p.monthlyContribution == updates.monthlyContribution.GetOr(old_.monthlyContribution)
      && p.riskTolerance == updates.riskTolerance.GetOr(old_.riskTolerance)
      && |s.portfolios| == |store.portfolios|
      && s.currentId == store.currentId
      && (updates.positions.None? ==> s.positions == store.positions)
      && (updates.positions.Some? ==> s.positions == store.positions[id := updates.positions.value])
  {
    match FindIndex(store.portfolios, id)
    case None => Failure(NotFound)
    case Some(i) =>
      var current := store.portfolios[i];
      var p := current.(
        cashAmount := updates.cashAmount.GetOr(current.cashAmount),
        monthlyContribution := updates.monthlyContribution.GetOr(current.monthlyContribution),
        riskTolerance := updates.riskTolerance.GetOr(current.riskTolerance),
        updatedAt := now);
      var positions := if updates.positions.Some? then store.positions[id := updates.positions.value] else store.positions;
      Success((Store(store.portfolios[i := p], positions, store.currentId), p))
  }

  /** `getPortfolioSnapshot`: the money fields of the portfolio and its
      stored positions; unknown ids fail. */
  function GetPortfolioSnapshot(store: Store, portfolioId: string): (r: Result<PortfolioSnapshot, string>)
    ensures r.Failure? <==> GetPortfolio(store, portfolioId).None?
    ensures r.Failure? ==> r.error == NotFound
    ensures r.Success? ==>
      var p := GetPortfolio(store, portfolioId).value;
      r.value == PortfolioSnapshot(p.cashAmount, p.monthlyContribution, p.riskTolerance, GetPositions(store, portfolioId))
  {
    match GetPortfolio(store, portfolioId)
    case None => Failure(NotFound)
    case Some(p) => Success(PortfolioSnapshot(p.cashAmount, p.monthlyContribution, p.riskTolerance, GetPositions(store, portfolioId)))
  }

  // ----- lemmas -----

  /** A portfolio created under a fresh id is found again, with its
      positions, and is the current portfolio. */
  lemma CreateThenGet(store: Store, id: string, now: string, cash: real, monthly: real, risk: real, positions: seq<Position>)
    requires forall p :: p in store.portfolios ==> p.id != id
    ensures
      var (s, p) := CreatePortfolio(store, id, now, cash, monthly, risk, positions);
      GetPortfolio(s, id) == Some(p) && GetPositions(s, id) == positions && s.currentId == Some(id)
  {
    var (s, p) := CreatePortfolio(store, id, now, cash, monthly, risk, positions);
    assert s.portfolios == store.portfolios + [p];
    assert p in s.portfolios;
    var i := |store.portfolios|;
    assert s.portfolios[i] == p;
  }

  /** Creating a portfolio leaves every other id's portfolio and positions
      as they were. */
  lemma CreateKeepsOthers(store: Store, id: string, now: string, cash: real, monthly: real, risk: real,
                          positions: seq<Position>, other: string)
    requires other != id
    ensures
      var s := CreatePortfolio(store, id, now, cash, monthly, risk, positions).0;
      GetPortfolio(s, other) == GetPortfolio(store, other) && GetPositions(s, other) == GetPositions(store, other)
  {
    var s := CreatePortfolio(store, id, now, cash, monthly, risk, positions).0;
    assert s.portfolios == store.portfolios + [s.portfolios[|store.portfolios|]];
    FindIndexAppend(store.portfolios, s.portfolios[|store.portfolios|], other);
  }

  /** Appending a portfolio with another id does not change a lookup. */
  lemma {:induction false} FindIndexAppend(portfolios: seq<Portfolio>, p: Portfolio, id: string)
    requires p.id != id
    ensures FindIndex(portfolios + [p], id) == FindIndex(portfolios, id)
  {
    if portfolios != [] {
      assert (portfolios + [p])[1..] == portfolios[1..] + [p];
      FindIndexAppend(portfolios[1..], p, id);
    }
  }

  /** The snapshot of a freshly created portfolio gives back what was
      stored. */
  lemma CreateThenSnapshot(store: Store, id: string, now: string, cash: real, monthly: real, risk: real, positions: seq<Position>)
    requires forall p :: p in store.portfolios ==> p.id != id
    ensures GetPortfolioSnapshot(CreatePortfolio(store, id, now, cash, monthly, risk, positions).0, id)
      == Success(PortfolioSnapshot(cash, monthly, risk, positions))
  {
    CreateThenGet(store, id, now, cash, monthly, risk, positions);
  }

  /** After an update the portfolio is found with the updated fields, and
      every other slot of the list is untouched. */
  lemma UpdateThenGet(store: Store, id: string, updates: Updates, now: string)
    requires UpdatePortfolio(store, id, updates, now).Success?
    ensures
      var (s, p) := UpdatePortfolio(store, id, updates, now).value;
      && GetPortfolio(s, id) == Some(p)
      && forall j :: 0 <= j < |s.portfolios| && s.portfolios[j].id != id ==> s.portfolios[j] == store.portfolios[j]
  {
    var i := FindIndex(store.portfolios, id).value;
    var (s, p) := UpdatePortfolio(store, id, updates, now).value;
    assert s.portfolios == store.portfolios[i := p];
    assert FindIndex(s.portfolios, id) == Some(i) by {
      FindIndexUpdate(store.portfolios, i, p, id);
    }
  }

  /** Replacing the first match by a portfolio with the same id keeps it
      the first match. */
  lemma {:induction false} FindIndexUpdate(portfolios: seq<Portfolio>, i: nat, p: Portfolio, id: string)
    requires FindIndex(portfolios, id) == Some(i) && p.id == id
    ensures FindIndex(portfolios[i := p], id) == Some(i)
  {
    if i > 0 {
      assert portfolios[i := p][1..] == portfolios[1..][i - 1 := p];
      FindIndexUpdate(portfolios[1..], i - 1, p, id);
    }
  }

  /** An update that supplies nothing changes only the timestamp. */
  lemma EmptyUpdateTouchesOnlyTimestamp(store: Store, id: string, now: string)
    requires UpdatePortfolio(store, id, Updates(None, None, None, None), now).Success?
    ensures
      var (s, p) := UpdatePortfolio(store, id, Updates(None, None, None, None), now).value;
      p == GetPortfolio(store, id).value.(updatedAt := now) && s.positions == store.positions
  {
  }

  /** Updating twice with the same fields gives the same portfolio as
      updating once (at the later time). */
  lemma UpdateIdempotent(store: Store, id: string, updates: Updates, t1: string, t2: string)
    requires UpdatePortfolio(store, id, updates, t1).Success?
    ensures
      var once := UpdatePortfolio(store, id, updates, t1).value;
      var twice := UpdatePortfolio(once.0, id, updates, t2);
      twice.Success? && twice.value.1 == once.1.(updatedAt := t2) && twice.value.0.positions == once.0.positions
  {
    UpdateThenGet(store, id, updates, t1);
  }
}
