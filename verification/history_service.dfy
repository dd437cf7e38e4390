/** The recommendation history (`src/services/historyService.ts`) over an
    abstract list of stored recommendations. Fresh ids and timestamps are
    parameters. */
module HistoryService {
  import opened Wrappers
  import opened Models
  import Sorting

  /** `saveRecommendation` with `id` and `now` for the generated id and
      clock: one record appended, copying every engine-result field. */
  function SaveRecommendation(store: seq<Recommendation>, id: string, now: string, portfolioId: string,
                              result: EngineResult): (r: (seq<Recommendation>, Recommendation))
    ensures r.0 == store + [r.1]
    ensures r.1.id == id && r.1.portfolioId == portfolioId && r.1.createdAt == now
    ensures ToEngineResult(r.1) == result
  {
    var rec := Recommendation(id, portfolioId, result.strategy, result.action, result.amount, result.allocation,
      result.confidence, result.recessionProbability, result.explanationSummary, result.triggeredRules,
      result.invalidatedIf, now);
    (store + [rec], rec)
  }

  /** The engine result a stored recommendation records. */
  function ToEngineResult(rec: Recommendation): EngineResult {
    EngineResult(rec.strategy, rec.action, rec.amount, rec.allocation, rec.confidence, rec.invalidatedIf,
      rec.explanationSummary, rec.triggeredRules, rec.recessionProbability)
  }

  /** The records of one portfolio, in stored order. */
  function OfPortfolio(store: seq<Recommendation>, portfolioId: string): (r: seq<Recommendation>)
    ensures forall x :: x in r ==> x.portfolioId == portfolioId
    ensures forall x :: x in store && x.portfolioId == portfolioId ==> x in r
    ensures forall x :: x in r ==> x in store
    ensures |r| <= |store|
  {
    if store == [] then []
    else (if store[0].portfolioId == portfolioId then [store[0]] else []) + OfPortfolio(store[1..], portfolioId)
  }

  function CreatedAtKey(rec: Recommendation): Sorting.Key {
    Sorting.StrKey(rec.createdAt)
  }

  /** `getRecommendations`: the portfolio's records, newest first. */
  function GetRecommendations(store: seq<Recommendation>, portfolioId: string): (r: seq<Recommendation>)
    ensures forall x :: x in r ==> x.portfolioId == portfolioId && x in store
    ensures forall x :: x in store && x.portfolioId == portfolioId ==> x in r
    ensures multiset(r) == multiset(OfPortfolio(store, portfolioId))
    ensures forall i, j :: 0 <= i < j < |r| ==> Sorting.StrLe(r[j].createdAt, r[i].createdAt)
  {
    var filtered := OfPortfolio(store, portfolioId);
    var r := Sorting.Sort(filtered, CreatedAtKey, Sorting.Desc);
    assert forall x :: x in r <==> x in filtered by {
      forall x ensures x in r <==> x in filtered {
        assert x in r <==> x in multiset(r);
        assert x in filtered <==> x in multiset(filtered);
      }
    }
    assert forall i, j :: 0 <= i < j < |r| ==> Sorting.InOrder(CreatedAtKey(r[i]), CreatedAtKey(r[j]), Sorting.Desc);
    r
  }

  /** `getRecommendation`: the first record with that id, if any. */
  function GetRecommendation(store: seq<Recommendation>, id: string): (r: Option<Recommendation>)
    ensures r.None? <==> forall x :: x in store ==> x.id != id
    ensures r.Some? ==> exists i :: 0 <= i < |store| && store[i] == r.value && r.value.id == id &&
                                    forall j :: 0 <= j < i ==> store[j].id != id
  {
    if store == [] then None
    else if store[0].id == id then Some(store[0])
    else
      var rest := GetRecommendation(store[1..], id);
      assert rest.Some? ==> exists i :: 1 <= i < |store| && store[i] == rest.value && forall j :: 0 <= j < i ==> store[j].id != id by {
        if rest.Some? {
          var k :| 0 <= k < |store[1..]| && store[1..][k] == rest.value && rest.value.id == id &&
                   forall j :: 0 <= j < k ==> store[1..][j].id != id;
          assert store[k + 1] == rest.value;
          assert forall j :: 0 <= j < k + 1 ==> store[j].id != id by {
            forall j | 0 <= j < k + 1 ensures store[j].id != id {
              if j > 0 { assert store[j] == store[1..][j - 1]; }
            }
          }
        }
      }
      rest
  }

  // ----- lemmas -----

  /** A saved recommendation is listed for its portfolio, and every record
      listed before is still listed. */
  lemma SaveThenList(store: seq<Recommendation>, id: string, now: string, portfolioId: string, result: EngineResult)
    ensures
      var (s, rec) := SaveRecommendation(store, id, now, portfolioId, result);
      && rec in GetRecommendations(s, portfolioId)
      && |GetRecommendations(s, portfolioId)| == |GetRecommendations(store, portfolioId)| + 1
      && forall x :: x in GetRecommendations(store, portfolioId) ==> x in GetRecommendations(s, portfolioId)
  {
    var (s, rec) := SaveRecommendation(store, id, now, portfolioId, result);
    assert rec in s;
    OfPortfolioAppend(store, rec, portfolioId);
  }

  /** Filtering distributes over appending one record. */
  lemma {:induction false} OfPortfolioAppend(store: seq<Recommendation>, rec: Recommendation, portfolioId: string)
    ensures OfPortfolio(store + [rec], portfolioId)
      == OfPortfolio(store, portfolioId) + (if rec.portfolioId == portfolioId then [rec] else [])
  {
    if store != [] {
      assert (store + [rec])[1..] == store[1..] + [rec];
      OfPortfolioAppend(store[1..], rec, portfolioId);
    } else {
      assert OfPortfolio([rec], portfolioId) == (if rec.portfolioId == portfolioId then [rec] else []) + OfPortfolio([], portfolioId);
    }
  }

  /** Saving for one portfolio does not change another's list. */
  lemma SaveKeepsOtherPortfolios(store: seq<Recommendation>, id: string, now: string, portfolioId: string,
                                 result: EngineResult, other: string)
    requires other != portfolioId
    ensures GetRecommendations(SaveRecommendation(store, id, now, portfolioId, result).0, other)
      == GetRecommendations(store, other)
  {
    var saved := SaveRecommendation(store, id, now, portfolioId, result);
    OfPortfolioAppend(store, saved.1, other);
    assert OfPortfolio(saved.0, other) == OfPortfolio(store, other);
  }

  /** A recommendation saved under a fresh id is found again by that id. */
  lemma SaveThenGet(store: seq<Recommendation>, id: string, now: string, portfolioId: string, result: EngineResult)
    requires forall x :: x in store ==> x.id != id
    ensures
      var (s, rec) := SaveRecommendation(store, id, now, portfolioId, result);
      GetRecommendation(s, id) == Some(rec)
  {
    var (s, rec) := SaveRecommendation(store, id, now, portfolioId, result);
    assert rec in s;
  }
}
