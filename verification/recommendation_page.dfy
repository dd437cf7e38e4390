/** The two list helpers of the recommendation page
    (`src/pages/RecommendationPage.tsx`): reading the tickers of a
    "+"-separated decision basket, and flattening the engine's shortlist. */
module RecommendationPage {
  import opened Wrappers
  import Text
  import StockPicker

  /** A ticker as the page shows it: trimmed and upper-cased. */
  predicate IsCleanTicker(t: string) {
    t != "" && Text.Trim(t) == t && Text.Upper(t) == t
  }

  /** One piece of the basket, trimmed and upper-cased. */
  function CleanPiece(piece: string): string {
    Text.Upper(Text.Trim(piece))
  }

  /** A cleaned piece is empty or a clean ticker. */
  lemma CleanPieceIsClean(piece: string)
    ensures CleanPiece(piece) == "" || IsCleanTicker(CleanPiece(piece))
  {
    var trimmed := Text.Trim(piece);
    Text.TrimIdempotent(piece);
    Text.UpperKeepsTrimmed(trimmed);
    Text.UpperIdempotent(trimmed);
  }

  /** The cleaned pieces that are not empty, in order. */
  function CleanPieces(pieces: seq<string>): (r: seq<string>)
    ensures |r| <= |pieces|
  {
    if pieces == [] then []
    else
      var t := CleanPiece(pieces[0]);
      (if t != "" then [t] else []) + CleanPieces(pieces[1..])
  }

  /** A ticker is kept exactly when it is the non-empty cleaning of some
      piece. */
  lemma {:induction false} CleanPiecesMembers(pieces: seq<string>)
    ensures forall t :: t in CleanPieces(pieces) <==> t != "" && exists p :: p in pieces && CleanPiece(p) == t
  {
    if pieces != [] {
      var t := CleanPiece(pieces[0]);
      var rest := CleanPieces(pieces[1..]);
      CleanPiecesMembers(pieces[1..]);
      assert CleanPieces(pieces) == (if t != "" then [t] else []) + rest;
      assert forall p :: p in pieces <==> p == pieces[0] || p in pieces[1..];
    }
  }

  /** Cleaning works piece by piece, so the order is kept. */
  lemma {:induction false} CleanPiecesDistributes(a: seq<string>, b: seq<string>)
    ensures CleanPieces(a + b) == CleanPieces(a) + CleanPieces(b)
  {
    if a == [] {
      assert a + b == b;
    } else {
      var head := if CleanPiece(a[0]) != "" then [CleanPiece(a[0])] else [];
      assert CleanPieces(a + b) == head + CleanPieces(a[1..] + b) by {
        assert (a + b)[0] == a[0];
        assert (a + b)[1..] == a[1..] + b;
      }
      CleanPiecesDistributes(a[1..], b);
      assert head + (CleanPieces(a[1..]) + CleanPieces(b)) == (head + CleanPieces(a[1..])) + CleanPieces(b);
    }
  }

  /** `parseDecisionTickers`: no decision, or an empty one, has no tickers;
      otherwise the non-empty "+"-separated pieces, trimmed and upper-cased,
      in order; at most one more than there are "+" signs. */
  function ParseDecisionTickers(decision: Option<string>): (r: seq<string>)
    ensures decision.None? || decision.value == "" ==> r == []
    ensures forall t :: t in r ==> IsCleanTicker(t)
    ensures decision.Some? ==> |r| <= Text.CountChar(decision.value, '+') + 1
    ensures decision.Some? ==>
      forall t :: t in r <==> t != "" && exists p :: p in Text.Split(decision.value, '+') && CleanPiece(p) == t
  {
    if decision.None? || decision.value == "" then []
    else
      var pieces := Text.Split(decision.value, '+');
      Text.SplitCount(decision.value, '+');
      CleanPiecesAreClean(pieces);
      CleanPiecesMembers(pieces);
      CleanPieces(pieces)
  }

  /** Every kept piece is a clean ticker. */
  lemma {:induction false} CleanPiecesAreClean(pieces: seq<string>)
    ensures forall t :: t in CleanPieces(pieces) ==> IsCleanTicker(t)
  {
    if pieces != [] {
      CleanPieceIsClean(pieces[0]);
      CleanPiecesAreClean(pieces[1..]);
    }
  }

  /** Clean tickers are left as they are. */
  lemma {:induction false} CleanPiecesOfClean(ts: seq<string>)
    requires forall i :: 0 <= i < |ts| ==> IsCleanTicker(ts[i])
    ensures CleanPieces(ts) == ts
  {
    if ts != [] {
      assert CleanPieces(ts) == [ts[0]] + CleanPieces(ts[1..]) by {
        CleanPieceOfClean(ts[0]);
        CleanPiecesKeepsFirst(ts);
      }
      assert CleanPieces(ts[1..]) == ts[1..] by {
        CleanTail(ts);
        CleanPiecesOfClean(ts[1..]);
      }
      assert [ts[0]] + ts[1..] == ts;
    }
  }

  lemma CleanTail(ts: seq<string>)
    requires ts != [] && forall i :: 0 <= i < |ts| ==> IsCleanTicker(ts[i])
    ensures forall i :: 0 <= i < |ts[1..]| ==> IsCleanTicker(ts[1..][i])
  {
    forall i | 0 <= i < |ts[1..]| ensures IsCleanTicker(ts[1..][i]) {
      assert ts[1..][i] == ts[i + 1];
    }
  }

  /** A clean first piece is kept as it is. */
  lemma CleanPiecesKeepsFirst(ts: seq<string>)
    requires ts != [] && ts[0] != "" && CleanPiece(ts[0]) == ts[0]
    ensures CleanPieces(ts) == [ts[0]] + CleanPieces(ts[1..])
  {
  }

  lemma CleanPieceOfClean(t: string)
    requires IsCleanTicker(t)
    ensures CleanPiece(t) == t
  {
    assert Text.Trim(t) == t;
    assert Text.Upper(Text.Trim(t)) == t;
  }

  /** A basket written as clean tickers joined by "+" reads back as those
      tickers. */
  lemma DecisionRoundTrip(ts: seq<string>)
    requires |ts| >= 1
    requires forall t :: t in ts ==> IsCleanTicker(t) && '+' !in t
    ensures ParseDecisionTickers(Some(Text.Join(ts, "+"))) == ts
  {
    var s := Text.Join(ts, "+");
    assert forall k :: 0 <= k < |ts| ==> '+' !in ts[k] && IsCleanTicker(ts[k]) by {
      forall k | 0 <= k < |ts| ensures '+' !in ts[k] && IsCleanTicker(ts[k]) { assert ts[k] in ts; }
    }
    assert s != "" by {
      assert ts[0] != "";
      JoinStartsWith(ts, "+");
    }
    assert Text.Split(s, '+') == ts by {
      Text.SplitJoin(ts, '+');
    }
    assert CleanPieces(ts) == ts by {
      CleanPiecesOfClean(ts);
    }
    ParseNonEmpty(s);
  }

  /** Two baskets joined by "+" read as the tickers of the first, then those
      of the second. */
  lemma DecisionConcat(x: string, y: string)
    requires x != "" && y != ""
    ensures ParseDecisionTickers(Some(x + "+" + y)) == ParseDecisionTickers(Some(x)) + ParseDecisionTickers(Some(y))
  {
    Text.SplitConcat(x, y, '+');
    CleanPiecesDistributes(Text.Split(x, '+'), Text.Split(y, '+'));
    ParseNonEmpty(x);
    ParseNonEmpty(y);
    ParseNonEmpty(x + "+" + y);
  }

  /** A non-empty decision reads as the cleaned pieces of its split. */
  lemma ParseNonEmpty(s: string)
    requires s != ""
    ensures ParseDecisionTickers(Some(s)) == CleanPieces(Text.Split(s, '+'))
  {
  }

  /** A join starts with its first part. */
  lemma JoinStartsWith(parts: seq<string>, sep: string)
    requires |parts| >= 1
    ensures |Text.Join(parts, sep)| >= |parts[0]|
  {
  }

  /** `flattenShortlist`: every bucket's suggestions, bucket by bucket. */
  function FlattenShortlist(shortlist: seq<StockPicker.ShortlistBucket>): (r: seq<StockPicker.SuggestedStock>)
    ensures |r| == TotalSuggested(shortlist)
    ensures forall s :: s in r <==> exists b :: b in shortlist && s in b.suggestedStocks
  {
    if shortlist == [] then []
    else
      var rest := FlattenShortlist(shortlist[1..]);
      assert forall b :: b in shortlist[1..] ==> b in shortlist;
      assert forall b :: b in shortlist ==> b == shortlist[0] || b in shortlist[1..];
      shortlist[0].suggestedStocks + rest
  }

  /** The number of suggestions over all buckets. */
  function TotalSuggested(shortlist: seq<StockPicker.ShortlistBucket>): nat {
    if shortlist == [] then 0 else |shortlist[0].suggestedStocks| + TotalSuggested(shortlist[1..])
  }

  /** Flattening works bucket by bucket, so the order is kept. */
  lemma {:induction false} FlattenDistributes(a: seq<StockPicker.ShortlistBucket>, b: seq<StockPicker.ShortlistBucket>)
    ensures FlattenShortlist(a + b) == FlattenShortlist(a) + FlattenShortlist(b)
  {
    if a == [] {
      assert a + b == b;
    } else {
      assert (a + b)[1..] == a[1..] + b;
      FlattenDistributes(a[1..], b);
      assert (a + b)[0] == a[0];
    }
  }
}
