/** backend/services/deals_service.py: the best-deals engine. The two SQL queries are
    replaced by their result, a sequence of query groups, each a sequence of rows
    (an offer and the latest time a search of the group found it). */
module Deals {
  import opened Common
  import opened Seqs
  import opened Sorting
  import opened Models

  /** An offer of a query group with `max(Search.created_at)` over the group's searches. */
  datatype Row = Row(offer: Offer, searchDate: real)

  /** A scored offer of `scored_offers` / `all_candidates`. */
  datatype Candidate = Candidate(
    offer: Offer,
    metaScore: real,
    avgPrice: real,
    discountPercentage: real,
    searchDate: real)

  /** The response dictionary of one deal. */
  datatype Deal = Deal(
    id: int,
    title: string,
    lastPrice: real,
    currency: string,
    url: string,
    source: string,
    sourceOfferId: string,
    seller: Option<string>,
    imageUrl: Option<string>,
    rating: Option<real>,
    createdAt: real,
    metaScore: real,
    avgPrice: real,
    discountPercentage: real,
    searchDate: real)

  // ---------------------------------------------------------------- statistics

  function Sum(xs: seq<real>): real {
    if xs == [] then 0.0 else Sum(xs[..|xs| - 1]) + xs[|xs| - 1]
  }

  /** `statistics.mean` */
  function Mean(xs: seq<real>): real
    requires xs != []
  {
    Sum(xs) / |xs| as real
  }

  lemma {:induction false} SumBounds(xs: seq<real>, lo: real, hi: real)
    requires forall i :: 0 <= i < |xs| ==> lo <= xs[i] <= hi
    ensures |xs| as real * lo <= Sum(xs) <= |xs| as real * hi
  {
    if xs != [] {
      SumBounds(xs[..|xs| - 1], lo, hi);
    }
  }

  /** The mean lies between any lower and upper bound of the values. */
  lemma MeanBetween(xs: seq<real>, lo: real, hi: real)
    requires xs != []
    requires forall i :: 0 <= i < |xs| ==> lo <= xs[i] <= hi
    ensures lo <= Mean(xs) <= hi
  {
    SumBounds(xs, lo, hi);
    QuotientBetween(Sum(xs), |xs| as real, lo, hi);
  }

  lemma QuotientBetween(total: real, n: real, lo: real, hi: real)
    requires n > 0.0 && n * lo <= total <= n * hi
    ensures lo <= total / n <= hi
  {
    var q := total / n;
    assert q * n == total;
    assert (q - lo) * n >= 0.0;
    assert (hi - q) * n >= 0.0;
  }

  /** The spread used for scoring: `statistics.stdev` of the filtered prices when there
      are at least two of them, 0 otherwise. `stdev` stands for the library function. */
  function GroupStdDev(filtered: seq<real>, stdev: seq<real> -> real): (sd: real)
    ensures |filtered| <= 1 ==> sd == 0.0
    ensures |filtered| > 1 ==> sd == stdev(filtered)
  {
    if |filtered| > 1 then stdev(filtered) else 0.0
  }

  function Id(x: real): real {
    x
  }

  function AtLeast(t: real): real -> bool {
    x => x >= t
  }

  function AtMost(t: real): real -> bool {
    x => x <= t
  }

  /** The middle value of the sorted prices, or the mean of the two middle values. */
  function Median(prices: seq<real>): real
    requires prices != []
  {
    var s := SortBy(prices, Id, false);
    var m := |s| / 2;
    if |s| % 2 == 0 then (s[m - 1] + s[m]) / 2.0 else s[m]
  }

  /** In the sorted list, the upper half lies at or above the median and the lower half
      at or below it. */
  lemma MedianSplitsSorted(prices: seq<real>)
    requires prices != []
    ensures forall i :: |prices| / 2 <= i < |prices| ==> SortBy(prices, Id, false)[i] >= Median(prices)
    ensures forall i :: 0 <= i < |prices| - |prices| / 2 ==> SortBy(prices, Id, false)[i] <= Median(prices)
  {
    var s := SortBy(prices, Id, false);
    var m := |s| / 2;
    SortByIsSorted(prices, Id, false);
    forall i | m <= i < |s|
      ensures s[i] >= Median(prices)
    {
      assert Before(Id(s[m]), Id(s[i]), false) || i == m;
      if |s| % 2 == 0 {
        assert Before(Id(s[m - 1]), Id(s[m]), false);
      }
    }
    forall i | 0 <= i < |s| - m
      ensures s[i] <= Median(prices)
    {
      if |s| % 2 == 0 {
        assert Before(Id(s[i]), Id(s[m - 1]), false) || i == m - 1;
        assert Before(Id(s[m - 1]), Id(s[m]), false);
      } else {
        assert Before(Id(s[i]), Id(s[m]), false) || i == m;
      }
    }
  }

  /** How many prices pass `p` does not depend on their order. */
  lemma SortedCount(prices: seq<real>, p: real -> bool)
    ensures |Filter(SortBy(prices, Id, false), p)| == |Filter(prices, p)|
  {
    FilterCountPermutation(SortBy(prices, Id, false), prices, p);
  }

  /** The median splits the prices: at least half of them (rounded up) lie at or above
      it, and at least half of them lie at or below it. */
  lemma MedianHalves(prices: seq<real>)
    requires prices != []
    ensures 2 * |Filter(prices, AtLeast(Median(prices)))| >= |prices|
    ensures 2 * |Filter(prices, AtMost(Median(prices)))| >= |prices|
  {
    MedianUpperHalf(prices);
    MedianLowerHalf(prices);
  }

  lemma MedianUpperHalf(prices: seq<real>)
    requires prices != []
    ensures 2 * |Filter(prices, AtLeast(Median(prices)))| >= |prices|
  {
    var med := Median(prices);
    var s := SortBy(prices, Id, false);
    MedianSplitsSorted(prices);
    forall i | |s| / 2 <= i < |s|
      ensures AtLeast(med)(s[i])
    {
      assert s[i] >= Median(prices);
    }
    SuffixPasses(s, |s| / 2, AtLeast(med));
    SortedCount(prices, AtLeast(med));
  }

  lemma MedianLowerHalf(prices: seq<real>)
    requires prices != []
    ensures 2 * |Filter(prices, AtMost(Median(prices)))| >= |prices|
  {
    var med := Median(prices);
    var s := SortBy(prices, Id, false);
    MedianSplitsSorted(prices);
    forall i | 0 <= i < |s| - |s| / 2
      ensures AtMost(med)(s[i])
    {
      assert s[i] <= Median(prices);
    }
    PrefixPasses(s, |s| - |s| / 2, AtMost(med));
    SortedCount(prices, AtMost(med));
  }

  /** When the first k elements pass, at least k are kept. */
  lemma PrefixPasses(s: seq<real>, k: nat, p: real -> bool)
    requires k <= |s| && forall i :: 0 <= i < k ==> p(s[i])
    ensures |Filter(s, p)| >= k
  {
    assert s == s[..k] + s[k..];
    FilterConcat(s[..k], s[k..], p);
    FilterAll(s[..k], p);
  }

  /** When the elements from index k on pass, at least |s| - k are kept. */
  lemma SuffixPasses(s: seq<real>, k: nat, p: real -> bool)
    requires k <= |s| && forall i :: k <= i < |s| ==> p(s[i])
    ensures |Filter(s, p)| >= |s| - k
  {
    assert s == s[..k] + s[k..];
    FilterConcat(s[..k], s[k..], p);
    FilterAll(s[k..], p);
  }

  // ------------------------------------------------------------ outlier filter

  /** `remove_low_price_outliers`: with at least 5 prices and a median of at least 10,
      drop the prices below 35% of the median, unless that would drop more than half
      of them or leave fewer than 3. */
  function RemoveLowPriceOutliers(prices: seq<real>): (r: seq<real>)
    ensures |prices| < 5 ==> r == prices
    ensures |prices| >= 5 && Median(prices) < 10.0 ==> r == prices
    ensures r == prices || (|prices| >= 5 && r == Filter(prices, AtLeast(Median(prices) * 0.35)))
    ensures |prices| >= 5 ==> |r| >= 3
  {
    if |prices| < 5 then prices
    else
      var median := Median(prices);
      if median < 10.0 then prices
      else
        var threshold := median * 0.35;
        var filtered := Filter(prices, AtLeast(threshold));
        if (|filtered| as real) < (|prices| as real) * 0.5 then prices
        else if |filtered| < 3 then prices
        else filtered
  }

  /** When the median is at least 10 the two fall-backs can never fire: the result is
      exactly the in-order sublist of prices at or above 35% of the median, and it keeps
      at least 3 prices and at least half of them. */
  lemma OutlierFilterTakesEffect(prices: seq<real>)
    requires |prices| >= 5 && Median(prices) >= 10.0
    ensures RemoveLowPriceOutliers(prices) == Filter(prices, AtLeast(Median(prices) * 0.35))
    ensures 2 * |RemoveLowPriceOutliers(prices)| >= |prices|
    ensures |RemoveLowPriceOutliers(prices)| >= 3
  {
    var med := Median(prices);
    var f := Filter(prices, AtLeast(med * 0.35));
    MedianHalves(prices);
    assert forall x :: AtLeast(med)(x) ==> AtLeast(med * 0.35)(x);
    FilterCountMono(prices, AtLeast(med), AtLeast(med * 0.35));
    assert 2 * |f| >= |prices|;
    assert !((|f| as real) < (|prices| as real) * 0.5);
    assert |f| >= 3;
  }

  /** The filter only removes prices, keeping the order of the rest, and never empties
      a non-empty list. */
  lemma OutlierFilterIsSublist(prices: seq<real>)
    ensures IsSubsequence(RemoveLowPriceOutliers(prices), prices)
    ensures prices != [] ==> RemoveLowPriceOutliers(prices) != []
  {
    if |prices| >= 5 && Median(prices) >= 10.0 {
      OutlierFilterTakesEffect(prices);
      FilterIsSubsequence(prices, AtLeast(Median(prices) * 0.35));
    } else {
      SubsequenceRefl(prices);
    }
  }

  // ------------------------------------------------------------------- scores

  /** `max(0.0, x)` */
  function Max0(x: real): real {
    if x > 0.0 then x else 0.0
  }

  /** `max(0.0, min(1.0, x))` */
  function Clamp01(x: real): real {
    if x > 1.0 then 1.0 else Max0(x)
  }

  lemma DivLeOne(a: real, b: real)
    requires b > 0.0
    ensures a <= b ==> a / b <= 1.0
  {
    assert a / b * b == a;
  }

  lemma DivMono(a1: real, a2: real, b: real)
    requires b > 0.0
    ensures a1 <= a2 ==> a1 / b <= a2 / b
  {
    assert a1 / b * b == a1 && a2 / b * b == a2;
  }

  /** `calculate_discount_score`: how far the price lies below the average, in units of
      two standard deviations and clamped to [0, 1]; with no spread, the relative
      discount; nothing when the average is not positive. */
  function DiscountScore(price: real, avg: real, sd: real): (r: real)
    ensures 0.0 <= r
    ensures avg <= 0.0 ==> r == 0.0
    ensures sd != 0.0 ==> r <= 1.0
    ensures price >= 0.0 ==> r <= 1.0
  {
    if avg <= 0.0 then 0.0
    else if sd == 0.0 then
      DivLeOne(avg - price, avg);
      Max0((avg - price) / avg)
    else Clamp01((avg - price) / sd / 2.0)
  }

  /** Below the average the score is the z-score `(avg - price) / sd` halved, reaching 1
      two standard deviations below the average; at or above the average it is 0. */
  lemma DiscountScoreZScore(price: real, avg: real, sd: real)
    requires avg > 0.0 && sd > 0.0
    ensures price >= avg ==> DiscountScore(price, avg, sd) == 0.0
    ensures price <= avg - 2.0 * sd ==> DiscountScore(price, avg, sd) == 1.0
    ensures avg - 2.0 * sd <= price <= avg ==>
              DiscountScore(price, avg, sd) * 2.0 * sd == avg - price
  {
    var q := (avg - price) / sd;
    assert q * sd == avg - price;
    DivMono(avg - price, 0.0, sd);
    DivMono(2.0 * sd, avg - price, sd);
    assert 2.0 * sd / sd == 2.0;
    DivMono(avg - price, 2.0 * sd, sd);
  }

  /** Lowering the price never lowers the discount score (for a non-negative spread). */
  lemma DiscountScoreMonotone(p1: real, p2: real, avg: real, sd: real)
    requires p1 <= p2 && sd >= 0.0
    ensures DiscountScore(p2, avg, sd) <= DiscountScore(p1, avg, sd)
  {
    if avg > 0.0 {
      if sd == 0.0 {
        DivMono(avg - p2, avg - p1, avg);
      } else {
        DivMono(avg - p2, avg - p1, sd);
      }
    }
  }

  /** The percentage shown with a deal: how far below the group average the price is. */
  function DiscountPercentage(price: real, avg: real): (pct: real)
    ensures avg <= 0.0 ==> pct == 0.0
    ensures avg > 0.0 ==> pct * avg == (avg - price) * 100.0
  {
    if avg > 0.0 then (avg - price) / avg * 100.0 else 0.0
  }

  /** With no spread, the discount score is the displayed percentage as a fraction,
      floored at 0. */
  lemma DiscountScoreFlatIsPercentage(price: real, avg: real)
    ensures DiscountScore(price, avg, 0.0) == Max0(DiscountPercentage(price, avg) / 100.0)
  {
  }

  /** `calculate_rating_score`: the rating divided by 5, or 0 without a rating. The
      value is not clamped. */
  function RatingScore(rating: Option<real>): (r: real)
    ensures rating.None? ==> r == 0.0
    ensures rating.Some? ==> r * 5.0 == rating.value
  {
    if rating.None? then 0.0 else rating.value / 5.0
  }

  /** The rating score lies in [0, 1] exactly when the rating lies in [0, 5]. */
  lemma RatingScoreInUnitIff(x: real)
    ensures 0.0 <= RatingScore(Some(x)) <= 1.0 <==> 0.0 <= x <= 5.0
  {
  }

  /** eBay stores a feedback percentage (0-100) as the rating: 95 scores 19. */
  lemma RatingScoreFeedbackPercentage()
    ensures RatingScore(Some(95.0)) == 19.0
  {
  }

  /** Hours between the search and `now`, both in seconds. */
  function HoursOld(now: real, searchDate: real): real {
    (now - searchDate) / 3600.0
  }

  /** `calculate_recency_score`: full marks for 24 hours, then a linear decay to 0 at 48. */
  function RecencyScore(hoursOld: real): (r: real)
    ensures 0.0 <= r <= 1.0
  {
    if hoursOld <= 24.0 then 1.0
    else if hoursOld <= 48.0 then (48.0 - hoursOld) / 24.0
    else 0.0
  }

  /** The three branches form one ramp: the remaining part of 48 hours, in days,
      clamped to [0, 1]; so the score is 1 up to 24 hours, 0.5 at 36 and 0 from 48. */
  lemma RecencyScoreIsClampedRamp(hoursOld: real)
    ensures RecencyScore(hoursOld) == Clamp01((48.0 - hoursOld) / 24.0)
  {
  }

  /** Older searches never score higher. */
  lemma RecencyScoreMonotone(h1: real, h2: real)
    requires h1 <= h2
    ensures RecencyScore(h2) <= RecencyScore(h1)
  {
  }

  /** The weighted sum: 60% discount, 30% rating, 10% recency. */
  function MetaScore(discount: real, rating: real, recency: real): real {
    discount * 0.60 + rating * 0.30 + recency * 0.10
  }

  /** The meta-score of an offer from its price, rating and age. */
  function OfferMetaScore(price: real, avg: real, sd: real, rating: Option<real>, hoursOld: real): real {
    MetaScore(DiscountScore(price, avg, sd), RatingScore(rating), RecencyScore(hoursOld))
  }

  /** With a non-negative price and a rating on the 0-5 scale (or none), the meta-score
      lies in [0, 1]. */
  lemma MetaScoreInUnit(price: real, avg: real, sd: real, rating: Option<real>, hoursOld: real)
    requires price >= 0.0
    requires rating.Some? ==> 0.0 <= rating.value <= 5.0
    ensures 0.0 <= OfferMetaScore(price, avg, sd, rating, hoursOld) <= 1.0
  {
  }

  /** A rating of 20 or more, such as an eBay feedback percentage, pushes the
      meta-score above 1 whatever the price and age. */
  lemma MetaScoreAboveOne(price: real, avg: real, sd: real, x: real, hoursOld: real)
    requires x >= 20.0
    ensures OfferMetaScore(price, avg, sd, Some(x), hoursOld) > 1.0
  {
  }

  /** With rating and age fixed, a cheaper offer never has a lower meta-score. */
  lemma MetaScoreMonotoneInPrice(p1: real, p2: real, avg: real, sd: real, rating: Option<real>, hoursOld: real)
    requires p1 <= p2 && sd >= 0.0
    ensures OfferMetaScore(p2, avg, sd, rating, hoursOld) <= OfferMetaScore(p1, avg, sd, rating, hoursOld)
  {
    DiscountScoreMonotone(p1, p2, avg, sd);
  }

  // ------------------------------------------------------------- query groups

  /** `[float(offer.last_price) for offer in offers]` */
  function Prices(rows: seq<Row>): (ps: seq<real>)
    ensures |ps| == |rows|
  {
    seq(|rows|, i requires 0 <= i < |rows| => rows[i].offer.lastPrice)
  }

  /** `offer_price in filtered_price_set` */
  function PriceIn(filtered: seq<real>): Row -> bool {
    (row: Row) => row.offer.lastPrice in filtered
  }

  function PriceAtLeast(t: real): Row -> bool {
    (row: Row) => row.offer.lastPrice >= t
  }

  /** The entry of `scored_offers` for one row. */
  function ScoreRow(row: Row, avg: real, sd: real, now: real): Candidate {
    var price := row.offer.lastPrice;
    Candidate(
      row.offer,
      OfferMetaScore(price, avg, sd, row.offer.rating, HoursOld(now, row.searchDate)),
      avg,
      DiscountPercentage(price, avg),
      row.searchDate)
  }

  function ScoreAll(rows: seq<Row>, avg: real, sd: real, now: real): (cs: seq<Candidate>)
    ensures |cs| == |rows|
    ensures forall i :: 0 <= i < |rows| ==> cs[i] == ScoreRow(rows[i], avg, sd, now)
  {
    seq(|rows|, i requires 0 <= i < |rows| => ScoreRow(rows[i], avg, sd, now))
  }

  /** The statistics of a group of at least 5 rows: the prices kept by the outlier
      filter, their mean and their spread. */
  datatype Stats = Stats(filtered: seq<real>, avg: real, sd: real)

  function GroupStats(rows: seq<Row>, stdev: seq<real> -> real): (st: Stats)
    requires |rows| >= 5
    ensures st.filtered == RemoveLowPriceOutliers(Prices(rows)) && |st.filtered| >= 3
    ensures st.avg == Mean(st.filtered) && st.sd == GroupStdDev(st.filtered, stdev)
  {
    var filtered := RemoveLowPriceOutliers(Prices(rows));
    Stats(filtered, Mean(filtered), GroupStdDev(filtered, stdev))
  }

  /** `scored_offers` before sorting: the rows whose price survived the outlier
      filter, scored, in row order. */
  function Scored(rows: seq<Row>, now: real, stdev: seq<real> -> real): seq<Candidate>
    requires |rows| >= 5
  {
    var st := GroupStats(rows, stdev);
    ScoreAll(Filter(rows, PriceIn(st.filtered)), st.avg, st.sd, now)
  }

  /** `statistics.stdev` never returns a negative spread. */
  ghost predicate SpreadNonNegative(stdev: seq<real> -> real) {
    forall xs :: stdev(xs) >= 0.0
  }

  /** With a library spread that is never negative, a group's spread is not negative. */
  lemma GroupSpreadNonNegative(rows: seq<Row>, stdev: seq<real> -> real)
    requires |rows| >= 5 && SpreadNonNegative(stdev)
    ensures GroupStats(rows, stdev).sd >= 0.0
  {
    var st := GroupStats(rows, stdev);
    assert stdev(st.filtered) >= 0.0;
  }

  /** Within one group, of two scored offers with the same rating and search date the
      cheaper one never has the lower meta-score. */
  lemma GroupCheaperScoresHigher(rows: seq<Row>, now: real, stdev: seq<real> -> real, i: nat, j: nat)
    requires |rows| >= 5 && SpreadNonNegative(stdev)
    requires i < |Scored(rows, now, stdev)| && j < |Scored(rows, now, stdev)|
    requires Scored(rows, now, stdev)[i].offer.lastPrice <= Scored(rows, now, stdev)[j].offer.lastPrice
    requires Scored(rows, now, stdev)[i].offer.rating == Scored(rows, now, stdev)[j].offer.rating
    requires Scored(rows, now, stdev)[i].searchDate == Scored(rows, now, stdev)[j].searchDate
    ensures Scored(rows, now, stdev)[i].metaScore >= Scored(rows, now, stdev)[j].metaScore
  {
    var st := GroupStats(rows, stdev);
    var kept := Filter(rows, PriceIn(st.filtered));
    var sc := Scored(rows, now, stdev);
    assert sc == ScoreAll(kept, st.avg, st.sd, now);
    GroupSpreadNonNegative(rows, stdev);
    var a := kept[i].offer;
    var b := kept[j].offer;
    assert sc[i] == ScoreRow(kept[i], st.avg, st.sd, now);
    assert sc[j] == ScoreRow(kept[j], st.avg, st.sd, now);
    MetaScoreMonotoneInPrice(a.lastPrice, b.lastPrice, st.avg, st.sd, a.rating, HoursOld(now, kept[i].searchDate));
  }

  function MetaOf(c: Candidate): real {
    c.metaScore
  }

  /** What one query group adds to `all_candidates`: nothing below 5 rows, otherwise
      the first three scored offers in descending meta-score order. */
  function TopCandidates(rows: seq<Row>, now: real, stdev: seq<real> -> real): (top: seq<Candidate>)
    ensures |top| <= 3
    ensures |rows| < 5 ==> top == []
  {
    if |rows| < 5 then [] else SliceTo(SortBy(Scored(rows, now, stdev), MetaOf, true), 3)
  }

  /** An offer is scored only when its price is among the filtered prices, and then it
      is scored with the group's average and spread. */
  lemma ScoredOnlyFilteredPrices(rows: seq<Row>, now: real, stdev: seq<real> -> real)
    requires |rows| >= 5
    ensures var st := GroupStats(rows, stdev);
            var sc := Scored(rows, now, stdev);
            forall i :: 0 <= i < |sc| ==>
              sc[i].offer.lastPrice in st.filtered && sc[i].avgPrice == st.avg
  {
  }

  /** Rows whose price is among the prices at or above `t` are the rows priced at or
      above `t`. */
  lemma RowsByFilteredPrice(rows: seq<Row>, prices: seq<real>, t: real, kept: seq<real>)
    requires |prices| == |rows|
    requires forall i :: 0 <= i < |rows| ==> prices[i] == rows[i].offer.lastPrice
    requires kept == Filter(prices, AtLeast(t))
    ensures Filter(rows, PriceIn(kept)) == Filter(rows, PriceAtLeast(t))
  {
    forall i | 0 <= i < |rows|
      ensures PriceIn(kept)(rows[i]) == PriceAtLeast(t)(rows[i])
    {
      FilterMembership(prices, AtLeast(t), prices[i]);
    }
    FilterCongruent(rows, PriceIn(kept), PriceAtLeast(t));
  }

  lemma PricesIndex(rows: seq<Row>)
    ensures forall i :: 0 <= i < |rows| ==> Prices(rows)[i] == rows[i].offer.lastPrice
  {
  }

  /** When the median is at least 10, the rows that get scored are exactly the rows
      priced at or above 35% of the median, in order (`prices` are the rows' prices,
      as `Prices` computes them). */
  lemma ScoredRowsWhenFilterTakesEffect(rows: seq<Row>, prices: seq<real>)
    requires |prices| == |rows|
    requires forall i :: 0 <= i < |rows| ==> prices[i] == rows[i].offer.lastPrice
    requires |prices| >= 5 && Median(prices) >= 10.0
    ensures Filter(rows, PriceIn(RemoveLowPriceOutliers(prices)))
         == Filter(rows, PriceAtLeast(Median(prices) * 0.35))
  {
    var t := Median(prices) * 0.35;
    var kept := Filter(prices, AtLeast(t));
    RowsByFilteredPrice(rows, prices, t, kept);
    OutlierFilterTakesEffect(prices);
  }

  /** Otherwise (fewer than 5 prices or a median below 10) every row is scored. */
  lemma ScoredRowsWhenFilterIdle(rows: seq<Row>, prices: seq<real>)
    requires |prices| == |rows|
    requires forall i :: 0 <= i < |rows| ==> prices[i] == rows[i].offer.lastPrice
    requires |prices| < 5 || Median(prices) < 10.0
    ensures Filter(rows, PriceIn(RemoveLowPriceOutliers(prices))) == rows
  {
    forall x | x in rows
      ensures PriceIn(prices)(x)
    {
      var i :| 0 <= i < |rows| && rows[i] == x;
      assert prices[i] == x.offer.lastPrice;
    }
    FilterAll(rows, PriceIn(prices));
  }

  /** `top` holds the highest meta-scores of `sc`: as many as there are scored offers
      up to 3, in descending order, taken from `sc`, and every element of `sc` left out
      scores no higher than any that was kept. */
  ghost predicate BestThreeOf(top: seq<Candidate>, sc: seq<Candidate>) {
    |top| == (if |sc| < 3 then |sc| else 3)
    && multiset(top) <= multiset(sc)
    && (forall i, j :: 0 <= i < j < |top| ==> top[i].metaScore >= top[j].metaScore)
    && (forall c :: c in multiset(sc) - multiset(top) ==>
          forall i :: 0 <= i < |top| ==> c.metaScore <= top[i].metaScore)
  }

  /** The top candidates of a group are the best three of its scored offers. */
  lemma TopCandidatesAreBest(rows: seq<Row>, now: real, stdev: seq<real> -> real)
    requires |rows| >= 5
    ensures BestThreeOf(TopCandidates(rows, now, stdev), Scored(rows, now, stdev))
  {
    TopThree(Scored(rows, now, stdev));
  }

  lemma TopThree(sc: seq<Candidate>)
    ensures BestThreeOf(SliceTo(SortBy(sc, MetaOf, true), 3), sc)
  {
    SortedPrefixIsBest(sc, MetaOf, 3);
  }

  // ------------------------------------------------------- ranking and output

  /** `all_candidates`: every group's top candidates, group after group. */
  function AllCandidates(groups: seq<seq<Row>>, now: real, stdev: seq<real> -> real): (cs: seq<Candidate>)
    ensures |cs| <= 3 * |groups|
  {
    if groups == [] then []
    else AllCandidates(groups[..|groups| - 1], now, stdev) + TopCandidates(groups[|groups| - 1], now, stdev)
  }

  /** No group of 5 or more offers, no candidates. */
  lemma {:induction false} NoQualifyingGroup(groups: seq<seq<Row>>, now: real, stdev: seq<real> -> real)
    requires forall i :: 0 <= i < |groups| ==> |groups[i]| < 5
    ensures AllCandidates(groups, now, stdev) == []
  {
    if groups != [] {
      NoQualifyingGroup(groups[..|groups| - 1], now, stdev);
    }
  }

  function CandKey(c: Candidate): OfferKey {
    KeyOf(c.offer)
  }

  function KeysOf(cs: seq<Candidate>): set<OfferKey> {
    set i | 0 <= i < |cs| :: CandKey(cs[i])
  }

  lemma KeysOfSnoc(cs: seq<Candidate>, c: Candidate)
    ensures KeysOf(cs + [c]) == KeysOf(cs) + {CandKey(c)}
  {
    var both := cs + [c];
    assert forall i :: 0 <= i < |cs| ==> both[i] == cs[i];
    assert both[|cs|] == c;
  }

  /** The dedup loop without its early exit: the first candidate of every
      `(source, source_offer_id)`, in order. */
  function DedupFirst(cs: seq<Candidate>): (d: seq<Candidate>)
    ensures |d| <= |cs|
    ensures KeysOf(d) == KeysOf(cs)
    ensures forall i, j :: 0 <= i < j < |d| ==> CandKey(d[i]) != CandKey(d[j])
  {
    if cs == [] then []
    else
      var init := cs[..|cs| - 1];
      var c := cs[|cs| - 1];
      var d := DedupFirst(init);
      assert cs == init + [c];
      KeysOfSnoc(init, c);
      KeysOfSnoc(d, c);
      if CandKey(c) in KeysOf(d) then d else d + [c]
  }

  /** Where a key first occurs. */
  function FirstIndexOfKey(cs: seq<Candidate>, k: OfferKey): (j: nat)
    requires k in KeysOf(cs)
    ensures j < |cs| && CandKey(cs[j]) == k
    ensures forall i :: 0 <= i < j ==> CandKey(cs[i]) != k
  {
    var init := cs[..|cs| - 1];
    KeysOfSnoc(init, cs[|cs| - 1]);
    assert cs == init + [cs[|cs| - 1]];
    if k in KeysOf(init) then FirstIndexOfKey(init, k) else |cs| - 1
  }

  /** Every kept candidate is the first one with its key. */
  lemma {:induction false} DedupKeepsFirst(cs: seq<Candidate>)
    ensures forall i :: 0 <= i < |DedupFirst(cs)| ==>
              DedupFirst(cs)[i] == cs[FirstIndexOfKey(cs, CandKey(DedupFirst(cs)[i]))]
  {
    if cs != [] {
      var init := cs[..|cs| - 1];
      var c := cs[|cs| - 1];
      DedupKeepsFirst(init);
      KeysOfSnoc(init, c);
      assert cs == init + [c];
      var d := DedupFirst(cs);
      forall i | 0 <= i < |d|
        ensures d[i] == cs[FirstIndexOfKey(cs, CandKey(d[i]))]
      {
        var k := CandKey(d[i]);
        if k in KeysOf(init) {
          assert FirstIndexOfKey(cs, k) == FirstIndexOfKey(init, k);
          assert d[i] == DedupFirst(init)[i];
        }
      }
    }
  }

  /** Kept candidates come from the input. */
  lemma {:induction false} DedupMembers(cs: seq<Candidate>, x: Candidate)
    requires x in DedupFirst(cs)
    ensures x in cs
  {
    var init := cs[..|cs| - 1];
    assert cs == init + [cs[|cs| - 1]];
    if x in DedupFirst(init) {
      DedupMembers(init, x);
    }
  }

  /** Deduplicating a prefix gives a prefix of the deduplicated whole, so the loop
      that stops early has produced the first entries of the full result. */
  lemma {:induction false} DedupPrefix(cs: seq<Candidate>, j: nat)
    requires j <= |cs|
    ensures DedupFirst(cs[..j]) <= DedupFirst(cs)
  {
    if j < |cs| {
      var init := cs[..|cs| - 1];
      assert cs == init + [cs[|cs| - 1]];
      assert cs[..j] == init[..j];
      DedupPrefix(init, j);
    } else {
      assert cs[..j] == cs;
    }
  }

  /** Deduplication keeps a descending order. */
  lemma {:induction false} DedupSorted(cs: seq<Candidate>)
    requires forall i, j :: 0 <= i < j < |cs| ==> cs[i].metaScore >= cs[j].metaScore
    ensures forall i, j :: 0 <= i < j < |DedupFirst(cs)| ==>
              DedupFirst(cs)[i].metaScore >= DedupFirst(cs)[j].metaScore
  {
    if cs != [] {
      var init := cs[..|cs| - 1];
      var c := cs[|cs| - 1];
      assert cs == init + [c];
      DedupSorted(init);
      var d := DedupFirst(init);
      forall i | 0 <= i < |d|
        ensures d[i].metaScore >= c.metaScore
      {
        DedupMembers(init, d[i]);
      }
    }
  }

  /** In a descending sequence the kept candidate of a key scores at least as high as
      every candidate with that key. */
  lemma DedupKeepsMax(cs: seq<Candidate>, k: nat)
    requires forall i, j :: 0 <= i < j < |cs| ==> cs[i].metaScore >= cs[j].metaScore
    requires k < |cs|
    ensures exists i :: 0 <= i < |DedupFirst(cs)| && CandKey(DedupFirst(cs)[i]) == CandKey(cs[k])
                        && DedupFirst(cs)[i].metaScore >= cs[k].metaScore
  {
    var d := DedupFirst(cs);
    var key := CandKey(cs[k]);
    assert key in KeysOf(cs);
    var first := FirstIndexOfKey(cs, key);
    assert first <= k;
    var i :| 0 <= i < |d| && CandKey(d[i]) == key;
    DedupKeepsFirst(cs);
    assert d[i] == cs[first];
  }

  /** `len(unique_deals) >= limit` is checked after an append, so a limit below 1
      still lets one deal through. */
  function Cap(limit: int): (n: nat)
    ensures n >= 1 && (limit >= 1 ==> n == limit)
  {
    if limit >= 1 then limit else 1
  }

  /** The response dictionary built from a candidate; a rating of 0 is falsy and becomes None. */
  function ToDeal(c: Candidate): (d: Deal)
    ensures d.metaScore == c.metaScore
    ensures d.source == c.offer.source && d.sourceOfferId == c.offer.sourceOfferId
    ensures d.rating == (if c.offer.rating == Some(0.0) then None else c.offer.rating)
  {
    var o := c.offer;
    Deal(o.id, o.title, o.lastPrice, o.currency, o.url, o.source, o.sourceOfferId,
         o.seller, o.imageUrl, if o.rating == Some(0.0) then None else o.rating,
         o.createdAt, c.metaScore, c.avgPrice, c.discountPercentage, c.searchDate)
  }

  function ToDeals(cs: seq<Candidate>): (ds: seq<Deal>)
    ensures |ds| == |cs|
    ensures forall i :: 0 <= i < |cs| ==> ds[i] == ToDeal(cs[i])
  {
    seq(|cs|, i requires 0 <= i < |cs| => ToDeal(cs[i]))
  }

  function DealKey(d: Deal): OfferKey {
    OfferKey(d.source, d.sourceOfferId)
  }

  /** `get_recent_best_deals` on the query groups of the window: the candidates in
      descending meta-score order, the first of each `(source, source_offer_id)`, cut
      at the limit. */
  function BestDeals(groups: seq<seq<Row>>, limit: int, now: real, stdev: seq<real> -> real): seq<Deal> {
    RankDeals(AllCandidates(groups, now, stdev), limit)
  }

  /** The candidates in descending meta-score order, the first of each key, cut at the
      limit. */
  function RankDeals(all: seq<Candidate>, limit: int): seq<Deal> {
    ToDeals(SliceTo(DedupFirst(SortBy(all, MetaOf, true)), Cap(limit)))
  }

  /** The deals: at most the limit (at least one slot), in descending meta-score order,
      one per offer key; none when no group has 5 offers; and when fewer than the limit
      come out, every candidate's offer is among them with at least that candidate's
      meta-score. */
  lemma BestDealsProperties(groups: seq<seq<Row>>, limit: int, now: real, stdev: seq<real> -> real)
    ensures var r := BestDeals(groups, limit, now, stdev);
            |r| <= Cap(limit)
            && (forall i, j :: 0 <= i < j < |r| ==> r[i].metaScore >= r[j].metaScore)
            && (forall i, j :: 0 <= i < j < |r| ==> DealKey(r[i]) != DealKey(r[j]))
            && ((forall g :: 0 <= g < |groups| ==> |groups[g]| < 5) ==> r == [])
  {
    var ranked := SortBy(AllCandidates(groups, now, stdev), MetaOf, true);
    var d := DedupFirst(ranked);
    SortedRanking(AllCandidates(groups, now, stdev));
    DedupSorted(ranked);
    var n := if |d| < Cap(limit) then |d| else Cap(limit);
    assert SliceTo(d, Cap(limit)) == d[..n];
    DealsOfPrefix(d, n);
    if forall g :: 0 <= g < |groups| ==> |groups[g]| < 5 {
      NoQualifyingGroup(groups, now, stdev);
    }
  }

  /** The deals of a prefix of an ordered, duplicate-free candidate list are ordered
      and duplicate-free. */
  lemma DealsOfPrefix(d: seq<Candidate>, n: nat)
    requires n <= |d|
    requires forall i, j :: 0 <= i < j < |d| ==> d[i].metaScore >= d[j].metaScore
    requires forall i, j :: 0 <= i < j < |d| ==> CandKey(d[i]) != CandKey(d[j])
    ensures var r := ToDeals(d[..n]);
            (forall i, j :: 0 <= i < j < |r| ==> r[i].metaScore >= r[j].metaScore)
            && (forall i, j :: 0 <= i < j < |r| ==> DealKey(r[i]) != DealKey(r[j]))
  {
    var r := ToDeals(d[..n]);
    forall i, j | 0 <= i < j < |r|
      ensures r[i].metaScore >= r[j].metaScore && DealKey(r[i]) != DealKey(r[j])
    {
      assert r[i] == ToDeal(d[i]) && r[j] == ToDeal(d[j]);
    }
  }

  lemma SortedRanking(cs: seq<Candidate>)
    ensures forall i, j :: 0 <= i < j < |SortBy(cs, MetaOf, true)| ==>
              SortBy(cs, MetaOf, true)[i].metaScore >= SortBy(cs, MetaOf, true)[j].metaScore
  {
    var ranked := SortBy(cs, MetaOf, true);
    SortByIsSorted(cs, MetaOf, true);
    forall i, j | 0 <= i < j < |ranked|
      ensures ranked[i].metaScore >= ranked[j].metaScore
    {
      assert Before(MetaOf(ranked[i]), MetaOf(ranked[j]), true);
    }
  }

  /** When fewer deals than the limit come out, no candidate was lost: every
      candidate's offer has a deal scoring at least as high. */
  lemma BestDealsCoverAll(groups: seq<seq<Row>>, limit: int, now: real, stdev: seq<real> -> real, k: nat)
    requires k < |AllCandidates(groups, now, stdev)|
    requires |BestDeals(groups, limit, now, stdev)| < Cap(limit)
    ensures var r := BestDeals(groups, limit, now, stdev);
            var c := AllCandidates(groups, now, stdev)[k];
            exists i :: 0 <= i < |r| && DealKey(r[i]) == CandKey(c) && r[i].metaScore >= c.metaScore
  {
    RankDealsCoverAll(AllCandidates(groups, now, stdev), limit, k);
  }

  lemma RankDealsCoverAll(all: seq<Candidate>, limit: int, k: nat)
    requires k < |all| && |RankDeals(all, limit)| < Cap(limit)
    ensures var r := RankDeals(all, limit);
            exists i :: 0 <= i < |r| && DealKey(r[i]) == CandKey(all[k]) && r[i].metaScore >= all[k].metaScore
  {
    var ranked := SortBy(all, MetaOf, true);
    var d := DedupFirst(ranked);
    var r := RankDeals(all, limit);
    assert SliceTo(d, Cap(limit)) == d;
    SortedRanking(all);
    assert all[k] in multiset(ranked);
    var m :| 0 <= m < |ranked| && ranked[m] == all[k];
    DedupKeepsMax(ranked, m);
    var i :| 0 <= i < |d| && CandKey(d[i]) == CandKey(ranked[m]) && d[i].metaScore >= ranked[m].metaScore;
    assert DealKey(r[i]) == CandKey(d[i]);
  }

  /** Each deal is the first candidate of its key in descending meta-score order:
      the one the dedup loop meets first. */
  lemma RankDealsFirstOfKey(all: seq<Candidate>, limit: int, i: nat)
    requires i < |RankDeals(all, limit)|
    ensures var ranked := SortBy(all, MetaOf, true);
            var r := RankDeals(all, limit);
            DealKey(r[i]) in KeysOf(ranked)
            && r[i] == ToDeal(ranked[FirstIndexOfKey(ranked, DealKey(r[i]))])
  {
    var ranked := SortBy(all, MetaOf, true);
    var d := DedupFirst(ranked);
    var n := if |d| < Cap(limit) then |d| else Cap(limit);
    assert SliceTo(d, Cap(limit)) == d[..n];
    var r := RankDeals(all, limit);
    assert r[i] == ToDeal(d[i]);
    assert DealKey(r[i]) == CandKey(d[i]);
    assert CandKey(d[i]) in KeysOf(d);
    DedupKeepsFirst(ranked);
  }

  /** A candidate whose offer has no deal was cut by the limit: the limit is reached
      and the candidate scores no higher than the last deal. */
  lemma RankDealsAreBest(all: seq<Candidate>, limit: int, k: nat)
    requires k < |all|
    requires forall i :: 0 <= i < |RankDeals(all, limit)| ==> DealKey(RankDeals(all, limit)[i]) != CandKey(all[k])
    ensures var r := RankDeals(all, limit);
            |r| == Cap(limit) && all[k].metaScore <= r[|r| - 1].metaScore
  {
    var ranked := SortBy(all, MetaOf, true);
    var d := DedupFirst(ranked);
    var n := if |d| < Cap(limit) then |d| else Cap(limit);
    assert SliceTo(d, Cap(limit)) == d[..n];
    var r := RankDeals(all, limit);
    assert all[k] in multiset(ranked);
    var m :| 0 <= m < |ranked| && ranked[m] == all[k];
    forall j | 0 <= j < n
      ensures CandKey(d[j]) != CandKey(ranked[m])
    {
      assert r[j] == ToDeal(d[j]);
    }
    SortedRanking(all);
    DedupPrefixIsBest(ranked, n, m);
    assert r[n - 1] == ToDeal(d[n - 1]);
  }

  /** In a descending sequence, when the first n kept candidates miss the key of
      `cs[m]`, more candidates were kept and the n-th scores at least as high. */
  lemma DedupPrefixIsBest(cs: seq<Candidate>, n: nat, m: nat)
    requires forall i, j :: 0 <= i < j < |cs| ==> cs[i].metaScore >= cs[j].metaScore
    requires m < |cs| && 1 <= n <= |DedupFirst(cs)|
    requires forall j :: 0 <= j < n ==> CandKey(DedupFirst(cs)[j]) != CandKey(cs[m])
    ensures n < |DedupFirst(cs)| && DedupFirst(cs)[n - 1].metaScore >= cs[m].metaScore
  {
    var d := DedupFirst(cs);
    DedupSorted(cs);
    DedupKeepsMax(cs, m);
    var p :| 0 <= p < |d| && CandKey(d[p]) == CandKey(cs[m]) && d[p].metaScore >= cs[m].metaScore;
    assert n <= p;
  }

  /** `get_recent_best_deals`: every deal is the top-scoring candidate of its offer. */
  lemma BestDealsFirstOfKey(groups: seq<seq<Row>>, limit: int, now: real, stdev: seq<real> -> real, i: nat)
    requires i < |BestDeals(groups, limit, now, stdev)|
    ensures var ranked := SortBy(AllCandidates(groups, now, stdev), MetaOf, true);
            var r := BestDeals(groups, limit, now, stdev);
            DealKey(r[i]) in KeysOf(ranked)
            && r[i] == ToDeal(ranked[FirstIndexOfKey(ranked, DealKey(r[i]))])
  {
    RankDealsFirstOfKey(AllCandidates(groups, now, stdev), limit, i);
  }

  /** `get_recent_best_deals`: a candidate whose offer has no deal lost to the limit. */
  lemma BestDealsAreBest(groups: seq<seq<Row>>, limit: int, now: real, stdev: seq<real> -> real, k: nat)
    requires k < |AllCandidates(groups, now, stdev)|
    requires var r := BestDeals(groups, limit, now, stdev);
             var c := AllCandidates(groups, now, stdev)[k];
             forall i :: 0 <= i < |r| ==> DealKey(r[i]) != CandKey(c)
    ensures var r := BestDeals(groups, limit, now, stdev);
            |r| == Cap(limit) && AllCandidates(groups, now, stdev)[k].metaScore <= r[|r| - 1].metaScore
  {
    var all := AllCandidates(groups, now, stdev);
    var r := BestDeals(groups, limit, now, stdev);
    assert r == RankDeals(all, limit);
    forall i | 0 <= i < |r|
      ensures DealKey(RankDeals(all, limit)[i]) != CandKey(all[k])
    {
      assert DealKey(r[i]) != CandKey(all[k]);
    }
    RankDealsAreBest(all, limit, k);
  }

  // ----------------------------------------------------------------- the engine

  /** The row loop of one group: skips a row whose price is not among the filtered
      prices and scores every other row, in row order. */
  method ScoreOffers(rows: seq<Row>, filtered: seq<real>, avg: real, sd: real, now: real)
    returns (scored: seq<Candidate>)
    ensures scored == ScoreAll(Filter(rows, PriceIn(filtered)), avg, sd, now)
  {
    scored := [];
    for i := 0 to |rows|
      invariant scored == ScoreAll(Filter(rows[..i], PriceIn(filtered)), avg, sd, now)
    {
      var row := rows[i];
      assert rows[..i + 1] == rows[..i] + [row];
      FilterSnoc(rows[..i], row, PriceIn(filtered));
      var price := row.offer.lastPrice;
      if price !in filtered {
        continue;
      }
      var discount := DiscountScore(price, avg, sd);
      var rating := RatingScore(row.offer.rating);
      var recency := RecencyScore(HoursOld(now, row.searchDate));
      var meta := discount * 0.60 + rating * 0.30 + recency * 0.10;
      var pct := DiscountPercentage(price, avg);
      scored := scored + [Candidate(row.offer, meta, avg, pct, row.searchDate)];
    }
    assert rows[..|rows|] == rows;
  }

  /** The group loop of `get_recent_best_deals`: a group below 5 rows is skipped,
      any other is scored, sorted by descending meta-score, and its first three
      entries are appended to `all_candidates`. */
  method CollectCandidates(groups: seq<seq<Row>>, now: real, stdev: seq<real> -> real)
    returns (allCandidates: seq<Candidate>)
    ensures allCandidates == AllCandidates(groups, now, stdev)
  {
    allCandidates := [];
    for g := 0 to |groups|
      invariant allCandidates == AllCandidates(groups[..g], now, stdev)
    {
      var rows := groups[g];
      assert groups[..g + 1][..g] == groups[..g];
      if |rows| < 5 {
        continue;
      }
      var filtered := RemoveLowPriceOutliers(Prices(rows));
      var avg := Mean(filtered);
      var sd := GroupStdDev(filtered, stdev);
      var scored := ScoreOffers(rows, filtered, avg, sd, now);
      scored := SortBy(scored, MetaOf, true);
      allCandidates := allCandidates + SliceTo(scored, 3);
    }
    assert groups[..|groups|] == groups;
  }

  /** The dedup loop: the first candidate of each key becomes a deal, and the loop
      breaks once there are `limit` deals (checked after the append). */
  method TakeUnique(ranked: seq<Candidate>, limit: int) returns (deals: seq<Deal>)
    ensures deals == ToDeals(SliceTo(DedupFirst(ranked), Cap(limit)))
  {
    var seen: set<OfferKey> := {};
    deals := [];
    ghost var kept: seq<Candidate> := [];
    var i := 0;
    while i < |ranked|
      invariant i <= |ranked|
      invariant kept == DedupFirst(ranked[..i])
      invariant deals == ToDeals(kept) && seen == KeysOf(kept)
      invariant |deals| < Cap(limit)
    {
      var c := ranked[i];
      var key := CandKey(c);
      DedupStep(ranked, i);
      if key !in seen {
        seen := seen + {key};
        KeysOfSnoc(kept, c);
        ToDealsSnoc(kept, c);
        kept := kept + [c];
        deals := deals + [ToDeal(c)];
        if |deals| >= limit {
          DedupStop(ranked, i + 1, limit);
          return;
        }
      }
      i := i + 1;
    }
    assert ranked[..i] == ranked;
  }

  /** One more candidate: kept when its key is new. */
  lemma DedupStep(cs: seq<Candidate>, i: nat)
    requires i < |cs|
    ensures CandKey(cs[i]) in KeysOf(DedupFirst(cs[..i])) ==> DedupFirst(cs[..i + 1]) == DedupFirst(cs[..i])
    ensures CandKey(cs[i]) !in KeysOf(DedupFirst(cs[..i])) ==> DedupFirst(cs[..i + 1]) == DedupFirst(cs[..i]) + [cs[i]]
  {
    assert cs[..i + 1][..i] == cs[..i];
  }

  lemma ToDealsSnoc(cs: seq<Candidate>, c: Candidate)
    ensures ToDeals(cs + [c]) == ToDeals(cs) + [ToDeal(c)]
  {
  }

  /** Stopping once the deduplicated prefix has reached the cap gives the capped result. */
  lemma DedupStop(cs: seq<Candidate>, j: nat, limit: int)
    requires j <= |cs| && |DedupFirst(cs[..j])| == Cap(limit)
    ensures DedupFirst(cs[..j]) == SliceTo(DedupFirst(cs), Cap(limit))
  {
    DedupPrefix(cs, j);
  }

  /** `get_recent_best_deals` after its two queries: candidates are collected group
      by group, sorted by descending meta-score, and deduplicated up to the limit. */
  method GetRecentBestDeals(groups: seq<seq<Row>>, limit: int, now: real, stdev: seq<real> -> real)
    returns (deals: seq<Deal>)
    ensures deals == BestDeals(groups, limit, now, stdev)
  {
    if groups == [] {
      return [];
    }
    var allCandidates := CollectCandidates(groups, now, stdev);
    allCandidates := SortBy(allCandidates, MetaOf, true);
    deals := TakeUnique(allCandidates, limit);
  }
}
