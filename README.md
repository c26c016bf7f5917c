# BestPRICE core, modelled in Dafny

BestPRICE searches three marketplaces (eBay, DummyJSON, Amazon), turns each
provider's JSON items into offers, stores them, and mines recent searches for the
best deals. This project models the deterministic core of that pipeline and proves
what it promises:

- **Deals engine** (`Deals`, deals_service.py). Each query group of at least 5 offers
  goes through four steps:
  - low-price outliers are removed (prices below 35% of the median);
  - every remaining offer gets a meta-score: 60% z-score discount, 30% rating and
    10% recency;
  - the group's top 3 become candidates;
  - all candidates are ranked, deduplicated by `(source, source_offer_id)` and cut
    at the limit.

  The pure scorers are functions. The loops of `get_recent_best_deals` are methods
  proved equal to those functions.
- **Price-range filter** (`PriceFilter`, filter.py). An inclusive `[min, max]` filter
  over offer models or dicts.
- **Repository rules** (`Repository`, repository.py). These cover:
  - query normalisation (strip, lower-case, collapse whitespace runs);
  - the limit check of the recent-searches listing;
  - the freshness rule of the search cache.
- **Offer paging** (`OfferService`, offer_service.py):
  - validation of `page` and `page_size`;
  - the offset;
  - the stable in-page sort.
- **Pagination widget** (`Pagination`, Pagination.jsx):
  - the page-number window with its `'...'` placeholders;
  - the "Showing a-b of n" range;
  - the rule that hides the widget.
- **Result transformation** (`DataTransformation`, data_transformation_service.py).
  The three providers' items are concatenated in order. An item whose converter
  raises is skipped.
- **Price utilities** (`Price`, price.py). These are `to_decimal` and
  `normalize_currency`. The number grammar shared with `float` lives in `Text`:
  - an optional sign and surrounding whitespace;
  - a mantissa with an optional dot;
  - an optional exponent `e`/`E`, itself with an optional sign;
  - digits grouped by single underscores.

  `Decimal` first removes every underscore; `float` rejects misplaced ones.
- **Adapters** (`EbayAdapter`, `DummyJsonAdapter`, `AmazonAdapter`):
  - the item-to-offer decoders with their defaults;
  - the result limits;
  - the eBay search URL and condition codes;
  - the eBay OAuth token cache, a class whose two fields stand for the module
    globals.

Python's behaviour is modelled where it decides an outcome:

- **Decoded JSON** is the `Json` datatype.
- **Truthiness**, `dict.get`, `float()`, `str()` and `round()` are written out.
  `round()` uses banker's rounding.
- **Exceptions** are `Result` values. Each error is named after the exception class
  Python would raise.
- **`list.sort(key, reverse)`** is a stable insertion sort (`Sorting.SortBy`).
  Reversal keeps equal keys in input order, as Python's sort does.
- **Numbers** are Dafny `real`s.

Inputs that come from outside the core are parameters:

- the clock (`now`, in seconds);
- the square root inside `statistics.stdev` (a function `stdev`);
- the rows the SQL queries return (sequences of groups, searches and linked offers);
- the outcome of the OAuth token request.

Two consequences of the code as written are stated as lemmas rather than assumed
away:

- **The rating score has no upper bound.** The rating is divided by 5 and never
  clamped. eBay offers carry the seller's feedback percentage (0-100) as their
  rating, so their meta-score can exceed 1 (`Deals.MetaScoreAboveOne`).
- **Two safety nets of the outlier filter never fire.** With at least 5 prices and a
  median of at least 10, at least half the prices are at or above the median, and
  so above 35% of it. The checks on the result's size (deals_service.py:216-221)
  therefore never trigger (`Deals.OutlierFilterTakesEffect`).

## Model

| member | source | states |
|---|---|---|
| Deals.RemoveLowPriceOutliers | backend/services/deals_service.py:174-223 | Fewer than 5 prices, or a median below 10, leave the list unchanged; otherwise the result is the list itself or exactly the prices at or above 35% of the median; with 5 or more prices at least 3 survive |
| Deals.OutlierFilterTakesEffect | backend/services/deals_service.py:207-223 | With at least 5 prices and a median of at least 10 the result is exactly the prices at or above 0.35 times the median, at least half of the input and at least 3 prices, so the fallbacks never apply |
| Deals.OutlierFilterIsSublist | backend/services/deals_service.py:212 | The filtered prices are an in-order sublist of the input, non-empty for a non-empty input |
| Deals.MedianHalves | backend/services/deals_service.py:192-201 | The median (middle value, or mean of the two middle values) has at least half the prices at or above it and at least half at or below it |
| Deals.MedianSplitsSorted | backend/services/deals_service.py:192-201 | In the sorted copy every price of the upper half is at least the median and every price of the lower half at most the median |
| Deals.MeanBetween | backend/services/deals_service.py:88 | The average of the filtered prices lies between any lower and upper bound of those prices |
| Deals.GroupStdDev | backend/services/deals_service.py:89 | The spread is 0 for one price and the standard deviation otherwise |
| Deals.GroupStats | backend/services/deals_service.py:80-89 | A group's statistics use the outlier-filtered prices (at least 3 of them): their mean and their spread |
| Deals.DiscountScore | backend/services/deals_service.py:226-248 | The discount score is never negative, is 0 when the average is not positive, and is at most 1 whenever the spread is non-zero or the price is non-negative |
| Deals.DiscountScoreZScore | backend/services/deals_service.py:241-248 | With a positive spread: 0 at or above the average, 1 at two standard deviations below it or lower, and half the z-score in between |
| Deals.DiscountScoreFlatIsPercentage | backend/services/deals_service.py:236-239 | With zero spread the score is the relative discount (the display percentage over 100), floored at 0 |
| Deals.DiscountScoreMonotone | backend/services/deals_service.py:233-248 | For a fixed average and spread a higher price never scores a higher discount |
| Deals.DiscountPercentage | backend/services/deals_service.py:120 | The percentage is 0 when the average is not positive, and otherwise the gap to the average as a percentage of it |
| Deals.RatingScore | backend/services/deals_service.py:251-261 | An absent rating scores 0 and a present one scores a fifth of its value |
| Deals.RatingScoreInUnitIff | backend/services/deals_service.py:258-261 | The rating score lies in [0, 1] exactly when the rating lies in [0, 5] |
| Deals.RatingScoreFeedbackPercentage | backend/services/deals_service.py:261 | An eBay feedback percentage of 95 scores 19: the rating score is not bounded by 1 |
| Deals.RecencyScore | backend/services/deals_service.py:264-278 | The recency score lies in [0, 1] |
| Deals.RecencyScoreIsClampedRamp | backend/services/deals_service.py:273-278 | The recency score is 1 up to 24 hours, falls linearly to 0 at 48 hours and stays 0 after |
| Deals.RecencyScoreMonotone | backend/services/deals_service.py:273-278 | An older search date never scores higher |
| Deals.MetaScoreInUnit | backend/services/deals_service.py:117 | With a non-negative price and a rating within 0-5 the meta-score lies in [0, 1] |
| Deals.MetaScoreAboveOne | backend/services/deals_service.py:117 | Any rating of 20 or more (such as a feedback percentage) pushes the meta-score above 1 |
| Deals.MetaScoreMonotoneInPrice | backend/services/deals_service.py:117 | With rating and recency fixed, a cheaper offer never has a lower meta-score |
| Deals.GroupSpreadNonNegative | backend/services/deals_service.py:89 | If `statistics.stdev` never returns a negative value, the group's spread is not negative |
| Deals.GroupCheaperScoresHigher | backend/services/deals_service.py:96-128 | Within one group, of two scored offers with the same rating and search date the cheaper one does not score lower, given a non-negative `statistics.stdev` |
| Deals.ScoredOnlyFilteredPrices | backend/services/deals_service.py:96-128 | Every scored offer's price is among the filtered prices and carries the group's average |
| Deals.RowsByFilteredPrice | backend/services/deals_service.py:92-101 | Skipping rows whose price is not among the kept prices is the same as keeping the rows priced at or above the threshold |
| Deals.ScoredRowsWhenFilterTakesEffect | backend/services/deals_service.py:85-101 | When the outlier filter takes effect, the offers scored are exactly those priced at or above 0.35 times the median |
| Deals.ScoredRowsWhenFilterIdle | backend/services/deals_service.py:85-101 | When the outlier filter does not take effect, every offer of the group is scored |
| Deals.TopCandidates | backend/services/deals_service.py:75-77 | A group contributes at most 3 candidates, and none when it has fewer than 5 offers |
| Deals.TopCandidatesAreBest | backend/services/deals_service.py:130-132 | A group's candidates are min(3, scored) of its scored offers, in descending meta-score order, and no scored offer left out (counting copies) scores higher than one kept |
| Deals.TopThree | backend/services/deals_service.py:131-132 | The first 3 of a descending sort are the best three of the scored offers |
| Deals.AllCandidates | backend/services/deals_service.py:56-132 | The candidate list holds at most 3 candidates per group |
| Deals.NoQualifyingGroup | backend/services/deals_service.py:75-77 | When no group has 5 offers there are no candidates |
| Deals.DedupFirst | backend/services/deals_service.py:137-146 | Deduplication keeps every offer key exactly once and never lengthens the list |
| Deals.DedupKeepsFirst | backend/services/deals_service.py:141-146 | Each kept candidate is the first candidate with its key |
| Deals.DedupSorted | backend/services/deals_service.py:135-146 | Deduplicating a descending list leaves it descending |
| Deals.DedupKeepsMax | backend/services/deals_service.py:135-146 | In a descending list the kept candidate of a key scores at least as high as every candidate with that key |
| Deals.SortedRanking | backend/services/deals_service.py:135 | The global sort orders candidates by non-increasing meta-score |
| Deals.Cap | backend/services/deals_service.py:168-169 | The number of deals allowed is the limit, and 1 when the limit is below 1 (the check follows the append) |
| Deals.ToDeal | backend/services/deals_service.py:149-165 | A deal keeps its candidate's meta-score and offer key; a zero rating becomes None |
| Deals.BestDealsProperties | backend/services/deals_service.py:52-53 | The deals number at most the cap, come in non-increasing meta-score order, never repeat an offer key, and are empty when no group has 5 offers (also lines 134-171) |
| Deals.BestDealsCoverAll | backend/services/deals_service.py:134-171 | When fewer deals than the cap come out, every candidate's offer has a deal scoring at least as high as that candidate |
| Deals.RankDealsCoverAll | backend/services/deals_service.py:135-169 | The same for any candidate list: ranking, deduplicating and capping loses no offer key unless the cap is reached |
| Deals.RankDealsFirstOfKey | backend/services/deals_service.py:135-169 | Every deal is the candidate that comes first for its offer key in descending meta-score order, turned into a response entry |
| Deals.RankDealsAreBest | backend/services/deals_service.py:135-169 | A candidate whose offer key has no deal was cut by the limit: the deals fill the cap and the last one scores at least as high as that candidate |
| Deals.BestDealsFirstOfKey | backend/services/deals_service.py:134-171 | Each returned deal is the highest-ranked candidate of its offer across all query groups |
| Deals.BestDealsAreBest | backend/services/deals_service.py:134-171 | An offer left out of the deals scores no higher than the last deal, and the deals fill the cap |
| Deals.ScoreOffers | backend/services/deals_service.py:95-128 | The row loop scores exactly the rows whose price survived the outlier filter, in order |
| Deals.CollectCandidates | backend/services/deals_service.py:56-132 | The group loop skips small groups and appends each group's top 3 in group order |
| Deals.TakeUnique | backend/services/deals_service.py:137-169 | The dedup loop with its early break yields the first candidate of each key, converted to deals, cut at the cap |
| Deals.GetRecentBestDeals | backend/services/deals_service.py:52-171 | The whole scoring, ranking and dedup procedure returns the deals its specification `BestDeals` describes |
| PriceFilter.GetPrice | backend/utils/filter.py:14-19 | A dict without `last_price` has price 0 |
| PriceFilter.RangePair | backend/utils/filter.py:9-10 | A falsy range is unused; a list range is used exactly when it has two entries |
| PriceFilter.LowerBound | backend/utils/filter.py:11 | A falsy lower bound acts as 0; any other is converted with `float` |
| PriceFilter.UpperBound | backend/utils/filter.py:12 | A falsy upper bound means no bound; any other bound converts exactly when `float` accepts it |
| PriceFilter.KeepInRangeIsFilter | backend/utils/filter.py:21 | The comprehension succeeds exactly when every item has a price, and then keeps exactly the items within the bounds, in order |
| PriceFilter.NoRangeKeepsItems | backend/utils/filter.py:9-10 | Without a usable `price` entry the items come back unchanged |
| PriceFilter.EmptyItems | backend/utils/filter.py:5-6 | An empty list comes back as is |
| PriceFilter.ApplyFiltersRange | backend/utils/filter.py:9-23 | With a two-number range an item is kept exactly when its price lies within the bounds, both inclusive (falsy bounds read as 0 and unbounded); the result is an in-order sublist |
| PriceFilter.ApplyFiltersExample | backend/utils/filter.py:21 | Prices 50, 150, 500 and 1200 filtered to [100, 1000] keep 150 and 500 |
| PriceFilter.KeepInRangeExample | backend/utils/filter.py:21 | The comprehension on those four prices keeps the second and third item |
| Repository.NormalizeQuery | backend/repositories/repository.py:19-21 | An empty or non-string query is rejected with ValidationError, and every other query normalises |
| Repository.NormalizeIsJoinedWords | backend/repositories/repository.py:21 | A query normalises to its lower-cased words joined by single spaces |
| Repository.NormalizedForm | backend/repositories/repository.py:21 | A normalised query has no upper-case letter, no surrounding whitespace, and only single spaces between words |
| Repository.SameWordsSameQuery | backend/repositories/repository.py:21 | Queries with the same lower-cased words normalise to the same string, whatever their case and spacing |
| Repository.NormalizeIdempotent | backend/repositories/repository.py:21 | Normalising a non-empty normalised query changes nothing |
| Repository.WhitespaceOnlyQuery | backend/repositories/repository.py:19-21 | A whitespace-only query passes the check and normalises to the empty string |
| Repository.RecentSearches | backend/repositories/repository.py:105-106 | A limit below 1 raises ValidationError, and any other limit succeeds |
| Repository.RecentSearchesAreNewest | backend/repositories/repository.py:108-118 | The result holds min(limit, count) stored searches, newest first, and no search left out (counting copies) is newer than one returned |
| Repository.CachedSearch | backend/repositories/repository.py:136-142 | A cache hit has the query and is no older than the maximum age |
| Repository.CachedSearchIsNewest | backend/repositories/repository.py:126-142 | A hit is the newest stored search with the query, and there is no hit exactly when every search with the query is older than the cutoff |
| Repository.CachedSearchMonotone | backend/repositories/repository.py:139-140 | A hit stays a hit with a larger maximum age or at an earlier time |
| OfferService.Offset | backend/services/offer_service.py:17 | The offset is non-negative once the paging parameters are valid |
| OfferService.OffsetAdvances | backend/services/offer_service.py:17 | Page 1 starts at offset 0 and each page starts where the previous one ends |
| OfferService.FetchPage | backend/services/offer_service.py:20-28 | A page holds at most `page_size` offers, and exactly the linked offers from the offset on when there are enough |
| OfferService.OffersForSearch | backend/services/offer_service.py:13-14 | page < 1, page_size < 1 and page_size > 100 raise ValidationError, and nothing else does |
| OfferService.OffersForSearchPage | backend/services/offer_service.py:30-38 | The result is a permutation of the fetched page. With `last_price` or `rating` it is ordered by that key, descending exactly for "desc", and equal keys keep the fetched order. Otherwise the fetched order is kept |
| OfferService.PagesAreConsecutive | backend/services/offer_service.py:17-25 | Two consecutive pages together are the linked offers from the first page's offset on, with no gap or overlap |
| Sorting.SortByIsSorted | backend/services/offer_service.py:36 | The sort standing for `list.sort(key, reverse)` orders by the key, non-decreasing or, when reversed, non-increasing |
| Sorting.SortByStable | backend/services/offer_service.py:36 | The sort keeps the relative order of elements with equal keys, in both directions |
| Pagination.Run | frontend/src/components/Pagination.jsx:12-14 | A `for` loop from lo to hi pushes exactly the page numbers lo..hi |
| Pagination.GetPageNumbers | frontend/src/components/Pagination.jsx:7-40 | Pushing onto `pages` yields the four-branch window `PageNumbers` |
| Pagination.PageNumbersWindow | frontend/src/components/Pagination.jsx:11-37 | With at most 5 pages every page has a button. Otherwise the window starts at 1, ends at the last page and has at most 7 entries, all within range. Adjacent numbers are consecutive pages, and a '...' stands exactly where pages are skipped |
| Pagination.SmallWindow | frontend/src/components/Pagination.jsx:11-14 | Buttons 1..totalPages form a window |
| Pagination.HeadWindow | frontend/src/components/Pagination.jsx:16-21 | [1, 2, 3, 4, '...', last] forms a window |
| Pagination.TailWindow | frontend/src/components/Pagination.jsx:22-27 | [1, '...', last-3 .. last] forms a window |
| Pagination.MiddleWindow | frontend/src/components/Pagination.jsx:28-36 | [1, '...', c-1, c, c+1, '...', last] forms a window |
| Pagination.CurrentPageShown | frontend/src/components/Pagination.jsx:11-36 | The current page, when it exists, always has a button |
| Pagination.ShownRange | frontend/src/components/Pagination.jsx:4-5 | The first item shown is one past the backend offset of the page; the range lies within 1..totalItems and counts the page's items, at most `itemsPerPage` |
| Pagination.RenderedHasTwoPages | frontend/src/components/Pagination.jsx:42 | A rendered widget (more than one page) shows page 1 first and the last page last |
| DataTransformation.ConvertAllSkipsFailures | backend/services/data_transformation_service.py:16-21 | A loop fails exactly when a rejected item is not a dict, since the handler calls `.get` on it, or when a conversion is one the model does not reproduce. The error is then AttributeError, unless such a conversion occurred. Otherwise the loop yields the offers of exactly the items that convert, in input order |
| DataTransformation.ConvertAllFailureStays | backend/services/data_transformation_service.py:16-21 | An exception raised for one item ends the loop: the loop's result is that of the prefix that raised |
| DataTransformation.ConvertAllCount | backend/services/data_transformation_service.py:14-21 | A loop yields at most one offer per item, and one for every item exactly when no converter fails |
| DataTransformation.Outputs | backend/services/data_transformation_service.py:18-19 | Converting items that all convert yields one offer per item |
| DataTransformation.TransformConcatenates | backend/services/data_transformation_service.py:14-39 | The output is the eBay offers, then the DummyJSON `items_filtered` offers, then the Amazon `products` offers, each skipping the items that fail |
| DataTransformation.TransformCount | backend/services/data_transformation_service.py:14-39 | The output is no longer than all the input items together, and equally long exactly when no converter fails |
| DataTransformation.UnrecoverableEbayItem | backend/services/data_transformation_service.py:20-21 | A failing eBay item that is not a dict makes the whole transformation raise, and the exception is AttributeError when every eBay conversion is reproduced by the model |
| DataTransformation.MissingSourcesContributeNothing | backend/services/data_transformation_service.py:16-32 | A missing provider key contributes no items |
| DataTransformation.AppendConverted | backend/services/data_transformation_service.py:16-21 | The append loop extends the offers so far by exactly the loop's result, or raises what the loop raises |
| DataTransformation.TransformSearchResults | backend/services/data_transformation_service.py:10-39 | The three append loops with the three adapters compute the specification `Transform` |
| DataTransformation.FailedDummyJsonAsWritten | backend/services/search_services.py:43-45 | As written, a failed DummyJSON search makes the whole transformation raise AttributeError |
| DataTransformation.FailedSourcesSkipped | backend/services/search_services.py:43-54 | With the corrected fallback, failed providers contribute nothing and the eBay offers come through |
| Price.ParseIntToString | backend/utils/price.py:6 | Printing an integer and reading it back as a decimal gives the integer |
| Price.ToDecimalInt | backend/utils/price.py:6 | An integer keeps its value |
| Price.ToDecimalIntString | backend/utils/price.py:6 | A string holding an integer numeral converts to that integer |
| Price.ToDecimalFractionString | backend/utils/price.py:6 | A decimal string `w.f` converts to the number it denotes |
| Price.DecimalValueExample | backend/utils/price.py:6 | "7.25" denotes 7.25 |
| Price.ToDecimalExponent | backend/utils/price.py:6 | A string in scientific notation `m e d` converts to m scaled up by d decimal places, and `m e-d` to m scaled down by d places |
| Price.ToDecimalIgnoresUnderscore | backend/utils/price.py:6 | `Decimal` drops every underscore, so removing any one underscore from the string does not change the result |
| Text.ExponentForm | backend/utils/price.py:6 | A literal `m e d` reads as the digits of m scaled by 10^d |
| Text.PlusExponentForm | backend/utils/price.py:6 | A literal `m e+d` reads the same as `m e d` |
| Text.NegativeExponentForm | backend/utils/price.py:6 | A literal `m e-d` reads as the digits of m scaled by 10^-d |
| Text.ScaleUp | backend/utils/price.py:6 | Scaling by a non-negative exponent x multiplies by 10^x |
| Text.ScaleDown | backend/utils/price.py:6 | Scaling by a negative exponent -k divides by 10^k |
| Text.GroupedDigits | backend/utils/filter.py:19 | Digits grouped by one underscore read as the digits joined |
| Text.DoubleUnderscore | backend/utils/filter.py:19 | Two underscores in a row make the text no literal |
| Text.DecimalIgnoresUnderscore | backend/utils/price.py:6 | Read as a Decimal, a text with one underscore removed reads the same |
| Price.ToDecimalNone | backend/utils/price.py:7-8 | None is not a decimal literal and converts to 0 |
| Price.ToDecimalEmpty | backend/utils/price.py:7-8 | The empty string converts to 0 |
| Price.NormalizeCurrencyProperties | backend/utils/price.py:10-11 | None or "" give "USD", and any other string is upper-cased. A result has no lower-case ASCII letter, and normalising it again changes nothing |
| Price.NormalizeCurrencyExamples | backend/utils/price.py:11 | "usd" becomes "USD" and "EUR" stays "EUR" |
| EbayAdapter.EbayTokenCache.constructor | backend/adapters/ebay_adapter.py:23-24 | The cache starts with no token and expiry 0 |
| EbayAdapter.EbayTokenCache.GetValidToken | backend/adapters/ebay_adapter.py:26-42 | A token is fetched exactly when none is cached or now >= expiry, and then expiry becomes now + expires_in - 60. Otherwise the cached token is returned and nothing changes. A failed fetch raises ExternalAPIError and leaves the cache unchanged. An `expires_in` that is not a number raises ExternalAPIError after the new token is cached, with the old expiry kept |
| Json.PyNumber | backend/adapters/ebay_adapter.py:37 | Exactly integers, floats and booleans can be added to a float; integers and floats keep their value |
| EbayAdapter.UrlLimitReadsBack | backend/adapters/ebay_adapter.py:52 | The limit written into the URL reads back as the same number |
| EbayAdapter.BuildSearchUrlDefault | backend/adapters/ebay_adapter.py:50-52 | A falsy limit gives `base?q=<query>&limit=50` |
| EbayAdapter.BuildSearchUrlRounded | backend/adapters/ebay_adapter.py:50-52 | A truthy limit builds a URL exactly when it rounds, and the URL carries the rounded limit |
| EbayAdapter.ConvertConditions | backend/adapters/ebay_adapter.py:104-108 | There are never more codes than conditions |
| EbayAdapter.ConvertConditionsRoundTrip | backend/adapters/ebay_adapter.py:16-20 | Every code is 1000, 2000 or 3000, and reading the codes back gives exactly the known conditions in input order; all conditions convert exactly when all are known (also line 108) |
| EbayAdapter.EbayToOfferFields | backend/adapters/ebay_adapter.py:87-101 | An item that is not a dict is rejected. A converted item has source "ebay" and keeps the item's title, URL and id. Its rating is None exactly when the item has no seller |
| EbayAdapter.EbayMissingFields | backend/adapters/ebay_adapter.py:91-100 | An item without price, seller and image converts with price 0, currency "USD", and seller, image and rating None |
| EbayAdapter.EbayFullItem | backend/adapters/ebay_adapter.py:93-100 | A full item converts its price string to its value and upper-cases its currency. The seller's name becomes the seller and the feedback percentage the rating |
| EbayAdapter.EbaySellerRating | backend/adapters/ebay_adapter.py:100 | For every item with a seller dict that converts, the rating is `float` of `feedbackPercentage`. That is 0.0 when the seller has none, the number itself for an int or float, and the literal's value for a string |
| EbayAdapter.EbayBadFeedback | backend/adapters/ebay_adapter.py:100 | A `feedbackPercentage` string that is no float literal makes the conversion raise ValueError |
| DummyJsonAdapter.SlicePrefix | backend/adapters/dummyjson_adapter.py:39 | A slice succeeds exactly on a list or a string |
| DummyJsonAdapter.ApplyLimitKeepsPrefix | backend/adapters/dummyjson_adapter.py:33-41 | Only `items_filtered` changes. It holds the first round(limit) products when the limit is truthy and rounds to a positive number, and all products otherwise |
| DummyJsonAdapter.DummyJsonToOfferFields | backend/adapters/dummyjson_adapter.py:46-60 | An item that is not a dict is rejected. A converted item has source "dummyjson", currency "USD", no seller and a rating. Its image is the thumbnail, its id a string, and its URL the products URL followed by the id |
| DummyJsonAdapter.DummyJsonMissingFields | backend/adapters/dummyjson_adapter.py:51-59 | An item with only an id and a title gets price 0, rating 0.0, no image, and the id as its offer id and URL suffix |
| DummyJsonAdapter.DummyJsonFallbacks | backend/adapters/dummyjson_adapter.py:51-59 | For every product that converts: a missing or falsy title, price or rating (None, 0, "", an empty list or dict) gives "", 0 and 0.0. A truthy title is kept, a truthy price goes through `to_decimal` and a truthy rating through `float` |
| DummyJsonAdapter.DummyJsonPriceAndRating | backend/adapters/dummyjson_adapter.py:52-59 | A non-zero price and rating are carried over unchanged |
| AmazonAdapter.RemoveChar | backend/adapters/amazon_adapter.py:68 | `replace(c, "")` leaves no `c` in the text |
| AmazonAdapter.PriceTextProperties | backend/adapters/amazon_adapter.py:68 | The price text has no "$" and no ","; a text without them is unchanged |
| AmazonAdapter.AmazonPriceWithSymbols | backend/adapters/amazon_adapter.py:68 | A price such as "$1,234.56" converts to the number its digits denote |
| AmazonAdapter.ApplyLimitKeepsPrefix | backend/adapters/amazon_adapter.py:53-60 | The response holds only `products`. With a positive limit these are the first min(limit, count) products in order; with a falsy limit, all of them |
| AmazonAdapter.AmazonToOfferFields | backend/adapters/amazon_adapter.py:62-76 | An item that is not a dict is rejected. A converted item has source "amazon", no seller, and the item's asin, title and photo. It has a rating exactly when the star rating is truthy, and its currency has no lower-case letter |
| AmazonAdapter.AmazonValues | backend/adapters/amazon_adapter.py:68-75 | For every item that converts, the currency is `normalize_currency` of the item's currency (default "USD"). The price is `to_decimal` of the price text without "$" and ",", and the URL is kept. A truthy star rating is read by `float` |
| AmazonAdapter.AmazonRejects | backend/adapters/amazon_adapter.py:68-69 | A price that is not a string, or a truthy currency that is not a string, raises AttributeError |
| Json.Get | backend/utils/filter.py:19 | `d.get(key, default)` is the entry when present and the default otherwise |
| Json.PyFloat | backend/utils/filter.py:17-19 | `float` keeps integers and floats and rejects None, lists and dicts with TypeError |
| Json.PyFloatExponent | backend/utils/filter.py:19 | `float` reads scientific notation `m e d` and `m e-d` as m scaled by 10^d and 10^-d |
| Json.PyFloatGrouping | backend/utils/filter.py:19 | `float` accepts digits grouped by one underscore, with their joined value, and raises ValueError on two underscores in a row |
| Json.RoundHalfEvenIsNearest | backend/adapters/ebay_adapter.py:50 | `round` picks a nearest integer: none is closer, a tie picks the even one, and an integer rounds to itself |

## Left out

- SQL and ORM access is not modelled:
  - the two queries of `get_recent_best_deals`;
  - `create_search` and `update_or_create_offer_with_history`;
  - the queries behind the recent-searches listing, the cache and offer paging.

  Their results are inputs: query groups of rows, stored searches, and the offers
  linked to a search in database order.
- Network I/O is not modelled: the HTTP calls of `search_ebay`, `search_dummyjson`
  and `search_amazon`, and the OAuth request. The response or the request's outcome
  is a parameter. Logging and `print` calls are dropped.
- Deals.GroupStdDev: the square root in `statistics.stdev` is a function parameter
  `stdev`. It is applied only when more than one price remains, as on line 89.
- Deals.ToDeal: rounding is not modelled. The meta-score keeps its exact value
  instead of `round(..., 4)`. The average and discount percentage are not rounded to
  2 places, and `Decimal(str(...))` is not applied to them.
- Deals.RecencyScore: `datetime.utcnow()` is the parameter `now`. Dates are real
  numbers of seconds, and the function takes the hours elapsed.
- Floating-point arithmetic is exact real arithmetic. Float ties and overflow do not
  arise in the model.
- Price.ToDecimal: `str()` of a float is not reproduced. A float converts to its own
  value. Lists and dicts print with a bracket and so fall back to 0. The strings
  `inf`, `infinity`, `nan` and `snan` are read as no literal, because their values are
  not real numbers. Digits outside ASCII (Arabic-Indic, full-width and the like) are
  not recognised.
- Json.PyFloat: `inf`, `infinity` and `nan` strings raise ValueError in the model,
  where Python returns a non-finite float. Non-ASCII digits are not recognised, and a
  literal too large for a double does not become infinity.
- Text case mapping covers ASCII letters only (`lower`, `upper`). The whitespace set
  is that of `str.isspace` for the characters the model lists.
- DataTransformation.ConvertAllSkipsFailures: a conversion the model cannot reproduce
  (`Unmodelled`) stops the transformation with `Unmodelled`, where the program would
  either append an offer or skip the item. One case is `str()` of a float id,
  e.g. `{"id": 1.5}`. The model claims nothing about such inputs.
- `for item in d` over a dict is not modelled (`Unmodelled`), because a Dafny map
  keeps no insertion order.
- The in-place sorts (deals_service.py:131 and 135, offer_service.py:36) are value
  sorts on sequences. The result is the same stable order; aliasing of the sorted
  list is not represented.
- EbayAdapter.EbayTokenCache.GetValidToken: a token request that returns None as its
  token is not modelled. A fetched token is always a string.
- The `Offer` ORM model has no `seller` column, although `get_recent_best_deals`
  reads `offer.seller`. The `Offer` datatype here carries a seller.
- `search_all_sources` overwrites `items_filtered` with the untruncated products
  (search_services.py:40). This is modelled in
  `DataTransformation.SearchAllSourcesAsWritten`, so the DummyJSON limit does not
  reach the transformation.
- `get_offers_for_search` builds `OfferResponse` objects with `from_orm`. The model
  returns the offers themselves.

## Findings

| source | as written | input that shows it | evidently intended | confidence | as-written member | corrected member |
|---|---|---|---|---|---|---|
| backend/services/search_services.py:45 | When the DummyJSON search fails, `results['dummyjson']` is set to the empty list `[]`. `transform_search_results` then calls `[].get('items_filtered', [])` (data_transformation_service.py:24), which raises AttributeError, so the whole transformation fails and even the eBay offers are lost | DummyJSON raising ExternalAPIError while eBay returns items that all convert | A failed provider contributes nothing, as for Amazon (line 54): store a response without items | not executed | DataTransformation.FailedDummyJsonAsWritten | DataTransformation.FailedSourcesSkipped |
