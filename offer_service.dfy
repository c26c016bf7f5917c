/** backend/services/offer_service.py: one page of the offers found by a search, in
    the requested order. The database query is replaced by the sequence of offers
    linked to the search, in the order the database returns them. */
module OfferService {
  import opened Common
  import opened Seqs
  import opened Sorting
  import opened Models

  const MaxPageSize := 100

  predicate ValidPaging(page: int, pageSize: int) {
    page >= 1 && pageSize >= 1 && pageSize <= MaxPageSize
  }

  /** `(page - 1) * page_size` */
  function Offset(page: int, pageSize: int): (off: int)
    ensures ValidPaging(page, pageSize) ==> off >= 0
  {
    (page - 1) * pageSize
  }

  /** Page 1 starts at 0 and each page starts where the previous one ends. */
  lemma OffsetAdvances(page: int, pageSize: int)
    requires ValidPaging(page, pageSize)
    ensures Offset(1, pageSize) == 0
    ensures Offset(page + 1, pageSize) == Offset(page, pageSize) + pageSize
  {
  }

  /** `.offset(offset).limit(page_size)` */
  function FetchPage(linked: seq<Offer>, offset: nat, limit: nat): (page: seq<Offer>)
    ensures |page| <= limit
    ensures offset + limit <= |linked| ==> page == linked[offset..offset + limit]
  {
    var lo := if offset < |linked| then offset else |linked|;
    var hi := if offset + limit < |linked| then offset + limit else |linked|;
    linked[lo..hi]
  }

  function LastPriceKey(o: Offer): real {
    o.lastPrice
  }

  /** `o.rating or 0` */
  function RatingKey(o: Offer): real {
    o.rating.GetOr(0.0)
  }

  /** The key for `sort_by`, when it is one of the two sortable columns. */
  function SortKey(sortBy: string): Option<Offer -> real> {
    if sortBy == "last_price" then Some(LastPriceKey)
    else if sortBy == "rating" then Some(RatingKey)
    else None
  }

  /** The fetched page in the requested order: sorted by the key, descending exactly
      when `sort_order` is "desc", or kept as fetched for any other `sort_by`. */
  function Arrange(offers: seq<Offer>, sortBy: string, sortOrder: string): seq<Offer> {
    match SortKey(sortBy)
    case Some(key) => SortBy(offers, key, sortOrder == "desc")
    case None => offers
  }

  /** `get_offers_for_search` */
  function OffersForSearch(linked: seq<Offer>, page: int, pageSize: int, sortBy: string, sortOrder: string)
    : (r: Result<seq<Offer>>)
    ensures r.Err? <==> !ValidPaging(page, pageSize)
    ensures r.Err? ==> r.error == ValidationError
  {
    if page < 1 || pageSize < 1 || pageSize > MaxPageSize then Err(ValidationError)
    else
      var offers := FetchPage(linked, Offset(page, pageSize), pageSize);
      if offers == [] then Ok([]) else Ok(Arrange(offers, sortBy, sortOrder))
  }

  /** The page holds exactly the fetched offers, nothing added or dropped, at most
      `page_size` of them; they are ordered by the key when `sort_by` names a sortable
      column, offers with equal keys keeping their fetched order, and are left in the
      fetched order otherwise. */
  lemma OffersForSearchPage(linked: seq<Offer>, page: int, pageSize: int, sortBy: string, sortOrder: string)
    requires ValidPaging(page, pageSize)
    ensures var fetched := FetchPage(linked, Offset(page, pageSize), pageSize);
            var r := OffersForSearch(linked, page, pageSize, sortBy, sortOrder).value;
            multiset(r) == multiset(fetched) && |r| <= pageSize
            && (SortKey(sortBy).None? ==> r == fetched)
            && (SortKey(sortBy).Some? ==>
                  var key := SortKey(sortBy).value;
                  (forall i, j :: 0 <= i < j < |r| ==> Before(key(r[i]), key(r[j]), sortOrder == "desc"))
                  && forall k :: Filter(r, HasKey(key, k)) == Filter(fetched, HasKey(key, k)))
  {
    var fetched := FetchPage(linked, Offset(page, pageSize), pageSize);
    if SortKey(sortBy).Some? {
      var key := SortKey(sortBy).value;
      SortByIsSorted(fetched, key, sortOrder == "desc");
      forall k
        ensures Filter(SortBy(fetched, key, sortOrder == "desc"), HasKey(key, k)) == Filter(fetched, HasKey(key, k))
      {
        SortByStable(fetched, key, sortOrder == "desc", k);
      }
    }
  }

  /** Consecutive pages are consecutive slices of the linked offers. */
  lemma PagesAreConsecutive(linked: seq<Offer>, page: int, pageSize: int)
    requires ValidPaging(page, pageSize)
    requires Offset(page + 1, pageSize) + pageSize <= |linked|
    ensures FetchPage(linked, Offset(page, pageSize), pageSize) + FetchPage(linked, Offset(page + 1, pageSize), pageSize)
         == linked[Offset(page, pageSize)..Offset(page + 1, pageSize) + pageSize]
  {
  }
}
