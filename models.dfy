/** The persisted rows the services read: offers and searches. Timestamps are seconds
    on one clock, as `datetime` values differ by `total_seconds()`. */
module Models {
  import opened Common
  import opened Json

  /** A row of the `offers` table (backend/models/offers.py). */
  datatype Offer = Offer(
    id: int,
    source: string,
    sourceOfferId: string,
    title: string,
    lastPrice: real,
    currency: string,
    url: string,
    imageUrl: Option<string>,
    seller: Option<string>,
    rating: Option<real>,
    createdAt: real)

  /** A row of the `searches` table (backend/models/searches.py). */
  datatype Search = Search(id: int, query: string, normalizedQuery: string, createdAt: real)

  /** Offers are unique per `(source, source_offer_id)`. */
  datatype OfferKey = OfferKey(source: string, sourceOfferId: string)

  function KeyOf(o: Offer): OfferKey {
    OfferKey(o.source, o.sourceOfferId)
  }

  /** The `OfferCreate` dict an adapter builds from one provider item. Fields the
      adapters copy from the provider's JSON without converting stay `Json`. */
  datatype OfferCreate = OfferCreate(
    title: Json,
    lastPrice: real,
    currency: string,
    url: Json,
    source: string,
    sourceOfferId: Json,
    seller: Json,
    imageUrl: Json,
    rating: Option<real>)
}
