/** backend/adapters/dummyjson_adapter.py: the limit applied to a DummyJSON response
    and the conversion of a DummyJSON product into an offer. */
module DummyJsonAdapter {
  import opened Common
  import opened Text
  import opened Json
  import opened Price
  import opened Models

  const ProductsUrl := "https://dummyjson.com/products/"

  /** `products[:n]` for a positive n, on the values a slice accepts. */
  function SlicePrefix(products: Json, n: int): (r: Result<Json>)
    requires n > 0
    ensures r.Ok? <==> products.JArr? || products.JStr?
  {
    match products
    case JArr(a) => Ok(JArr(a[..if n < |a| then n else |a|]))
    case JStr(s) => Ok(JStr(s[..if n < |s| then n else |s|]))
    case _ => Err(TypeError)
  }

  /** Lines 33-41 of `search_dummyjson`: the response's products, cut to the first
      `round(limit)` when the limit is truthy and rounds to a positive number, are
      stored back into the response as `items_filtered`. */
  function ApplyLimit(data: map<string, Json>, limit: Json): Result<map<string, Json>> {
    var products := Get(data, "products", JArr([]));
    var kept :- if Truthy(limit) then
                  var n :- PyRound(limit);
                  if n > 0 then SlicePrefix(products, n) else Ok(products)
                else Ok(products);
    Ok(data["items_filtered" := kept])
  }

  /** Only `items_filtered` changes. It holds the first min(round(limit), |products|)
      products when the limit is truthy and rounds to a positive number, and all of
      them otherwise; no product is reordered or invented. */
  lemma ApplyLimitKeepsPrefix(data: map<string, Json>, limit: Json, products: seq<Json>)
    requires Get(data, "products", JArr([])) == JArr(products)
    requires Truthy(limit) ==> PyRound(limit).Ok?
    ensures ApplyLimit(data, limit).Ok?
    ensures var out := ApplyLimit(data, limit).value;
            out.Keys == data.Keys + {"items_filtered"}
            && (forall k :: k in data && k != "items_filtered" ==> out[k] == data[k])
            && out["items_filtered"].JArr?
            && out["items_filtered"].items <= products
    ensures var n := if Truthy(limit) then PyRound(limit).value else 0;
            |ApplyLimit(data, limit).value["items_filtered"].items|
              == if n > 0 && n < |products| then n else |products|
  {
  }

  /** `dummyjson_to_offer`: a falsy title, price or rating falls back to "", 0 and 0;
      the currency is always "USD"; the URL and the offer id print the product id. */
  function DummyJsonToOffer(item: Json): Result<OfferCreate> {
    match item
    case JObj(m) =>
      var title := Get(m, "title", JStr(""));
      var price := Get(m, "price", JInt(0));
      var idText :- PyStr(Get(m, "id", JNull));
      var offerId :- PyStr(Get(m, "id", JStr("")));
      var rating := Get(m, "rating", JInt(0));
      var score :- PyFloat(if Truthy(rating) then rating else JInt(0));
      var code :- NormalizeCurrency(JStr("USD"));
      Ok(OfferCreate(
        if Truthy(title) then title else JStr(""),
        ToDecimal(if Truthy(price) then price else JInt(0)),
        code, JStr(ProductsUrl + idText), "dummyjson", JStr(offerId), JNull,
        Get(m, "thumbnail", JNull), Some(score)))
    case _ => Err(AttributeError)
  }

  /** Every converted product has source "dummyjson", currency "USD", no seller, a
      rating, the thumbnail as image, and a URL ending in its offer id when it has an
      id; an item that is not a dict is rejected. */
  lemma DummyJsonToOfferFields(item: Json)
    ensures !item.JObj? ==> DummyJsonToOffer(item) == Err(AttributeError)
    ensures DummyJsonToOffer(item).Ok? ==>
              var o := DummyJsonToOffer(item).value;
              o.source == "dummyjson" && o.currency == "USD" && o.seller == JNull
              && o.rating.Some? && o.imageUrl == Get(item.fields, "thumbnail", JNull)
              && o.sourceOfferId.JStr?
              && ("id" in item.fields ==> o.url == JStr(ProductsUrl + o.sourceOfferId.s))
  {
    assert Upper("USD") == "USD";
  }

  /** A product with only an integer id and a title: price 0, rating 0, no image, and
      the id printed into the URL and the offer id. */
  lemma DummyJsonMissingFields(m: map<string, Json>, id: int)
    requires m.Keys == {"id", "title"} && m["id"] == JInt(id)
    ensures DummyJsonToOffer(JObj(m)) == Ok(OfferCreate(
              if Truthy(m["title"]) then m["title"] else JStr(""), 0.0, "USD",
              JStr(ProductsUrl + IntToString(id)), "dummyjson", JStr(IntToString(id)),
              JNull, JNull, Some(0.0)))
  {
    assert "price" !in m && "rating" !in m && "thumbnail" !in m;
    assert NormalizeCurrency(JStr("USD")) == Ok("USD") by {
      assert Upper("USD") == "USD";
    }
    assert PyStr(Get(m, "id", JNull)) == Ok(IntToString(id));
    assert PyStr(Get(m, "id", JStr(""))) == Ok(IntToString(id));
    ToDecimalInt(0);
  }

  /** A present, truthy float price and rating carry over unchanged. */
  lemma DummyJsonPriceAndRating(m: map<string, Json>, price: real, rating: real)
    requires "price" in m && m["price"] == JFloat(price) && price != 0.0
    requires "rating" in m && m["rating"] == JFloat(rating) && rating != 0.0
    requires DummyJsonToOffer(JObj(m)).Ok?
    ensures DummyJsonToOffer(JObj(m)).value.lastPrice == price
    ensures DummyJsonToOffer(JObj(m)).value.rating == Some(rating)
  {
  }

  /** The falsy fallbacks of a converted product: a title, price or rating that is
      missing or falsy (None, 0, "", an empty list or dict) gives "", 0 and 0; a truthy
      title is kept, a truthy price goes through `to_decimal`, and a truthy rating
      through `float`. */
  lemma DummyJsonFallbacks(m: map<string, Json>)
    requires DummyJsonToOffer(JObj(m)).Ok?
    ensures var o := DummyJsonToOffer(JObj(m)).value;
            var title := Get(m, "title", JStr(""));
            (!Truthy(title) ==> o.title == JStr(""))
            && (Truthy(title) ==> o.title == title)
    ensures var o := DummyJsonToOffer(JObj(m)).value;
            var price := Get(m, "price", JInt(0));
            (!Truthy(price) ==> o.lastPrice == 0.0)
            && (Truthy(price) ==> o.lastPrice == ToDecimal(price))
    ensures var o := DummyJsonToOffer(JObj(m)).value;
            var rating := Get(m, "rating", JInt(0));
            (!Truthy(rating) ==> o.rating == Some(0.0))
            && (Truthy(rating) ==> PyFloat(rating).Ok? && o.rating == Some(PyFloat(rating).value))
  {
    var o := DummyJsonFields(m);
    ToDecimalInt(0);
  }

  /** The title, price and rating of a converted product, read off the conversion. */
  lemma DummyJsonFields(m: map<string, Json>) returns (o: OfferCreate)
    requires DummyJsonToOffer(JObj(m)).Ok?
    ensures o == DummyJsonToOffer(JObj(m)).value
    ensures var title := Get(m, "title", JStr(""));
            o.title == if Truthy(title) then title else JStr("")
    ensures var price := Get(m, "price", JInt(0));
            o.lastPrice == ToDecimal(if Truthy(price) then price else JInt(0))
    ensures var rating := Get(m, "rating", JInt(0));
            var r := if Truthy(rating) then rating else JInt(0);
            PyFloat(r).Ok? && o.rating == Some(PyFloat(r).value)
  {
    o := DummyJsonToOffer(JObj(m)).value;
  }
}
