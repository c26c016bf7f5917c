/** backend/adapters/amazon_adapter.py: the limit applied to an Amazon search
    response and the conversion of an Amazon product into an offer. */
module AmazonAdapter {
  import opened Common
  import opened Seqs
  import opened Text
  import opened Json
  import opened Price
  import opened Models

  function NotChar(c: char): char -> bool {
    x => x != c
  }

  /** `s.replace(c, "")`. */
  function RemoveChar(s: string, c: char): (r: string)
    ensures c !in r
  {
    var t := Filter(s, NotChar(c));
    assert forall i :: 0 <= i < |t| ==> t[i] != c;
    t
  }

  /** The price text with every "$" and "," removed. */
  function PriceText(s: string): string {
    RemoveChar(RemoveChar(s, '$'), ',')
  }

  /** Lines 53-60 of `search_amazon`: the products under `data`, cut to `[:limit]`
      when the limit is truthy, returned alone as `{"products": ...}`. Slicing needs an
      integer bound and a list or string to slice. */
  function ApplyLimit(data: map<string, Json>, limit: Json): Result<Json> {
    var products :- GetFrom(Get(data, "data", JObj(map[])), "products", JArr([]));
    var kept :- if !Truthy(limit) then Ok(products)
                else if !(limit.JInt? || limit.JBool?) then Err(TypeError)
                else
                  var k := if limit.JInt? then limit.i else 1;
                  match products
                  case JArr(a) => Ok(JArr(SliceTo(a, k)))
                  case JStr(s) => Ok(JStr(SliceTo(s, k)))
                  case _ => Err(TypeError);
    Ok(JObj(map["products" := kept]))
  }

  /** With a positive integer limit the response holds the first min(limit, |products|)
      products in order; with a falsy limit it holds them all. */
  lemma ApplyLimitKeepsPrefix(data: map<string, Json>, inner: map<string, Json>,
                              products: seq<Json>, limit: Json)
    requires "data" in data && data["data"] == JObj(inner)
    requires Get(inner, "products", JArr([])) == JArr(products)
    requires !Truthy(limit) || (limit.JInt? && limit.i > 0)
    ensures ApplyLimit(data, limit).Ok?
    ensures ApplyLimit(data, limit).value.fields.Keys == {"products"}
    ensures var kept := ApplyLimit(data, limit).value.fields["products"];
            kept.JArr? && kept.items <= products
            && |kept.items| == if limit.JInt? && 0 < limit.i < |products| then limit.i else |products|
  {
  }

  /** `amazon_to_offer`: the price text loses "$" and "," before conversion (a price
      that is not a string has no `.replace`); a falsy star rating gives no rating. */
  function AmazonToOffer(item: Json): Result<OfferCreate> {
    match item
    case JObj(m) =>
      var rawPrice := Get(m, "product_price", JStr("0"));
      var priceText :- if rawPrice.JStr? then Ok(PriceText(rawPrice.s)) else Err(AttributeError);
      var code :- NormalizeCurrency(Get(m, "currency", JStr("USD")));
      var rating :- if Truthy(Get(m, "product_star_rating", JNull)) then
                      var v :- PyFloat(Get(m, "product_star_rating", JInt(0)));
                      Ok(Some(v))
                    else Ok(None);
      Ok(OfferCreate(
        Get(m, "product_title", JStr("")), ToDecimal(JStr(priceText)), code,
        Get(m, "product_url", JStr("")), "amazon", Get(m, "asin", JStr("")), JNull,
        Get(m, "product_photo", JNull), rating))
    case _ => Err(AttributeError)
  }

  /** Every converted product has source "amazon", no seller, the asin (or "") as
      offer id and an upper-cased currency; it has a rating exactly when the star
      rating is truthy. An item that is not a dict is rejected. */
  lemma AmazonToOfferFields(item: Json)
    ensures !item.JObj? ==> AmazonToOffer(item) == Err(AttributeError)
    ensures AmazonToOffer(item).Ok? ==>
              var o := AmazonToOffer(item).value;
              o.source == "amazon" && o.seller == JNull
              && o.sourceOfferId == Get(item.fields, "asin", JStr(""))
              && o.title == Get(item.fields, "product_title", JStr(""))
              && o.imageUrl == Get(item.fields, "product_photo", JNull)
              && (o.rating.Some? <==> Truthy(Get(item.fields, "product_star_rating", JNull)))
              && (forall i :: 0 <= i < |o.currency| ==> !('a' <= o.currency[i] <= 'z'))
  {
    if AmazonToOffer(item).Ok? {
      NormalizeCurrencyProperties(Get(item.fields, "currency", JStr("USD")));
    }
  }

  /** The values of a converted product: the currency is `normalize_currency` of the
      item's currency (default "USD"), the price is `to_decimal` of the cleaned price
      text (default "0"), the URL is kept, and a truthy star rating is read by `float`. */
  lemma AmazonValues(m: map<string, Json>)
    requires AmazonToOffer(JObj(m)).Ok?
    ensures var o := AmazonToOffer(JObj(m)).value;
            var cur := Get(m, "currency", JStr("USD"));
            NormalizeCurrency(cur).Ok? && o.currency == NormalizeCurrency(cur).value
    ensures var o := AmazonToOffer(JObj(m)).value;
            var raw := Get(m, "product_price", JStr("0"));
            raw.JStr? && o.lastPrice == ToDecimal(JStr(PriceText(raw.s)))
    ensures AmazonToOffer(JObj(m)).value.url == Get(m, "product_url", JStr(""))
    ensures var o := AmazonToOffer(JObj(m)).value;
            var star := Get(m, "product_star_rating", JNull);
            Truthy(star) ==> PyFloat(star).Ok? && o.rating == Some(PyFloat(star).value)
  {
  }

  /** A price that is not a string has no `.replace`: AttributeError; so does a truthy
      currency that is not a string. */
  lemma AmazonRejects(m: map<string, Json>)
    ensures !Get(m, "product_price", JStr("0")).JStr? ==> AmazonToOffer(JObj(m)) == Err(AttributeError)
    ensures Get(m, "product_price", JStr("0")).JStr?
            && Truthy(Get(m, "currency", JStr("USD"))) && !Get(m, "currency", JStr("USD")).JStr?
            ==> AmazonToOffer(JObj(m)) == Err(AttributeError)
  {
  }

  /** The price text a string price leaves: no "$" or ",", and text without them
      passes through unchanged. */
  lemma PriceTextProperties(s: string)
    ensures '$' !in PriceText(s) && ',' !in PriceText(s)
    ensures '$' !in s && ',' !in s ==> PriceText(s) == s
  {
    FilterMembership(RemoveChar(s, '$'), NotChar(','), '$');
    if '$' !in s && ',' !in s {
      RemoveAbsent(s, '$');
      RemoveAbsent(s, ',');
    }
  }

  lemma RemoveAbsent(s: string, c: char)
    requires c !in s
    ensures RemoveChar(s, c) == s
  {
    assert forall i :: 0 <= i < |s| ==> NotChar(c)(s[i]);
    FilterAll(s, NotChar(c));
  }

  lemma RemoveConcat(a: string, b: string, c: char)
    ensures RemoveChar(a + b, c) == RemoveChar(a, c) + RemoveChar(b, c)
  {
    FilterConcat(a, b, NotChar(c));
  }

  lemma RemoveOnly(c: char)
    ensures RemoveChar([c], c) == []
  {
    FilterSingle(c, NotChar(c));
  }

  /** A price written "$w1,w2.f" converts to the number w1w2.f. */
  lemma AmazonPriceWithSymbols(w1: string, w2: string, f: string)
    requires AllDigits(w1) && AllDigits(w2) && AllDigits(f) && w1 != []
    ensures ToDecimal(JStr(PriceText("$" + w1 + "," + w2 + "." + f))) == DecimalValue(w1 + w2, f)
  {
    DigitsHaveNoSymbol(w1);
    DigitsHaveNoSymbol(w2);
    DigitsHaveNoSymbol(f);
    var tail := w2 + "." + f;
    assert "$" + w1 + "," + w2 + "." + f == "$" + (w1 + "," + tail);
    DropDollar(w1 + "," + tail);
    DropComma(w1, tail);
    assert w1 + tail == (w1 + w2) + "." + f;
    DigitsConcat(w1, w2);
    ToDecimalFractionString(w1 + w2, f);
  }

  lemma DropDollar(rest: string)
    requires '$' !in rest
    ensures RemoveChar("$" + rest, '$') == rest
  {
    RemoveConcat("$", rest, '$');
    RemoveOnly('$');
    RemoveAbsent(rest, '$');
  }

  lemma DropComma(w: string, tail: string)
    requires ',' !in w && ',' !in tail
    ensures RemoveChar(w + "," + tail, ',') == w + tail
  {
    var t := [','] + tail;
    assert w + "," + tail == w + t;
    assert RemoveChar(t, ',') == tail by {
      RemoveConcat([','], tail, ',');
      RemoveOnly(',');
      RemoveAbsent(tail, ',');
    }
    RemoveConcat(w, t, ',');
    RemoveAbsent(w, ',');
  }

  lemma DigitsHaveNoSymbol(w: string)
    requires AllDigits(w)
    ensures '$' !in w && ',' !in w && '.' !in w
  {
    assert forall i :: 0 <= i < |w| ==> IsDigit(w[i]);
  }

  lemma DigitsConcat(a: string, b: string)
    requires AllDigits(a) && AllDigits(b)
    ensures AllDigits(a + b)
  {
    assert forall i :: 0 <= i < |a + b| ==> (a + b)[i] == (if i < |a| then a[i] else b[i - |a|]);
  }
}
