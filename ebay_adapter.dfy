/** backend/adapters/ebay_adapter.py: the OAuth token cache, the search URL, the
    condition codes and the conversion of an eBay item summary into an offer. */
module EbayAdapter {
  import opened Common
  import opened Seqs
  import opened Text
  import opened Json
  import opened Price
  import opened Models

  const EbayBaseUrl := "https://api.sandbox.ebay.com/buy/browse/v1/item_summary/search"

  /** Seconds before the reported expiry at which a cached token counts as expired. */
  const ExpiryMargin := 60.0

  /** The module globals `ebay_token_cache` and `ebay_token_expiry`. The call to
      eBay's OAuth endpoint is passed in as its outcome: the token and its
      `expires_in`, or the exception it raised. */
  class EbayTokenCache {
    var token: Option<string>
    var expiry: real

    constructor()
      ensures token == None && expiry == 0.0
    {
      token := None;
      expiry := 0.0;
    }

    /** A token is fetched when none is cached or the cached one has expired. */
    predicate NeedsRefresh(now: real)
      reads this
    {
      token.None? || now >= expiry
    }

    /** `get_valid_ebay_token`. The fetch result is the token and `expires_in` from the
        response. The token is stored before the expiry is computed, so an `expires_in`
        that is not a number leaves the new token cached with the old expiry, and the
        call raises ExternalAPIError. */
    method GetValidToken(now: real, fetched: Result<(string, Json)>) returns (r: Result<string>)
      modifies this
      ensures !old(NeedsRefresh(now)) ==>
                r == Ok(old(token).value) && token == old(token) && expiry == old(expiry)
      ensures old(NeedsRefresh(now)) && fetched.Ok? && PyNumber(fetched.value.1).Some? ==>
                r == Ok(fetched.value.0) && token == Some(fetched.value.0)
                && expiry == now + PyNumber(fetched.value.1).value - ExpiryMargin
      ensures old(NeedsRefresh(now)) && fetched.Ok? && PyNumber(fetched.value.1).None? ==>
                r == Err(ExternalApiError) && token == Some(fetched.value.0) && expiry == old(expiry)
      ensures old(NeedsRefresh(now)) && fetched.Err? ==>
                r == Err(ExternalApiError) && token == old(token) && expiry == old(expiry)
      ensures r.Ok? ==> token == Some(r.value)
      ensures fetched.Ok? && PyNumber(fetched.value.1).Some? && PyNumber(fetched.value.1).value > ExpiryMargin
              ==> r.Ok? && !NeedsRefresh(now)
    {
      if token.None? || now >= expiry {
        match fetched
        case Err(_) =>
          return Err(ExternalApiError);
        case Ok((t, expiresIn)) =>
          token := Some(t);
          match PyNumber(expiresIn)
          case None =>
            return Err(ExternalApiError);
          case Some(seconds) =>
            expiry := now + seconds - ExpiryMargin;
      }
      return Ok(token.value);
    }
  }

  /** `build_ebay_search_url`: the limit is `round(limit)`, or 50 when it is falsy. */
  function BuildSearchUrl(query: string, limit: Json): Result<string> {
    var n :- if Truthy(limit) then PyRound(limit) else Ok(50);
    Ok(EbayBaseUrl + "?q=" + query + "&limit=" + IntToString(n))
  }

  /** The text after the last occurrence of c (all of s when c does not occur). */
  function AfterLast(s: string, c: char): (r: string)
    ensures c !in r
  {
    if s == [] then []
    else if s[|s| - 1] == c then []
    else AfterLast(s[..|s| - 1], c) + [s[|s| - 1]]
  }

  /** The number after the last '=' of a URL: the `limit` parameter of a search URL. */
  function LimitOf(url: string): Option<real> {
    ParseDecimal(AfterLast(url, '='))
  }

  lemma {:induction false} AfterLastAppend(a: string, c: char, b: string)
    requires c !in b
    ensures AfterLast(a + [c] + b, c) == b
  {
    if b == [] {
      assert (a + [c] + b)[|a + [c] + b| - 1] == c;
    } else {
      var s := a + [c] + b;
      assert s[|s| - 1] == b[|b| - 1] && s[..|s| - 1] == a + [c] + b[..|b| - 1];
      AfterLastAppend(a, c, b[..|b| - 1]);
      assert b[..|b| - 1] + [b[|b| - 1]] == b;
    }
  }

  lemma NoEqualsInNumeral(i: int)
    ensures '=' !in IntToString(i)
  {
    var d := NatToString(if i < 0 then -i else i);
    assert forall k :: 0 <= k < |d| ==> IsDigit(d[k]);
  }

  /** The limit written into a search URL reads back from it, whatever the query. */
  lemma UrlLimitReadsBack(query: string, n: int)
    ensures LimitOf(EbayBaseUrl + "?q=" + query + "&limit=" + IntToString(n)) == Some(n as real)
  {
    var head := EbayBaseUrl + "?q=" + query + "&limit";
    assert EbayBaseUrl + "?q=" + query + "&limit=" + IntToString(n) == head + ['='] + IntToString(n);
    NoEqualsInNumeral(n);
    AfterLastAppend(head, '=', IntToString(n));
    ParseIntToString(n);
  }

  /** A falsy limit gives limit 50. */
  lemma BuildSearchUrlDefault(query: string, limit: Json)
    requires !Truthy(limit)
    ensures BuildSearchUrl(query, limit) == Ok(EbayBaseUrl + "?q=" + query + "&limit=" + "50")
    ensures LimitOf(BuildSearchUrl(query, limit).value) == Some(50.0)
  {
    assert IntToString(50) == "50" by {
      assert NatToString(5) == "5";
    }
    UrlLimitReadsBack(query, 50);
  }

  /** Any other limit is rounded, and the URL carries the rounded value; only a limit
      `round` cannot take is rejected. */
  lemma BuildSearchUrlRounded(query: string, limit: Json)
    requires Truthy(limit)
    ensures BuildSearchUrl(query, limit).Ok? <==> PyRound(limit).Ok?
    ensures PyRound(limit).Ok? ==>
              LimitOf(BuildSearchUrl(query, limit).value) == Some(PyRound(limit).value as real)
  {
    if PyRound(limit).Ok? {
      UrlLimitReadsBack(query, PyRound(limit).value);
    }
  }

  /** `EBAY_CONDITION_MAP`. */
  function ConditionCode(c: string): Option<int> {
    if c == "new" then Some(1000)
    else if c == "refurbished" then Some(2000)
    else if c == "used" then Some(3000)
    else None
  }

  /** The condition a code stands for: the map read backwards. */
  function ConditionName(code: int): Option<string> {
    if code == 1000 then Some("new")
    else if code == 2000 then Some("refurbished")
    else if code == 3000 then Some("used")
    else None
  }

  predicate KnownCondition(c: string) {
    ConditionCode(c).Some?
  }

  /** `convert_conditions_for_ebay`: the codes of the known conditions, in order. */
  function ConvertConditions(conditions: seq<string>): (r: seq<int>)
    ensures |r| <= |conditions|
  {
    var known := Filter(conditions, KnownCondition);
    seq(|known|, i requires 0 <= i < |known| => ConditionCode(known[i]).value)
  }

  function ConditionNames(codes: seq<int>): seq<string>
    requires forall i :: 0 <= i < |codes| ==> ConditionName(codes[i]).Some?
  {
    seq(|codes|, i requires 0 <= i < |codes| => ConditionName(codes[i]).value)
  }

  /** Every code is 1000, 2000 or 3000, and reading the codes back gives exactly the
      known conditions in their input order: unknown names are dropped, nothing else. */
  lemma ConvertConditionsRoundTrip(conditions: seq<string>)
    ensures forall i :: 0 <= i < |ConvertConditions(conditions)| ==>
              ConvertConditions(conditions)[i] in {1000, 2000, 3000}
    ensures ConditionNames(ConvertConditions(conditions)) == Filter(conditions, KnownCondition)
    ensures (|ConvertConditions(conditions)| == |conditions|)
            <==> (forall i :: 0 <= i < |conditions| ==> KnownCondition(conditions[i]))
  {
    var known := Filter(conditions, KnownCondition);
    if forall i :: 0 <= i < |conditions| ==> KnownCondition(conditions[i]) {
      FilterAll(conditions, KnownCondition);
    } else {
      var k :| 0 <= k < |conditions| && !KnownCondition(conditions[k]);
      FilterMembership(conditions, KnownCondition, conditions[k]);
      FilterIsSubsequence(conditions, KnownCondition);
      FilterShorter(conditions, KnownCondition, k);
    }
  }

  /** `ebay_to_offer`: only a dict has `.get`, so the item and its price, seller and
      image entries (when present) must be dicts. */
  function EbayToOffer(item: Json): Result<OfferCreate> {
    match item
    case JObj(m) =>
      var price := Get(m, "price", JObj(map[]));
      var seller := Get(m, "seller", JObj(map[]));
      var image := Get(m, "image", JObj(map[]));
      if !price.JObj? || !seller.JObj? || !image.JObj? then Err(AttributeError)
      else
        var code :- NormalizeCurrency(Get(price.fields, "currency", JStr("USD")));
        var rating :- if "seller" in m then
                        var v :- PyFloat(Get(seller.fields, "feedbackPercentage", JFloat(0.0)));
                        Ok(Some(v))
                      else Ok(None);
        Ok(OfferCreate(
          Get(m, "title", JStr("")), ToDecimal(Get(price.fields, "value", JFloat(0.0))), code,
          Get(m, "itemWebUrl", JStr("")), "ebay", Get(m, "itemId", JStr("")),
          Get(seller.fields, "username", JNull), Get(image.fields, "imageUrl", JNull), rating))
    case _ => Err(AttributeError)
  }

  /** Every converted offer has source "ebay" and carries the item's title, URL and id
      (empty strings when missing); an item that is not a dict is rejected. */
  lemma EbayToOfferFields(item: Json)
    ensures !item.JObj? ==> EbayToOffer(item) == Err(AttributeError)
    ensures EbayToOffer(item).Ok? ==>
              var o := EbayToOffer(item).value;
              o.source == "ebay"
              && o.title == Get(item.fields, "title", JStr(""))
              && o.url == Get(item.fields, "itemWebUrl", JStr(""))
              && o.sourceOfferId == Get(item.fields, "itemId", JStr(""))
              && (o.rating.None? <==> "seller" !in item.fields)
  {
  }

  /** An item without price, seller and image converts: price 0, currency "USD", and
      seller, image and rating None. */
  lemma EbayMissingFields(m: map<string, Json>)
    requires "price" !in m && "seller" !in m && "image" !in m
    ensures EbayToOffer(JObj(m)) == Ok(OfferCreate(
              Get(m, "title", JStr("")), 0.0, "USD", Get(m, "itemWebUrl", JStr("")),
              "ebay", Get(m, "itemId", JStr("")), JNull, JNull, None))
  {
    assert Upper("USD") == "USD";
    assert PyStr(JFloat(0.0)).Err?;
  }

  /** A full item: the price string `w.f` gives its value, the currency is upper-cased,
      and the seller's name and feedback percentage become seller and rating. */
  lemma EbayFullItem(m: map<string, Json>, price: map<string, Json>, seller: map<string, Json>,
                     w: string, f: string)
    requires AllDigits(w) && AllDigits(f) && w != []
    requires "price" in m && m["price"] == JObj(price)
    requires "value" in price && price["value"] == JStr(w + "." + f)
    requires "currency" in price && price["currency"].JStr? && price["currency"].s != ""
    requires "seller" in m && m["seller"] == JObj(seller)
    requires "feedbackPercentage" in seller && seller["feedbackPercentage"].JFloat?
    requires "image" in m && m["image"].JObj?
    ensures EbayToOffer(JObj(m)).Ok?
    ensures EbayToOffer(JObj(m)).value.lastPrice == DecimalValue(w, f)
    ensures EbayToOffer(JObj(m)).value.currency == Upper(price["currency"].s)
    ensures EbayToOffer(JObj(m)).value.seller == Get(seller, "username", JNull)
    ensures EbayToOffer(JObj(m)).value.rating == Some(seller["feedbackPercentage"].f)
  {
    assert Get(m, "price", JObj(map[])) == JObj(price);
    assert Get(m, "seller", JObj(map[])) == JObj(seller);
    assert NormalizeCurrency(Get(price, "currency", JStr("USD"))) == Ok(Upper(price["currency"].s));
    assert PyFloat(Get(seller, "feedbackPercentage", JFloat(0.0))) == Ok(seller["feedbackPercentage"].f);
    assert ToDecimal(Get(price, "value", JFloat(0.0))) == DecimalValue(w, f) by {
      ToDecimalFractionString(w, f);
    }
  }

  /** The rating of a converted item with a seller is `float` of the seller's
      `feedbackPercentage`: 0.0 when the seller has none, the number for a numeric
      value, and the literal's value for a string. */
  lemma EbaySellerRating(m: map<string, Json>)
    requires "seller" in m && m["seller"].JObj?
    requires EbayToOffer(JObj(m)).Ok?
    ensures var seller := m["seller"].fields;
            var o := EbayToOffer(JObj(m)).value;
            ("feedbackPercentage" !in seller ==> o.rating == Some(0.0))
            && ("feedbackPercentage" in seller && seller["feedbackPercentage"].JFloat? ==>
                  o.rating == Some(seller["feedbackPercentage"].f))
            && ("feedbackPercentage" in seller && seller["feedbackPercentage"].JInt? ==>
                  o.rating == Some(seller["feedbackPercentage"].i as real))
            && ("feedbackPercentage" in seller && seller["feedbackPercentage"].JStr? ==>
                  ParseLiteral(seller["feedbackPercentage"].s).Some?
                  && o.rating == Some(ParseLiteral(seller["feedbackPercentage"].s).value))
  {
    assert Get(m, "seller", JObj(map[])) == m["seller"];
  }

  /** A seller whose `feedbackPercentage` is a string that is no float literal makes
      the conversion raise ValueError, once price and currency have been read. */
  lemma EbayBadFeedback(m: map<string, Json>, t: string)
    requires "price" !in m && "image" !in m
    requires "seller" in m && m["seller"].JObj?
    requires "feedbackPercentage" in m["seller"].fields
    requires m["seller"].fields["feedbackPercentage"] == JStr(t) && ParseLiteral(t).None?
    ensures EbayToOffer(JObj(m)) == Err(ValueError)
  {
    assert Get(m, "seller", JObj(map[])) == m["seller"];
    assert NormalizeCurrency(JStr("USD")) == Ok("USD") by {
      assert Upper("USD") == "USD";
    }
  }
}
