/** backend/services/data_transformation_service.py: the raw results of the three
    providers turned into one list of offers, eBay first, then DummyJSON, then
    Amazon, skipping the items a converter rejects. */
module DataTransformation {
  import opened Common
  import opened Seqs
  import opened Json
  import opened Models
  import EbayAdapter
  import DummyJsonAdapter
  import AmazonAdapter

  /** A converter from one provider item to an offer, or the exception it raises. */
  type Converter = Json -> Result<OfferCreate>

  /** `for item in x`: a list yields its items and a string its characters; None,
      booleans and numbers are not iterable. A dict yields its keys in insertion
      order, which a map does not keep. */
  function Items(x: Json): Result<seq<Json>> {
    match x
    case JArr(a) => Ok(a)
    case JStr(s) => Ok(seq(|s|, i requires 0 <= i < |s| => JStr([s[i]])))
    case JObj(_) => Err(Unmodelled)
    case _ => Err(TypeError)
  }

  /** `raw_results.get('ebay', [])`. */
  function EbayItems(raw: map<string, Json>): Result<seq<Json>> {
    Items(Get(raw, "ebay", JArr([])))
  }

  /** `raw_results.get('dummyjson', {}).get('items_filtered', [])`. */
  function DummyJsonItems(raw: map<string, Json>): Result<seq<Json>> {
    var items :- GetFrom(Get(raw, "dummyjson", JObj(map[])), "items_filtered", JArr([]));
    Items(items)
  }

  /** `raw_results.get('amazon', {}).get('products', [])`. */
  function AmazonItems(raw: map<string, Json>): Result<seq<Json>> {
    var items :- GetFrom(Get(raw, "amazon", JObj(map[])), "products", JArr([]));
    Items(items)
  }

  /** One pass of a loop body: the converted offer is appended; when the converter
      raises, the handler reads the item's id with `.get`, which only a dict has, so
      a failing item that is not a dict ends the whole call. A conversion the model
      cannot reproduce (`Unmodelled`) is not an exception of the program, so it is
      passed on rather than handled. */
  function Step(done: seq<OfferCreate>, item: Json, convert: Converter): Result<seq<OfferCreate>> {
    match convert(item)
    case Ok(o) => Ok(done + [o])
    case Err(e) =>
      if e == Unmodelled then Err(Unmodelled)
      else if item.JObj? then Ok(done)
      else Err(AttributeError)
  }

  /** One loop, item by item in order. */
  function ConvertAll(items: seq<Json>, convert: Converter): Result<seq<OfferCreate>>
    decreases |items|
  {
    if items == [] then Ok([])
    else
      var done :- ConvertAll(items[..|items| - 1], convert);
      Step(done, items[|items| - 1], convert)
  }

  /** `transform_search_results`. */
  function Transform(raw: map<string, Json>, ebay: Converter, dummy: Converter, amazon: Converter)
    : Result<seq<OfferCreate>>
  {
    var ebayItems :- EbayItems(raw);
    var fromEbay :- ConvertAll(ebayItems, ebay);
    var dummyItems :- DummyJsonItems(raw);
    var fromDummy :- ConvertAll(dummyItems, dummy);
    var amazonItems :- AmazonItems(raw);
    var fromAmazon :- ConvertAll(amazonItems, amazon);
    Ok(fromEbay + fromDummy + fromAmazon)
  }

  function Converts(convert: Converter): Json -> bool {
    x => convert(x).Ok?
  }

  /** The offers of items that all convert, in order. */
  function Outputs(items: seq<Json>, convert: Converter): (r: seq<OfferCreate>)
    requires forall i :: 0 <= i < |items| ==> convert(items[i]).Ok?
    ensures |r| == |items|
  {
    seq(|items|, i requires 0 <= i < |items| => convert(items[i]).value)
  }

  /** Every item a converter rejects is a dict, so the handler can skip it, and the
      rejection is an exception the program raises. */
  predicate Recoverable(items: seq<Json>, convert: Converter) {
    forall i :: 0 <= i < |items| && convert(items[i]).Err? ==>
      items[i].JObj? && convert(items[i]).error != Unmodelled
  }

  /** No conversion of the items falls outside what the model reproduces. */
  predicate Modelled(items: seq<Json>, convert: Converter) {
    forall i :: 0 <= i < |items| ==> convert(items[i]) != Err(Unmodelled)
  }

  /** A loop fails exactly when a rejected item is not a dict, and then with the
      handler's AttributeError, unless a conversion was not reproduced; otherwise it
      yields the offers of exactly the items that convert, in input order. */
  lemma {:induction false} ConvertAllSkipsFailures(items: seq<Json>, convert: Converter)
    ensures ConvertAll(items, convert).Ok? <==> Recoverable(items, convert)
    ensures ConvertAll(items, convert).Err? ==>
              ConvertAll(items, convert).error == AttributeError || ConvertAll(items, convert).error == Unmodelled
    ensures ConvertAll(items, convert).Err? && Modelled(items, convert) ==>
              ConvertAll(items, convert).error == AttributeError
    ensures Recoverable(items, convert) ==>
              ConvertAll(items, convert) == Ok(Outputs(Filter(items, Converts(convert)), convert))
  {
    if items != [] {
      var n := |items| - 1;
      var init, x := items[..n], items[n];
      assert items == init + [x];
      ConvertAllSkipsFailures(init, convert);
      assert Recoverable(items, convert) <==>
             Recoverable(init, convert) && (convert(x).Err? ==> x.JObj? && convert(x).error != Unmodelled) by {
        assert forall i :: 0 <= i < n ==> items[i] == init[i];
      }
      assert Modelled(items, convert) ==> Modelled(init, convert) by {
        assert forall i :: 0 <= i < n ==> items[i] == init[i];
      }
      if Recoverable(items, convert) {
        var kept := Filter(init, Converts(convert));
        FilterSnoc(init, x, Converts(convert));
        assert ConvertAll(items, convert) == Step(Outputs(kept, convert), x, convert);
        if convert(x).Ok? {
          assert Converts(convert)(x);
          assert Filter(items, Converts(convert)) == kept + [x];
          assert Outputs(kept + [x], convert) == Outputs(kept, convert) + [convert(x).value];
        } else {
          assert !Converts(convert)(x);
          assert Filter(items, Converts(convert)) == kept;
        }
      }
    }
  }

  /** Once a prefix of the items fails, the whole loop fails with the same error. */
  lemma {:induction false} ConvertAllFailureStays(items: seq<Json>, convert: Converter, k: nat)
    requires k <= |items| && ConvertAll(items[..k], convert).Err?
    ensures ConvertAll(items, convert) == ConvertAll(items[..k], convert)
    decreases |items| - k
  {
    if k == |items| {
      assert items[..k] == items;
    } else {
      var n := |items| - 1;
      assert items[..n][..k] == items[..k];
      ConvertAllFailureStays(items[..n], convert, k);
    }
  }

  /** A loop yields at most one offer per item, and one for every item exactly when
      no converter call fails. */
  lemma ConvertAllCount(items: seq<Json>, convert: Converter)
    requires ConvertAll(items, convert).Ok?
    ensures |ConvertAll(items, convert).value| <= |items|
    ensures (|ConvertAll(items, convert).value| == |items|)
            <==> (forall i :: 0 <= i < |items| ==> convert(items[i]).Ok?)
  {
    ConvertAllSkipsFailures(items, convert);
    if forall i :: 0 <= i < |items| ==> convert(items[i]).Ok? {
      assert forall i :: 0 <= i < |items| ==> Converts(convert)(items[i]);
      FilterAll(items, Converts(convert));
    } else {
      var k :| 0 <= k < |items| && convert(items[k]).Err?;
      FilterShorter(items, Converts(convert), k);
    }
  }

  /** The output lists the converted eBay items, then the DummyJSON ones, then the
      Amazon ones, each in input order and without the items that fail to convert. */
  lemma TransformConcatenates(raw: map<string, Json>, ebay: Converter, dummy: Converter, amazon: Converter,
                              es: seq<Json>, ds: seq<Json>, zs: seq<Json>)
    requires EbayItems(raw) == Ok(es) && DummyJsonItems(raw) == Ok(ds) && AmazonItems(raw) == Ok(zs)
    requires Recoverable(es, ebay) && Recoverable(ds, dummy) && Recoverable(zs, amazon)
    ensures Transform(raw, ebay, dummy, amazon) == Ok(
              Outputs(Filter(es, Converts(ebay)), ebay)
              + Outputs(Filter(ds, Converts(dummy)), dummy)
              + Outputs(Filter(zs, Converts(amazon)), amazon))
  {
    ConvertAllSkipsFailures(es, ebay);
    ConvertAllSkipsFailures(ds, dummy);
    ConvertAllSkipsFailures(zs, amazon);
    TransformOfParts(raw, ebay, dummy, amazon, es, ds, zs,
      Outputs(Filter(es, Converts(ebay)), ebay), Outputs(Filter(ds, Converts(dummy)), dummy),
      Outputs(Filter(zs, Converts(amazon)), amazon));
  }

  /** The output has at most one offer per input item, and one for each exactly when
      no converter call fails. */
  lemma TransformCount(raw: map<string, Json>, ebay: Converter, dummy: Converter, amazon: Converter,
                       es: seq<Json>, ds: seq<Json>, zs: seq<Json>)
    requires EbayItems(raw) == Ok(es) && DummyJsonItems(raw) == Ok(ds) && AmazonItems(raw) == Ok(zs)
    requires Recoverable(es, ebay) && Recoverable(ds, dummy) && Recoverable(zs, amazon)
    ensures Transform(raw, ebay, dummy, amazon).Ok?
    ensures |Transform(raw, ebay, dummy, amazon).value| <= |es| + |ds| + |zs|
    ensures (|Transform(raw, ebay, dummy, amazon).value| == |es| + |ds| + |zs|)
            <==> (forall i :: 0 <= i < |es| ==> ebay(es[i]).Ok?)
                 && (forall i :: 0 <= i < |ds| ==> dummy(ds[i]).Ok?)
                 && (forall i :: 0 <= i < |zs| ==> amazon(zs[i]).Ok?)
  {
    ConvertAllSkipsFailures(es, ebay);
    ConvertAllSkipsFailures(ds, dummy);
    ConvertAllSkipsFailures(zs, amazon);
    var fromEbay, fromDummy, fromAmazon :=
      ConvertAll(es, ebay).value, ConvertAll(ds, dummy).value, ConvertAll(zs, amazon).value;
    TransformOfParts(raw, ebay, dummy, amazon, es, ds, zs, fromEbay, fromDummy, fromAmazon);
    ConvertAllCount(es, ebay);
    ConvertAllCount(ds, dummy);
    ConvertAllCount(zs, amazon);
  }

  lemma TransformOfParts(raw: map<string, Json>, ebay: Converter, dummy: Converter, amazon: Converter,
                         es: seq<Json>, ds: seq<Json>, zs: seq<Json>,
                         fromEbay: seq<OfferCreate>, fromDummy: seq<OfferCreate>, fromAmazon: seq<OfferCreate>)
    requires EbayItems(raw) == Ok(es) && DummyJsonItems(raw) == Ok(ds) && AmazonItems(raw) == Ok(zs)
    requires ConvertAll(es, ebay) == Ok(fromEbay) && ConvertAll(ds, dummy) == Ok(fromDummy)
    requires ConvertAll(zs, amazon) == Ok(fromAmazon)
    ensures Transform(raw, ebay, dummy, amazon) == Ok(fromEbay + fromDummy + fromAmazon)
  {
  }

  /** A failing eBay item that is not a dict aborts the call, with AttributeError when
      every eBay conversion is one the model reproduces. */
  lemma UnrecoverableEbayItem(raw: map<string, Json>, ebay: Converter, dummy: Converter, amazon: Converter)
    requires EbayItems(raw).Ok? && !Recoverable(EbayItems(raw).value, ebay)
    ensures Transform(raw, ebay, dummy, amazon).Err?
    ensures Modelled(EbayItems(raw).value, ebay) ==> Transform(raw, ebay, dummy, amazon) == Err(AttributeError)
  {
    ConvertAllSkipsFailures(EbayItems(raw).value, ebay);
  }

  /** A missing source key yields no items, so it contributes nothing. */
  lemma MissingSourcesContributeNothing(raw: map<string, Json>)
    ensures "ebay" !in raw ==> EbayItems(raw) == Ok([])
    ensures "dummyjson" !in raw ==> DummyJsonItems(raw) == Ok([])
    ensures "amazon" !in raw ==> AmazonItems(raw) == Ok([])
  {
  }

  /** One loop of `transform_search_results`: converts the items in order and appends
      each offer to `offers`. */
  method AppendConverted(offers: seq<OfferCreate>, items: seq<Json>, convert: Converter)
    returns (r: Result<seq<OfferCreate>>)
    ensures ConvertAll(items, convert).Ok? ==> r == Ok(offers + ConvertAll(items, convert).value)
    ensures ConvertAll(items, convert).Err? ==> r == Err(ConvertAll(items, convert).error)
  {
    var all := offers;
    ghost var done: seq<OfferCreate> := [];
    for i := 0 to |items|
      invariant ConvertAll(items[..i], convert) == Ok(done)
      invariant all == offers + done
    {
      assert items[..i + 1][..i] == items[..i];
      match convert(items[i]) {
        case Ok(o) =>
          all := all + [o];
          done := done + [o];
        case Err(e) =>
          if e == Unmodelled || !items[i].JObj? {
            ConvertAllFailureStays(items, convert, i + 1);
            return if e == Unmodelled then Err(Unmodelled) else Err(AttributeError);
          }
      }
    }
    assert items[..|items|] == items;
    return Ok(all);
  }

  /** `transform_search_results` with the three adapters. */
  method TransformSearchResults(raw: map<string, Json>) returns (r: Result<seq<OfferCreate>>)
    ensures r == Transform(raw, EbayAdapter.EbayToOffer, DummyJsonAdapter.DummyJsonToOffer,
                           AmazonAdapter.AmazonToOffer)
  {
    var allOffers: seq<OfferCreate> := [];
    var ebayItems :- EbayItems(raw);
    allOffers :- AppendConverted(allOffers, ebayItems, EbayAdapter.EbayToOffer);
    ghost var fromEbay := allOffers;
    assert ConvertAll(ebayItems, EbayAdapter.EbayToOffer) == Ok(fromEbay) by {
      assert [] + ConvertAll(ebayItems, EbayAdapter.EbayToOffer).value
             == ConvertAll(ebayItems, EbayAdapter.EbayToOffer).value;
    }
    var dummyItems :- DummyJsonItems(raw);
    allOffers :- AppendConverted(allOffers, dummyItems, DummyJsonAdapter.DummyJsonToOffer);
    ghost var fromDummy := allOffers[|fromEbay|..];
    assert ConvertAll(dummyItems, DummyJsonAdapter.DummyJsonToOffer) == Ok(fromDummy);
    var amazonItems :- AmazonItems(raw);
    allOffers :- AppendConverted(allOffers, amazonItems, AmazonAdapter.AmazonToOffer);
    ghost var fromAmazon := allOffers[|fromEbay| + |fromDummy|..];
    assert ConvertAll(amazonItems, AmazonAdapter.AmazonToOffer) == Ok(fromAmazon);
    assert allOffers == fromEbay + fromDummy + fromAmazon;
    return Ok(allOffers);
  }

  /** The raw results `search_all_sources` assembles (search_services.py:20-56). A
      provider that failed is given here as an error. As written, a failed DummyJSON
      search stores an empty list under "dummyjson". */
  function SearchAllSourcesAsWritten(ebay: Result<Json>, dummy: Result<map<string, Json>>, amazon: Result<Json>)
    : map<string, Json>
  {
    map["ebay" := (if ebay.Ok? then ebay.value else JArr([])),
        "dummyjson" := (if dummy.Ok? then DummyJsonResults(dummy.value) else JArr([])),
        "amazon" := (if amazon.Ok? then amazon.value else JObj(map["products" := JArr([])]))]
  }

  /** The same with a failed DummyJSON search stored as a response without items, as
      for Amazon. */
  function SearchAllSources(ebay: Result<Json>, dummy: Result<map<string, Json>>, amazon: Result<Json>)
    : map<string, Json>
  {
    map["ebay" := (if ebay.Ok? then ebay.value else JArr([])),
        "dummyjson" := (if dummy.Ok? then DummyJsonResults(dummy.value) else JObj(map["items_filtered" := JArr([])])),
        "amazon" := (if amazon.Ok? then amazon.value else JObj(map["products" := JArr([])]))]
  }

  /** A DummyJSON response with `items_filtered` set to all its products. */
  function DummyJsonResults(data: map<string, Json>): Json {
    JObj(data["items_filtered" := Get(data, "products", JArr([]))])
  }

  /** As written, whenever DummyJSON fails the whole transformation fails: the
      DummyJSON loop calls `.get` on the stored list. */
  lemma FailedDummyJsonAsWritten(ebayItems: seq<Json>, amazon: Result<Json>,
                                 ebay: Converter, dummy: Converter, amazonConv: Converter)
    requires Recoverable(ebayItems, ebay)
    ensures Transform(SearchAllSourcesAsWritten(Ok(JArr(ebayItems)), Err(ExternalApiError), amazon),
                      ebay, dummy, amazonConv) == Err(AttributeError)
  {
    ConvertAllSkipsFailures(ebayItems, ebay);
  }

  /** With the corrected fallback, failed providers contribute nothing and the eBay
      offers come through. */
  lemma FailedSourcesSkipped(ebayItems: seq<Json>, ebay: Converter, dummy: Converter, amazon: Converter)
    requires Recoverable(ebayItems, ebay)
    ensures Transform(SearchAllSources(Ok(JArr(ebayItems)), Err(ExternalApiError), Err(ExternalApiError)),
                      ebay, dummy, amazon) == Ok(Outputs(Filter(ebayItems, Converts(ebay)), ebay))
  {
    var raw := SearchAllSources(Ok(JArr(ebayItems)), Err(ExternalApiError), Err(ExternalApiError));
    assert DummyJsonItems(raw) == Ok([]);
    assert AmazonItems(raw) == Ok([]);
    ConvertAllSkipsFailures(ebayItems, ebay);
    var fromEbay := Outputs(Filter(ebayItems, Converts(ebay)), ebay);
    TransformOfParts(raw, ebay, dummy, amazon, ebayItems, [], [], fromEbay, [], []);
    assert fromEbay + [] + [] == fromEbay;
  }
}
