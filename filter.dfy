/** backend/utils/filter.py: the inclusive price-range filter applied to offer lists. */
module PriceFilter {
  import opened Common
  import opened Seqs
  import opened Json

  /** An element of the list: an offer model, which has a `last_price` attribute, or a
      plain dict. */
  datatype Item = ModelItem(lastPrice: real) | DictItem(fields: map<string, Json>)

  /** `get_price(item)`: the attribute when there is one, else `float(item.get("last_price", 0))`. */
  function GetPrice(item: Item): (r: Result<real>)
    ensures item.DictItem? && "last_price" !in item.fields ==> r == Ok(0.0)
  {
    match item
    case ModelItem(p) => Ok(p)
    case DictItem(m) => PyFloat(Get(m, "last_price", JInt(0)))
  }

  /** `len(price_rng) == 2` and its two entries, for a truthy `price_rng`. A string of
      length 2 yields its two characters; a dict of size 2 has no key `0`; a number or
      `True` has no `len`. None means the range is not used. */
  function RangePair(rng: Json): (r: Result<Option<(Json, Json)>>)
    ensures !Truthy(rng) ==> r == Ok(None)
    ensures rng.JArr? ==> r == Ok(if |rng.items| == 2 then Some((rng.items[0], rng.items[1])) else None)
  {
    if !Truthy(rng) then Ok(None)
    else match rng
      case JArr(a) => Ok(if |a| == 2 then Some((a[0], a[1])) else None)
      case JStr(s) => Ok(if |s| == 2 then Some((JStr([s[0]]), JStr([s[1]]))) else None)
      case JObj(m) => if |m| == 2 then Err(KeyError) else Ok(None)
      case _ => Err(TypeError)
  }

  /** `float(price_rng[0] or 0)` */
  function LowerBound(lo: Json): (r: Result<real>)
    ensures !Truthy(lo) ==> r == Ok(0.0)
    ensures Truthy(lo) ==> r == PyFloat(lo)
  {
    if Truthy(lo) then PyFloat(lo) else Ok(0.0)
  }

  /** `float(price_rng[1] or float("inf"))`, None standing for infinity. */
  function UpperBound(hi: Json): (r: Result<Option<real>>)
    ensures !Truthy(hi) ==> r == Ok(None)
    ensures Truthy(hi) ==> (r.Ok? <==> PyFloat(hi).Ok?)
    ensures Truthy(hi) && r.Ok? ==> r == Ok(Some(PyFloat(hi).value))
  {
    if !Truthy(hi) then Ok(None)
    else
      var v :- PyFloat(hi);
      Ok(Some(v))
  }

  predicate InRange(p: real, lo: real, hi: Option<real>) {
    lo <= p && (hi.None? || p <= hi.value)
  }

  /** The item has a price and it lies within the bounds, both inclusive. */
  function Keeps(lo: real, hi: Option<real>): Item -> bool {
    (item: Item) => GetPrice(item).Ok? && InRange(GetPrice(item).value, lo, hi)
  }

  /** `[item for item in items if minp <= get_price(item) <= maxp]`: prices are read
      left to right and the first one that cannot be read raises. */
  function KeepInRange(items: seq<Item>, lo: real, hi: Option<real>): (r: Result<seq<Item>>)
    ensures r.Ok? ==> |r.value| <= |items|
  {
    if items == [] then Ok([])
    else
      var p :- GetPrice(items[0]);
      var rest :- KeepInRange(items[1..], lo, hi);
      Ok(if InRange(p, lo, hi) then [items[0]] + rest else rest)
  }

  lemma KeepInRangeCons(x: Item, rest: seq<Item>, lo: real, hi: Option<real>)
    requires GetPrice(x).Ok?
    ensures KeepInRange([x] + rest, lo, hi)
         == match KeepInRange(rest, lo, hi)
            case Err(e) => Err(e)
            case Ok(r) => Ok(if InRange(GetPrice(x).value, lo, hi) then [x] + r else r)
  {
    assert ([x] + rest)[1..] == rest;
  }

  /** `apply_filters(items, filters)` */
  function ApplyFilters(items: seq<Item>, filters: map<string, Json>): Result<seq<Item>> {
    if items == [] then Ok(items)
    else
      var pair :- RangePair(Get(filters, "price", JNull));
      match pair
      case None => Ok(items)
      case Some((l, h)) =>
        var lo :- LowerBound(l);
        var hi :- UpperBound(h);
        KeepInRange(items, lo, hi)
  }

  predicate AllPriced(items: seq<Item>) {
    forall i :: 0 <= i < |items| ==> GetPrice(items[i]).Ok?
  }

  /** The comprehension succeeds exactly when every item has a price, and then keeps
      exactly the items within the bounds, in order. */
  lemma {:induction false} KeepInRangeIsFilter(items: seq<Item>, lo: real, hi: Option<real>)
    ensures KeepInRange(items, lo, hi).Ok? <==> AllPriced(items)
    ensures KeepInRange(items, lo, hi).Ok? ==> KeepInRange(items, lo, hi).value == Filter(items, Keeps(lo, hi))
  {
    if items != [] {
      KeepInRangeIsFilter(items[1..], lo, hi);
      assert AllPriced(items) <==> GetPrice(items[0]).Ok? && AllPriced(items[1..]) by {
        if GetPrice(items[0]).Ok? && AllPriced(items[1..]) {
          forall i | 0 <= i < |items|
            ensures GetPrice(items[i]).Ok?
          {
            if i > 0 {
              assert items[i] == items[1..][i - 1];
            }
          }
        }
        if AllPriced(items) {
          forall i | 0 <= i < |items| - 1
            ensures GetPrice(items[1..][i]).Ok?
          {
            assert items[1..][i] == items[i + 1];
          }
        }
      }
    }
  }

  /** Without a usable `price` entry (absent, falsy, or not of length 2) the items come
      back unchanged; an empty list always comes back as is. */
  lemma NoRangeKeepsItems(items: seq<Item>, filters: map<string, Json>)
    requires "price" !in filters
          || (filters["price"].JArr? && |filters["price"].items| != 2)
          || !Truthy(filters["price"])
    ensures ApplyFilters(items, filters) == Ok(items)
  {
  }

  lemma EmptyItems(filters: map<string, Json>)
    ensures ApplyFilters([], filters) == Ok([])
  {
  }

  /** With a range `[lo, hi]` of two numbers, an item is kept iff its price lies within
      them, bounds included; a falsy lower bound acts as 0 and a falsy upper bound as
      no bound. The result is an in-order sublist of the items. */
  lemma ApplyFiltersRange(items: seq<Item>, filters: map<string, Json>, l: Json, h: Json)
    requires items != [] && AllPriced(items)
    requires "price" in filters && filters["price"] == JArr([l, h])
    requires l.JInt? || l.JFloat? || l == JNull
    requires h.JInt? || h.JFloat? || h == JNull
    ensures var lo := if Truthy(l) then PyFloat(l).value else 0.0;
            var hi := if Truthy(h) then Some(PyFloat(h).value) else None;
            ApplyFilters(items, filters) == Ok(Filter(items, Keeps(lo, hi)))
            && (forall x :: x in ApplyFilters(items, filters).value <==>
                  x in items && GetPrice(x).Ok? && InRange(GetPrice(x).value, lo, hi))
            && IsSubsequence(ApplyFilters(items, filters).value, items)
  {
    var lo := if Truthy(l) then PyFloat(l).value else 0.0;
    var hi := if Truthy(h) then Some(PyFloat(h).value) else None;
    assert RangePair(filters["price"]) == Ok(Some((l, h)));
    assert LowerBound(l) == Ok(lo);
    assert UpperBound(h) == Ok(hi);
    KeepInRangeIsFilter(items, lo, hi);
    assert ApplyFilters(items, filters) == Ok(Filter(items, Keeps(lo, hi)));
    forall x
      ensures x in Filter(items, Keeps(lo, hi)) <==> x in items && GetPrice(x).Ok? && InRange(GetPrice(x).value, lo, hi)
    {
      FilterMembership(items, Keeps(lo, hi), x);
    }
    FilterIsSubsequence(items, Keeps(lo, hi));
  }

  /** The first filter test: prices 50, 150, 500, 1200 within [100, 1000] keep 150 and 500. */
  lemma ApplyFiltersExample()
    ensures var items := [DictItem(map["last_price" := JInt(50)]), DictItem(map["last_price" := JInt(150)]),
                          DictItem(map["last_price" := JInt(500)]), DictItem(map["last_price" := JInt(1200)])];
            ApplyFilters(items, map["price" := JArr([JInt(100), JInt(1000)])]) == Ok(items[1..3])
  {
    var a := DictItem(map["last_price" := JInt(50)]);
    var b := DictItem(map["last_price" := JInt(150)]);
    var c := DictItem(map["last_price" := JInt(500)]);
    var d := DictItem(map["last_price" := JInt(1200)]);
    KeepInRangeExample(a, b, c, d);
    assert RangePair(JArr([JInt(100), JInt(1000)])) == Ok(Some((JInt(100), JInt(1000))));
    assert LowerBound(JInt(100)) == Ok(100.0) && UpperBound(JInt(1000)) == Ok(Some(1000.0));
    var f := map["price" := JArr([JInt(100), JInt(1000)])];
    assert Get(f, "price", JNull) == JArr([JInt(100), JInt(1000)]);
    assert [a, b, c, d][1..3] == [b, c];
  }

  lemma KeepInRangeExample(a: Item, b: Item, c: Item, d: Item)
    requires GetPrice(a) == Ok(50.0) && GetPrice(b) == Ok(150.0)
    requires GetPrice(c) == Ok(500.0) && GetPrice(d) == Ok(1200.0)
    ensures KeepInRange([a, b, c, d], 100.0, Some(1000.0)) == Ok([b, c])
  {
    var lo, hi := 100.0, Some(1000.0);
    KeepInRangeCons(d, [], lo, hi);
    assert [d] + [] == [d];
    KeepInRangeCons(c, [d], lo, hi);
    assert [c] + [d] == [c, d] && [c] + [] == [c];
    KeepInRangeCons(b, [c, d], lo, hi);
    assert [b] + [c, d] == [b, c, d] && [b] + [c] == [b, c];
    KeepInRangeCons(a, [b, c, d], lo, hi);
    assert [a] + [b, c, d] == [a, b, c, d];
  }
}
