/**
 * The thali combo platter library: four functions over a thali record
 * `{name, items, price, isVeg}`.
 *
 *  - `CreateThaliDescription` renders one thali as a one-line description;
 *  - `GetThaliStats` aggregates a list of thalis (counts, prices, names);
 *  - `SearchThaliMenu` filters a list by a case-insensitive text query;
 *  - `GenerateThaliReceipt` renders a customer's receipt for a list of thalis.
 *
 * Each function first checks the shape of its arguments and degrades to an
 * empty result (`""`, `null`, `[]`) when the check fails.
 */
module ThaliCombo {
  import opened Wrappers
  import opened Strings
  import opened Sequences

  // ---------------------------------------------------------------------------
  // Data model
  // ---------------------------------------------------------------------------

  /**
   * A value passed where a thali is expected. `NonObject` is anything that is
   * not a non-null object (null, undefined, a number, a string, ...). A `Record` is an object; each of the four properties is
   * `None` when the object does not own it. A price is a whole number of paise.
   */
  datatype Thali =
    | NonObject
    | Record(name: Option<string>, items: Option<seq<string>>, price: Option<int>, isVeg: Option<bool>)

  /** A value passed where an array is expected: `Array.isArray` holds of it or not. */
  datatype JsArray = NotArray | Array(elems: seq<Thali>)

  /** A value passed where a string is expected: a JavaScript string or anything else. */
  datatype JsString = NotString | Str(text: string)

  /** An object owning all four properties (the check of `createThaliDescription` and `getThaliStats`). */
  predicate HasAllFields(t: Thali) {
    t.Record? && t.name.Some? && t.items.Some? && t.price.Some? && t.isVeg.Some?
  }

  /** An object owning `name`, `items` and `price` (the check of `generateThaliReceipt`). */
  predicate HasReceiptFields(t: Thali) {
    t.Record? && t.name.Some? && t.items.Some? && t.price.Some?
  }

  /** An object owning `name` and `price`, the two properties the aggregation of `getThaliStats` needs. */
  predicate HasStatsFields(t: Thali) {
    t.Record? && t.name.Some? && t.price.Some?
  }

  predicate AllHaveStatsFields(ts: seq<Thali>) {
    forall i :: 0 <= i < |ts| ==> HasStatsFields(ts[i])
  }

  predicate AllHaveReceiptFields(ts: seq<Thali>) {
    forall i :: 0 <= i < |ts| ==> HasReceiptFields(ts[i])
  }

  predicate AllPriced(ts: seq<Thali>) {
    forall i :: 0 <= i < |ts| ==> ts[i].Record? && ts[i].price.Some?
  }

  /** The price of every thali, in the order of the list. */
  function Prices(ts: seq<Thali>): (r: seq<int>)
    requires AllPriced(ts)
    ensures |r| == |ts| && forall i :: 0 <= i < |ts| ==> r[i] == ts[i].price.value
  {
    seq(|ts|, i requires 0 <= i < |ts| => ts[i].price.value)
  }

  /** The name of every thali, in the order of the list. */
  function Names(ts: seq<Thali>): (r: seq<string>)
    requires forall i :: 0 <= i < |ts| ==> ts[i].Record? && ts[i].name.Some?
    ensures |r| == |ts| && forall i :: 0 <= i < |ts| ==> r[i] == ts[i].name.value
  {
    seq(|ts|, i requires 0 <= i < |ts| => ts[i].name.value)
  }

  // ---------------------------------------------------------------------------
  // createThaliDescription
  // ---------------------------------------------------------------------------

  function VegLabel(isVeg: bool): string {
    if isVeg then "Veg" else "Non-Veg"
  }

  /**
   * "{NAME} (Veg|Non-Veg) - Items: {items joined by ", "} - Rs.{price to 2 decimals}"
   * for an object owning the four properties, and "" for anything else.
   */
  function CreateThaliDescription(t: Thali): (r: string)
    ensures r == "" <==> !HasAllFields(t)
  {
    if HasAllFields(t) then
      Upper(t.name.value) + " (" + VegLabel(t.isVeg.value) + ") - Items: "
        + Join(t.items.value, ", ") + " - Rs." + ToFixed2(t.price.value)
    else
      ""
  }

  /** The price written at the end of a description, read back into paise. */
  function ReadDescribedPrice(description: string): Option<int> {
    match AfterLast(description, "Rs.")
    case Some(amount) => ParseFixed2(amount)
    case None => None
  }

  /** How the pieces of a description regroup around its two marks. */
  lemma DescriptionShape(name: string, veg: string, items: string, amount: string)
    ensures var r := name + " (" + veg + ") - Items: " + items + " - Rs." + amount;
            name + " (" + veg + ")" <= r
            && r == (name + " (" + veg + ") - Items: " + items + " - ") + "Rs." + amount
  {
  }

  /** The description starts with the upper-cased name and is followed by its label. */
  lemma DescriptionStartsWithName(t: Thali)
    requires HasAllFields(t)
    ensures Upper(t.name.value) + " (" + VegLabel(t.isVeg.value) + ")" <= CreateThaliDescription(t)
  {
    DescriptionShape(Upper(t.name.value), VegLabel(t.isVeg.value), Join(t.items.value, ", "), ToFixed2(t.price.value));
  }

  /** The thali's price can be read back from its description, whatever its name and items hold. */
  lemma DescriptionPriceReadsBack(t: Thali)
    requires HasAllFields(t)
    ensures ReadDescribedPrice(CreateThaliDescription(t)) == Some(t.price.value)
  {
    var amount := ToFixed2(t.price.value);
    var pre := Upper(t.name.value) + " (" + VegLabel(t.isVeg.value) + ") - Items: "
                 + Join(t.items.value, ", ") + " - ";
    DescriptionShape(Upper(t.name.value), VegLabel(t.isVeg.value), Join(t.items.value, ", "), amount);
    assert FirstCharFresh("Rs.", amount);
    AfterLastOf(pre, "Rs.", amount);
    ParseToFixed2(t.price.value);
  }

  /** Every item of the thali appears in its description. */
  lemma DescriptionListsItems(t: Thali, k: nat)
    requires HasAllFields(t) && k < |t.items.value|
    ensures Includes(CreateThaliDescription(t), t.items.value[k])
  {
    var head := Upper(t.name.value) + " (" + VegLabel(t.isVeg.value) + ") - Items: ";
    var joined := Join(t.items.value, ", ");
    var tail := " - Rs." + ToFixed2(t.price.value);
    JoinIncludesItem(t.items.value, ", ", k);
    IncludesMiddle(head, joined, tail, t.items.value[k]);
    assert head + joined + tail == CreateThaliDescription(t);
  }

  // ---------------------------------------------------------------------------
  // getThaliStats
  // ---------------------------------------------------------------------------

  /** `avgPrice` is `(sum / count).toFixed(2)`; the model keeps the exact pair. */
  datatype Average = Average(sum: int, count: nat)

  datatype Stats = Stats(
    totalThalis: nat,
    vegCount: nat,
    nonVegCount: int,
    avgPrice: Average,
    cheapest: int,
    costliest: int,
    names: seq<string>)

  /**
   * `NoStats` is the `null` result. `FieldFault` stands for a list that passes
   * the check although some element is not an object or lacks `name` or
   * `price`, which the aggregation reads from every element.
   */
  datatype StatsOutcome = NoStats | Computed(stats: Stats) | FieldFault

  /** `e.isVeg` is truthy. */
  predicate IsVeg(t: Thali) {
    t.Record? && t.isVeg == Some(true)
  }

  /** The check: an array, not empty, with at least ONE element owning all four properties. */
  predicate StatsGate(a: JsArray) {
    a.Array? && |a.elems| > 0 && exists i :: 0 <= i < |a.elems| && HasAllFields(a.elems[i])
  }

  /**
   * What the aggregation computes over a list whose every element owns `name`
   * and `price`. A missing `items` is never read, and a missing `isVeg` is not
   * truthy, so such a thali counts as non-veg.
   */
  function Aggregate(ts: seq<Thali>): (s: Stats)
    requires |ts| > 0 && AllHaveStatsFields(ts)
    ensures s.totalThalis == |ts|
    ensures s.vegCount <= |ts| && s.vegCount + s.nonVegCount == |ts|
    ensures s.avgPrice.count == |ts|
    ensures s.cheapest <= s.costliest
    ensures |s.names| == |ts|
  {
    var prices := Prices(ts);
    assert MinOf(prices) <= prices[0] <= MaxOf(prices);
    var vegCount := |Filter(ts, IsVeg)|;
    Stats(|ts|, vegCount, |ts| - vegCount, Average(Sum(prices), |ts|),
          MinOf(prices), MaxOf(prices), Names(ts))
  }

  /**
   * `null` unless the check passes; otherwise the aggregate of the whole list,
   * or a fault when the aggregation meets an element it cannot read.
   * The check loop visits every element and never stops early.
   */
  method GetThaliStats(thalis: JsArray) returns (r: StatsOutcome)
    ensures r.NoStats? <==> !StatsGate(thalis)
    ensures r.FieldFault? <==> StatsGate(thalis) && !AllHaveStatsFields(thalis.elems)
    ensures r.Computed? ==>
              StatsGate(thalis) && AllHaveStatsFields(thalis.elems) && r.stats == Aggregate(thalis.elems)
  {
    if thalis.NotArray? || |thalis.elems| == 0 {
      return NoStats;
    }
    var ts := thalis.elems;
    var pass := false;
    for i := 0 to |ts|
      invariant pass <==> exists j :: 0 <= j < i && HasAllFields(ts[j])
    {
      if HasAllFields(ts[i]) {
        pass := true;
      }
    }
    if !pass {
      return NoStats;
    }
    if !AllHaveStatsFields(ts) {
      return FieldFault;
    }
    r := Computed(Aggregate(ts));
  }

  predicate IsNonVeg(t: Thali) {
    !IsVeg(t)
  }

  /**
   * Counts: `vegCount` is the number of thalis whose `isVeg` is true, every
   * copy included, and `nonVegCount` the number of the others.
   */
  lemma StatsCounts(ts: seq<Thali>)
    requires |ts| > 0 && AllHaveStatsFields(ts)
    ensures Aggregate(ts).vegCount == |Filter(ts, IsVeg)|
    ensures Aggregate(ts).nonVegCount == |Filter(ts, IsNonVeg)|
    ensures forall t :: t in Filter(ts, IsVeg) <==> t in ts && t.isVeg == Some(true)
    ensures forall t :: multiset(Filter(ts, IsVeg))[t] == if IsVeg(t) then multiset(ts)[t] else 0
  {
    FilterComplement(ts, IsVeg, IsNonVeg);
  }

  /** Prices: every price lies between `cheapest` and `costliest`, and both are prices of the list. */
  lemma StatsPriceRange(ts: seq<Thali>)
    requires |ts| > 0 && AllHaveStatsFields(ts)
    ensures forall i :: 0 <= i < |ts| ==>
              Aggregate(ts).cheapest <= ts[i].price.value <= Aggregate(ts).costliest
    ensures exists i :: 0 <= i < |ts| && ts[i].price.value == Aggregate(ts).cheapest
    ensures exists i :: 0 <= i < |ts| && ts[i].price.value == Aggregate(ts).costliest
  {
    var s := Aggregate(ts);
    var prices := Prices(ts);
    var lo :| 0 <= lo < |prices| && prices[lo] == s.cheapest;
    var hi :| 0 <= hi < |prices| && prices[hi] == s.costliest;
    assert ts[lo].price.value == s.cheapest;
    assert ts[hi].price.value == s.costliest;
  }

  /** The average is the sum over the count, and lies between the cheapest and the costliest price. */
  lemma StatsAverage(ts: seq<Thali>)
    requires |ts| > 0 && AllHaveStatsFields(ts)
    ensures Aggregate(ts).avgPrice == Average(Sum(Prices(ts)), |ts|)
    ensures Aggregate(ts).cheapest * |ts| <= Aggregate(ts).avgPrice.sum <= Aggregate(ts).costliest * |ts|
  {
    var s := Aggregate(ts);
    SumBounds(Prices(ts), s.cheapest, s.costliest);
  }

  /** The names are those of the thalis, one each, in the order of the list. */
  lemma StatsNames(ts: seq<Thali>)
    requires |ts| > 0 && AllHaveStatsFields(ts)
    ensures forall i :: 0 <= i < |ts| ==> Aggregate(ts).names[i] == ts[i].name.value
  {
  }

  /**
   * A thali lacking `items` and `isVeg` beside a complete one still gets stats:
   * the aggregation reads neither, and counts the second thali as non-veg.
   */
  lemma StatsWithoutItems()
    ensures var ts := [Record(Some("A"), Some([]), Some(100), Some(true)), Record(Some("B"), None, Some(200), None)];
            StatsGate(Array(ts)) && AllHaveStatsFields(ts)
            && Aggregate(ts) == Stats(2, 1, 1, Average(300, 2), 100, 200, ["A", "B"])
  {
    var ts := [Record(Some("A"), Some([]), Some(100), Some(true)), Record(Some("B"), None, Some(200), None)];
    assert HasAllFields(ts[0]);
    assert Prices(ts) == [100, 200];
    assert Filter(ts, IsVeg) == [ts[0]];
    assert Sum([100, 200]) == 300 by { assert [100, 200][..1] == [100]; }
    assert MinOf([100, 200]) == 100 && MaxOf([100, 200]) == 200;
    assert Names(ts) == ["A", "B"];
  }

  // ---------------------------------------------------------------------------
  // searchThaliMenu
  // ---------------------------------------------------------------------------

  /** The thali's name, lower-cased, contains the lower-cased query. */
  predicate NameMatches(t: Thali, query: string) {
    t.Record? && t.name.Some? && Includes(Lower(t.name.value), Lower(query))
  }

  /**
   * The thali's items, joined with the default separator "," and lower-cased,
   * contain the lower-cased query.
   */
  predicate ItemsMatch(t: Thali, query: string) {
    t.Record? && t.items.Some? && Includes(Lower(Join(t.items.value, ",")), Lower(query))
  }

  predicate Matches(t: Thali, query: string) {
    NameMatches(t, query) || ItemsMatch(t, query)
  }

  /**
   * The filter callback throws on `t`: it reads `name` of a non-object, calls
   * `toLowerCase` on a missing name, or, the name not matching, calls `join`
   * on missing items.
   */
  predicate SearchThrowsOn(t: Thali, query: string) {
    t.NonObject? || t.name.None? || (!NameMatches(t, query) && t.items.None?)
  }

  datatype SearchOutcome = Found(thalis: seq<Thali>) | SearchThrows

  /** `[]` for a non-array, a non-string or an empty query; otherwise the outcome of the filter. */
  function SearchThaliMenu(thalis: JsArray, query: JsString): (r: SearchOutcome)
    ensures (thalis.NotArray? || query.NotString? || query.text == "") ==> r == Found([])
    ensures r.Found? && thalis.Array? && query.Str? ==>
              forall i :: 0 <= i < |r.thalis| ==> r.thalis[i] in thalis.elems && Matches(r.thalis[i], query.text)
    ensures r.SearchThrows? ==> thalis.Array? && query.Str? && |query.text| > 0
  {
    if thalis.NotArray? || query.NotString? then Found([])
    else if |query.text| < 1 then Found([])
    else if exists i :: 0 <= i < |thalis.elems| && SearchThrowsOn(thalis.elems[i], query.text) then SearchThrows
    else Found(Filter(thalis.elems, t => Matches(t, query.text)))
  }

  /** The result keeps exactly the matching thalis of the list, in their original order. */
  lemma SearchResult(ts: seq<Thali>, query: string)
    requires |query| > 0 && SearchThaliMenu(Array(ts), Str(query)).Found?
    ensures IsSubsequence(SearchThaliMenu(Array(ts), Str(query)).thalis, ts)
    ensures forall t :: t in SearchThaliMenu(Array(ts), Str(query)).thalis <==> t in ts && Matches(t, query)
    ensures forall t :: multiset(SearchThaliMenu(Array(ts), Str(query)).thalis)[t]
                          == if Matches(t, query) then multiset(ts)[t] else 0
  {
    FilterIsSubsequence(ts, t => Matches(t, query));
  }

  /** The search throws exactly when the callback throws on some element. */
  lemma SearchThrowsIff(ts: seq<Thali>, query: string)
    requires |query| > 0
    ensures SearchThaliMenu(Array(ts), Str(query)) == SearchThrows <==>
              exists t :: t in ts && SearchThrowsOn(t, query)
  {
    if exists t :: t in ts && SearchThrowsOn(t, query) {
      var t :| t in ts && SearchThrowsOn(t, query);
      var i :| 0 <= i < |ts| && ts[i] == t;
      assert SearchThrowsOn(ts[i], query);
    }
  }

  /** Queries that lower-case alike give the same outcome. */
  lemma SearchCaseInsensitive(thalis: JsArray, q1: string, q2: string)
    requires Lower(q1) == Lower(q2)
    ensures SearchThaliMenu(thalis, Str(q1)) == SearchThaliMenu(thalis, Str(q2))
  {
    assert |q1| == |Lower(q1)| == |Lower(q2)| == |q2|;
    if thalis.Array? && |q1| > 0 {
      var ts := thalis.elems;
      assert forall t :: Matches(t, q1) == Matches(t, q2);
      assert forall t :: SearchThrowsOn(t, q1) == SearchThrowsOn(t, q2);
      FilterCongruent(ts, t => Matches(t, q1), t => Matches(t, q2));
    }
  }

  /** Upper-casing the query does not change the outcome. */
  lemma SearchUpperQuery(thalis: JsArray, query: string)
    ensures SearchThaliMenu(thalis, Str(Upper(query))) == SearchThaliMenu(thalis, Str(query))
  {
    LowerOfUpper(query);
    SearchCaseInsensitive(thalis, Upper(query), query);
  }

  /**
   * A thali one of whose items contains the query (ignoring case) is found:
   * the joined items contain every item.
   */
  lemma SearchFindsItem(ts: seq<Thali>, query: string, t: Thali, k: nat)
    requires |query| > 0 && SearchThaliMenu(Array(ts), Str(query)).Found?
    requires t in ts && t.Record? && t.items.Some? && k < |t.items.value|
    requires Includes(Lower(t.items.value[k]), Lower(query))
    ensures t in SearchThaliMenu(Array(ts), Str(query)).thalis
  {
    var joined := Join(t.items.value, ",");
    JoinIncludesItem(t.items.value, ",", k);
    IncludesLower(joined, t.items.value[k]);
    IncludesTransitive(Lower(joined), Lower(t.items.value[k]), Lower(query));
    assert ItemsMatch(t, query);
  }

  /** The joined items can match where no single item does: the query may span the comma. */
  lemma SearchMatchesAcrossItems()
    ensures var t := Record(Some("x"), Some(["a", "b"]), Some(100), Some(true));
            Matches(t, "a,b") && !Includes(Lower("a"), Lower("a,b")) && !Includes(Lower("b"), Lower("a,b"))
  {
    assert Join(["a", "b"], ",") == "a,b";
    assert Lower("a,b") == "a,b";
    assert Lower("a") == "a";
    assert Lower("b") == "b";
  }

  // ---------------------------------------------------------------------------
  // generateThaliReceipt
  // ---------------------------------------------------------------------------

  /** "- {name} x Rs.{price to 2 decimals}\n" */
  function LineItem(t: Thali): string
    requires HasReceiptFields(t)
  {
    "- " + t.name.value + " x Rs." + ToFixed2(t.price.value) + "\n"
  }

  /** One line item per thali, in the order of the list. */
  function Lines(ts: seq<Thali>): (r: seq<string>)
    requires AllHaveReceiptFields(ts)
    ensures |r| == |ts| && forall i :: 0 <= i < |ts| ==> r[i] == LineItem(ts[i])
  {
    seq(|ts|, i requires 0 <= i < |ts| => LineItem(ts[i]))
  }

  /** One more turn of `forEach` appends the next thali's line. */
  lemma LineItemsSnoc(ts: seq<Thali>, k: nat)
    requires AllHaveReceiptFields(ts) && k < |ts|
    ensures LineItems(ts[..k + 1]) == LineItems(ts[..k]) + LineItem(ts[k])
  {
    LinesSnoc(ts, k);
    ConcatSnoc(Lines(ts[..k]), LineItem(ts[k]));
  }

  /** The line items of a prefix one longer end with that thali's line. */
  lemma LinesSnoc(ts: seq<Thali>, k: nat)
    requires AllHaveReceiptFields(ts) && k < |ts|
    ensures Lines(ts[..k + 1]) == Lines(ts[..k]) + [LineItem(ts[k])]
  {
  }

  /** The text that `forEach` accumulates in `itemsstr`: the line items one after another. */
  function LineItems(ts: seq<Thali>): string
    requires AllHaveReceiptFields(ts)
  {
    Concat(Lines(ts))
  }

  /** The check: a non-empty string name, an array, not empty, whose EVERY element owns name, items and price. */
  predicate ReceiptGate(customerName: JsString, thalis: JsArray) {
    customerName.Str? && |customerName.text| >= 1 && thalis.Array? && |thalis.elems| > 0
      && AllHaveReceiptFields(thalis.elems)
  }

  /** The receipt for a checked customer and list; it opens with the title and the upper-cased customer. */
  function Receipt(customer: string, ts: seq<Thali>): (r: string)
    requires AllHaveReceiptFields(ts)
    ensures "THALI RECEIPT\n---\nCustomer: " + Upper(customer) + "\n" <= r
  {
    ReceiptShape(Upper(customer), LineItems(ts), ToFixed2(Sum(Prices(ts))), NatToString(|ts|));
    "THALI RECEIPT\n---\nCustomer: " + Upper(customer) + "\n" + LineItems(ts)
      + "---\nTotal: Rs." + ToFixed2(Sum(Prices(ts))) + "\nItems: " + NatToString(|ts|)
  }

  /**
   * "" unless the check passes; otherwise the receipt. The check loop stops at
   * the first element lacking a property; an empty list leaves `pass` unset.
   */
  method GenerateThaliReceipt(customerName: JsString, thalis: JsArray) returns (r: string)
    ensures r != "" <==> ReceiptGate(customerName, thalis)
    ensures ReceiptGate(customerName, thalis) ==> r == Receipt(customerName.text, thalis.elems)
  {
    if customerName.NotString? || thalis.NotArray? {
      return "";
    }
    if |customerName.text| < 1 {
      return "";
    }
    var ts := thalis.elems;
    var pass := false;
    var i := 0;
    while i < |ts|
      invariant 0 <= i <= |ts|
      invariant forall j :: 0 <= j < i ==> HasReceiptFields(ts[j])
      invariant pass <==> i > 0
    {
      if HasReceiptFields(ts[i]) {
        pass := true;
      } else {
        pass := false;
        break;
      }
      i := i + 1;
    }
    if !pass {
      return "";
    }
    var itemsstr := "";
    for k := 0 to |ts|
      invariant itemsstr == LineItems(ts[..k])
    {
      LineItemsSnoc(ts, k);
      itemsstr := itemsstr + LineItem(ts[k]);
    }
    assert ts[..|ts|] == ts;
    var total := ToFixed2(Sum(Prices(ts)));
    r := "THALI RECEIPT\n---\nCustomer: " + Upper(customerName.text) + "\n" + itemsstr
           + "---\nTotal: Rs." + total + "\nItems: " + NatToString(|ts|);
  }

  /** Line items of a concatenation are the line items of each part, in order. */
  lemma LineItemsAppend(a: seq<Thali>, b: seq<Thali>)
    requires AllHaveReceiptFields(a) && AllHaveReceiptFields(b)
    ensures AllHaveReceiptFields(a + b)
    ensures LineItems(a + b) == LineItems(a) + LineItems(b)
  {
    assert forall i :: 0 <= i < |a + b| ==> (a + b)[i] == if i < |a| then a[i] else b[i - |a|];
    assert Lines(a + b) == Lines(a) + Lines(b);
    ConcatAppend(Lines(a), Lines(b));
  }

  /** Thali `k` has its own line, after the lines of the thalis before it and before those after it. */
  lemma ReceiptLineOrder(ts: seq<Thali>, k: nat)
    requires AllHaveReceiptFields(ts) && k < |ts|
    ensures LineItems(ts) == LineItems(ts[..k]) + LineItem(ts[k]) + LineItems(ts[k + 1..])
  {
    var lines := Lines(ts);
    assert Lines(ts[..k]) == lines[..k];
    assert Lines(ts[k + 1..]) == lines[k + 1..];
    ConcatSplit(lines, k);
  }

  /** How the pieces of a receipt regroup around its marks. */
  lemma ReceiptShape(customer: string, lines: string, amount: string, count: string)
    ensures var r := "THALI RECEIPT\n---\nCustomer: " + customer + "\n" + lines
                       + "---\nTotal: Rs." + amount + "\nItems: " + count;
            "THALI RECEIPT\n---\nCustomer: " + customer + "\n" <= r
            && r == ("THALI RECEIPT\n---\nCustomer: " + customer + "\n" + lines
                       + "---\nTotal: Rs." + amount + "\n") + "Items: " + count
            && r == ("THALI RECEIPT\n---\nCustomer: " + customer + "\n" + lines + "---\n")
                       + "Total: Rs." + (amount + ['\n'] + ("Items: " + count))
  {
    var head := "THALI RECEIPT\n---\nCustomer: " + customer + "\n";
    assert "---\nTotal: Rs." == "---\n" + "Total: Rs.";
    assert "\nItems: " == ['\n'] + "Items: ";
    assert head <= head + (lines + "---\nTotal: Rs." + amount + "\nItems: " + count);
  }

  /** The number written after the last "Items: " of a receipt. */
  function ReadItemCount(receipt: string): Option<nat> {
    match AfterLast(receipt, "Items: ")
    case Some(count) => if AllDigits(count) then Some(ParseNat(count)) else None
    case None => None
  }

  /** The amount written after the last "Total: Rs." of a receipt, up to the end of its line. */
  function ReadTotal(receipt: string): Option<int> {
    match AfterLast(receipt, "Total: Rs.")
    case Some(rest) => ParseFixed2(UpTo(rest, '\n'))
    case None => None
  }

  /** In any text shaped like a receipt, the count written at its end reads back. */
  lemma ReadTrailerCount(customer: string, lines: string, total: string, count: nat)
    ensures ReadItemCount("THALI RECEIPT\n---\nCustomer: " + customer + "\n" + lines
                            + "---\nTotal: Rs." + total + "\nItems: " + NatToString(count)) == Some(count)
  {
    var digits := NatToString(count);
    ReceiptShape(customer, lines, total, digits);
    assert FirstCharFresh("Items: ", digits);
    AfterLastOf("THALI RECEIPT\n---\nCustomer: " + customer + "\n" + lines + "---\nTotal: Rs." + total + "\n",
                "Items: ", digits);
    ParseNatToString(count);
  }

  /** In any text shaped like a receipt, the amount on its "Total:" line reads back. */
  lemma ReadTrailerTotal(customer: string, lines: string, total: int, count: string)
    requires AllDigits(count)
    ensures ReadTotal("THALI RECEIPT\n---\nCustomer: " + customer + "\n" + lines
                        + "---\nTotal: Rs." + ToFixed2(total) + "\nItems: " + count) == Some(total)
  {
    var amount := ToFixed2(total);
    ReceiptShape(customer, lines, amount, count);
    var after := "Items: " + count;
    var tail := amount + ['\n'] + after;
    assert forall i :: 0 <= i < |tail| ==>
             tail[i] == if i < |amount| then amount[i] else if i == |amount| then '\n' else after[i - |amount| - 1];
    assert FirstCharFresh("Total: Rs.", tail);
    AfterLastOf("THALI RECEIPT\n---\nCustomer: " + customer + "\n" + lines + "---\n", "Total: Rs.", tail);
    assert forall i :: 0 <= i < |amount| ==> amount[i] != '\n';
    UpToOf(amount, '\n', after);
    ParseToFixed2(total);
  }

  /** The "Items:" trailer of a receipt reads back as the number of thalis. */
  lemma ReceiptItemCount(customer: string, ts: seq<Thali>)
    requires AllHaveReceiptFields(ts)
    ensures ReadItemCount(Receipt(customer, ts)) == Some(|ts|)
  {
    ReadTrailerCount(Upper(customer), LineItems(ts), ToFixed2(Sum(Prices(ts))), |ts|);
  }

  /** The "Total:" line of a receipt reads back as the sum of the prices. */
  lemma ReceiptTotal(customer: string, ts: seq<Thali>)
    requires AllHaveReceiptFields(ts)
    ensures ReadTotal(Receipt(customer, ts)) == Some(Sum(Prices(ts)))
  {
    ReadTrailerTotal(Upper(customer), LineItems(ts), Sum(Prices(ts)), NatToString(|ts|));
  }
}
