/**
 Invoice pricing over exact amounts. A price shown to the customer may be inflated first and discounted after;
 what is proved is where the money ends up. Where the arithmetic divides by zero there is no price.
 */
module Pricing {
  import opened Common

  /** `applicable` is the number of units a discount is good for, None when unlimited. */
  datatype Discount =
    | Campaign(realRate: real, displayRate: real, applicable: Option<int>)
    | Specific(realPerUnit: real, displayPerUnit: real, applicable: Option<int>)

  datatype Component = Component(product: int, quantity: int)

  datatype Priced = Priced(product: int, quantity: int, unitPrice: real, lineTotal: real)

  datatype Item =
    | Leaf(product: int, quantity: int)
    | Bundle(product: int, quantity: int, components: seq<Component>)

  datatype Applied = Applied(perUnit: real, quantity: int, total: real)

  datatype InvoiceItem = InvoiceItem(
    product: int, quantity: int, unitPrice: real, discount: Option<Applied>, lineTotal: real, components: seq<Priced>)

  datatype Summary = Summary(grandTotal: real, subtotal: real, discount: Option<real>)

  datatype Error = NoPurchasePrice(product: int) | NoMarkup(product: int) | NoPrice

  // ---------------------------------------------------------------- unit prices and discounts

  function UnitPrice(purchasePrice: real, markup: real): real {
    purchasePrice * (1.0 + markup)
  }

  /** The price to show so that the shown discount leaves the real one. */
  function DisplayPrice(price: real, discount: Option<Discount>): Option<real> {
    match discount
    case None => Some(price)
    case Some(Campaign(realRate, displayRate, _)) =>
      if displayRate == 1.0 then None else Some(price * ((1.0 - realRate) / (1.0 - displayRate)))
    case Some(Specific(realPerUnit, displayPerUnit, _)) => Some(price + (displayPerUnit - realPerUnit))
  }

  function DiscountedQuantity(discount: Discount, quantity: int): int {
    if discount.applicable.None? then quantity else Min(discount.applicable.value, quantity)
  }

  function ApplyDiscount(price: real, quantity: int, discount: Option<Discount>): Option<Applied> {
    if discount.None? then None
    else
      var perUnit := match discount.value
                     case Campaign(_, displayRate, _) => price * displayRate
                     case Specific(_, displayPerUnit, _) => displayPerUnit;
      var units := DiscountedQuantity(discount.value, quantity);
      Some(Applied(perUnit, units, perUnit * units as real))
  }

  function TotalDiscount(applied: Option<Applied>): real {
    if applied.Some? then applied.value.total else 0.0
  }

  /** What one unit is to cost once its real discount is taken. */
  function RealNet(price: real, discount: Discount): real {
    match discount
    case Campaign(realRate, _, _) => price * (1.0 - realRate)
    case Specific(realPerUnit, _, _) => price - realPerUnit
  }

  lemma CampaignNets(price: real, realRate: real, displayRate: real)
    requires displayRate != 1.0
    ensures price * ((1.0 - realRate) / (1.0 - displayRate)) * (1.0 - displayRate) == price * (1.0 - realRate)
  {
    var factor := (1.0 - realRate) / (1.0 - displayRate);
    assert factor * (1.0 - displayRate) == 1.0 - realRate;
    assert price * factor * (1.0 - displayRate) == price * (factor * (1.0 - displayRate));
  }

  /** Shown price less shown discount is real price less real discount, for either kind of discount. */
  lemma DiscountedUnitNetsTheRealPrice(price: real, discount: Discount, quantity: int)
    requires DisplayPrice(price, Some(discount)).Some?
    ensures var shown := DisplayPrice(price, Some(discount)).value;
            shown - ApplyDiscount(shown, quantity, Some(discount)).value.perUnit == RealNet(price, discount)
  {
    if discount.Campaign? {
      CampaignNets(price, discount.realRate, discount.displayRate);
      var shown := DisplayPrice(price, Some(discount)).value;
      assert shown - shown * discount.displayRate == shown * (1.0 - discount.displayRate);
    }
  }

  /** A line: units within the discount at the real net price, the others at the shown price. */
  lemma LineTotalIs(price: real, quantity: int, discount: Discount)
    requires DisplayPrice(price, Some(discount)).Some?
    ensures var shown := DisplayPrice(price, Some(discount)).value;
            var units := DiscountedQuantity(discount, quantity);
            shown * quantity as real - TotalDiscount(ApplyDiscount(shown, quantity, Some(discount))) ==
            RealNet(price, discount) * units as real + shown * (quantity - units) as real
  {
    var shown := DisplayPrice(price, Some(discount)).value;
    var units := DiscountedQuantity(discount, quantity);
    var perUnit := ApplyDiscount(shown, quantity, Some(discount)).value.perUnit;
    DiscountedUnitNetsTheRealPrice(price, discount, quantity);
    assert quantity as real == units as real + (quantity - units) as real;
    Distribute(shown, perUnit, units as real, (quantity - units) as real);
  }

  lemma Distribute(shown: real, perUnit: real, units: real, rest: real)
    ensures shown * (units + rest) - perUnit * units == (shown - perUnit) * units + shown * rest
  {
  }

  /**
   Units beyond a discount's limit pay the shown price, not the real one: a line costs what its real prices say exactly
   when every unit is discounted or nothing was added to the shown price.
   */
  lemma LineIsAtRealPricesIff(price: real, quantity: int, discount: Discount)
    requires DisplayPrice(price, Some(discount)).Some?
    ensures var shown := DisplayPrice(price, Some(discount)).value;
            var units := DiscountedQuantity(discount, quantity);
            shown * quantity as real - TotalDiscount(ApplyDiscount(shown, quantity, Some(discount))) ==
            RealNet(price, discount) * units as real + price * (quantity - units) as real <==>
            units == quantity || shown == price
  {
    var shown := DisplayPrice(price, Some(discount)).value;
    var units := DiscountedQuantity(discount, quantity);
    LineTotalIs(price, quantity, discount);
    SameProductIff(shown, price, (quantity - units) as real);
  }

  lemma SameProductIff(x: real, y: real, n: real)
    ensures x * n == y * n <==> x == y || n == 0.0
  {
    assert x * n - y * n == (x - y) * n;
  }

  // ---------------------------------------------------------------- what a line must say

  /** The markup is a share of the purchase price that is added to it. */
  lemma UnitPriceIs(purchasePrice: real, markup: real)
    ensures UnitPrice(purchasePrice, markup) == purchasePrice + purchasePrice * markup
  {
  }

  /** As many units as there are and as the discount is good for are discounted. */
  lemma DiscountedQuantityIs(discount: Discount, quantity: int)
    ensures var units := DiscountedQuantity(discount, quantity);
            && units <= quantity && (discount.applicable.Some? ==> units <= discount.applicable.value)
            && (units == quantity || discount.applicable == Some(units))
  {
  }

  /** A shown price that, less the shown discount, is the real price less the real discount. */
  predicate Shows(shown: real, price: real, discount: Option<Discount>) {
    match discount
    case None => shown == price
    case Some(Campaign(realRate, displayRate, _)) =>
      displayRate != 1.0 && shown - shown * displayRate == price - price * realRate
    case Some(Specific(realPerUnit, displayPerUnit, _)) => shown - displayPerUnit == price - realPerUnit
  }

  /** The line's price is shown, and its discount taken off for as many units as the discount is good for. */
  predicate Charges(line: InvoiceItem, product: int, quantity: int, discount: Option<Discount>) {
    && line.product == product && line.quantity == quantity
    && match discount
       case None => line.discount == None && line.lineTotal == line.unitPrice * quantity as real
       case Some(d) =>
         && line.discount.Some?
         && line.discount.value.quantity ==
            (if d.applicable.Some? && d.applicable.value < quantity then d.applicable.value else quantity)
         && line.discount.value.perUnit == (if d.Campaign? then line.unitPrice * d.displayRate else d.displayPerUnit)
         && line.discount.value.total == line.discount.value.perUnit * line.discount.value.quantity as real
         && line.lineTotal == line.unitPrice * quantity as real - line.discount.value.total
  }

  /** The campaign's shown rate leaves nothing to divide by. */
  predicate NothingLeft(discount: Option<Discount>) {
    discount.Some? && discount.value.Campaign? && discount.value.displayRate == 1.0
  }

  lemma DisplayPriceIs(price: real, discount: Option<Discount>)
    ensures DisplayPrice(price, discount).None? <==> NothingLeft(discount)
    ensures DisplayPrice(price, discount).Some? ==> Shows(DisplayPrice(price, discount).value, price, discount)
  {
    if discount.Some? && DisplayPrice(price, discount).Some? {
      DiscountedUnitNetsTheRealPrice(price, discount.value, 0);
    }
  }

  /** What such a line comes to: discounted units at the real price less the real discount, the others as shown. */
  lemma ChargedIs(line: InvoiceItem, product: int, quantity: int, price: real, d: Discount)
    requires Shows(line.unitPrice, price, Some(d)) && Charges(line, product, quantity, Some(d))
    ensures var units := line.discount.value.quantity;
            var net := match d case Campaign(realRate, _, _) => price - price * realRate
                               case Specific(realPerUnit, _, _) => price - realPerUnit;
            line.lineTotal == net * units as real + line.unitPrice * (quantity - units) as real
  {
    var units := line.discount.value.quantity;
    assert quantity as real == units as real + (quantity - units) as real;
    Distribute(line.unitPrice, line.discount.value.perUnit, units as real, (quantity - units) as real);
  }

  // ---------------------------------------------------------------- bundles

  function LineTotals(items: seq<Priced>): real {
    if |items| == 0 then 0.0 else LineTotals(items[..|items| - 1]) + items[|items| - 1].lineTotal
  }

  /** A keyed list: an item of the same product is replaced where it is. */
  function Set(items: seq<Priced>, item: Priced): seq<Priced> {
    if |items| == 0 then [item]
    else if items[0].product == item.product then [item] + items[1..]
    else [items[0]] + Set(items[1..], item)
  }

  predicate Consistent(item: Priced) {
    item.lineTotal == item.unitPrice * item.quantity as real
  }

  lemma {:induction false} SetKeepsConsistent(items: seq<Priced>, item: Priced)
    requires Consistent(item) && forall p :: p in items ==> Consistent(p)
    ensures forall p :: p in Set(items, item) ==> Consistent(p)
  {
    if |items| > 0 && items[0].product != item.product {
      SetKeepsConsistent(items[1..], item);
    }
  }

  function AtRealPrice(c: Component, prices: map<int, real>, markups: map<int, real>): Result<Priced, Error> {
    if c.product !in prices then Err(NoPurchasePrice(c.product))
    else if c.product !in markups then Err(NoMarkup(c.product))
    else
      var unitPrice := UnitPrice(prices[c.product], markups[c.product]);
      Ok(Priced(c.product, c.quantity, unitPrice, unitPrice * c.quantity as real))
  }

  function With(priced: Result<seq<Priced>, Error>, next: Result<Priced, Error>): Result<seq<Priced>, Error> {
    if priced.Err? then priced else if next.Err? then Err(next.error) else Ok(Set(priced.value, next.value))
  }

  /** The components at their real prices, or what is missing. */
  function PricedComponents(components: seq<Component>, prices: map<int, real>, markups: map<int, real>)
    : Result<seq<Priced>, Error>
  {
    if |components| == 0 then Ok([])
    else
      var n := |components| - 1;
      With(PricedComponents(components[..n], prices, markups), AtRealPrice(components[n], prices, markups))
  }

  ghost predicate OneLineEach(items: seq<Priced>) {
    forall a, b :: 0 <= a < b < |items| ==> items[a].product != items[b].product
  }

  /** The last component of its product, at the purchase price with the markup on it. */
  ghost predicate IsLastOf(components: seq<Component>, i: int, p: Priced, prices: map<int, real>, markups: map<int, real>) {
    && 0 <= i < |components| && components[i].product == p.product && components[i].quantity == p.quantity
    && (forall j :: i < j < |components| ==> components[j].product != p.product)
    && p.product in prices && p.product in markups
    && p.unitPrice == prices[p.product] + prices[p.product] * markups[p.product]
    && p.lineTotal == p.unitPrice * p.quantity as real
  }

  lemma {:induction false} SetIs(items: seq<Priced>, item: Priced)
    requires OneLineEach(items)
    ensures OneLineEach(Set(items, item))
    ensures forall p :: p in Set(items, item) <==> p == item || (p in items && p.product != item.product)
  {
    if |items| > 0 && items[0].product != item.product {
      SetIs(items[1..], item);
      var rest := Set(items[1..], item);
      forall b | 0 <= b < |rest|
        ensures rest[b].product != items[0].product
      {
        assert rest[b] in rest;
      }
      assert items == [items[0]] + items[1..];
    } else if |items| > 0 {
      assert items == [items[0]] + items[1..];
      forall b | 1 <= b < |items|
        ensures items[b].product != item.product
      {
        assert items[0].product != items[b].product;
      }
    }
  }

  /** One line for each product, for its last component. */
  ghost predicate AreLinesOf(items: seq<Priced>, components: seq<Component>, prices: map<int, real>, markups: map<int, real>) {
    && OneLineEach(items)
    && (forall p :: p in items ==> exists i :: IsLastOf(components, i, p, prices, markups))
    && (forall c :: c in components ==> exists p :: p in items && p.product == c.product)
  }

  lemma {:induction false} AllPricedIff(components: seq<Component>, prices: map<int, real>, markups: map<int, real>)
    ensures PricedComponents(components, prices, markups).Ok? <==>
            forall c :: c in components ==> c.product in prices && c.product in markups
  {
    if |components| > 0 {
      var n := |components| - 1;
      assert components == components[..n] + [components[n]];
      AllPricedIff(components[..n], prices, markups);
    }
  }

  /** Components have prices exactly when each one's product has a purchase price and a markup. */
  lemma {:induction false} PricedComponentsAre(components: seq<Component>, prices: map<int, real>, markups: map<int, real>)
    ensures var r := PricedComponents(components, prices, markups);
            && (r.Ok? <==> forall c :: c in components ==> c.product in prices && c.product in markups)
            && (r.Ok? ==> AreLinesOf(r.value, components, prices, markups))
  {
    AllPricedIff(components, prices, markups);
    if |components| > 0 && PricedComponents(components, prices, markups).Ok? {
      var n := |components| - 1;
      var before, last := components[..n], components[n];
      PricedComponentsAre(before, prices, markups);
      var was, item := PricedComponents(before, prices, markups).value, AtRealPrice(last, prices, markups).value;
      AtRealPriceIs(components, prices, markups, item);
      OneMoreLine(before, components, prices, markups, was, item);
    }
  }

  lemma AtRealPriceIs(components: seq<Component>, prices: map<int, real>, markups: map<int, real>, item: Priced)
    requires |components| > 0 && AtRealPrice(components[|components| - 1], prices, markups) == Ok(item)
    ensures IsLastOf(components, |components| - 1, item, prices, markups)
  {
    var last := components[|components| - 1];
    UnitPriceIs(prices[last.product], markups[last.product]);
  }

  lemma OneMoreLine(before: seq<Component>, components: seq<Component>, prices: map<int, real>, markups: map<int, real>,
                    was: seq<Priced>, item: Priced)
    requires |components| > 0 && before == components[..|components| - 1]
    requires AreLinesOf(was, before, prices, markups) && IsLastOf(components, |components| - 1, item, prices, markups)
    ensures AreLinesOf(Set(was, item), components, prices, markups)
  {
    SetIs(was, item);
    LinesOfMore(before, components, prices, markups, was, item, Set(was, item));
    NoneWithoutLine(before, components, was, item, Set(was, item));
  }

  lemma LinesOfMore(before: seq<Component>, components: seq<Component>, prices: map<int, real>, markups: map<int, real>,
                    was: seq<Priced>, item: Priced, now: seq<Priced>)
    requires |components| > 0 && before == components[..|components| - 1]
    requires forall p :: p in was ==> exists i :: IsLastOf(before, i, p, prices, markups)
    requires forall p :: p in now ==> p == item || (p in was && p.product != item.product)
    requires IsLastOf(components, |components| - 1, item, prices, markups)
    ensures forall p :: p in now ==> exists i :: IsLastOf(components, i, p, prices, markups)
  {
    forall p | p in now
      ensures exists i :: IsLastOf(components, i, p, prices, markups)
    {
      if p == item {
        assert IsLastOf(components, |components| - 1, p, prices, markups);
      } else {
        var i :| IsLastOf(before, i, p, prices, markups);
        assert IsLastOf(components, i, p, prices, markups);
      }
    }
  }

  lemma NoneWithoutLine(before: seq<Component>, components: seq<Component>, was: seq<Priced>, item: Priced, now: seq<Priced>)
    requires |components| > 0 && before == components[..|components| - 1]
    requires item.product == components[|components| - 1].product
    requires forall c :: c in before ==> exists p :: p in was && p.product == c.product
    requires item in now && forall p :: p in was && p.product != item.product ==> p in now
    ensures forall c :: c in components ==> exists p :: p in now && p.product == c.product
  {
    forall c | c in components
      ensures exists p :: p in now && p.product == c.product
    {
      if c.product != item.product {
        var j :| 0 <= j < |components| && components[j] == c;
        assert c == before[j];
        var p :| p in was && p.product == c.product;
        assert p in now;
      }
    }
  }

  lemma {:induction false} FirstMissingStays(components: seq<Component>, prices: map<int, real>, markups: map<int, real>, n: nat)
    requires n <= |components| && PricedComponents(components[..n], prices, markups).Err?
    ensures PricedComponents(components, prices, markups) == PricedComponents(components[..n], prices, markups)
    decreases |components|
  {
    if n == |components| {
      assert components[..n] == components;
    } else {
      assert components[..|components| - 1][..n] == components[..n];
      FirstMissingStays(components[..|components| - 1], prices, markups, n);
    }
  }

  method PriceComponents(components: seq<Component>, prices: map<int, real>, markups: map<int, real>)
    returns (r: Result<seq<Priced>, Error>)
    ensures r == PricedComponents(components, prices, markups)
    ensures r.Ok? ==> forall p :: p in r.value ==> Consistent(p)
  {
    var priced: seq<Priced> := [];
    for i := 0 to |components|
      invariant PricedComponents(components[..i], prices, markups) == Ok(priced)
      invariant forall p :: p in priced ==> Consistent(p)
    {
      var item := AtRealPrice(components[i], prices, markups);
      assert components[..i + 1][..i] == components[..i];
      if item.Err? {
        FirstMissingStays(components, prices, markups, i + 1);
        return Err(item.error);
      }
      SetKeepsConsistent(priced, item.value);
      priced := Set(priced, item.value);
    }
    assert components[..|components|] == components;
    return Ok(priced);
  }

  /** A component's share of the adjustment is its share of the real price, so its line scales with the bundle's price. */
  lemma LineScales(unitPrice: real, quantity: real, lineTotal: real, realPrice: real, shown: real)
    requires lineTotal == unitPrice * quantity && quantity != 0.0 && realPrice != 0.0
    ensures (unitPrice + (shown - realPrice) * (lineTotal / realPrice) / quantity) * quantity * realPrice == lineTotal * shown
  {
    var ratio := lineTotal / realPrice;
    var part := (shown - realPrice) * ratio;
    assert ratio * realPrice == lineTotal;
    assert part / quantity * quantity == part;
    assert (unitPrice + part / quantity) * quantity == lineTotal + part;
    assert part * realPrice == (shown - realPrice) * (ratio * realPrice);
    assert (lineTotal + part) * realPrice == lineTotal * realPrice + part * realPrice;
    assert (shown - realPrice) * lineTotal == shown * lineTotal - realPrice * lineTotal;
  }

  lemma SumScales(before: real, line: real, sum: real, shownLine: real, realPrice: real, shown: real)
    requires Scales(before, sum, realPrice, shown) && Scales(line, shownLine, realPrice, shown)
    ensures Scales(before + line, sum + shownLine, realPrice, shown)
  {
  }

  lemma Cancel(sum: real, realPrice: real, shown: real)
    requires realPrice != 0.0 && Scales(realPrice, sum, realPrice, shown)
    ensures sum == shown
  {
    assert (sum - shown) * realPrice == 0.0;
  }

  /** The component as shown: its line is to the real line what the shown bundle price is to the real one. */
  predicate IsShown(item: Priced, line: Priced, realPrice: real, shown: real) {
    && line.product == item.product && line.quantity == item.quantity && Consistent(line)
    && Scales(item.lineTotal, line.lineTotal, realPrice, shown)
  }

  predicate Scales(was: real, now: real, realPrice: real, shown: real) {
    now * realPrice == was * shown
  }

  function ShownLine(item: Priced, realPrice: real, shown: real): Priced
    requires realPrice != 0.0 && item.quantity != 0
  {
    var ratio := item.lineTotal / realPrice;
    var unitPrice := item.unitPrice + (shown - realPrice) * ratio / item.quantity as real;
    Priced(item.product, item.quantity, unitPrice, unitPrice * item.quantity as real)
  }

  lemma ShownLineIsShown(item: Priced, realPrice: real, shown: real)
    requires Consistent(item) && realPrice != 0.0 && item.quantity != 0
    ensures IsShown(item, ShownLine(item, realPrice, shown), realPrice, shown)
  {
    LineScales(item.unitPrice, item.quantity as real, item.lineTotal, realPrice, shown);
  }

  /** `out` are the items as shown. */
  ghost predicate AreShown(items: seq<Priced>, out: seq<Priced>, realPrice: real, shown: real) {
    |out| == |items| &&
    forall i :: 0 <= i < |items| ==>
                  realPrice != 0.0 && items[i].quantity != 0 && out[i] == ShownLine(items[i], realPrice, shown)
  }

  lemma {:induction false} TotalsScale(items: seq<Priced>, out: seq<Priced>, realPrice: real, shown: real)
    requires |out| == |items|
    requires forall i :: 0 <= i < |items| ==> Scales(items[i].lineTotal, out[i].lineTotal, realPrice, shown)
    ensures Scales(LineTotals(items), LineTotals(out), realPrice, shown)
  {
    if |items| > 0 {
      var n := |items| - 1;
      var was, now := LineTotals(items[..n]), LineTotals(out[..n]);
      TotalsScale(items[..n], out[..n], realPrice, shown);
      SumScales(was, items[n].lineTotal, now, out[n].lineTotal, realPrice, shown);
      assert LineTotals(items) == was + items[n].lineTotal && LineTotals(out) == now + out[n].lineTotal;
    }
  }

  lemma ShownTogether(items: seq<Priced>, out: seq<Priced>, realPrice: real, shown: real)
    requires AreShown(items, out, realPrice, shown) && forall p :: p in items ==> Consistent(p)
    requires realPrice == LineTotals(items) && items != []
    ensures LineTotals(out) == shown
    ensures forall i :: 0 <= i < |items| ==> IsShown(items[i], out[i], realPrice, shown)
  {
    forall i | 0 <= i < |items|
      ensures IsShown(items[i], out[i], realPrice, shown)
    {
      ShownLineIsShown(items[i], realPrice, shown);
    }
    TotalsScale(items, out, realPrice, shown);
    assert items[0].quantity != 0 && realPrice != 0.0;
    Cancel(LineTotals(out), realPrice, shown);
  }

  /** Without components there is nothing to divide by. */
  predicate Divides(items: seq<Priced>) {
    items != [] ==> LineTotals(items) != 0.0 && forall p :: p in items ==> p.quantity != 0
  }

  /** What the lines of a bundle sum to as shown; a bundle of nothing costs nothing. */
  function ShownTotal(items: seq<Priced>, displayPrice: Option<real>): Option<real> {
    if items == [] then Some(0.0) else displayPrice
  }

  /** Shown component prices: each line in proportion, and together the bundle's shown price. */
  method BundleDisplayItems(items: seq<Priced>, discount: Discount) returns (r: Option<seq<Priced>>)
    requires forall p :: p in items ==> Consistent(p)
    ensures r.Some? <==> DisplayPrice(LineTotals(items), Some(discount)).Some? && Divides(items)
    ensures r.Some? ==>
              && |r.value| == |items|
              && Some(LineTotals(r.value)) == ShownTotal(items, DisplayPrice(LineTotals(items), Some(discount)))
              && forall i :: 0 <= i < |items| ==> IsShown(items[i], r.value[i], LineTotals(items), LineTotals(r.value))
  {
    var realPrice := SumLines(items);
    var displayPrice := DisplayPrice(realPrice, Some(discount));
    if displayPrice.None? {
      return None;
    }
    var out := ShownLines(items, realPrice, displayPrice.value);
    if out.Some? && items != [] {
      ShownTogether(items, out.value, realPrice, displayPrice.value);
    }
    return out;
  }

  method ShownLines(items: seq<Priced>, realPrice: real, shown: real) returns (r: Option<seq<Priced>>)
    ensures r.Some? <==> forall p :: p in items ==> realPrice != 0.0 && p.quantity != 0
    ensures r.Some? ==> AreShown(items, r.value, realPrice, shown)
  {
    var out: seq<Priced> := [];
    for i := 0 to |items|
      invariant AreShown(items[..i], out, realPrice, shown)
    {
      assert items[i] in items;
      if realPrice == 0.0 || items[i].quantity == 0 {
        return None;
      }
      out := out + [ShownLine(items[i], realPrice, shown)];
    }
    assert items[..|items|] == items;
    return Some(out);
  }

  method SumLines(items: seq<Priced>) returns (total: real)
    ensures total == LineTotals(items)
  {
    total := 0.0;
    for i := 0 to |items|
      invariant total == LineTotals(items[..i])
    {
      assert items[..i + 1][..i] == items[..i];
      total := total + items[i].lineTotal;
    }
    assert items[..|items|] == items;
  }

  // ---------------------------------------------------------------- invoice items

  /** The line of an invoice item is its shown price times its quantity, less its discount. */
  predicate LineAddsUp(item: InvoiceItem) {
    item.lineTotal == item.unitPrice * item.quantity as real - TotalDiscount(item.discount)
  }

  method PriceProduct(product: int, quantity: int, prices: map<int, real>, markup: real, discount: Option<Discount>)
    returns (r: Result<InvoiceItem, Error>)
    ensures r.Err? <==> product !in prices || NothingLeft(discount)
    ensures r.Err? ==> r.error == if product !in prices then NoPurchasePrice(product) else NoPrice
    ensures r.Ok? ==> LineAddsUp(r.value) && Charges(r.value, product, quantity, discount)
    ensures r.Ok? ==> Shows(r.value.unitPrice, prices[product] + prices[product] * markup, discount)
  {
    if product !in prices {
      return Err(NoPurchasePrice(product));
    }
    UnitPriceIs(prices[product], markup);
    DisplayPriceIs(UnitPrice(prices[product], markup), discount);
    var shown := DisplayPrice(UnitPrice(prices[product], markup), discount);
    if shown.None? {
      return Err(NoPrice);
    }
    return Ok(LineAt(product, quantity, shown.value, discount, []));
  }

  /** A line at a shown price, its discount taken off. */
  function LineAt(product: int, quantity: int, shown: real, discount: Option<Discount>, components: seq<Priced>): (line: InvoiceItem)
    ensures LineAddsUp(line) && Charges(line, product, quantity, discount)
    ensures line.unitPrice == shown && line.components == components
  {
    var applied := ApplyDiscount(shown, quantity, discount);
    InvoiceItem(product, quantity, shown, applied, shown * quantity as real - TotalDiscount(applied), components)
  }

  /** The component lines as shown: same products and quantities, each line in proportion to its real one. */
  ghost predicate InProportion(items: seq<Priced>, out: seq<Priced>, shown: real) {
    |out| == |items| && forall i :: 0 <= i < |items| ==> IsShown(items[i], out[i], LineTotals(items), shown)
  }

  /** Why a bundle has no price, if it has none. */
  ghost function BundleError(components: seq<Component>, prices: map<int, real>, markups: map<int, real>,
                             discount: Option<Discount>): Option<Error>
  {
    match PricedComponents(components, prices, markups)
    case Err(error) => Some(error)
    case Ok(items) => if discount.Some? && (NothingLeft(discount) || !Divides(items)) then Some(NoPrice) else None
  }

  /** The components as they are shown: as they are without a discount, none when the arithmetic divides by zero. */
  method ShownComponents(items: seq<Priced>, discount: Option<Discount>) returns (r: Option<seq<Priced>>)
    requires forall p :: p in items ==> Consistent(p)
    ensures r.None? <==> discount.Some? && (NothingLeft(discount) || !Divides(items))
    ensures r.Some? ==> InProportion(items, r.value, LineTotals(r.value))
    ensures r.Some? ==> ShowsTotal(items, LineTotals(r.value), discount)
  {
    if discount.None? {
      return Some(items);
    }
    DisplayPriceIs(LineTotals(items), discount);
    r := BundleDisplayItems(items, discount.value);
  }

  /** The price a bundle is shown at; a bundle of nothing costs nothing. */
  ghost predicate ShowsTotal(items: seq<Priced>, shown: real, discount: Option<Discount>) {
    if items == [] then shown == 0.0 else Shows(shown, LineTotals(items), discount)
  }

  /** A bundle is shown at the price its real price calls for, and its component lines add up to just that. */
  method PriceBundle(product: int, quantity: int, components: seq<Component>, prices: map<int, real>, markups: map<int, real>,
                     discount: Option<Discount>)
    returns (r: Result<InvoiceItem, Error>)
    ensures r.Err? ==> Some(r.error) == BundleError(components, prices, markups, discount)
    ensures r.Err? <==> BundleError(components, prices, markups, discount).Some?
    ensures r.Ok? ==> LineAddsUp(r.value) && Charges(r.value, product, quantity, discount)
    ensures r.Ok? ==> LineTotals(r.value.components) == r.value.unitPrice
    ensures r.Ok? ==>
              && PricedComponents(components, prices, markups).Ok?
              && var real' := PricedComponents(components, prices, markups).value;
                 && ShowsTotal(real', r.value.unitPrice, discount)
                 && InProportion(real', r.value.components, r.value.unitPrice)
  {
    var real' := PriceComponents(components, prices, markups);
    if real'.Err? {
      return Err(real'.error);
    }
    var shownItems := ShownComponents(real'.value, discount);
    if shownItems.None? {
      return Err(NoPrice);
    }
    var shown := SumLines(shownItems.value);
    return Ok(LineAt(product, quantity, shown, discount, shownItems.value));
  }

  // ---------------------------------------------------------------- invoices

  function GrandTotal(items: seq<InvoiceItem>): real {
    if |items| == 0 then 0.0 else GrandTotal(items[..|items| - 1]) + items[|items| - 1].lineTotal
  }

  function Subtotal(items: seq<InvoiceItem>): real {
    if |items| == 0 then 0.0
    else Subtotal(items[..|items| - 1]) + items[|items| - 1].unitPrice * items[|items| - 1].quantity as real
  }

  /** The invoice's totals; grand total is subtotal less discount, whatever the items. */
  method Summarize(items: seq<InvoiceItem>) returns (s: Summary)
    requires forall i :: 0 <= i < |items| ==> LineAddsUp(items[i])
    ensures s.grandTotal == GrandTotal(items) && s.subtotal == Subtotal(items)
    ensures s.grandTotal == s.subtotal - (if s.discount.Some? then s.discount.value else 0.0)
    ensures s.discount.Some? <==> exists i :: 0 <= i < |items| && items[i].discount.Some?
  {
    s := Summary(0.0, 0.0, None);
    for i := 0 to |items|
      invariant s.grandTotal == GrandTotal(items[..i]) && s.subtotal == Subtotal(items[..i])
      invariant s.grandTotal == s.subtotal - (if s.discount.Some? then s.discount.value else 0.0)
      invariant s.discount.Some? <==> exists j :: 0 <= j < i && items[j].discount.Some?
    {
      var item := items[i];
      assert items[..i + 1][..i] == items[..i];
      var discount := if item.discount.Some? then Some((if s.discount.Some? then s.discount.value else 0.0) + item.discount.value.total)
                      else s.discount;
      s := Summary(s.grandTotal + item.lineTotal, s.subtotal + item.unitPrice * item.quantity as real, discount);
    }
    assert items[..|items|] == items;
  }

  /** Why an item has no price, if it has none. */
  ghost function ItemError(item: Item, prices: map<int, real>, markups: map<int, real>, discounts: map<int, Discount>)
    : Option<Error>
  {
    var discount := if item.product in discounts then Some(discounts[item.product]) else None;
    match item
    case Leaf(product, _) =>
      if product !in markups then Some(NoMarkup(product))
      else if product !in prices then Some(NoPurchasePrice(product))
      else if NothingLeft(discount) then Some(NoPrice)
      else None
    case Bundle(_, _, components) => BundleError(components, prices, markups, discount)
  }

  /** The line of an item: purchase price, markup and discount are those of its product, or of a bundle's components. */
  ghost predicate IsPriced(item: Item, line: InvoiceItem, prices: map<int, real>, markups: map<int, real>,
                           discounts: map<int, Discount>)
  {
    var discount := if item.product in discounts then Some(discounts[item.product]) else None;
    && Charges(line, item.product, item.quantity, discount)
    && match item
       case Leaf(product, _) =>
         product in prices && product in markups &&
         Shows(line.unitPrice, prices[product] + prices[product] * markups[product], discount)
       case Bundle(_, _, components) =>
         && PricedComponents(components, prices, markups).Ok?
         && var real' := PricedComponents(components, prices, markups).value;
            && ShowsTotal(real', line.unitPrice, discount)
            && InProportion(real', line.components, line.unitPrice) && LineTotals(line.components) == line.unitPrice
  }

  method PriceItem(item: Item, prices: map<int, real>, markups: map<int, real>, discounts: map<int, Discount>)
    returns (r: Result<InvoiceItem, Error>)
    ensures r.Ok? <==> ItemError(item, prices, markups, discounts).None?
    ensures r.Err? ==> ItemError(item, prices, markups, discounts) == Some(r.error)
    ensures r.Ok? ==> LineAddsUp(r.value) && IsPriced(item, r.value, prices, markups, discounts)
  {
    var discount := if item.product in discounts then Some(discounts[item.product]) else None;
    match item {
      case Leaf(product, quantity) =>
        if product !in markups {
          return Err(NoMarkup(product));
        }
        r := PriceProduct(product, quantity, prices, markups[product], discount);
      case Bundle(product, quantity, components) =>
        r := PriceBundle(product, quantity, components, prices, markups, discount);
    }
  }

  /** `items` is keyed by product; a customer's applicable discounts are keyed the same way. */
  method PriceInvoice(items: seq<Item>, prices: map<int, real>, markups: map<int, real>, discounts: map<int, Discount>)
    returns (r: Result<(seq<InvoiceItem>, Summary), Error>)
    ensures r.Ok? <==> forall i :: 0 <= i < |items| ==> ItemError(items[i], prices, markups, discounts).None?
    ensures r.Err? ==> exists i :: 0 <= i < |items| && ItemError(items[i], prices, markups, discounts) == Some(r.error) &&
                                   forall j :: 0 <= j < i ==> ItemError(items[j], prices, markups, discounts).None?
    ensures r.Ok? ==>
              var (priced, summary) := r.value;
              && |priced| == |items|
              && (forall i :: 0 <= i < |items| ==>
                    LineAddsUp(priced[i]) && IsPriced(items[i], priced[i], prices, markups, discounts))
              && summary.grandTotal == GrandTotal(priced) && summary.subtotal == Subtotal(priced)
              && summary.grandTotal == summary.subtotal - (if summary.discount.Some? then summary.discount.value else 0.0)
  {
    var priced: seq<InvoiceItem> := [];
    for i := 0 to |items|
      invariant |priced| == i
      invariant forall j :: 0 <= j < i ==>
                  && ItemError(items[j], prices, markups, discounts).None?
                  && LineAddsUp(priced[j]) && IsPriced(items[j], priced[j], prices, markups, discounts)
    {
      var item := PriceItem(items[i], prices, markups, discounts);
      if item.Err? {
        return Err(item.error);
      }
      priced := priced + [item.value];
    }
    var summary := Summarize(priced);
    return Ok((priced, summary));
  }
}
