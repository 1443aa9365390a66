/** The shop (consumption) template: goods sold for items at a discount,
    optionally limited per player. */
module ShopTemplate {
  import opened Records
  import opened TemplateBase

  /** A new shop's record: an allocated, empty counter map. */
  function InitData(): (d: TemplateData)
    ensures d.shop == Some(ShopDB(Some(map[])))
    ensures d.sign.None? && d.tasks.None?
  {
    TemplateData(None, None, Some(ShopDB(Some(map[]))))
  }

  /** How often goods `g` was bought; a nil map reads as all zeros. */
  function BuyCount(s: ShopDB, g: int): int {
    if s.buyCounts.Some? && g in s.buyCounts.value then s.buyCounts.value[g] else 0
  }

  /** The price of goods: every expended item scaled by `discount` percent,
      truncated toward zero. */
  function Costs(expend: seq<Item>, discount: int): (r: seq<Item>)
    ensures |r| == |expend|
    ensures forall i :: 0 <= i < |r| ==> r[i].id == expend[i].id
    ensures forall i :: 0 <= i < |r| && 0 <= discount <= 100 && expend[i].num >= 0 ==>
      0 <= r[i].num <= expend[i].num
    ensures discount == 100 ==> r == expend
  {
    var r := seq(|expend|, i requires 0 <= i < |expend| => Item(expend[i].id, TruncDiv(expend[i].num * discount, 100)));
    assert forall i :: 0 <= i < |r| && 0 <= discount <= 100 && expend[i].num >= 0 ==> 0 <= r[i].num <= expend[i].num by {
      forall i | 0 <= i < |r| && 0 <= discount <= 100 && expend[i].num >= 0 {
        ScaleBound(expend[i].num, discount);
      }
    }
    assert discount == 100 ==> r == expend by {
      if discount == 100 {
        forall i | 0 <= i < |r| ensures r[i] == expend[i] {
          assert expend[i].num * discount / 100 == expend[i].num;
        }
      }
    }
    r
  }

  lemma ScaleBound(n: int, d: int)
    requires n >= 0 && 0 <= d <= 100
    ensures 0 <= TruncDiv(n * d, 100) <= n
  {
    assert 0 <= n * d <= n * 100;
  }

  /** What the template reports when it saves: its shop part only. */
  function Part(t: Template): TemplateData {
    TemplateData(None, None, ShopData(t))
  }

  /** Whether the template's own checks let goods `g` be bought, before any
      host call. */
  predicate Purchasable(t: Template, g: int) {
    && ShopConfOf(t.conf).Some?
    && ShopData(t).Some?
    && 0 <= g < |ShopConfOf(t.conf).value|
    && var goods := ShopConfOf(t.conf).value[g];
       !(goods.isLimit && BuyCount(ShopData(t).value, g) >= goods.limitCount)
  }

  /** The three host calls of a purchase, in order: check the price, take it,
      hand over the goods. It stops at the first refusal. */
  function Charge(goods: Goods, host: Host): (r: (Option<Error>, seq<Effect>))
    ensures var price := Costs(goods.expend, goods.discount);
      r.0.None? <==> host(CheckCost(price)) && host(SubCost(price)) && host(AddReward(goods.goods))
    ensures r.0.None? ==> r.1 == [Call(CheckCost(Costs(goods.expend, goods.discount)), true),
                                  Call(SubCost(Costs(goods.expend, goods.discount)), true),
                                  Call(AddReward(goods.goods), true)]
    ensures r.0.Some? ==> r.0.value.HostRefused? && |r.1| > 0 && r.1[|r.1| - 1] == Call(r.0.value.call, false)
  {
    var price := Costs(goods.expend, goods.discount);
    if !host(CheckCost(price)) then (Some(HostRefused(CheckCost(price))), [Call(CheckCost(price), false)])
    else if !host(SubCost(price)) then
      (Some(HostRefused(SubCost(price))), [Call(CheckCost(price), true), Call(SubCost(price), false)])
    else if !host(AddReward(goods.goods)) then
      (Some(HostRefused(AddReward(goods.goods))),
       [Call(CheckCost(price), true), Call(SubCost(price), true), Call(AddReward(goods.goods), false)])
    else (None, [Call(CheckCost(price), true), Call(SubCost(price), true), Call(AddReward(goods.goods), true)])
  }

  /** The template's own refusals, in the order the code tests them. */
  function BuyCheck(t: Template, g: int): (r: Option<Error>)
    ensures r.None? <==> Purchasable(t, g)
    ensures ShopConfOf(t.conf).None? ==> r == Some(ConfNil)
    ensures ShopConfOf(t.conf).Some? && ShopData(t).None? ==> r == Some(DbDataNil)
    ensures ShopConfOf(t.conf).Some? && ShopData(t).Some? ==>
      (g >= |ShopConfOf(t.conf).value| ==> r == Some(GoodsNotExist)) &&
      (g < 0 ==> r == Some(IndexPanic))
  {
    if ShopConfOf(t.conf).None? then Some(ConfNil)
    else if ShopData(t).None? then Some(DbDataNil)
    else if g >= |ShopConfOf(t.conf).value| then Some(GoodsNotExist)
    else if g < 0 then Some(IndexPanic)
    else
      var goods := ShopConfOf(t.conf).value[g];
      if goods.isLimit && BuyCount(ShopData(t).value, g) >= goods.limitCount then Some(GoodsLimit)
      else None
  }

  function WithShop(t: Template, s: ShopDB): Template
    requires t.data.Some?
  {
    t.(data := Some(t.data.value.(shop := Some(s))))
  }

  /** The purchase as the code is written: the counter of limited goods is
      written into the stored map, which panics when that map is nil. */
  function BuyAsWritten(t: Template, g: int, host: Host): (r: Step)
    ensures r.err.None? ==> Purchasable(t, g)
    ensures r.err.Some? ==> r.after == t
  {
    match BuyCheck(t, g)
    case Some(e) => Step(Some(e), t, [])
    case None =>
      var goods := ShopConfOf(t.conf).value[g];
      var s := ShopData(t).value;
      var (err, calls) := Charge(goods, host);
      if err.Some? then Step(err, t, calls)
      else if goods.isLimit && s.buyCounts.None? then Step(Some(IndexPanic), t, calls)
      else
        var after := if goods.isLimit then WithShop(t, ShopDB(Some(s.buyCounts.value[g := BuyCount(s, g) + 1]))) else t;
        Step(None, after, calls + [Save(after, Part(after))])
  }

  /** The purchase with the counter map allocated on first use. Every refusal
      leaves the template as it was; a purchase counts limited goods once and
      touches no other counter. */
  function Buy(t: Template, g: int, host: Host): (r: Step)
    ensures r.err.Some? ==> r.after == t
    ensures BuyCheck(t, g).Some? ==> r == Step(BuyCheck(t, g), t, [])
    ensures r.err.None? <==> Purchasable(t, g) && Charge(ShopConfOf(t.conf).value[g], host).0.None?
    ensures r.err.None? ==>
      var goods := ShopConfOf(t.conf).value[g];
      && r.after.data.Some? && ShopData(r.after).Some?
      && r.after == WithShop(t, ShopData(r.after).value)
      && (forall k :: BuyCount(ShopData(r.after).value, k) ==
            if k == g && goods.isLimit then BuyCount(ShopData(t).value, k) + 1 else BuyCount(ShopData(t).value, k))
      && r.effects == Charge(goods, host).1 + [Save(r.after, Part(r.after))]
  {
    match BuyCheck(t, g)
    case Some(e) => Step(Some(e), t, [])
    case None =>
      var goods := ShopConfOf(t.conf).value[g];
      var s := ShopData(t).value;
      var (err, calls) := Charge(goods, host);
      if err.Some? then Step(err, t, calls)
      else
        var counts := if s.buyCounts.Some? then s.buyCounts.value else map[];
        var after := if goods.isLimit then WithShop(t, ShopDB(Some(counts[g := BuyCount(s, g) + 1]))) else t;
        Step(None, after, calls + [Save(after, Part(after))])
  }

  /** Purchases never push a limited counter past its limit. */
  lemma BuyKeepsLimit(t: Template, g: int, host: Host)
    requires ShopConfOf(t.conf).Some? && ShopData(t).Some? && 0 <= g < |ShopConfOf(t.conf).value|
    requires var goods := ShopConfOf(t.conf).value[g]; goods.isLimit && BuyCount(ShopData(t).value, g) <= goods.limitCount
    ensures var r := Buy(t, g, host);
      BuyCount(ShopData(r.after).value, g) <= ShopConfOf(t.conf).value[g].limitCount
  {
  }

  /** Goods limited to one can be bought once: the second purchase is refused
      with the counter left at one. */
  lemma LimitOneBuysOnce(t: Template, g: int, host: Host)
    requires ShopConfOf(t.conf).Some? && ShopData(t).Some? && 0 <= g < |ShopConfOf(t.conf).value|
    requires var goods := ShopConfOf(t.conf).value[g]; goods.isLimit && goods.limitCount == 1
    requires BuyCount(ShopData(t).value, g) == 0
    requires Charge(ShopConfOf(t.conf).value[g], host).0.None?
    ensures var first := Buy(t, g, host);
      && first.err.None?
      && var second := Buy(first.after, g, host);
      && second.err == Some(GoodsLimit)
      && second.after == first.after
      && BuyCount(ShopData(second.after).value, g) == 1
  {
    var first := Buy(t, g, host);
    assert BuyCount(ShopData(first.after).value, g) == 1;
    assert first.after.conf == t.conf;
  }

  /** The purchase as written is the corrected purchase except in one case:
      limited goods, bought from a record whose counter map is nil, once the
      host has accepted the price and handed over the goods. There the code
      panics with all three host calls made and the record unchanged. */
  lemma BuyAsWrittenAgreesWithBuy(t: Template, g: int, host: Host)
    ensures BuyAsWritten(t, g, host) ==
      if && Purchasable(t, g)
         && Charge(ShopConfOf(t.conf).value[g], host).0.None?
         && ShopConfOf(t.conf).value[g].isLimit
         && ShopData(t).value.buyCounts.None?
      then Step(Some(IndexPanic), t, Charge(ShopConfOf(t.conf).value[g], host).1)
      else Buy(t, g, host)
  {
  }

  /** A record restored from storage before any purchase holds a nil counter
      map. Buying limited goods from it charges the player and hands over the
      goods, then panics on the counter write, so nothing is counted or saved. */
  lemma AsWrittenPanicsAfterCharging(host: Host)
    requires forall c :: host(c)
    ensures var goods := Goods(true, 1, 100, [Item(1, 10)], [Item(2, 1)]);
      var t := Template(7, 1, 0, TemplateConf(ConsumptionType, ConsumptionBody([goods])),
                        Some(TemplateData(None, None, Some(ShopDB(None)))));
      var r := BuyAsWritten(t, 0, host);
      && r.err == Some(IndexPanic)
      && Call(AddReward([Item(2, 1)]), true) in r.effects
      && r.after == t
      && Buy(t, 0, host).err.None?
      && BuyCount(ShopData(Buy(t, 0, host).after).value, 0) == 1
  {
    var goods := Goods(true, 1, 100, [Item(1, 10)], [Item(2, 1)]);
    var t := Template(7, 1, 0, TemplateConf(ConsumptionType, ConsumptionBody([goods])),
                      Some(TemplateData(None, None, Some(ShopDB(None)))));
    assert Purchasable(t, 0);
    assert Charge(goods, host).0.None?;
  }
}
