/** The order handler: request validation, product collection and the place-order decision sequence. */
module Orders {
  import opened Wrappers
  import opened Validation
  import opened Models
  import opened Products
  import Promo

  const InvalidBodyMessage := "Invalid request body"
  const EmptyOrderMessage := "order must contain at least one item"
  const MissingIDMessage := "productId is required for all items"
  const QuantityMessage := "quantity must be greater than 0"
  const InvalidPromoMessage := "Invalid promo code"

  function InvalidIDFormatMessage(id: string): string { "invalid productId format: " + id }
  function ProductNotFoundMessage(id: string): string { "product with ID " + id + " not found" }

  /** What `validateOrderRequest` demands of every item. */
  predicate ItemOk(item: OrderItem)
  {
    item.productId != "" && item.quantity > 0 && IsValidID(item.productId)
  }

  /** The checks on one item, in the order the handler makes them; the first failing one decides the message. */
  function ItemError(item: OrderItem): (e: Option<string>)
    ensures e.None? <==> ItemOk(item)
    ensures e.Some? ==> e.value in {MissingIDMessage, QuantityMessage, InvalidIDFormatMessage(item.productId)}
  {
    if item.productId == "" then Some(MissingIDMessage)
    else if item.quantity <= 0 then Some(QuantityMessage)
    else if !IsValidID(item.productId) then Some(InvalidIDFormatMessage(item.productId))
    else None
  }

  /** The error of the first item that fails its checks, if any. */
  function FirstItemError(items: seq<OrderItem>): (e: Option<string>)
    ensures e.None? <==> forall i :: 0 <= i < |items| ==> ItemOk(items[i])
    decreases |items|
  {
    if items == [] then None
    else
      var init := items[..|items| - 1];
      var e := FirstItemError(init);
      if e.Some? then e else ItemError(items[|items| - 1])
  }

  /** The answer of `validateOrderRequest`: `None` stands for a nil error. */
  function ValidationError(items: seq<OrderItem>): (e: Option<string>)
    ensures e.None? <==>
              items != [] && forall i :: 0 <= i < |items| ==>
                items[i].productId != "" && items[i].quantity > 0 && IsValidID(items[i].productId)
    ensures items == [] ==> e == Some(EmptyOrderMessage)
  {
    if items == [] then Some(EmptyOrderMessage) else FirstItemError(items)
  }

  /** The reported error belongs to an item before which every item passed. */
  lemma {:induction false} FirstItemErrorSource(items: seq<OrderItem>) returns (k: nat)
    requires FirstItemError(items).Some?
    ensures k < |items| && ItemError(items[k]) == FirstItemError(items)
    ensures forall j :: 0 <= j < k ==> ItemOk(items[j])
    decreases |items|
  {
    var init := items[..|items| - 1];
    if FirstItemError(init).Some? {
      k := FirstItemErrorSource(init);
      assert init[k] == items[k];
      assert forall j :: 0 <= j < k ==> init[j] == items[j];
    } else {
      k := |items| - 1;
      assert forall j :: 0 <= j < k ==> init[j] == items[j];
    }
  }

  /** Once a prefix has failed, the items after it do not change the error. */
  lemma {:induction false} FirstItemErrorPrefix(items: seq<OrderItem>, n: nat)
    requires n <= |items| && FirstItemError(items[..n]).Some?
    ensures FirstItemError(items) == FirstItemError(items[..n])
    decreases |items|
  {
    if n < |items| {
      var init := items[..|items| - 1];
      assert init[..n] == items[..n];
      FirstItemErrorPrefix(init, n);
    } else {
      assert items[..n] == items;
    }
  }

  /** `validateOrderRequest`: reject an empty order, then stop at the first item that fails a check. */
  method ValidateOrderRequest(req: OrderRequest) returns (err: Option<string>)
    ensures err == ValidationError(req.items)
  {
    var items := req.items;
    if |items| == 0 {
      return Some(EmptyOrderMessage);
    }
    var i := 0;
    while i < |items|
      invariant 0 <= i <= |items|
      invariant FirstItemError(items[..i]).None?
    {
      assert items[..i + 1][..i] == items[..i];
      var item := items[i];
      assert FirstItemError(items[..i + 1]) == ItemError(item);
      if item.productId == "" {
        FirstItemErrorPrefix(items, i + 1);
        return Some(MissingIDMessage);
      }
      if item.quantity <= 0 {
        FirstItemErrorPrefix(items, i + 1);
        return Some(QuantityMessage);
      }
      if !IsValidID(item.productId) {
        FirstItemErrorPrefix(items, i + 1);
        return Some(InvalidIDFormatMessage(item.productId));
      }
      i := i + 1;
    }
    assert items[..i] == items;
    err := None;
  }

  /** The answer of `validateAndCollectProducts`: the products of the items in order, or the first missing ID. */
  function CollectProducts(products: seq<Product>, items: seq<OrderItem>): (r: Result<seq<Product>>)
    ensures r.Ok? <==> forall i :: 0 <= i < |items| ==> FirstMatch(products, items[i].productId).Some?
    ensures r.Ok? ==> |r.value| == |items|
    ensures r.Ok? ==> forall i :: 0 <= i < |items| ==> FirstMatch(products, items[i].productId) == Some(r.value[i])
    decreases |items|
  {
    if items == [] then Ok([])
    else
      var init := items[..|items| - 1];
      var last := items[|items| - 1];
      var r := CollectProducts(products, init);
      if r.Err? then r
      else
        var p := FirstMatch(products, last.productId);
        if p.None? then Err(ProductNotFoundMessage(last.productId)) else Ok(r.value + [p.value])
  }

  /** On failure the message names an item that is missing while every item before it was found. */
  lemma {:induction false} CollectErrorSource(products: seq<Product>, items: seq<OrderItem>) returns (k: nat)
    requires CollectProducts(products, items).Err?
    ensures k < |items| && FirstMatch(products, items[k].productId).None?
    ensures forall j :: 0 <= j < k ==> FirstMatch(products, items[j].productId).Some?
    ensures CollectProducts(products, items).error == ProductNotFoundMessage(items[k].productId)
    decreases |items|
  {
    var init := items[..|items| - 1];
    if CollectProducts(products, init).Err? {
      k := CollectErrorSource(products, init);
      assert init[k] == items[k];
      assert forall j :: 0 <= j < k ==> init[j] == items[j];
    } else {
      k := |items| - 1;
      assert forall j :: 0 <= j < k ==> init[j] == items[j];
    }
  }

  /** Once a prefix has failed, the items after it do not change the error. */
  lemma {:induction false} CollectPrefix(products: seq<Product>, items: seq<OrderItem>, n: nat)
    requires n <= |items| && CollectProducts(products, items[..n]).Err?
    ensures CollectProducts(products, items) == CollectProducts(products, items[..n])
    decreases |items|
  {
    if n < |items| {
      var init := items[..|items| - 1];
      assert init[..n] == items[..n];
      CollectPrefix(products, init, n);
    } else {
      assert items[..n] == items;
    }
  }

  /** `validateAndCollectProducts`: look every item up in turn, appending the product or stopping at the first miss. */
  method ValidateAndCollectProducts(h: ProductHandler, items: seq<OrderItem>) returns (r: Result<seq<Product>>)
    ensures r == CollectProducts(h.products, items)
  {
    var orderProducts: seq<Product> := [];
    var i := 0;
    while i < |items|
      invariant 0 <= i <= |items|
      invariant CollectProducts(h.products, items[..i]) == Ok(orderProducts)
    {
      assert items[..i + 1][..i] == items[..i];
      var product := GetProductByID(h, items[i].productId);
      if product.None? {
        CollectPrefix(h.products, items, i + 1);
        return Err(ProductNotFoundMessage(items[i].productId));
      }
      orderProducts := orderProducts + [product.value];
      i := i + 1;
    }
    assert items[..i] == items;
    r := Ok(orderProducts);
  }

  /** `OrderHandler`: the shared promo service and its own product handler. */
  datatype OrderHandler = OrderHandler(promoService: Promo.PromoCodeService, productHandler: ProductHandler)

  /** `NewOrderHandler`: the given promo service and a fresh catalog. */
  function NewOrderHandler(promoService: Promo.PromoCodeService): (h: OrderHandler)
    ensures h.promoService == promoService && h.productHandler.products == Catalog
  {
    OrderHandler(promoService, NewProductHandler())
  }

  /**
   * `PlaceOrder`. `parsed` is the bound request body (`None` when binding failed); `orderId`
   * stands for the generated order ID. The checks run in this order: body, validation,
   * products, then the coupon when one is given.
   */
  method PlaceOrder(h: OrderHandler, parsed: Option<OrderRequest>, orderId: string) returns (r: Response)
    ensures parsed.None? ==> r == ErrorResponse(400, InvalidBodyMessage)
    ensures parsed.Some? && ValidationError(parsed.value.items).Some? ==>
              r == ErrorResponse(422, ValidationError(parsed.value.items).value)
    ensures parsed.Some? && ValidationError(parsed.value.items).None?
            && CollectProducts(h.productHandler.products, parsed.value.items).Err? ==>
              r == ErrorResponse(422, CollectProducts(h.productHandler.products, parsed.value.items).error)
    ensures parsed.Some? && ValidationError(parsed.value.items).None?
            && CollectProducts(h.productHandler.products, parsed.value.items).Ok?
            && parsed.value.couponCode != ""
            && !Promo.Accepts(h.promoService.validCodes, parsed.value.couponCode) ==>
              r == ErrorResponse(422, InvalidPromoMessage)
    ensures parsed.Some? && ValidationError(parsed.value.items).None?
            && CollectProducts(h.productHandler.products, parsed.value.items).Ok?
            && (parsed.value.couponCode == "" || Promo.Accepts(h.promoService.validCodes, parsed.value.couponCode)) ==>
              r == Response(200, OrderBody(Order(orderId, parsed.value.items,
                                                 CollectProducts(h.productHandler.products, parsed.value.items).value)))
    ensures r.code == 200 ==>
              parsed.Some? && r.body.OrderBody? && r.body.order.id == orderId
              && r.body.order.items == parsed.value.items
              && |r.body.order.products| == |r.body.order.items|
              && forall i :: 0 <= i < |r.body.order.items| ==>
                   r.body.order.products[i].id == r.body.order.items[i].productId
                   && r.body.order.products[i] in h.productHandler.products
  {
    if parsed.None? {
      return ErrorResponse(400, InvalidBodyMessage);
    }
    var orderReq := parsed.value;

    var err := ValidateOrderRequest(orderReq);
    if err.Some? {
      return ErrorResponse(422, err.value);
    }

    var orderProducts := ValidateAndCollectProducts(h.productHandler, orderReq.items);
    if orderProducts.Err? {
      return ErrorResponse(422, orderProducts.error);
    }

    if orderReq.couponCode != "" {
      var valid := h.promoService.IsValidPromoCode(orderReq.couponCode);
      if !valid {
        return ErrorResponse(422, InvalidPromoMessage);
      }
    }

    r := Response(200, OrderBody(Order(orderId, orderReq.items, orderProducts.value)));
  }
}
