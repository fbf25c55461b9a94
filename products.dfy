/** The product handler: a fixed catalog, a lookup by ID, and the get-product decision. */
module Products {
  import opened Wrappers
  import opened Validation
  import opened Models

  /** `ProductHandler`: the catalog it serves, built once and never changed. */
  datatype ProductHandler = ProductHandler(products: seq<Product>)

  /** The eight products of `NewProductHandler`, with IDs "1" to "8". */
  const Catalog: seq<Product> := [
    Product("1", "Chicken Waffle", "Waffle"),
    Product("2", "Belgian Waffle", "Waffle"),
    Product("3", "Pancake Stack", "Pancake"),
    Product("4", "Avocado Toast", "Toast"),
    Product("5", "Caesar Salad", "Salad"),
    Product("6", "Burger Deluxe", "Burger"),
    Product("7", "Fish & Chips", "Main"),
    Product("8", "Chocolate Cake", "Dessert")
  ]

  const InvalidIDMessage := "Invalid product ID format"
  const NotFoundMessage := "Product not found"

  /** `NewProductHandler`. */
  function NewProductHandler(): (h: ProductHandler)
    ensures h.products == Catalog
  {
    ProductHandler(Catalog)
  }

  /** The first product of `products` whose ID is `id`, if any. */
  function FirstMatch(products: seq<Product>, id: string): (r: Option<Product>)
    ensures r.Some? ==> r.value in products && r.value.id == id
    ensures r.None? <==> forall i :: 0 <= i < |products| ==> products[i].id != id
    decreases |products|
  {
    if products == [] then None
    else if products[0].id == id then Some(products[0])
    else FirstMatch(products[1..], id)
  }

  /** The match is the earliest one: it sits at an index before which no product has that ID. */
  lemma {:induction false} FirstMatchIsFirst(products: seq<Product>, id: string) returns (k: nat)
    requires FirstMatch(products, id).Some?
    ensures k < |products| && products[k] == FirstMatch(products, id).value
    ensures forall j :: 0 <= j < k ==> products[j].id != id
    decreases |products|
  {
    if products[0].id == id {
      k := 0;
    } else {
      var k' := FirstMatchIsFirst(products[1..], id);
      k := k' + 1;
    }
  }

  /** When IDs are distinct, the match is the product with that ID wherever it sits. */
  lemma FirstMatchUnique(products: seq<Product>, id: string, k: nat)
    requires k < |products| && products[k].id == id
    requires forall i, j :: 0 <= i < j < |products| ==> products[i].id != products[j].id
    ensures FirstMatch(products, id) == Some(products[k])
  {
    var m := FirstMatchIsFirst(products, id);
    assert !(m < k) && !(k < m);
  }

  /** Skipping a prefix in which no product has the ID does not change the first match. */
  lemma SkipMismatch(products: seq<Product>, i: nat, id: string)
    requires i < |products| && products[i].id != id
    ensures FirstMatch(products[i..], id) == FirstMatch(products[i + 1..], id)
  {
    assert products[i..][1..] == products[i + 1..];
  }

  /** `GetProductByID`: a linear search that stops at the first product with the ID. */
  method GetProductByID(h: ProductHandler, id: string) returns (product: Option<Product>)
    ensures product == FirstMatch(h.products, id)
  {
    var i := 0;
    while i < |h.products|
      invariant 0 <= i <= |h.products|
      invariant FirstMatch(h.products[i..], id) == FirstMatch(h.products, id)
    {
      if h.products[i].id == id {
        assert h.products[i..][0] == h.products[i];
        return Some(h.products[i]);
      }
      SkipMismatch(h.products, i, id);
      i := i + 1;
    }
    assert h.products[i..] == [];
    product := None;
  }

  /** `ListProducts`: the whole catalog, with status 200. */
  function ListProducts(h: ProductHandler): (r: Response)
    ensures r.code == 200 && r.body.ProductListBody? && r.body.products == h.products
  {
    Response(200, ProductListBody(h.products))
  }

  /**
   * `GetProduct`: 400 when the path parameter is not a valid ID, before any search; otherwise
   * 200 with the first matching product, or 404.
   */
  method GetProduct(h: ProductHandler, productId: string) returns (r: Response)
    ensures !IsValidID(productId) ==> r == ErrorResponse(400, InvalidIDMessage)
    ensures IsValidID(productId) && FirstMatch(h.products, productId).Some? ==>
              r == Response(200, ProductBody(FirstMatch(h.products, productId).value))
    ensures IsValidID(productId) && FirstMatch(h.products, productId).None? ==>
              r == ErrorResponse(404, NotFoundMessage)
    ensures r.code == 200 ==> r.body.ProductBody? && r.body.product in h.products
                              && r.body.product.id == productId
  {
    if !IsValidID(productId) {
      return ErrorResponse(400, InvalidIDMessage);
    }
    var found := GetProductByID(h, productId);
    if found.Some? {
      return Response(200, ProductBody(found.value));
    }
    r := ErrorResponse(404, NotFoundMessage);
  }

  // ---------------------------------------------------------------------------
  // The catalog
  // ---------------------------------------------------------------------------

  /** The catalog has eight products, their IDs are "1" to "8", and no two share an ID. */
  lemma CatalogIDs()
    ensures |Catalog| == 8
    ensures forall i :: 0 <= i < |Catalog| ==> Catalog[i].id == Itoa(i + 1)
    ensures forall i, j :: 0 <= i < j < |Catalog| ==> Catalog[i].id != Catalog[j].id
    ensures forall i :: 0 <= i < |Catalog| ==> |Catalog[i].id| == 1
  {
    forall i | 0 <= i < |Catalog| ensures Catalog[i].id == Itoa(i + 1) {
      if i == 0 {} else if i == 1 {} else if i == 2 {} else if i == 3 {}
      else if i == 4 {} else if i == 5 {} else if i == 6 {} else {}
    }
  }

  /** Every catalog ID passes `IsValidID`, so each product can be reached through `GetProduct`. */
  lemma CatalogIDsValid()
    ensures forall i :: 0 <= i < |Catalog| ==> IsValidID(Catalog[i].id)
  {
    CatalogIDs();
    forall i | 0 <= i < |Catalog| ensures IsValidID(Catalog[i].id) {
      AtoiItoa(i + 1);
    }
  }

  /** Each catalog product is found by its own ID. */
  lemma CatalogLookup(k: nat)
    requires k < |Catalog|
    ensures FirstMatch(Catalog, Catalog[k].id) == Some(Catalog[k])
  {
    CatalogIDs();
    FirstMatchUnique(Catalog, Catalog[k].id, k);
  }

  /** An ID outside "1".."8", such as "999" or "01", is well formed but not in the catalog. */
  lemma CatalogMisses()
    ensures FirstMatch(Catalog, "999").None? && IsValidID("999")
    ensures FirstMatch(Catalog, "01").None? && IsValidID("01")
  {
    NotACatalogID("999");
    NotACatalogID("01");
    AtoiItoa(999);
    assert Itoa(999) == "999";
    LeadingZeroValid();
  }

  lemma LeadingZeroValid()
    ensures IsValidID("01")
  {
    assert Unsigned("01") == "01";
    assert AllDigits("01");
    assert "01"[..1] == "0";
    assert DigitsValue("01") == 1;
  }

  /** Every catalog ID is one character long, so no longer ID names a catalog product. */
  lemma NotACatalogID(id: string)
    requires |id| >= 2
    ensures FirstMatch(Catalog, id).None?
  {
    CatalogIDs();
  }
}
