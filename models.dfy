/** The request and response shapes the HTTP handlers exchange. */
module Models {
  /** A food item of the catalog. Its floating-point price is not part of this model. */
  datatype Product = Product(id: string, name: string, category: string)

  /** One line of an order: a product ID as sent by the client and a quantity. */
  datatype OrderItem = OrderItem(productId: string, quantity: int)

  /** The body of a place-order request; an absent coupon is the empty string. */
  datatype OrderRequest = OrderRequest(couponCode: string, items: seq<OrderItem>)

  /** A placed order: its ID, the items as requested, and one product per item. */
  datatype Order = Order(id: string, items: seq<OrderItem>, products: seq<Product>)

  /** The standard error body: `code`, `type` (here `kind`, since `type` is a keyword) and `message`. */
  datatype APIResponse = APIResponse(code: int, kind: string, message: string)

  /** The promo-service part of a health report. */
  datatype PromoServiceStatus = PromoServiceStatus(
    status: string,
    dataSource: string,
    codesLoaded: int,
    isFullyLoaded: bool,
    lastError: string
  )

  /** The health report: "healthy", "degraded" or "starting", the service name and the promo details. */
  datatype HealthResponse = HealthResponse(
    status: string,
    service: string,
    promoCodes: int,
    promoStatus: PromoServiceStatus
  )

  /** What a handler writes as JSON. */
  datatype Body =
    | ErrorBody(error: APIResponse)
    | ProductBody(product: Product)
    | ProductListBody(products: seq<Product>)
    | OrderBody(order: Order)
    | HealthBody(health: HealthResponse)
    | StatusBody(status: string)  // the one-field `{"status": ...}` map of the probes

  /** An HTTP status code and the body written with it. */
  datatype Response = Response(code: int, body: Body)

  /** The error response every handler uses: `{code, "error", message}` with the same HTTP code. */
  function ErrorResponse(code: int, message: string): Response
  {
    Response(code, ErrorBody(APIResponse(code, "error", message)))
  }
}
