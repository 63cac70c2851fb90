/**
 * The order creation form (`createOrderSchema`) as a validator with "now"
 * as a parameter, the parsed value with its defaults, and the order record
 * the list views display.
 */
module OrderSchema {
  import opened Wrappers
  import opened JsNumber
  import Text

  datatype PaymentStatus = Paid | PaymentPending | Refunded
  datatype DeliveryStatus = DeliveryPending | Shipped | Delivered | Canceled

  function PaymentName(s: PaymentStatus): string
  {
    match s
    case Paid => "paid"
    case PaymentPending => "pending"
    case Refunded => "refunded"
  }

  function DeliveryName(s: DeliveryStatus): string
  {
    match s
    case DeliveryPending => "pending"
    case Shipped => "shipped"
    case Delivered => "delivered"
    case Canceled => "canceled"
  }

  /** `z.enum(['paid', 'pending', 'refunded'])`. */
  function ParsePayment(s: string): (r: Option<PaymentStatus>)
    ensures r.Some? ==> PaymentName(r.value) == s
  {
    if s == "paid" then Some(Paid)
    else if s == "pending" then Some(PaymentPending)
    else if s == "refunded" then Some(Refunded)
    else None
  }

  /** `z.enum(['pending', 'shipped', 'delivered', 'canceled'])`. */
  function ParseDelivery(s: string): (r: Option<DeliveryStatus>)
    ensures r.Some? ==> DeliveryName(r.value) == s
  {
    if s == "pending" then Some(DeliveryPending)
    else if s == "shipped" then Some(Shipped)
    else if s == "delivered" then Some(Delivered)
    else if s == "canceled" then Some(Canceled)
    else None
  }

  lemma ParseNames(p: PaymentStatus, d: DeliveryStatus)
    ensures ParsePayment(PaymentName(p)) == Some(p)
    ensures ParseDelivery(DeliveryName(d)) == Some(d)
  {
  }

  /**
   * The form values as react-hook-form holds them. `expectedDelivery` is the
   * instant the date field coerces to, in epoch milliseconds, or `None` when
   * it is not a valid date (the empty default included).
   */
  datatype OrderForm = OrderForm(
    clientName: string,
    products: Option<seq<string>>,
    quantity: Num,
    address: string,
    expectedDelivery: Option<int>,
    payment: Option<string>,
    delivery: Option<string>,
    orderId: Option<string>)

  datatype Field = ClientName | Products | Quantity | Address | ExpectedDelivery | Payment | Delivery | OrderId

  /** The fields the "Client Information" step validates. */
  const ClientFields: set<Field> := {ClientName, Address, ExpectedDelivery}
  /** The fields the "Order Details" step validates. */
  const DetailFields: set<Field> := {Products, Quantity}
  const AllFields: set<Field> := {ClientName, Products, Quantity, Address, ExpectedDelivery, Payment, Delivery, OrderId}

  predicate ProductIdsValid(ids: seq<string>)
  {
    |ids| >= 1 && forall i :: 0 <= i < |ids| ==> |ids[i]| >= 1
  }

  /** One field's rule, evaluated at instant `now` (epoch milliseconds). */
  predicate FieldValid(f: OrderForm, field: Field, now: int)
  {
    match field
    case ClientName => |Text.Trim(f.clientName)| >= 1
    case Products => f.products.Some? && ProductIdsValid(f.products.value)
    case Quantity => f.quantity.AtLeast(1.0)
    case Address => |Text.Trim(f.address)| >= 1
    case ExpectedDelivery => f.expectedDelivery.Some? && f.expectedDelivery.value >= now
    case Payment => f.payment.None? || ParsePayment(f.payment.value).Some?
    case Delivery => f.delivery.None? || ParseDelivery(f.delivery.value).Some?
    case OrderId => true
  }

  /** `trigger(fields)`. */
  predicate FieldsValid(f: OrderForm, fields: set<Field>, now: int)
  {
    forall field :: field in fields ==> FieldValid(f, field, now)
  }

  /** The client step's validation is the conjunction of its three field rules. */
  lemma ClientFieldsValid(f: OrderForm, now: int)
    ensures FieldsValid(f, ClientFields, now) <==>
      FieldValid(f, ClientName, now) && FieldValid(f, Address, now) && FieldValid(f, ExpectedDelivery, now)
  {
    assert ClientName in ClientFields && Address in ClientFields && ExpectedDelivery in ClientFields;
  }

  /** `trigger()`. */
  predicate Valid(f: OrderForm, now: int)
  {
    FieldsValid(f, AllFields, now)
  }

  /** The identifier `ORD-<epoch milliseconds>`. */
  function GeneratedOrderId(now: nat): (id: string)
    ensures |id| > 4 && id[..4] == "ORD-" && Text.IsDigits(id[4..])
    ensures Text.DecimalValue(id[4..]) == now
  {
    Text.DecimalRoundTrip(now);
    var id := "ORD-" + Text.Decimal(now);
    assert id[4..] == Text.Decimal(now);
    id
  }

  /** An order as the schema outputs it. */
  datatype OrderData = OrderData(
    clientName: string,
    products: seq<string>,
    quantity: real,
    address: string,
    expectedDelivery: int,
    payment: PaymentStatus,
    delivery: DeliveryStatus,
    orderId: string)

  /**
   * The schema's parse at instant `now`: names and addresses trimmed, the
   * statuses defaulted to pending, the identifier defaulted to `ORD-<now>`.
   */
  function Parse(f: OrderForm, now: nat): (r: Option<OrderData>)
    ensures r.Some? <==> Valid(f, now)
    ensures r.Some? ==>
      && r.value.clientName == Text.Trim(f.clientName) && r.value.clientName != []
      && r.value.address == Text.Trim(f.address) && r.value.address != []
      && Some(r.value.products) == f.products && ProductIdsValid(r.value.products)
      && f.quantity == Number(r.value.quantity) && r.value.quantity >= 1.0
      && Some(r.value.expectedDelivery) == f.expectedDelivery && r.value.expectedDelivery >= now
      && r.value.payment == (if f.payment.None? then PaymentPending else ParsePayment(f.payment.value).value)
      && r.value.delivery == (if f.delivery.None? then DeliveryPending else ParseDelivery(f.delivery.value).value)
      && r.value.orderId == f.orderId.GetOr(GeneratedOrderId(now))
  {
    if Valid(f, now) then
      assert FieldValid(f, ClientName, now) && FieldValid(f, Address, now) && FieldValid(f, Products, now);
      assert FieldValid(f, Quantity, now) && FieldValid(f, ExpectedDelivery, now);
      assert FieldValid(f, Payment, now) && FieldValid(f, Delivery, now);
      Some(OrderData(
        Text.Trim(f.clientName),
        f.products.value,
        f.quantity.value,
        Text.Trim(f.address),
        f.expectedDelivery.value,
        if f.payment.None? then PaymentPending else ParsePayment(f.payment.value).value,
        if f.delivery.None? then DeliveryPending else ParseDelivery(f.delivery.value).value,
        f.orderId.GetOr(GeneratedOrderId(now))))
    else None
  }

  /** A name is accepted exactly when it holds a character that is not white space. */
  lemma ClientNameRule(f: OrderForm, now: int)
    ensures FieldValid(f, ClientName, now) <==> Text.HasVisible(f.clientName)
    ensures FieldValid(f, Address, now) <==> Text.HasVisible(f.address)
  {
    Text.TrimNonEmpty(f.clientName);
    Text.TrimNonEmpty(f.address);
  }

  /** Helper: the date rule unfolded. */
  lemma DeliveryDateRule(f: OrderForm, now: int)
    ensures FieldValid(f, ExpectedDelivery, now) <==>
      f.expectedDelivery.Some? && f.expectedDelivery.value >= now
  {
  }

  /** A date accepted at one instant is accepted at every earlier one. */
  lemma DeliveryDateEarlier(f: OrderForm, now: int, earlier: int)
    requires earlier <= now && FieldValid(f, ExpectedDelivery, now)
    ensures FieldValid(f, ExpectedDelivery, earlier)
  {
  }

  /** The form's starting values (the provider's `defaultValues`). */
  const DefaultForm: OrderForm :=
    OrderForm("", Some([]), Number(2.0), "", None, Some("pending"), Some("pending"), Some(""))

  /** An order record as the list views receive it from the backend; statuses are unchecked strings. */
  datatype Order = Order(
    orderId: string,
    clientName: string,
    products: seq<string>,
    quantity: real,
    address: string,
    paymentStatus: string,
    deliveryStatus: string)
}
