/**
 * The cell computations of the orders table (`OrdersDataTable`): the client's
 * avatar initials, the payment badge colour, the delivery dot colour and the
 * total amount.
 */
module OrdersTable {
  import Text
  import opened OrderSchema

  /** `words.map(n => n[0]).join('')`: an empty word's `n[0]` is undefined and joins as ''. */
  function Heads(words: seq<string>): (r: string)
    ensures |r| <= |words|
  {
    if words == [] then []
    else (if words[0] == [] then [] else [words[0][0]]) + Heads(words[1..])
  }

  /** `name.split(' ').map(n => n[0]).join('').toUpperCase().slice(0, 2)`. */
  function Initials(name: string): (r: string)
    ensures |r| <= 2
  {
    var h := Text.Upper(Heads(Text.Split(name, ' ')));
    if |h| <= 2 then h else h[..2]
  }

  /** The heads are the first characters of the non-empty words, in order. */
  lemma {:induction false} HeadsOfNonEmpty(words: seq<string>)
    ensures |Heads(words)| == |Text.NonEmpty(words)|
    ensures forall i :: 0 <= i < |Heads(words)| ==> Heads(words)[i] == Text.NonEmpty(words)[i][0]
  {
    if words != [] {
      HeadsOfNonEmpty(words[1..]);
      if words[0] != [] {
        var h, ws := Heads(words), Text.NonEmpty(words);
        assert h == [words[0][0]] + Heads(words[1..]);
        assert ws == [words[0]] + Text.NonEmpty(words[1..]);
        forall i | 0 < i < |h| ensures h[i] == ws[i][0] {
          assert h[i] == Heads(words[1..])[i - 1];
          assert ws[i] == Text.NonEmpty(words[1..])[i - 1];
        }
      }
    }
  }

  /**
   * The initials are the upper-cased first characters of the first two
   * non-empty space-separated words; runs of spaces contribute nothing.
   */
  lemma InitialsOfWords(name: string)
    ensures var words := Text.NonEmpty(Text.Split(name, ' '));
      && |Initials(name)| == (if |words| < 2 then |words| else 2)
      && forall i :: 0 <= i < |Initials(name)| ==> Initials(name)[i] == Text.UpperChar(words[i][0])
  {
    HeadsOfNonEmpty(Text.Split(name, ' '));
  }

  /** An empty name has no initials. */
  lemma EmptyNameNoInitials()
    ensures Initials("") == ""
  {
    assert Text.Split("", ' ') == [[]];
  }

  /** `quantity * products.length`. */
  function TotalAmount(o: Order): real
  {
    o.quantity * |o.products| as real
  }

  /** The quantity added up once per product in the order. */
  function PerProduct(quantity: real, n: nat): real
  {
    if n == 0 then 0.0 else quantity + PerProduct(quantity, n - 1)
  }

  lemma {:induction false} PerProductIsProduct(quantity: real, n: nat)
    ensures PerProduct(quantity, n) == quantity * n as real
  {
    if n > 0 {
      PerProductIsProduct(quantity, n - 1);
    }
  }

  /** The total charges the quantity once for every product; no products cost nothing. */
  lemma TotalIsPerProduct(o: Order)
    ensures TotalAmount(o) == PerProduct(o.quantity, |o.products|)
    ensures o.products == [] ==> TotalAmount(o) == 0.0
    ensures o.quantity >= 1.0 ==> TotalAmount(o) >= |o.products| as real
  {
    PerProductIsProduct(o.quantity, |o.products|);
  }

  /** The payment badge's colour classes. */
  function PaymentColour(status: string): string
  {
    if status == "paid" then "bg-green-100 text-green-700"
    else if status == "pending" then "bg-yellow-100 text-yellow-700"
    else "bg-red-100 text-red-700"
  }

  /** Paid is green, pending yellow, and every other status, `refunded` included, red. */
  lemma PaymentColours(status: string)
    ensures PaymentColour(status) == "bg-green-100 text-green-700" <==> status == PaymentName(Paid)
    ensures PaymentColour(status) == "bg-yellow-100 text-yellow-700" <==> status == PaymentName(PaymentPending)
    ensures PaymentColour(status) == "bg-red-100 text-red-700" <==> status != "paid" && status != "pending"
    ensures PaymentColour(PaymentName(Refunded)) == "bg-red-100 text-red-700"
  {
  }

  /** The delivery dot's colour class. */
  function DeliveryDot(status: string): string
  {
    if status == "delivered" then "bg-green-500"
    else if status == "shipped" then "bg-blue-500"
    else "bg-gray-400"
  }

  /** Delivered is green, shipped blue, and everything else grey: pending and canceled look alike. */
  lemma DeliveryDots(status: string)
    ensures DeliveryDot(status) == "bg-green-500" <==> status == DeliveryName(Delivered)
    ensures DeliveryDot(status) == "bg-blue-500" <==> status == DeliveryName(Shipped)
    ensures DeliveryDot(status) == "bg-gray-400" <==> status != "delivered" && status != "shipped"
    ensures DeliveryDot(DeliveryName(DeliveryPending)) == DeliveryDot(DeliveryName(Canceled))
  {
  }
}
