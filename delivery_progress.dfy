/**
 * The delivery column of the products table (`DeliveryProgress`): one of four
 * statuses picked by the product id's hash, capitalised and coloured.
 */
module DeliveryProgress {
  import IdHash
  import Text

  const Statuses: seq<string> := ["pending", "processing", "shipped", "delivered"]

  /** `Math.abs(hash) % statuses.length`. */
  function StatusIndex(productId: string): (i: nat)
    ensures i < |Statuses|
  {
    IdHash.Abs(IdHash.Hash(productId)) % |Statuses|
  }

  function Status(productId: string): (s: string)
    ensures s in Statuses
  {
    Statuses[StatusIndex(productId)]
  }

  /** `getStatusColor`, with grey for any other status. */
  function StatusColour(status: string): string
  {
    if status == "pending" then "text-yellow-600"
    else if status == "processing" then "text-blue-600"
    else if status == "shipped" then "text-purple-600"
    else if status == "delivered" then "text-green-600"
    else "text-gray-600"
  }

  /** The grey fallback is never used: every picked status has its own colour. */
  lemma NeverGrey(productId: string)
    ensures StatusColour(Status(productId)) != "text-gray-600"
  {
  }

  /** Different statuses are drawn in different colours, so the colour tells the status. */
  lemma ColoursDistinct(i: int, j: int)
    requires 0 <= i < |Statuses| && 0 <= j < |Statuses| && i != j
    ensures StatusColour(Statuses[i]) != StatusColour(Statuses[j])
  {
  }

  /** Every status is produced by some one-character id ('d', 'e', 'f', 'g'). */
  lemma EveryStatusReachable(k: int)
    requires 0 <= k < |Statuses|
    ensures Status([(100 + k) as char]) == Statuses[k]
  {
    IdHash.SingleUnitHash((100 + k) as char);
  }

  /** The empty id shows "Pending". */
  lemma EmptyIdPending()
    ensures Status("") == "pending" && Label("") == "Pending"
  {
  }

  /** The text: the status with its first letter upper-cased. */
  function Label(productId: string): (caption: string)
    ensures |caption| == |Status(productId)| > 0
    ensures caption[1..] == Status(productId)[1..]
    ensures caption[0] == Text.UpperChar(Status(productId)[0]) && 'A' <= caption[0] <= 'Z'
  {
    Text.Capitalize(Status(productId))
  }

  datatype View = Placeholder | Shown(caption: string, colour: string)

  /** Before the client has mounted only a grey placeholder is drawn. */
  function Indicator(isClient: bool, productId: string): (v: View)
    ensures v.Placeholder? <==> !isClient
    ensures v.Shown? ==> v.colour != "text-gray-600" && v.caption == Label(productId)
  {
    if !isClient then Placeholder
    else
      NeverGrey(productId);
      Shown(Label(productId), StatusColour(Status(productId)))
  }
}
