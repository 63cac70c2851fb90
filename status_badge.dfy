/**
 * The status column of the products table (`StatusBadge`): a badge variant
 * and colour chosen from the lower-cased status, and the status itself with
 * its first letter upper-cased as the label.
 */
module StatusBadge {
  import Text
  import ProductSchema

  datatype Variant = Default | Secondary | Outline

  /** `getStatusVariant`: unknown statuses fall back to `secondary`. */
  function VariantOf(status: string): Variant
  {
    var s := Text.Lower(status);
    if s == "active" then Default
    else if s == "inactive" then Secondary
    else if s == "draft" then Outline
    else Secondary
  }

  /** `getStatusColor`: unknown statuses fall back to grey. */
  function ColourOf(status: string): string
  {
    var s := Text.Lower(status);
    if s == "active" then "bg-green-100 text-green-800"
    else if s == "inactive" then "bg-gray-100 text-gray-800"
    else if s == "draft" then "bg-yellow-100 text-yellow-800"
    else "bg-gray-100 text-gray-800"
  }

  /** The badge's text. */
  function Label(status: string): (r: string)
    ensures |r| == |status|
    ensures status != [] ==> r[0] == Text.UpperChar(status[0]) && r[1..] == status[1..]
  {
    Text.Capitalize(status)
  }

  /** Lower-casing twice is lower-casing once. */
  lemma LowerIdempotent(s: string)
    ensures Text.Lower(Text.Lower(s)) == Text.Lower(s)
  {
    var once := Text.Lower(s);
    assert forall i :: 0 <= i < |s| ==> Text.LowerChar(once[i]) == once[i];
  }

  /** The badge ignores letter case: a status and its lower-cased form look the same. */
  lemma CaseInsensitive(status: string)
    ensures VariantOf(status) == VariantOf(Text.Lower(status))
    ensures ColourOf(status) == ColourOf(Text.Lower(status))
  {
    LowerIdempotent(status);
  }

  /** A status the badge does not know is drawn exactly like `inactive`. */
  lemma UnknownLooksInactive(status: string)
    requires Text.Lower(status) != "active" && Text.Lower(status) != "draft"
    ensures VariantOf(status) == VariantOf("inactive") == Secondary
    ensures ColourOf(status) == ColourOf("inactive")
  {
    Text.LowerOfLowerCase("inactive");
  }

  /** The variant and the colour always agree: each variant comes with one colour. */
  lemma VariantMatchesColour(status: string)
    ensures VariantOf(status) == Default <==> ColourOf(status) == "bg-green-100 text-green-800"
    ensures VariantOf(status) == Outline <==> ColourOf(status) == "bg-yellow-100 text-yellow-800"
    ensures VariantOf(status) == Secondary <==> ColourOf(status) == "bg-gray-100 text-gray-800"
  {
  }

  /** The three schema statuses get three different badges. */
  lemma SchemaStatusesDistinct(a: ProductSchema.ProductStatus, b: ProductSchema.ProductStatus)
    requires a != b
    ensures VariantOf(ProductSchema.StatusName(a)) != VariantOf(ProductSchema.StatusName(b))
  {
    Text.LowerOfLowerCase("active");
    Text.LowerOfLowerCase("inactive");
    Text.LowerOfLowerCase("draft");
  }
}
