/**
 * The stock column of the products table (`StockIndicator`): three levels
 * split at 10 and 50 units, each with its own label and colours.
 */
module StockIndicator {
  import ProductSchema
  import ProductList

  datatype StockLevel = OutOfStock | LowStock | InStock

  /** The level the indicator picks for a stock figure. */
  function Level(stock: real): (l: StockLevel)
    ensures l.OutOfStock? <==> stock < 10.0
    ensures l.InStock? <==> stock >= 50.0
  {
    if stock < 10.0 then OutOfStock
    else if stock < 50.0 then LowStock
    else InStock
  }

  function Rank(l: StockLevel): nat
  {
    match l
    case OutOfStock => 0
    case LowStock => 1
    case InStock => 2
  }

  function Label(l: StockLevel): string
  {
    match l
    case OutOfStock => "Out of Stock"
    case LowStock => "Low Stock"
    case InStock => "In Stock"
  }

  /** The dot's colour class. */
  function DotColour(l: StockLevel): string
  {
    match l
    case OutOfStock => "bg-red-500"
    case LowStock => "bg-yellow-500"
    case InStock => "bg-green-500"
  }

  /** The label's colour class. */
  function TextColour(l: StockLevel): string
  {
    match l
    case OutOfStock => "text-red-600"
    case LowStock => "text-yellow-600"
    case InStock => "text-green-600"
  }

  /** More stock never shows a worse level. */
  lemma LevelMonotone(stock: real, more: real)
    requires stock <= more
    ensures Rank(Level(stock)) <= Rank(Level(more))
  {
  }

  /** Each level has its own label and its own colours, so the label tells the level. */
  lemma LevelsDistinguishable(l: StockLevel, m: StockLevel)
    requires l != m
    ensures Label(l) != Label(m) && DotColour(l) != DotColour(m) && TextColour(l) != TextColour(m)
  {
  }

  /**
   * Against the page's statistics cards: a product the "Out of Stock" card
   * counts is labelled "Out of Stock", but so is every product the "Low Stock"
   * card counts, while a product labelled "Low Stock" is in neither card.
   */
  lemma CardsVersusLabels(p: ProductSchema.Product)
    ensures ProductList.IsOutOfStock(p) ==> Label(Level(p.stock)) == "Out of Stock"
    ensures ProductList.IsLowStock(p) ==> Label(Level(p.stock)) == "Out of Stock"
    ensures Level(p.stock).LowStock? ==> !ProductList.IsLowStock(p) && !ProductList.IsOutOfStock(p)
  {
  }
}
