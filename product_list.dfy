/**
 * The products page: the filtered list, the category and status options, the
 * slider's upper bound and the four statistics cards, all derived from the
 * loaded product list.
 */
module ProductList {
  import opened ProductSchema
  import Seqs

  /** The page's filter record: a category, a status and an inclusive price range. */
  datatype Filters = Filters(category: string, status: string, lo: real, hi: real)

  /** The page's own starting filters. */
  const InitialFilters: Filters := Filters("", "", 0.0, 1000.0)

  /** An empty category filter admits everything. */
  predicate MatchesCategory(f: Filters, p: Product)
  {
    f.category == [] || p.category == f.category
  }

  predicate MatchesStatus(f: Filters, p: Product)
  {
    f.status == [] || p.status == f.status
  }

  predicate MatchesPriceRange(f: Filters, p: Product)
  {
    f.lo <= p.price <= f.hi
  }

  predicate Matches(f: Filters, p: Product)
  {
    MatchesCategory(f, p) && MatchesStatus(f, p) && MatchesPriceRange(f, p)
  }

  /** `filteredProducts`: the products that pass all three tests, in their original order. */
  function FilteredProducts(products: seq<Product>, f: Filters): (r: seq<Product>)
    ensures Seqs.IsSubsequence(r, products)
    ensures forall i :: 0 <= i < |r| ==> Matches(f, r[i])
    ensures forall i :: 0 <= i < |products| && Matches(f, products[i]) ==> products[i] in r
    ensures |r| <= |products|
  {
    Seqs.WhereIsSubsequence(products, p => Matches(f, p));
    Seqs.Where(products, p => Matches(f, p))
  }

  /** With no category or status chosen and a range covering every price, nothing is filtered out. */
  lemma NoFilterIsIdentity(products: seq<Product>, f: Filters)
    requires f.category == [] && f.status == []
    requires forall i :: 0 <= i < |products| ==> f.lo <= products[i].price <= f.hi
    ensures FilteredProducts(products, f) == products
  {
    Seqs.WhereAll(products, p => Matches(f, p));
  }

  /** The page's starting filters hide every product priced above 1000 (or below 0). */
  lemma InitialFiltersHideExpensive(products: seq<Product>, i: int)
    requires 0 <= i < |products| && products[i].price > 1000.0
    ensures |FilteredProducts(products, InitialFilters)| < |products|
  {
    var p := (q: Product) => Matches(InitialFilters, q);
    assert !p(products[i]);
    Seqs.CountMissed(products, p, i);
  }

  // ---------------------------------------------------------------- select options

  function CategoryValues(products: seq<Product>): (c: seq<string>)
    ensures |c| == |products| && forall i :: 0 <= i < |c| ==> c[i] == products[i].category
  {
    seq(|products|, i requires 0 <= i < |products| => products[i].category)
  }

  function StatusValues(products: seq<Product>): (s: seq<string>)
    ensures |s| == |products| && forall i :: 0 <= i < |s| ==> s[i] == products[i].status
  {
    seq(|products|, i requires 0 <= i < |products| => products[i].status)
  }

  /** `[...new Set(categories)].sort()`. */
  function Categories(products: seq<Product>): seq<string>
  {
    Seqs.Sort(Seqs.Unique(CategoryValues(products)))
  }

  /** `[...new Set(statuses)].sort()`. */
  function Statuses(products: seq<Product>): seq<string>
  {
    Seqs.Sort(Seqs.Unique(StatusValues(products)))
  }

  /** Sorting the distinct values of a list gives a strictly increasing list of exactly those values. */
  lemma SortedUniqueExact(values: seq<string>)
    ensures Seqs.StrictlySorted(Seqs.Sort(Seqs.Unique(values)))
    ensures forall x :: x in Seqs.Sort(Seqs.Unique(values)) <==> x in values
  {
    var u := Seqs.Unique(values);
    Seqs.SortDistinct(u);
    var r := Seqs.Sort(u);
    forall x ensures x in r <==> x in values {
      if x in r {
        var k :| 0 <= k < |r| && r[k] == x;
        var j :| 0 <= j < |u| && u[j] == x;
      }
      if x in values {
        var k :| 0 <= k < |values| && values[k] == x;
        var j :| 0 <= j < |u| && u[j] == x;
      }
    }
  }

  /** The category options are sorted, repeat-free, and hold exactly the categories in use. */
  lemma CategoriesExact(products: seq<Product>)
    ensures Seqs.StrictlySorted(Categories(products))
    ensures forall x :: x in Categories(products) <==> exists i :: 0 <= i < |products| && products[i].category == x
  {
    var values := CategoryValues(products);
    SortedUniqueExact(values);
    forall x ensures x in values <==> exists i :: 0 <= i < |products| && products[i].category == x {
      if x in values {
        var k :| 0 <= k < |values| && values[k] == x;
      }
    }
  }

  /** The status options are sorted, repeat-free, and hold exactly the statuses in use. */
  lemma StatusesExact(products: seq<Product>)
    ensures Seqs.StrictlySorted(Statuses(products))
    ensures forall x :: x in Statuses(products) <==> exists i :: 0 <= i < |products| && products[i].status == x
  {
    var values := StatusValues(products);
    SortedUniqueExact(values);
    forall x ensures x in values <==> exists i :: 0 <= i < |products| && products[i].status == x {
      if x in values {
        var k :| 0 <= k < |values| && values[k] == x;
      }
    }
  }

  // ---------------------------------------------------------------- slider bound

  /** `Math.max(...prices, 1000)`. */
  function MaxPrice(products: seq<Product>): (m: real)
    ensures m >= 1000.0
    ensures forall i :: 0 <= i < |products| ==> products[i].price <= m
    ensures m == 1000.0 || exists i :: 0 <= i < |products| && products[i].price == m
  {
    if products == [] then 1000.0
    else
      var rest := MaxPrice(products[1..]);
      assert forall i :: 1 <= i < |products| ==> products[i] == products[1..][i - 1];
      if products[0].price > rest then products[0].price
      else
        assert rest != 1000.0 ==> exists i :: 1 <= i < |products| && products[i].price == rest by {
          if rest != 1000.0 {
            var j :| 0 <= j < |products[1..]| && products[1..][j].price == rest;
            assert products[j + 1].price == rest;
          }
        }
        rest
  }

  // ---------------------------------------------------------------- statistics cards

  predicate IsActive(p: Product) { p.status == "active" }
  predicate IsLowStock(p: Product) { p.stock < 10.0 && p.stock > 0.0 }
  predicate IsOutOfStock(p: Product) { p.stock == 0.0 }

  function ActiveCount(products: seq<Product>): (n: nat)
    ensures n <= |products|
    ensures n == 0 <==> forall i :: 0 <= i < |products| ==> !IsActive(products[i])
  {
    Seqs.CountZero(products, IsActive);
    Seqs.Count(products, IsActive)
  }

  function LowStockCount(products: seq<Product>): (n: nat)
    ensures n <= |products|
  {
    Seqs.Count(products, IsLowStock)
  }

  function OutOfStockCount(products: seq<Product>): (n: nat)
    ensures n <= |products|
  {
    Seqs.Count(products, IsOutOfStock)
  }

  /** No product is both low on stock and out of stock, so the two cards never sum past the total. */
  lemma StockCardsDisjoint(products: seq<Product>)
    ensures LowStockCount(products) + OutOfStockCount(products) <= |products|
  {
    Seqs.CountDisjoint(products, IsLowStock, IsOutOfStock);
  }

  /** The "after filtering" figure never exceeds the total. */
  lemma FilteredCountBounded(products: seq<Product>, f: Filters)
    ensures |FilteredProducts(products, f)| <= |products|
    ensures |FilteredProducts(products, f)| == Seqs.Count(products, p => Matches(f, p))
  {
  }

  // ---------------------------------------------------------------- table area

  datatype TableArea = Spinner | NoProductsYet | NoMatches | Rows(rows: seq<Product>)

  /** What the table card shows: the spinner, one of two empty states, or the filtered rows. */
  function Table(isLoading: bool, products: seq<Product>, f: Filters): (t: TableArea)
    ensures isLoading <==> t.Spinner?
    ensures t.NoProductsYet? <==> !isLoading && products == []
    ensures t.NoMatches? ==> products != [] && forall i :: 0 <= i < |products| ==> !Matches(f, products[i])
    ensures t.Rows? ==> t.rows != [] && t.rows == FilteredProducts(products, f)
  {
    var rows := FilteredProducts(products, f);
    if isLoading then Spinner
    else if |rows| == 0 then (if |products| == 0 then NoProductsYet else NoMatches)
    else Rows(rows)
  }
}
