/**
 * The filter panel of the products page (`ProductsFilters`): it keeps its own
 * copy of the filters, replaces one key per change, resets everything on
 * "Clear all", and reports each new filter record to the page.
 */
module ProductFilters {
  import ProductSchema
  import opened ProductList

  /** The three `handleFilterChange(key, value)` calls the panel makes. */
  datatype FilterChange =
    | ChangeCategory(value: string)
    | ChangeStatus(value: string)
    | ChangePriceRange(lo: real, hi: real)

  /** The panel's starting filters, which "Clear all" also restores. */
  function Cleared(maxPrice: real): (f: Filters)
    ensures f.category == [] && f.status == [] && f.lo == 0.0 && f.hi == maxPrice
  {
    Filters("", "", 0.0, maxPrice)
  }

  /** The select's "all" item stands for no filter; a slider value is never the string 'all'. */
  function Stored(value: string): string
  {
    if value == "all" then "" else value
  }

  /** The new filters after one change: only the named key is replaced. */
  function Applied(f: Filters, change: FilterChange): Filters
  {
    match change
    case ChangeCategory(v) => f.(category := Stored(v))
    case ChangeStatus(v) => f.(status := Stored(v))
    case ChangePriceRange(lo, hi) => f.(lo := lo, hi := hi)
  }

  /** A change replaces its own key as described and leaves the other keys alone. */
  lemma AppliedChangesOnlyItsKey(f: Filters, change: FilterChange)
    ensures change.ChangeCategory? ==>
      Applied(f, change) == f.(category := if change.value == "all" then "" else change.value)
    ensures change.ChangeStatus? ==>
      Applied(f, change) == f.(status := if change.value == "all" then "" else change.value)
    ensures change.ChangePriceRange? ==>
      Applied(f, change).category == f.category && Applied(f, change).status == f.status
      && Applied(f, change).lo == change.lo && Applied(f, change).hi == change.hi
  {
  }

  /** Choosing "All categories" lets every product through the category test. */
  lemma AllCategoriesAdmitsEverything(f: Filters, p: ProductSchema.Product)
    ensures MatchesCategory(Applied(f, ChangeCategory("all")), p)
    ensures Matches(Applied(f, ChangeCategory("all")), p) <==> MatchesStatus(f, p) && MatchesPriceRange(f, p)
  {
  }

  /** Choosing "All statuses" lets every product through the status test. */
  lemma AllStatusesAdmitsEverything(f: Filters, p: ProductSchema.Product)
    ensures MatchesStatus(Applied(f, ChangeStatus("all")), p)
    ensures Matches(Applied(f, ChangeStatus("all")), p) <==> MatchesCategory(f, p) && MatchesPriceRange(f, p)
  {
  }

  predicate RangeNarrowed(f: Filters, maxPrice: real)
  {
    f.lo != 0.0 || f.hi != maxPrice
  }

  /** `activeFiltersCount`: how many of category, status and a narrowed range are set. */
  function ActiveFiltersCount(f: Filters, maxPrice: real): (n: nat)
    ensures n <= 3
    ensures n == 0 <==> f == Cleared(maxPrice)
    ensures n == 3 <==> f.category != [] && f.status != [] && RangeNarrowed(f, maxPrice)
  {
    (if f.category != [] then 1 else 0)
    + (if f.status != [] then 1 else 0)
    + (if RangeNarrowed(f, maxPrice) then 1 else 0)
  }

  /** Removing the category badge clears just the category and drops the count by one. */
  lemma RemoveCategoryBadge(f: Filters, maxPrice: real)
    requires f.category != []
    ensures Applied(f, ChangeCategory("")) == f.(category := "")
    ensures ActiveFiltersCount(Applied(f, ChangeCategory("")), maxPrice) == ActiveFiltersCount(f, maxPrice) - 1
  {
  }

  /** Removing the status badge clears just the status and drops the count by one. */
  lemma RemoveStatusBadge(f: Filters, maxPrice: real)
    requires f.status != []
    ensures Applied(f, ChangeStatus("")) == f.(status := "")
    ensures ActiveFiltersCount(Applied(f, ChangeStatus("")), maxPrice) == ActiveFiltersCount(f, maxPrice) - 1
  {
  }

  /** Removing the price badge restores the full range and drops the count by one. */
  lemma RemovePriceBadge(f: Filters, maxPrice: real)
    requires RangeNarrowed(f, maxPrice)
    ensures Applied(f, ChangePriceRange(0.0, maxPrice)) == f.(lo := 0.0, hi := maxPrice)
    ensures ActiveFiltersCount(Applied(f, ChangePriceRange(0.0, maxPrice)), maxPrice) == ActiveFiltersCount(f, maxPrice) - 1
  {
  }

  /** Cleared filters over the page's `maxPrice` show every product whose price is not negative. */
  lemma ClearedShowsAll(products: seq<ProductSchema.Product>)
    requires forall i :: 0 <= i < |products| ==> products[i].price >= 0.0
    ensures FilteredProducts(products, Cleared(MaxPrice(products))) == products
  {
    NoFilterIsIdentity(products, Cleared(MaxPrice(products)));
  }

  /**
   * A `maxPrice` that grows after the panel has mounted leaves the mounted
   * range counted as a narrowed range: one active filter although nothing
   * was chosen.
   */
  lemma StaleRangeCounts(mountMax: real, currentMax: real)
    requires currentMax != mountMax
    ensures ActiveFiltersCount(Cleared(mountMax), currentMax) == 1
    ensures RangeNarrowed(Cleared(mountMax), currentMax)
  {
  }

  /**
   * The panel's state: its filters, every filter record it has reported to
   * the page, and the `maxPrice` prop of the latest render. Only `filters`
   * is fixed from the prop at mount; `maxPrice` follows the page.
   */
  class FilterPanel {
    var maxPrice: real
    var filters: Filters
    /** Arguments of `onFiltersChange`, oldest first. */
    var reported: seq<Filters>

    constructor (maxPrice: real)
      ensures this.maxPrice == maxPrice
      ensures filters == Cleared(maxPrice) && reported == []
    {
      this.maxPrice := maxPrice;
      filters := Filters("", "", 0.0, maxPrice);
      reported := [];
    }

    /** A re-render of the page hands the panel a new `maxPrice`; its own state stays. */
    method Rerender(newMax: real)
      modifies this
      ensures maxPrice == newMax
      ensures filters == old(filters) && reported == old(reported)
    {
      maxPrice := newMax;
    }

    /** The count on the "Filters" button and whether "Clear all" is shown, against the current `maxPrice`. */
    function ActiveCount(): (n: nat)
      reads this
      ensures n <= 3 && (n == 0 <==> filters == Cleared(maxPrice))
    {
      ActiveFiltersCount(filters, maxPrice)
    }

    /** `handleFilterChange`: store the new filters and report that very record. */
    method HandleFilterChange(change: FilterChange)
      modifies this
      ensures filters == Applied(old(filters), change) && maxPrice == old(maxPrice)
      ensures reported == old(reported) + [filters]
    {
      var newFilters := Applied(filters, change);
      filters := newFilters;
      reported := reported + [newFilters];
    }

    /** `clearFilters`: restore the full range of the current `maxPrice` and report it. */
    method ClearFilters()
      modifies this
      ensures maxPrice == old(maxPrice) && filters == Cleared(maxPrice) && ActiveCount() == 0
      ensures reported == old(reported) + [filters]
    {
      var clearedFilters := Filters("", "", 0.0, maxPrice);
      filters := clearedFilters;
      reported := reported + [clearedFilters];
    }
  }

  /**
   * The page draws the panel while its query is still loading, so the panel
   * mounts with `maxPrice` 1000. When the first load brings a dearer product
   * the panel keeps the range [0, 1000] (the page's own starting filters),
   * shows one active filter although nothing was chosen, and "Clear all"
   * then widens the range to the new `maxPrice`.
   */
  method LoadAfterMount(loadedMax: real) returns (count: nat, shown: Filters, cleared: Filters)
    requires loadedMax > 1000.0
    ensures count == 1 && shown == InitialFilters
    ensures cleared == Cleared(loadedMax) && cleared != shown
  {
    var panel := new FilterPanel(MaxPrice([]));
    panel.Rerender(loadedMax);
    count := panel.ActiveCount();
    shown := panel.filters;
    panel.ClearFilters();
    cleared := panel.filters;
  }
}
