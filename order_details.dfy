/**
 * The product picker of the order form's "Order Details" step
 * (`AddOrderDetails`): `toggleProduct` adds an id that is not selected and
 * removes every occurrence of one that is, and writes the new list into the
 * shared form values.
 */
module OrderDetails {
  import opened Wrappers
  import Seqs
  import CreateOrder

  /** `watch('products') || []`: a missing list reads as empty. */
  function Selected(products: Option<seq<string>>): (ids: seq<string>)
    ensures products.None? ==> ids == []
    ensures products.Some? ==> ids == products.value
  {
    products.GetOr([])
  }

  /** The list `toggleProduct(id)` computes. */
  function Toggled(selected: seq<string>, id: string): seq<string>
  {
    if id in selected then Seqs.Where(selected, (p: string) => p != id) else selected + [id]
  }

  /** An id that is not selected is appended at the end. */
  lemma ToggleAbsentAppends(selected: seq<string>, id: string)
    requires id !in selected
    ensures Toggled(selected, id) == selected + [id]
  {
  }

  /**
   * An id that is selected disappears entirely; every other id keeps its
   * multiplicity and the ids keep their relative order.
   */
  lemma TogglePresentRemoves(selected: seq<string>, id: string)
    requires id in selected
    ensures id !in Toggled(selected, id)
    ensures forall x :: x != id ==> multiset(Toggled(selected, id))[x] == multiset(selected)[x]
    ensures Seqs.IsSubsequence(Toggled(selected, id), selected)
  {
    var keep := (p: string) => p != id;
    Seqs.WhereIsSubsequence(selected, keep);
    forall x | x != id ensures multiset(Toggled(selected, id))[x] == multiset(selected)[x] {
      Seqs.WhereMultiplicity(selected, keep, x);
    }
    Seqs.WhereMultiplicity(selected, keep, id);
    assert id !in multiset(Toggled(selected, id));
  }

  /** Toggling an id twice, starting without it, gives back the list. */
  lemma ToggleTwiceRestores(selected: seq<string>, id: string)
    requires id !in selected
    ensures Toggled(Toggled(selected, id), id) == selected
  {
    var keep := (p: string) => p != id;
    assert id in selected + [id];
    Seqs.WhereAppend(selected, [id], keep);
    Seqs.WhereAll(selected, keep);
    assert Seqs.Where([id], keep) == [];
  }

  /** A list without repeats stays without repeats. */
  lemma ToggleKeepsDistinct(selected: seq<string>, id: string)
    requires Seqs.Distinct(selected)
    ensures Seqs.Distinct(Toggled(selected, id))
  {
    if id in selected {
      Seqs.WhereDistinct(selected, (p: string) => p != id);
    } else {
      var r := selected + [id];
      forall i, j | 0 <= i < j < |r| ensures r[i] != r[j] {
        if j == |selected| {
          assert r[i] == selected[i];
        }
      }
    }
  }

  /** `toggleProduct(id)`: compute the new list and `setValue('products', ...)` on the shared form. */
  method ToggleProduct(page: CreateOrder.OrderCreation, id: string)
    modifies page
    ensures page.form == old(page.form).(products := Some(Toggled(Selected(old(page.form.products)), id)))
    ensures page.toasts == old(page.toasts) && page.submitted == old(page.submitted)
  {
    var selectedProducts := Selected(page.form.products);
    var updated := Toggled(selectedProducts, id);
    page.form := page.form.(products := Some(updated));
  }
}
