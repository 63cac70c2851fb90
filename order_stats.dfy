/**
 * The orders page's statistics cards and its empty state, computed from the
 * loaded order list by counting delivery statuses.
 */
module OrderStats {
  import opened Wrappers
  import opened OrderSchema
  import Seqs

  predicate HasStatus(o: Order, status: string)
  {
    o.deliveryStatus == status
  }

  /** `totalOrders`. */
  function TotalOrders(orders: seq<Order>): nat
  {
    |orders|
  }

  function CountStatus(orders: seq<Order>, status: string): (n: nat)
    ensures n <= |orders|
  {
    Seqs.Count(orders, o => HasStatus(o, status))
  }

  /** `pendingOrders`: delivery status exactly 'pending'. */
  function PendingOrders(orders: seq<Order>): (n: nat)
    ensures n <= TotalOrders(orders)
  {
    CountStatus(orders, "pending")
  }

  /** `completedOrders`: delivery status exactly 'delivered'. */
  function CompletedOrders(orders: seq<Order>): (n: nat)
    ensures n <= TotalOrders(orders)
  {
    CountStatus(orders, "delivered")
  }

  /** `cancelledOrders` as written: delivery status exactly 'cancelled' (double l). */
  function CancelledOrders(orders: seq<Order>): (n: nat)
    ensures n <= TotalOrders(orders)
  {
    CountStatus(orders, "cancelled")
  }

  /** The cancelled card as evidently intended: the schema's 'canceled'. */
  function CanceledOrders(orders: seq<Order>): (n: nat)
    ensures n <= TotalOrders(orders)
  {
    CountStatus(orders, DeliveryName(Canceled))
  }

  /** Counts of different statuses add up over a list: a one-step unfolding. */
  lemma {:induction false} StatusCountsAdd(orders: seq<Order>, a: string, b: string)
    requires a != b
    ensures CountStatus(orders, a) + CountStatus(orders, b) <= |orders|
  {
    Seqs.CountDisjoint(orders, o => HasStatus(o, a), o => HasStatus(o, b));
  }

  /** The three cards count disjoint sets of orders, so they never sum past the total. */
  lemma {:induction false} CardsBounded(orders: seq<Order>)
    ensures PendingOrders(orders) + CompletedOrders(orders) + CancelledOrders(orders) <= TotalOrders(orders)
  {
    if orders != [] {
      CardsBounded(orders[1..]);
    }
  }

  predicate SchemaValid(o: Order)
  {
    ParseDelivery(o.deliveryStatus).Some?
  }

  /** As written, the cancelled card reads 0 for every list of schema-valid orders. */
  lemma {:induction false} CancelledAlwaysZero(orders: seq<Order>)
    requires forall i :: 0 <= i < |orders| ==> SchemaValid(orders[i])
    ensures CancelledOrders(orders) == 0
  {
    if orders != [] {
      assert SchemaValid(orders[0]);
      CancelledAlwaysZero(orders[1..]);
    }
  }

  /** A single canceled order: the card as written shows 0, the intended count is 1. */
  lemma CanceledOrderNotCounted(o: Order)
    requires o.deliveryStatus == "canceled"
    ensures SchemaValid(o)
    ensures CancelledOrders([o]) == 0 && CanceledOrders([o]) == 1
  {
    assert [o][1..] == [];
  }

  /** With the corrected card, the four schema statuses partition every list of valid orders. */
  lemma {:induction false} CorrectedCountsPartition(orders: seq<Order>)
    requires forall i :: 0 <= i < |orders| ==> SchemaValid(orders[i])
    ensures PendingOrders(orders) + CountStatus(orders, "shipped") + CompletedOrders(orders)
            + CanceledOrders(orders) == TotalOrders(orders)
  {
    if orders != [] {
      assert SchemaValid(orders[0]);
      assert forall i :: 1 <= i < |orders| ==> orders[i] == orders[1..][i - 1];
      CorrectedCountsPartition(orders[1..]);
    }
  }

  datatype TableArea = Spinner | NoOrders | Rows(rows: seq<Order>)

  /** What the orders card shows: the spinner, the empty state, or every order. */
  function Table(isLoading: bool, orders: seq<Order>): (t: TableArea)
    ensures t.Spinner? <==> isLoading
    ensures t.NoOrders? <==> !isLoading && TotalOrders(orders) == 0
    ensures t.Rows? ==> t.rows == orders && |t.rows| == TotalOrders(orders) > 0
  {
    if isLoading then Spinner
    else if |orders| == 0 then NoOrders
    else Rows(orders)
  }
}
