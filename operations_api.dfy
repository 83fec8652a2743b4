/**
 * The list filters and response decisions of the operations API.  A
 * queryset is a map from primary key to record; filtering keeps a sub-map.
 */
module OperationsApi {
  import opened Wrappers
  import opened StatusCodes
  import opened ReferenceTracking
  import opened OperationsModels
  import opened OperationsSerializers

  /** `active_filter`: not yet checked in, or Reserved or In Use. */
  predicate ActiveAssignment(a: AssignmentRecord) {
    a.checkedInAt.None?
    || a.status == FurnitureAssignmentStatus.Reserved.Code()
    || a.status == FurnitureAssignmentStatus.InUse.Code()
  }

  function Where<R>(qs: map<Pk, R>, p: R -> bool): (r: map<Pk, R>)
    ensures r.Keys <= qs.Keys
    ensures forall k :: k in r ==> r[k] == qs[k]
    ensures forall k :: k in qs ==> (k in r <==> p(qs[k]))
  {
    map k | k in qs && p(qs[k]) :: qs[k]
  }

  /** `filter_active`. */
  function FilterActive(qs: map<Pk, AssignmentRecord>, value: bool): (r: map<Pk, AssignmentRecord>)
    ensures forall k :: k in r ==> k in qs && r[k] == qs[k]
    ensures value ==> forall k :: k in qs ==> (k in r <==> ActiveAssignment(qs[k]))
    ensures !value ==> r == qs
  {
    if value then Where(qs, ActiveAssignment) else qs
  }

  /** `filter_in_use`. */
  function FilterInUse(qs: map<Pk, AssignmentRecord>, value: bool): map<Pk, AssignmentRecord> {
    if value then FilterActive(qs, value) else qs
  }

  /** The "in use" filter is the "active" filter under another name. */
  lemma InUseIsActive(qs: map<Pk, AssignmentRecord>, value: bool)
    ensures FilterInUse(qs, value) == FilterActive(qs, value)
  {
  }

  /** The `criteria` of `filter_overdue` at time `now`. */
  predicate OverdueCriteria(o: OrderRecord, now: int) {
    o.returnedDate.None? && o.rentalEnd < now && IsActiveOrOverdue(o.status)
  }

  /** `filter_overdue`: `filter(criteria)` when asked for overdue orders, `exclude(criteria)` otherwise. */
  function FilterOverdue(qs: map<Pk, OrderRecord>, value: bool, now: int): (r: map<Pk, OrderRecord>)
    ensures forall k :: k in r ==> k in qs && r[k] == qs[k]
    ensures forall k :: k in qs ==> (k in r <==> OverdueCriteria(qs[k], now) == value)
  {
    if value then Where(qs, o => OverdueCriteria(o, now))
    else Where(qs, o => !OverdueCriteria(o, now))
  }

  /** The database criterion and the model's `is_overdue` agree on every order. */
  lemma OverdueCriteriaIsIsOverdue(o: OrderRecord, now: int)
    ensures OverdueCriteria(o, now) == IsOverdue(o, now)
  {
  }

  /** For one `now`, the overdue and not-overdue lists split the orders between them. */
  lemma {:induction false} OverdueFilterPartitions(qs: map<Pk, OrderRecord>, now: int)
    ensures FilterOverdue(qs, true, now).Keys !! FilterOverdue(qs, false, now).Keys
    ensures FilterOverdue(qs, true, now).Keys + FilterOverdue(qs, false, now).Keys == qs.Keys
    ensures forall k :: k in FilterOverdue(qs, true, now) ==> IsOverdue(qs[k], now)
    ensures forall k :: k in FilterOverdue(qs, false, now) ==> !IsOverdue(qs[k], now)
  {
    var t := FilterOverdue(qs, true, now);
    var f := FilterOverdue(qs, false, now);
    forall k | k in qs ensures k in t.Keys + f.Keys {
      if OverdueCriteria(qs[k], now) { assert k in t; } else { assert k in f; }
    }
  }

  /** The HTTP status `create` answers with. */
  function CreateResponseStatus(c: Created): (code: int)
    ensures c.updatedExisting ==> code == 200
    ensures !c.updatedExisting ==> code == 201
  {
    if c.updatedExisting then 200 else 201
  }

  /** `Count('lines', distinct=True)` for order `o`. */
  function LineItems(lines: map<Pk, LineRecord>, o: Pk): nat {
    |set k | k in lines && lines[k].order == o|
  }

  /** One row of the rental-order list: the annotations and the serializer's `overdue` field. */
  datatype OrderListRow = OrderListRow(order: OrderRecord, lineItems: nat, returnedLines: nat, overdue: bool)

  /** `RentalOrderList.get_queryset` for order `k`, serialized at time `now`. */
  function ListRow(orders: map<Pk, OrderRecord>, lines: map<Pk, LineRecord>, k: Pk, now: int): (r: OrderListRow)
    requires k in orders
    ensures r.order == orders[k] && r.lineItems == LineItems(lines, k)
    ensures r.returnedLines <= r.lineItems
    ensures r.returnedLines == (if orders[k].status == RentalOrderStatus.Returned.Code() then r.lineItems else 0)
    ensures r.overdue == IsOverdue(orders[k], now)
  {
    var count := LineItems(lines, k);
    OrderListRow(orders[k], count,
                 if orders[k].status == RentalOrderStatus.Returned.Code() then count else 0,
                 IsOverdue(orders[k], now))
  }

  /** A returned order counts all its lines as returned; any other order counts none. */
  lemma ReturnedLinesAllOrNothing(orders: map<Pk, OrderRecord>, lines: map<Pk, LineRecord>, k: Pk, now: int)
    requires k in orders
    ensures var r := ListRow(orders, lines, k, now);
      r.returnedLines == 0 || r.returnedLines == r.lineItems
    ensures ListRow(orders, lines, k, now).returnedLines > 0 ==> ListRow(orders, lines, k, now).order.status == RentalOrderStatus.Returned.Code()
  {
  }

  /** A returned order is never listed as overdue once it has been saved. */
  lemma SavedReturnedOrderNotOverdue(o: OrderRecord, orders: map<Pk, OrderRecord>, now: int, refInt: string -> int)
    requires o.status == RentalOrderStatus.Returned.Code()
    ensures !OverdueCriteria(SavedOrder(o, orders, now, refInt), now)
  {
  }
}
