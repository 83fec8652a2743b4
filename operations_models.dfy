/**
 * The operations records (events, furniture assignments, rental orders and
 * rental line items), their validators, the rental-order status lifecycle,
 * the double-booking check, and the database they are saved into.
 *
 * Datetimes are integers on one clock; "now" is passed in.  The store is an
 * in-memory map from primary key to record per table.
 */
module OperationsModels {
  import opened Wrappers
  import opened Text
  import opened StatusCodes
  import opened ReferenceTracking

  const EventReferencePrefix: string := "EV"
  const RentalOrderReferencePrefix: string := "RN"

  /** A `ValidationError` raised for one field; an asset conflict also names the order it clashes with. */
  datatype FieldError = FieldError(field: string, conflictReference: Option<string>)

  datatype EventRecord = EventRecord(
    reference: string,
    referenceInt: int,
    title: string,
    startDatetime: int,
    endDatetime: int,
    status: int,
    notes: Option<string>)

  datatype AssignmentRecord = AssignmentRecord(
    event: Pk,
    item: Option<Pk>,
    part: Option<Pk>,
    quantity: int,
    status: int,
    checkedOutAt: Option<int>,
    checkedInAt: Option<int>,
    notes: Option<string>)

  datatype OrderRecord = OrderRecord(
    reference: string,
    referenceInt: int,
    rentalStart: int,
    rentalEnd: int,
    returnedDate: Option<int>,
    status: int,
    notes: Option<string>)

  datatype LineRecord = LineRecord(order: Pk, asset: Pk, quantity: int, notes: Option<string>)

  /** Why a save was refused. */
  datatype SaveError =
    | Invalid(error: FieldError)   // `clean` raised
    | UniqueViolation              // a unique constraint of the table
    | MissingRelated               // a foreign key names no stored row

  // ---------------------------------------------------------------- validators

  /** `Event.clean`. */
  function CleanEvent(e: EventRecord): (r: Option<FieldError>)
    ensures r.None? <==> e.startDatetime < e.endDatetime
    ensures r.Some? ==> r.value == FieldError("end_datetime", None)
  {
    if e.endDatetime <= e.startDatetime then Some(FieldError("end_datetime", None)) else None
  }

  /** `EventFurnitureAssignment.clean`: the checks run in this order and the first failing one is reported. */
  function CleanAssignment(a: AssignmentRecord): (r: Option<FieldError>)
    ensures r.None? <==>
      a.quantity > 0 && (a.part.Some? || a.item.Some?)
      && !(a.checkedInAt.Some? && a.checkedOutAt.Some? && a.checkedInAt.value < a.checkedOutAt.value)
    ensures a.quantity <= 0 ==> r == Some(FieldError("quantity", None))
    ensures a.quantity > 0 && a.part.None? && a.item.None? ==> r == Some(FieldError("part", None))
    ensures r.Some? ==> r.value.field in {"quantity", "part", "checked_in_at"} && r.value.conflictReference.None?
  {
    if a.quantity <= 0 then Some(FieldError("quantity", None))
    else if a.part.None? && a.item.None? then Some(FieldError("part", None))
    else if a.checkedInAt.Some? && a.checkedOutAt.Some? && a.checkedInAt.value < a.checkedOutAt.value then
      Some(FieldError("checked_in_at", None))
    else None
  }

  /** Checking in at the very moment of checking out is accepted. */
  lemma SameTimeCheckInAccepted(a: AssignmentRecord, t: int)
    requires a.quantity > 0 && a.part.Some?
    ensures CleanAssignment(a.(checkedOutAt := Some(t), checkedInAt := Some(t))).None?
  {
  }

  /** `RentalOrder.clean`. */
  function CleanOrder(o: OrderRecord): (r: Option<FieldError>)
    ensures r.None? <==>
      o.rentalStart < o.rentalEnd && (o.returnedDate.None? || o.rentalStart <= o.returnedDate.value)
    ensures o.rentalEnd <= o.rentalStart ==> r == Some(FieldError("rental_end", None))
    ensures o.rentalStart < o.rentalEnd && o.returnedDate.Some? && o.returnedDate.value < o.rentalStart
      ==> r == Some(FieldError("returned_date", None))
  {
    if o.rentalEnd <= o.rentalStart then Some(FieldError("rental_end", None))
    else if o.returnedDate.Some? && o.returnedDate.value < o.rentalStart then Some(FieldError("returned_date", None))
    else None
  }

  // ---------------------------------------------------------------- rental-order lifecycle

  predicate IsActiveOrOverdue(status: int) {
    status == RentalOrderStatus.Active.Code() || status == RentalOrderStatus.Overdue.Code()
  }

  /** `RentalOrder.is_overdue` at time `now`. */
  predicate IsOverdue(o: OrderRecord, now: int) {
    if o.returnedDate.Some? then false
    else o.rentalEnd < now && IsActiveOrOverdue(o.status)
  }

  /** The field updates `RentalOrder.save` makes before writing, at time `now`. */
  function StampForSave(o: OrderRecord, now: int): (r: OrderRecord)
    ensures r.reference == o.reference && r.referenceInt == o.referenceInt && r.notes == o.notes
    ensures r.rentalStart == o.rentalStart && r.rentalEnd == o.rentalEnd
  {
    var o1 :=
      if o.status == RentalOrderStatus.Returned.Code() && o.returnedDate.None?
      then o.(returnedDate := Some(now)) else o;
    if IsActiveOrOverdue(o1.status) && o1.rentalEnd < now && o1.returnedDate.None?
    then o1.(status := RentalOrderStatus.Overdue.Code()) else o1
  }

  /** A Returned order without a return date gets `now` as its return date, and nothing else changes. */
  lemma ReturnedGetsStamped(o: OrderRecord, now: int)
    requires o.status == RentalOrderStatus.Returned.Code() && o.returnedDate.None?
    ensures StampForSave(o, now) == o.(returnedDate := Some(now))
  {
  }

  /** An Active or Overdue order past its end and not returned is saved as Overdue, and nothing else changes. */
  lemma LateOrderBecomesOverdue(o: OrderRecord, now: int)
    requires IsActiveOrOverdue(o.status) && o.rentalEnd < now && o.returnedDate.None?
    ensures StampForSave(o, now) == o.(status := RentalOrderStatus.Overdue.Code())
  {
  }

  /** Any other order is written as it is. */
  lemma OtherOrdersUnchanged(o: OrderRecord, now: int)
    requires !(o.status == RentalOrderStatus.Returned.Code() && o.returnedDate.None?)
    requires !IsActiveOrOverdue(o.status) || now <= o.rentalEnd || o.returnedDate.Some?
    ensures StampForSave(o, now) == o
  {
  }

  /**
   * Saving keeps `is_overdue` as it was, and an order that is overdue after
   * the save carries the Overdue status.
   */
  lemma StampKeepsOverdue(o: OrderRecord, now: int)
    ensures IsOverdue(StampForSave(o, now), now) == IsOverdue(o, now)
    ensures IsOverdue(StampForSave(o, now), now) ==> StampForSave(o, now).status == RentalOrderStatus.Overdue.Code()
  {
  }

  /** Stamping twice at the same time is stamping once. */
  lemma StampIdempotent(o: OrderRecord, now: int)
    ensures StampForSave(StampForSave(o, now), now) == StampForSave(o, now)
  {
  }

  /** A stamped Returned order always has a return date. */
  lemma ReturnedAfterSaveHasDate(o: OrderRecord, now: int)
    ensures StampForSave(o, now).status == RentalOrderStatus.Returned.Code() ==> StampForSave(o, now).returnedDate.Some?
  {
  }

  // ---------------------------------------------------------------- double booking

  /** The order statuses whose lines hold the asset: Draft, Active, Overdue. */
  predicate HoldsAsset(status: int) {
    status == RentalOrderStatus.Draft.Code() || status == RentalOrderStatus.Active.Code()
    || status == RentalOrderStatus.Overdue.Code()
  }

  /** The rental periods [start, end) of `o` and of the window overlap. */
  predicate PeriodOverlaps(o: OrderRecord, start: int, end: int) {
    o.rentalStart < end && o.rentalEnd > start
  }

  /**
   * The keys of the stored lines `RentalLineItem.clean` finds for `asset` in
   * the window [start, end): other lines of the asset whose order holds it.
   * A line whose order is not stored cannot join with it and is not found.
   */
  function Overlapping(orders: map<Pk, OrderRecord>, lines: map<Pk, LineRecord>, self: Option<Pk>,
                       asset: Pk, start: int, end: int): (s: set<Pk>)
    ensures s <= lines.Keys
  {
    set k | k in lines && lines[k].asset == asset && lines[k].order in orders
      && HoldsAsset(orders[lines[k].order].status)
      && (self.None? || k != self.value)
      && PeriodOverlaps(orders[lines[k].order], start, end)
  }

  predicate IsLeast(s: set<Pk>, m: Pk) {
    m in s && forall x :: x in s ==> m <= x
  }

  lemma {:induction false} LeastExists(s: set<Pk>)
    requires s != {}
    ensures exists m :: IsLeast(s, m)
    decreases |s|
  {
    if forall x :: x !in s { assert false; }
    var x :| x in s;
    if forall y :: y in s ==> y == x {
      assert IsLeast(s, x);
    } else {
      var z :| z in s && z != x;
      var rest := s - {x};
      assert z in rest;
      assert |rest| < |s|;
      LeastExists(rest);
      var m :| IsLeast(rest, m);
      if x < m {
        forall y | y in s ensures x <= y { if y != x { assert y in rest; } }
        assert IsLeast(s, x);
      } else {
        forall y | y in s ensures m <= y { if y != x { assert y in rest; } }
        assert IsLeast(s, m);
      }
    }
  }

  /** The lowest key of `s`: what `.first()` returns on a table without a default ordering. */
  function Least(s: set<Pk>): (m: Pk)
    requires s != {}
    ensures IsLeast(s, m)
  {
    LeastExists(s);
    var m :| IsLeast(s, m); m
  }

  /**
   * `RentalLineItem.clean` for a line with key `self` (None before its first
   * save), `quantity`, the order object it points to and the asset key.
   */
  function CleanLine(orders: map<Pk, OrderRecord>, lines: map<Pk, LineRecord>, self: Option<Pk>,
                     quantity: int, order: Option<OrderRecord>, asset: Option<Pk>): (r: Option<FieldError>)
    ensures quantity <= 0 ==> r == Some(FieldError("quantity", None))
    ensures quantity > 0 && (order.None? || asset.None?) ==> r.None?
    ensures quantity > 0 && order.Some? && asset.Some? ==>
      (r.None? <==> Overlapping(orders, lines, self, asset.value, order.value.rentalStart, order.value.rentalEnd) == {})
    ensures r.Some? && r.value.field == "asset" ==>
      var s := Overlapping(orders, lines, self, asset.value, order.value.rentalStart, order.value.rentalEnd);
      s != {} && r.value.conflictReference == Some(orders[lines[Least(s)].order].reference)
  {
    if quantity <= 0 then Some(FieldError("quantity", None))
    else if order.None? || asset.None? then None
    else
      var s := Overlapping(orders, lines, self, asset.value, order.value.rentalStart, order.value.rentalEnd);
      if s == {} then None
      else Some(FieldError("asset", Some(orders[lines[Least(s)].order].reference)))
  }

  /** A booking that ends exactly when the window starts, or starts exactly when it ends, does not conflict. */
  lemma BackToBackNeverConflicts(orders: map<Pk, OrderRecord>, lines: map<Pk, LineRecord>, self: Option<Pk>,
                                 asset: Pk, start: int, end: int, k: Pk)
    requires k in lines && lines[k].order in orders
    requires orders[lines[k].order].rentalEnd == start || orders[lines[k].order].rentalStart == end
    requires start <= end
    ensures k !in Overlapping(orders, lines, self, asset, start, end)
  {
  }

  /** Lines of Returned or Cancelled orders never conflict. */
  lemma ClosedOrdersNeverConflict(orders: map<Pk, OrderRecord>, lines: map<Pk, LineRecord>, self: Option<Pk>,
                                  asset: Pk, start: int, end: int, k: Pk)
    requires k in lines && lines[k].order in orders
    requires orders[lines[k].order].status in {RentalOrderStatus.Returned.Code(), RentalOrderStatus.Cancelled.Code()}
    ensures k !in Overlapping(orders, lines, self, asset, start, end)
  {
  }

  /** Stored lines `j` and `k` book the same asset over overlapping periods, and both their orders hold it. */
  predicate Clash(orders: map<Pk, OrderRecord>, lines: map<Pk, LineRecord>, j: Pk, k: Pk)
    requires j in lines && k in lines
  {
    lines[j].asset == lines[k].asset && lines[j].order in orders && lines[k].order in orders
    && HoldsAsset(orders[lines[j].order].status) && HoldsAsset(orders[lines[k].order].status)
    && PeriodOverlaps(orders[lines[k].order], orders[lines[j].order].rentalStart, orders[lines[j].order].rentalEnd)
  }

  /** No two distinct lines clash. */
  predicate NoDoubleBooking(orders: map<Pk, OrderRecord>, lines: map<Pk, LineRecord>) {
    forall j, k :: j in lines && k in lines && j != k ==> !Clash(orders, lines, j, k)
  }

  /**
   * Writing under key `k` a line that `clean` accepted (checked with its own
   * key, or with none when `k` is fresh) keeps the asset calendar free of
   * double bookings.
   */
  lemma {:induction false} SavingCleanLineKeepsNoDoubleBooking(orders: map<Pk, OrderRecord>, lines: map<Pk, LineRecord>,
                                                               self: Option<Pk>, k: Pk, l: LineRecord)
    requires NoDoubleBooking(orders, lines)
    requires self == Some(k) || (self.None? && k !in lines)
    requires l.order in orders
    requires CleanLine(orders, lines, self, l.quantity, Some(orders[l.order]), Some(l.asset)).None?
    ensures NoDoubleBooking(orders, lines[k := l])
  {
    var lines' := lines[k := l];
    var o := orders[l.order];
    forall a, b | a in lines' && b in lines' && a != b ensures !Clash(orders, lines', a, b) {
      if a == k {
        assert b !in Overlapping(orders, lines, self, l.asset, o.rentalStart, o.rentalEnd);
        assert lines'[b] == lines[b];
      } else if b == k {
        assert a !in Overlapping(orders, lines, self, l.asset, o.rentalStart, o.rentalEnd);
        assert lines'[a] == lines[a];
      } else {
        assert !Clash(orders, lines, a, b);
      }
    }
  }

  // ---------------------------------------------------------------- furniture-assignment constraints

  /** `a` and `b` collide under `event_furniture_item_unique` or `event_furniture_part_unique`. */
  predicate SameSlot(a: AssignmentRecord, b: AssignmentRecord) {
    a.event == b.event && ((a.part.Some? && a.part == b.part) || (a.item.Some? && a.item == b.item))
  }

  predicate AssignmentsUnique(m: map<Pk, AssignmentRecord>) {
    forall j, k :: j in m && k in m && j != k ==> !SameSlot(m[j], m[k])
  }

  /** Writing `a` under key `k` would break a unique constraint. */
  predicate ViolatesUnique(m: map<Pk, AssignmentRecord>, k: Pk, a: AssignmentRecord) {
    exists j :: j in m && j != k && SameSlot(m[j], a)
  }

  /** A write the constraints accept keeps the table unique. */
  lemma {:induction false} WriteKeepsAssignmentsUnique(m: map<Pk, AssignmentRecord>, k: Pk, a: AssignmentRecord)
    requires AssignmentsUnique(m) && !ViolatesUnique(m, k, a)
    ensures AssignmentsUnique(m[k := a])
  {
    var m' := m[k := a];
    forall i, j | i in m' && j in m' && i != j ensures !SameSlot(m'[i], m'[j]) {
      if i == k {
        assert !SameSlot(m[j], a);
      } else if j == k {
        assert !SameSlot(m[i], a);
      } else {
        assert !SameSlot(m[i], m[j]);
      }
    }
  }

  // ---------------------------------------------------------------- reference constraints

  /** A row other than the one under `k` already holds `reference`, which `unique=True` forbids. */
  predicate EventReferenceHeld(events: map<Pk, EventRecord>, k: Pk, reference: string) {
    exists j :: j in events && j != k && events[j].reference == reference
  }

  predicate EventReferencesUnique(events: map<Pk, EventRecord>) {
    forall i, j :: i in events && j in events && i != j ==> events[i].reference != events[j].reference
  }

  predicate OrderReferenceHeld(orders: map<Pk, OrderRecord>, k: Pk, reference: string) {
    exists j :: j in orders && j != k && orders[j].reference == reference
  }

  predicate OrderReferencesUnique(orders: map<Pk, OrderRecord>) {
    forall i, j :: i in orders && j in orders && i != j ==> orders[i].reference != orders[j].reference
  }

  /** A write whose reference no other row holds keeps the event references unique. */
  lemma {:induction false} WriteKeepsEventReferencesUnique(events: map<Pk, EventRecord>, k: Pk, e: EventRecord)
    requires EventReferencesUnique(events) && !EventReferenceHeld(events, k, e.reference)
    ensures EventReferencesUnique(events[k := e])
  {
    var m := events[k := e];
    forall i, j | i in m && j in m && i != j ensures m[i].reference != m[j].reference {
      if i == k {
        assert events[j].reference != e.reference;
      } else if j == k {
        assert events[i].reference != e.reference;
      } else {
        assert events[i].reference != events[j].reference;
      }
    }
  }

  /** The same for rental orders. */
  lemma {:induction false} WriteKeepsOrderReferencesUnique(orders: map<Pk, OrderRecord>, k: Pk, o: OrderRecord)
    requires OrderReferencesUnique(orders) && !OrderReferenceHeld(orders, k, o.reference)
    ensures OrderReferencesUnique(orders[k := o])
  {
    var m := orders[k := o];
    forall i, j | i in m && j in m && i != j ensures m[i].reference != m[j].reference {
      if i == k {
        assert orders[j].reference != o.reference;
      } else if j == k {
        assert orders[i].reference != o.reference;
      } else {
        assert orders[i].reference != orders[j].reference;
      }
    }
  }

  // ---------------------------------------------------------------- the database

  function EventRefs(events: map<Pk, EventRecord>): map<Pk, RefRow> {
    map k | k in events :: RefRow(events[k].reference, events[k].referenceInt)
  }

  function OrderRefs(orders: map<Pk, OrderRecord>): map<Pk, RefRow> {
    map k | k in orders :: RefRow(orders[k].reference, orders[k].referenceInt)
  }

  /** What `ReferenceTrackedModel.save` writes for an event, given the stored events and `rebuild_reference_field`. */
  function SavedEvent(e: EventRecord, events: map<Pk, EventRecord>, refInt: string -> int): (r: EventRecord)
    ensures r == e.(reference := r.reference, referenceInt := r.referenceInt)
    ensures r.reference == AssignedReference(e.reference, EventRefs(events), EventReferencePrefix)
    ensures r.referenceInt == refInt(r.reference)
  {
    var reference := AssignedReference(e.reference, EventRefs(events), EventReferencePrefix);
    e.(reference := reference, referenceInt := refInt(reference))
  }

  /** What `RentalOrder.save` writes: the status stamps, then the reference fields. */
  function SavedOrder(o: OrderRecord, orders: map<Pk, OrderRecord>, now: int, refInt: string -> int): (r: OrderRecord)
    ensures r == StampForSave(o, now).(reference := r.reference, referenceInt := r.referenceInt)
    ensures r.reference == AssignedReference(o.reference, OrderRefs(orders), RentalOrderReferencePrefix)
    ensures r.referenceInt == refInt(r.reference)
  {
    var s := StampForSave(o, now);
    var reference := AssignedReference(s.reference, OrderRefs(orders), RentalOrderReferencePrefix);
    s.(reference := reference, referenceInt := refInt(reference))
  }

  /** After a save the order is overdue exactly when it was before, and then its status says so. */
  lemma SavedOrderOverdueIsMarked(o: OrderRecord, orders: map<Pk, OrderRecord>, now: int, refInt: string -> int)
    ensures IsOverdue(SavedOrder(o, orders, now, refInt), now) == IsOverdue(o, now)
    ensures IsOverdue(SavedOrder(o, orders, now, refInt), now) ==>
      SavedOrder(o, orders, now, refInt).status == RentalOrderStatus.Overdue.Code()
  {
    StampKeepsOverdue(o, now);
  }

  /**
   * A blank reference never clashes: when `refInt` reads the stored references back
   * and reads the generated one as its number, no stored event holds what `save` generates.
   */
  lemma BlankEventReferenceNeverClashes(e: EventRecord, events: map<Pk, EventRecord>, k: Pk, refInt: string -> int)
    requires e.reference == ""
    requires forall j :: j in events ==> events[j].referenceInt == refInt(events[j].reference)
    requires refInt(GenerateReference(EventRefs(events), EventReferencePrefix))
      == NextReferenceNumber(EventRefs(events), EventReferencePrefix)
    ensures !EventReferenceHeld(events, k, SavedEvent(e, events, refInt).reference)
  {
    var rows := EventRefs(events);
    GeneratedReferenceIsFresh(rows, EventReferencePrefix, refInt);
    forall j | j in events ensures events[j].reference != SavedEvent(e, events, refInt).reference {
      assert rows[j].reference == events[j].reference;
    }
  }

  /** The same for rental orders. */
  lemma BlankOrderReferenceNeverClashes(o: OrderRecord, orders: map<Pk, OrderRecord>, k: Pk, now: int, refInt: string -> int)
    requires o.reference == ""
    requires forall j :: j in orders ==> orders[j].referenceInt == refInt(orders[j].reference)
    requires refInt(GenerateReference(OrderRefs(orders), RentalOrderReferencePrefix))
      == NextReferenceNumber(OrderRefs(orders), RentalOrderReferencePrefix)
    ensures !OrderReferenceHeld(orders, k, SavedOrder(o, orders, now, refInt).reference)
  {
    var rows := OrderRefs(orders);
    GeneratedReferenceIsFresh(rows, RentalOrderReferencePrefix, refInt);
    forall j | j in orders ensures orders[j].reference != SavedOrder(o, orders, now, refInt).reference {
      assert rows[j].reference == orders[j].reference;
    }
  }

  /** The four tables and the key counter. */
  class Database {
    var events: map<Pk, EventRecord>
    var assignments: map<Pk, AssignmentRecord>
    var orders: map<Pk, OrderRecord>
    var lines: map<Pk, LineRecord>
    /** Above every key in use. */
    var nextPk: Pk

    predicate Valid()
      reads this
    {
      (forall k :: k in events ==> k < nextPk)
      && (forall k :: k in assignments ==> k < nextPk)
      && (forall k :: k in orders ==> k < nextPk)
      && (forall k :: k in lines ==> k < nextPk)
      && AssignmentsUnique(assignments)
      && EventReferencesUnique(events) && OrderReferencesUnique(orders)
    }

    constructor()
      ensures Valid()
      ensures events == map[] && assignments == map[] && orders == map[] && lines == map[]
    {
      events := map[];
      assignments := map[];
      orders := map[];
      lines := map[];
      nextPk := 1;
    }

    /** The key a write uses: the record's own, or a fresh one for a first save. */
    method KeyFor(pk: Option<Pk>) returns (k: Pk)
      requires Valid()
      modifies this
      ensures Valid()
      ensures pk.Some? ==> k == pk.value
      ensures pk.None? ==> k == old(nextPk)
      ensures pk.None? ==> k !in events && k !in assignments && k !in orders && k !in lines
      ensures k < nextPk && old(nextPk) <= nextPk
      ensures events == old(events) && assignments == old(assignments)
      ensures orders == old(orders) && lines == old(lines)
    {
      k := if pk.Some? then pk.value else nextPk;
      if nextPk <= k {
        nextPk := k + 1;
      }
    }

    /** The write of `ReferenceTrackedModel.save`, refused when another event holds the reference. */
    method PutEvent(k: Pk, e: EventRecord) returns (r: Result<Pk, SaveError>)
      requires Valid() && k < nextPk
      modifies this
      ensures Valid()
      ensures r.Ok? <==> !EventReferenceHeld(old(events), k, e.reference)
      ensures r.Ok? ==> r.value == k && events == old(events)[k := e]
      ensures r.Err? ==> r == Err(UniqueViolation) && events == old(events)
      ensures nextPk == old(nextPk) && assignments == old(assignments) && orders == old(orders) && lines == old(lines)
    {
      if EventReferenceHeld(events, k, e.reference) {
        return Err(UniqueViolation);
      }
      WriteKeepsEventReferencesUnique(events, k, e);
      events := events[k := e];
      return Ok(k);
    }

    /** The same write for rental orders. */
    method PutOrder(k: Pk, o: OrderRecord) returns (r: Result<Pk, SaveError>)
      requires Valid() && k < nextPk
      modifies this
      ensures Valid()
      ensures r.Ok? <==> !OrderReferenceHeld(old(orders), k, o.reference)
      ensures r.Ok? ==> r.value == k && orders == old(orders)[k := o]
      ensures r.Err? ==> r == Err(UniqueViolation) && orders == old(orders)
      ensures nextPk == old(nextPk) && events == old(events) && assignments == old(assignments) && lines == old(lines)
    {
      if OrderReferenceHeld(orders, k, o.reference) {
        return Err(UniqueViolation);
      }
      WriteKeepsOrderReferencesUnique(orders, k, o);
      orders := orders[k := o];
      return Ok(k);
    }

    /** `EventFurnitureAssignment.save`: run `clean`, then insert or update under the table's constraints. */
    method SaveAssignment(pk: Option<Pk>, a: AssignmentRecord) returns (r: Result<Pk, SaveError>)
      requires Valid()
      modifies this
      ensures Valid()
      ensures events == old(events) && orders == old(orders) && lines == old(lines)
      ensures CleanAssignment(a).Some? ==> r == Err(Invalid(CleanAssignment(a).value))
      ensures CleanAssignment(a).None? && a.event !in events ==> r == Err(MissingRelated)
      ensures r.Err? ==> assignments == old(assignments)
      ensures r.Ok? ==>
        CleanAssignment(a).None? && a.event in events
        && (pk.Some? ==> r.value == pk.value) && (pk.None? ==> r.value !in old(assignments))
        && !ViolatesUnique(old(assignments), r.value, a)
        && assignments == old(assignments)[r.value := a]
      ensures r.Err? && CleanAssignment(a).None? && a.event in events ==> r == Err(UniqueViolation)
      ensures pk.None? && CleanAssignment(a).None? && a.event in events ==>
        (r.Ok? <==> !ViolatesUnique(old(assignments), old(nextPk), a))
      ensures pk.Some? && CleanAssignment(a).None? && a.event in events ==>
        (r.Ok? <==> !ViolatesUnique(old(assignments), pk.value, a))
    {
      var e := CleanAssignment(a);
      if e.Some? {
        return Err(Invalid(e.value));
      }
      if a.event !in events {
        return Err(MissingRelated);
      }
      var k := KeyFor(pk);
      if exists j :: j in assignments && j != k && SameSlot(assignments[j], a) {
        return Err(UniqueViolation);
      }
      WriteKeepsAssignmentsUnique(assignments, k, a);
      assignments := assignments[k := a];
      return Ok(k);
    }

    /**
     * `RentalLineItem.save`: run `clean` against the stored orders and lines,
     * then insert or update.  `clean` checks the quantity before it follows
     * the order key, so a bad quantity is reported even for a missing order.
     */
    method SaveLine(pk: Option<Pk>, l: LineRecord) returns (r: Result<Pk, SaveError>)
      requires Valid()
      modifies this
      ensures Valid()
      ensures events == old(events) && assignments == old(assignments) && orders == old(orders)
      ensures l.quantity <= 0 ==> r == Err(Invalid(FieldError("quantity", None)))
      ensures l.quantity > 0 && l.order !in orders ==> r == Err(MissingRelated)
      ensures l.quantity > 0 && l.order in orders ==>
        var e := CleanLine(orders, old(lines), pk, l.quantity, Some(orders[l.order]), Some(l.asset));
        (r.Ok? <==> e.None?) && (r.Err? ==> r == Err(Invalid(e.value)))
      ensures r.Err? ==> lines == old(lines)
      ensures r.Ok? ==>
        (pk.Some? ==> r.value == pk.value) && (pk.None? ==> r.value !in old(lines))
        && lines == old(lines)[r.value := l]
      ensures NoDoubleBooking(orders, old(lines)) ==> NoDoubleBooking(orders, lines)
    {
      if l.quantity <= 0 {
        return Err(Invalid(FieldError("quantity", None)));
      }
      if l.order !in orders {
        return Err(MissingRelated);
      }
      var e := CleanLine(orders, lines, pk, l.quantity, Some(orders[l.order]), Some(l.asset));
      if e.Some? {
        return Err(Invalid(e.value));
      }
      var k := KeyFor(pk);
      if NoDoubleBooking(orders, lines) {
        SavingCleanLineKeepsNoDoubleBooking(orders, lines, pk, k, l);
      }
      lines := lines[k := l];
      return Ok(k);
    }
  }

  /** An event being edited; `save` fills in the reference fields in place. */
  class Event {
    var pk: Option<Pk>
    var reference: string
    var referenceInt: int
    var title: string
    var startDatetime: int
    var endDatetime: int
    var status: int
    var notes: Option<string>

    /** A new, unsaved event holding the fields of `e`. */
    constructor(e: EventRecord)
      ensures pk.None? && Record() == e
    {
      pk := None;
      reference := e.reference;
      referenceInt := e.referenceInt;
      title := e.title;
      startDatetime := e.startDatetime;
      endDatetime := e.endDatetime;
      status := e.status;
      notes := e.notes;
    }

    function Record(): EventRecord
      reads this
    {
      EventRecord(reference, referenceInt, title, startDatetime, endDatetime, status, notes)
    }

    /**
     * `ReferenceTrackedModel.save`: the reference fields are filled in on the
     * object first; the row is then written under the object's key, or a fresh
     * one, unless another event already holds the reference.  A refused save
     * writes nothing and leaves a new event without a key.
     */
    method Save(db: Database, refInt: string -> int) returns (r: Result<Pk, SaveError>)
      requires db.Valid()
      modifies this, db
      ensures db.Valid()
      ensures Record() == SavedEvent(old(Record()), old(db.events), refInt)
      ensures var k := if old(pk).Some? then old(pk).value else old(db.nextPk);
        r.Ok? <==> !EventReferenceHeld(old(db.events), k, Record().reference)
      ensures r.Err? ==> r == Err(UniqueViolation) && pk == old(pk) && db.events == old(db.events)
      ensures r.Ok? ==> pk == Some(r.value) && db.events == old(db.events)[r.value := Record()]
      ensures r.Ok? && old(pk).Some? ==> r.value == old(pk).value
      ensures r.Ok? && old(pk).None? ==> r.value !in old(db.events)
      ensures db.assignments == old(db.assignments) && db.orders == old(db.orders) && db.lines == old(db.lines)
    {
      if reference == "" {
        reference := GenerateReference(EventRefs(db.events), EventReferencePrefix);
      }
      referenceInt := refInt(reference);
      var k := db.KeyFor(pk);
      r := db.PutEvent(k, Record());
      if r.Ok? {
        pk := Some(k);
      }
    }
  }

  /** A rental order being edited; `save` updates the return date, the status and the reference fields in place. */
  class RentalOrder {
    var pk: Option<Pk>
    var reference: string
    var referenceInt: int
    var rentalStart: int
    var rentalEnd: int
    var returnedDate: Option<int>
    var status: int
    var notes: Option<string>

    /** A new, unsaved order holding the fields of `o`. */
    constructor(o: OrderRecord)
      ensures pk.None? && Record() == o
    {
      pk := None;
      reference := o.reference;
      referenceInt := o.referenceInt;
      rentalStart := o.rentalStart;
      rentalEnd := o.rentalEnd;
      returnedDate := o.returnedDate;
      status := o.status;
      notes := o.notes;
    }

    function Record(): OrderRecord
      reads this
    {
      OrderRecord(reference, referenceInt, rentalStart, rentalEnd, returnedDate, status, notes)
    }

    /** The first half of `RentalOrder.save`: stamp the return date, then mark a late order Overdue. */
    method Stamp(now: int)
      modifies this
      ensures Record() == StampForSave(old(Record()), now) && pk == old(pk)
    {
      ghost var before := Record();
      if status == RentalOrderStatus.Returned.Code() && returnedDate.None? {
        returnedDate := Some(now);
      }
      if IsActiveOrOverdue(status) && rentalEnd < now && returnedDate.None? {
        status := RentalOrderStatus.Overdue.Code();
      }
      assert Record() == StampForSave(before, now);
    }

    /** The second half: `ReferenceTrackedModel.save` fills in the reference fields. */
    method FillReference(rows: map<Pk, RefRow>, refInt: string -> int)
      modifies this
      ensures var reference := AssignedReference(old(reference), rows, RentalOrderReferencePrefix);
        Record() == old(Record()).(reference := reference, referenceInt := refInt(reference))
      ensures pk == old(pk)
    {
      if reference == "" {
        reference := GenerateReference(rows, RentalOrderReferencePrefix);
      }
      referenceInt := refInt(reference);
    }

    /**
     * `RentalOrder.save` at time `now`, followed by `ReferenceTrackedModel.save`;
     * as for events, a reference another order holds refuses the write.
     */
    method Save(db: Database, now: int, refInt: string -> int) returns (r: Result<Pk, SaveError>)
      requires db.Valid()
      modifies this, db
      ensures db.Valid()
      ensures Record() == SavedOrder(old(Record()), old(db.orders), now, refInt)
      ensures var k := if old(pk).Some? then old(pk).value else old(db.nextPk);
        r.Ok? <==> !OrderReferenceHeld(old(db.orders), k, Record().reference)
      ensures r.Err? ==> r == Err(UniqueViolation) && pk == old(pk) && db.orders == old(db.orders)
      ensures r.Ok? ==> pk == Some(r.value) && db.orders == old(db.orders)[r.value := Record()]
      ensures r.Ok? && old(pk).Some? ==> r.value == old(pk).value
      ensures r.Ok? && old(pk).None? ==> r.value !in old(db.orders)
      ensures db.events == old(db.events) && db.assignments == old(db.assignments) && db.lines == old(db.lines)
    {
      Stamp(now);
      FillReference(OrderRefs(db.orders), refInt);
      var k := db.KeyFor(pk);
      r := db.PutOrder(k, Record());
      if r.Ok? {
        pk := Some(k);
      }
    }
  }
}
