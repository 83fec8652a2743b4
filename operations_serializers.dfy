/**
 * The serializer logic of the operations API: the notes preview, the
 * furniture-assignment upsert and its validation, and the rental line-item
 * validation that repeats the model's double-booking query.
 */
module OperationsSerializers {
  import opened Wrappers
  import opened Text
  import opened StatusCodes
  import opened ReferenceTracking
  import opened OperationsModels

  const PreviewLength: nat := 64

  /** `get_notes_preview`: the stripped notes, cut to 64 characters and marked with "..." when longer. */
  function NotesPreview(notes: Option<string>): (r: string)
    ensures var text := Strip(notes.GetOr(""), PyIsSpace);
      (|text| <= PreviewLength ==> r == text)
      && (|text| > PreviewLength ==> |r| == PreviewLength + 3 && r[..PreviewLength] == text[..PreviewLength] && r[PreviewLength..] == "...")
    ensures |r| <= PreviewLength + 3
  {
    var text := Strip(notes.GetOr(""), PyIsSpace);
    if |text| <= PreviewLength then text else text[..PreviewLength] + "..."
  }

  /** Previewing a preview changes nothing. */
  lemma NotesPreviewIdempotent(notes: Option<string>)
    ensures NotesPreview(Some(NotesPreview(notes))) == NotesPreview(notes)
  {
    var text := Strip(notes.GetOr(""), PyIsSpace);
    var r := NotesPreview(notes);
    StripShape(notes.GetOr(""), PyIsSpace);
    if |text| > PreviewLength {
      assert r == text[..PreviewLength] + "...";
      assert r[0] == text[0];
      assert r[|r| - 1] == '.';
      assert !PyIsSpace('.');
    }
    assert NoEdgeSpace(r, PyIsSpace);
    StripShape(r, PyIsSpace);
    assert Strip(Some(r).GetOr(""), PyIsSpace) == r;
  }

  // ---------------------------------------------------------------- furniture assignments

  /**
   * The submitted fields of an assignment.  A field the client may leave out
   * is an `Option`; a nullable one is an `Option<Option<_>>` whose outer
   * `None` means "not submitted" and `Some(None)` means "submitted as null".
   */
  datatype AssignmentInput = AssignmentInput(
    event: Pk,
    part: Option<Option<Pk>>,
    item: Option<Option<Pk>>,
    quantity: Option<int>,
    status: Option<int>,
    checkedOutAt: Option<Option<int>>,
    checkedInAt: Option<Option<int>>,
    notes: Option<Option<string>>)

  /** `dict.get(key)` of a nullable field: absent and null both give `None`. */
  function Get<T>(field: Option<Option<T>>): Option<T> {
    if field.Some? then field.value else None
  }

  /** `validate`: part and item come from the submitted data, else from the instance being edited. */
  function ValidateAssignment(attrs: AssignmentInput, instance: Option<AssignmentRecord>): (r: Result<AssignmentInput, string>)
    ensures var part := if attrs.part.Some? then attrs.part.value else if instance.Some? then instance.value.part else None;
      var item := if attrs.item.Some? then attrs.item.value else if instance.Some? then instance.value.item else None;
      && (r.Err? <==> part.None? && item.None?)
      && (r.Ok? && part.Some? && attrs.item.None? ==> r.value == attrs.(item := Some(None)))
      && (r.Ok? && (part.None? || attrs.item.Some?) ==> r.value == attrs)
  {
    var part := if attrs.part.Some? then attrs.part.value else if instance.Some? then instance.value.part else None;
    var item := if attrs.item.Some? then attrs.item.value else if instance.Some? then instance.value.item else None;
    if part.None? && item.None? then Err("Either a part or furniture item must be selected")
    else if part.Some? && attrs.item.None? then Ok(attrs.(item := Some(None)))
    else Ok(attrs)
  }

  /** Validation only ever adds an explicit null item, and what it accepts names a part or an item. */
  lemma ValidatedInputNamesPartOrItem(attrs: AssignmentInput)
    requires ValidateAssignment(attrs, None).Ok?
    ensures Get(ValidateAssignment(attrs, None).value.part).Some? || Get(ValidateAssignment(attrs, None).value.item).Some?
    ensures ValidateAssignment(attrs, None).value.(item := attrs.item) == attrs
  {
  }

  /** The row `create` inserts, with the model defaults (quantity 1, Reserved) for fields not submitted. */
  function NewAssignment(d: AssignmentInput): AssignmentRecord {
    AssignmentRecord(d.event, Get(d.item), Get(d.part), d.quantity.GetOr(1),
                     d.status.GetOr(FurnitureAssignmentStatus.Reserved.Code()),
                     Get(d.checkedOutAt), Get(d.checkedInAt), Get(d.notes))
  }

  /** The notes after merging: non-blank submitted notes go on a new line under the stripped existing notes. */
  function MergedNotes(existing: Option<string>, submitted: Option<string>): Option<string> {
    var sub := Strip(submitted.GetOr(""), PyIsSpace);
    if sub == "" then existing
    else
      var prior := Strip(existing.GetOr(""), PyIsSpace);
      Some(if prior != "" then prior + "\n" + sub else sub)
  }

  /** The updates `create` makes to the existing (event, part) row before saving it again. */
  function Merge(existing: AssignmentRecord, d: AssignmentInput): (r: AssignmentRecord)
    ensures r.event == existing.event && r.part == existing.part
    ensures r.item.None?
    ensures r.quantity == existing.quantity + d.quantity.GetOr(0)
    ensures r.status == d.status.GetOr(existing.status)
    ensures r.checkedOutAt == (if d.checkedOutAt.Some? then d.checkedOutAt.value else existing.checkedOutAt)
    ensures r.checkedInAt == (if d.checkedInAt.Some? then d.checkedInAt.value else existing.checkedInAt)
  {
    existing.(
      quantity := if d.quantity.Some? then existing.quantity + d.quantity.value else existing.quantity,
      status := if d.status.Some? then d.status.value else existing.status,
      checkedOutAt := if d.checkedOutAt.Some? then d.checkedOutAt.value else existing.checkedOutAt,
      checkedInAt := if d.checkedInAt.Some? then d.checkedInAt.value else existing.checkedInAt,
      notes := MergedNotes(existing.notes, Get(d.notes)),
      item := None)
  }

  /** Merging a submission with nothing in it but blank notes only clears the item. */
  lemma MergeOfEmptySubmission(existing: AssignmentRecord, d: AssignmentInput)
    requires d.quantity.None? && d.status.None? && d.checkedOutAt.None? && d.checkedInAt.None?
    requires Strip(Get(d.notes).GetOr(""), PyIsSpace) == ""
    ensures Merge(existing, d) == existing.(item := None)
  {
  }

  /** Notes merging: blank notes keep the old ones, other notes are appended on a line of their own. */
  lemma MergedNotesCases(existing: Option<string>, submitted: Option<string>)
    ensures var sub := Strip(submitted.GetOr(""), PyIsSpace);
      var prior := Strip(existing.GetOr(""), PyIsSpace);
      && (sub == "" ==> MergedNotes(existing, submitted) == existing)
      && (sub != "" && prior == "" ==> MergedNotes(existing, submitted) == Some(sub))
      && (sub != "" && prior != "" ==> MergedNotes(existing, submitted) == Some(prior + "\n" + sub))
  {
  }

  /** The existing row for the (event, part) pair. */
  predicate IsSlotOf(m: map<Pk, AssignmentRecord>, k: Pk, event: Pk, part: Pk) {
    k in m && m[k].event == event && m[k].part == Some(part)
  }

  /** The outcome of `create`: the row's key and the `updated_existing` flag. */
  datatype Created = Created(pk: Pk, updatedExisting: bool)

  /**
   * `EventFurnitureAssignmentSerializer.create` on validated data: without a
   * part it inserts; otherwise it gets or creates the (event, part) row and,
   * when the row already existed, merges the submission into it.
   */
  method CreateAssignment(db: Database, d: AssignmentInput) returns (r: Result<Created, SaveError>)
    requires db.Valid()
    modifies db
    ensures db.Valid()
    ensures db.events == old(db.events) && db.orders == old(db.orders) && db.lines == old(db.lines)
    ensures r.Err? ==> db.assignments == old(db.assignments)
    ensures r.Ok? && !r.value.updatedExisting ==>
      r.value.pk !in old(db.assignments) && db.assignments == old(db.assignments)[r.value.pk := NewAssignment(d)]
    ensures r.Ok? && r.value.updatedExisting ==>
      Get(d.part).Some? && IsSlotOf(old(db.assignments), r.value.pk, d.event, Get(d.part).value)
      && db.assignments == old(db.assignments)[r.value.pk := Merge(old(db.assignments)[r.value.pk], d)]
    ensures r.Ok? ==>
      (r.value.updatedExisting <==>
         Get(d.part).Some? && exists k :: IsSlotOf(old(db.assignments), k, d.event, Get(d.part).value))
    // the insert path: no part, or no (event, part) row yet
    ensures (Get(d.part).None? || !exists k :: IsSlotOf(old(db.assignments), k, d.event, Get(d.part).value)) ==>
      var a := NewAssignment(d);
      && (CleanAssignment(a).Some? ==> r == Err(Invalid(CleanAssignment(a).value)))
      && (CleanAssignment(a).None? && d.event !in old(db.events) ==> r == Err(MissingRelated))
      && (r.Ok? <==> CleanAssignment(a).None? && d.event in old(db.events)
                     && !ViolatesUnique(old(db.assignments), old(db.nextPk), a))
    // the merge path: the existing (event, part) row k is saved again with the submission merged in
    ensures forall k :: Get(d.part).Some? && IsSlotOf(old(db.assignments), k, d.event, Get(d.part).value) ==>
      var a := Merge(old(db.assignments)[k], d);
      && (CleanAssignment(a).Some? ==> r == Err(Invalid(CleanAssignment(a).value)))
      && (CleanAssignment(a).None? && d.event !in old(db.events) ==> r == Err(MissingRelated))
      && (r.Ok? <==> CleanAssignment(a).None? && d.event in old(db.events))
      && (r.Ok? ==> r.value.pk == k)
  {
    var part := Get(d.part);
    if part.None? {
      var s := db.SaveAssignment(None, NewAssignment(d));
      if s.Err? { return Err(s.error); }
      return Ok(Created(s.value, false));
    }
    if exists k :: k in db.assignments && IsSlotOf(db.assignments, k, d.event, part.value) {
      var k :| k in db.assignments && IsSlotOf(db.assignments, k, d.event, part.value);
      forall j | IsSlotOf(db.assignments, j, d.event, part.value) ensures j == k {
        if j != k {
          assert SameSlot(db.assignments[k], db.assignments[j]);
        }
      }
      MergeRespectsConstraints(db.assignments, k, d);
      var merged := Merge(db.assignments[k], d);
      var s := db.SaveAssignment(Some(k), merged);
      if s.Err? { return Err(s.error); }
      return Ok(Created(k, true));
    }
    var s := db.SaveAssignment(None, NewAssignment(d));
    if s.Err? { return Err(s.error); }
    return Ok(Created(s.value, false));
  }

  /** A merge cannot collide with another row: the (event, part) row is the only one, and the merged row clears its item. */
  lemma {:induction false} MergeRespectsConstraints(m: map<Pk, AssignmentRecord>, k: Pk, d: AssignmentInput)
    requires AssignmentsUnique(m) && k in m && m[k].part.Some?
    ensures !ViolatesUnique(m, k, Merge(m[k], d))
  {
    var merged := Merge(m[k], d);
    forall j | j in m && j != k ensures !SameSlot(m[j], merged) {
      assert !SameSlot(m[k], m[j]);
    }
  }

  /** The submission of the API test: 12 chairs for the main hall, then 3 more with a status and a note. */
  function FirstSubmission(event: Pk, part: Pk): AssignmentInput {
    AssignmentInput(event, Some(Some(part)), None, Some(12), Some(FurnitureAssignmentStatus.Reserved.Code()),
                    None, None, Some(Some("Main hall guest seating")))
  }

  function SecondSubmission(event: Pk, part: Pk): AssignmentInput {
    AssignmentInput(event, Some(Some(part)), None, Some(3), Some(FurnitureAssignmentStatus.InUse.Code()),
                    None, None, Some(Some("Additional seating")))
  }

  /** Non-blank notes without edge whitespace, merged under existing notes of the same kind, go on a line of their own. */
  lemma NotesOnTheirOwnLine(a: string, b: string)
    requires a != "" && b != "" && NoEdgeSpace(a, PyIsSpace) && NoEdgeSpace(b, PyIsSpace)
    ensures MergedNotes(Some(a), Some(b)) == Some(a + "\n" + b)
  {
    StripShape(a, PyIsSpace);
    StripShape(b, PyIsSpace);
  }

  /** Merging the second submission into the row the first one created gives 15 chairs, In Use, with both notes. */
  lemma RepeatedSubmissionMerges(event: Pk, part: Pk)
    ensures var merged := Merge(NewAssignment(FirstSubmission(event, part)), SecondSubmission(event, part));
      merged.quantity == 15 && merged.status == FurnitureAssignmentStatus.InUse.Code()
      && merged.notes == Some("Main hall guest seating\nAdditional seating")
      && merged.part == Some(part) && merged.item.None?
  {
    var first := NewAssignment(FirstSubmission(event, part));
    var second := SecondSubmission(event, part);
    assert first.notes == Some("Main hall guest seating") && Get(second.notes) == Some("Additional seating");
    assert NoEdgeSpace("Main hall guest seating", PyIsSpace);
    assert NoEdgeSpace("Additional seating", PyIsSpace);
    NotesOnTheirOwnLine("Main hall guest seating", "Additional seating");
    assert "Main hall guest seating" + "\n" + "Additional seating" == "Main hall guest seating\nAdditional seating";
  }

  // ---------------------------------------------------------------- rental line items

  /** The line being edited, with the order and asset it currently points to. */
  datatype LineInstance = LineInstance(pk: Pk, order: OrderRecord, asset: Pk)

  function InstanceKey(instance: Option<LineInstance>): Option<Pk> {
    if instance.Some? then Some(instance.value.pk) else None
  }

  /** The serializer's overlap query for `asset` against the period of `order`. */
  function SerializerOverlaps(orders: map<Pk, OrderRecord>, lines: map<Pk, LineRecord>, instance: Option<LineInstance>,
                              asset: Pk, order: OrderRecord): set<Pk>
  {
    set k | k in lines && lines[k].asset == asset && lines[k].order in orders
      && HoldsAsset(orders[lines[k].order].status)
      && orders[lines[k].order].rentalStart < order.rentalEnd
      && orders[lines[k].order].rentalEnd > order.rentalStart
      && (instance.None? || k != instance.value.pk)
  }

  /** `RentalLineItemSerializer.validate`: order and asset come from the submitted data, else from the instance. */
  function ValidateLine(orders: map<Pk, OrderRecord>, lines: map<Pk, LineRecord>, instance: Option<LineInstance>,
                        order: Option<OrderRecord>, asset: Option<Pk>): (r: Option<FieldError>)
    ensures r.Some? ==> r.value.conflictReference.None? && r.value.field in {"order", "asset"}
  {
    var o := if order.Some? then order else if instance.Some? then Some(instance.value.order) else None;
    var a := if asset.Some? then asset else if instance.Some? then Some(instance.value.asset) else None;
    if o.None? || a.None? then None
    else if o.value.rentalEnd <= o.value.rentalStart then Some(FieldError("order", None))
    else if SerializerOverlaps(orders, lines, instance, a.value, o.value) != {} then Some(FieldError("asset", None))
    else None
  }

  /** The serializer's query finds exactly the lines the model's `clean` finds for the same line. */
  lemma SerializerQueryIsModelQuery(orders: map<Pk, OrderRecord>, lines: map<Pk, LineRecord>,
                                    instance: Option<LineInstance>, asset: Pk, order: OrderRecord)
    ensures SerializerOverlaps(orders, lines, instance, asset, order)
         == Overlapping(orders, lines, InstanceKey(instance), asset, order.rentalStart, order.rentalEnd)
  {
  }

  /**
   * For a line with a positive quantity and a well-formed order, the
   * serializer reports an asset conflict exactly when the model's `clean`
   * would; only the model names the clashing order.
   */
  lemma SerializerAgreesWithModel(orders: map<Pk, OrderRecord>, lines: map<Pk, LineRecord>,
                                  instance: Option<LineInstance>, order: OrderRecord, asset: Pk, quantity: int)
    requires quantity > 0 && order.rentalStart < order.rentalEnd
    ensures ValidateLine(orders, lines, instance, Some(order), Some(asset)).Some?
        <==> CleanLine(orders, lines, InstanceKey(instance), quantity, Some(order), Some(asset)).Some?
  {
    SerializerQueryIsModelQuery(orders, lines, instance, asset, order);
  }

  /** An order whose end is not after its start is refused before any overlap is looked for. */
  lemma ValidateLineRejectsBadRange(orders: map<Pk, OrderRecord>, lines: map<Pk, LineRecord>,
                                    instance: Option<LineInstance>, order: OrderRecord, asset: Pk)
    requires order.rentalEnd <= order.rentalStart
    ensures ValidateLine(orders, lines, instance, Some(order), Some(asset)) == Some(FieldError("order", None))
  {
  }
}
