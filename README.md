# Tracklet operations core, modelled in Dafny

Tracklet is a Django inventory application with an "operations" module on top. That module handles events, furniture assignments to events, rental orders and their line items. A React frontend goes with it. This project models the parts of it that hold real logic and proves what they promise:

- **Reference allocation.** A new event or rental order gets the next free number under its prefix (`EV0001`, `RN0042`), zero-padded to four digits.
- **Record validation.** Each record type has its own `clean` rules.
- **Rental-order lifecycle.** Saving stamps the return date and marks late orders Overdue.
- **Double-booking check.** A rental asset cannot be booked for overlapping periods.
- **Furniture-assignment upsert.** A second submission for the same (event, part) merges quantity, status, dates and notes into the existing row.
- **List filters and response codes** of the operations and events APIs.
- **Rental-PDF row extractor.** It joins wrapped table lines, matches each row against the product-type expression and keeps the last row per product id. Alongside it sit the type and model-family classifiers.
- **Frontend badge styles.** These cover stock availability and event status.
- **Frontend module switches** and the navigation and about menus built from them.

The database is an in-memory map from primary key to record, one per table (`OperationsModels.Database`). The clock is an integer `now` parameter. Objects that the source edits in place and then saves (`Event`, `RentalOrder`, `Database`) are classes whose methods state the new state. Everything else is a pure function with lemmas about it.

Modules, one per file:

| file | module | source |
|---|---|---|
| `wrappers.dfy` | `Wrappers` | Option and Result |
| `text.dfy` | `Text` | Python/JavaScript whitespace, ASCII case mapping, strip, `\s+` replacement, search |
| `status_codes.dfy` | `StatusCodes` | operations/status_codes.py |
| `reference_tracking.dfy` | `ReferenceTracking` | `ReferenceTrackedModel` in operations/models.py |
| `operations_models.dfy` | `OperationsModels` | operations/models.py |
| `operations_serializers.dfy` | `OperationsSerializers` | operations/serializers.py |
| `operations_api.dfy` | `OperationsApi` | operations/api.py |
| `rental_pdf_import.dfy`, `rental_pdf_import_examples.dfy` | `RentalPdfImport`, `RentalPdfImportExamples` | the classifiers of import_rental_pdf.py |
| `rental_pdf_rows.dfy` | `RentalPdfRows` | `_compile_row_regex` and `_extract_rows_from_lines` |
| `events_api.dfy` | `EventsApi` | tracklet_events/api.py |
| `stock_availability_styles.dfy` | `StockAvailabilityStyles` | stockAvailabilityStyles.ts |
| `event_status_styles.dfy` | `EventStatusStyles` | eventStatusStyles.ts |
| `feature_flags.dfy` | `FeatureFlags` | featureFlags.ts |
| `links.dfy` | `Links` | links.tsx |

## Model

| member | source | states |
|---|---|---|
| StatusCodes.EventStatusFromCode | src/backend/Tracklet/operations/status_codes.py:8-13 | a code names an event status exactly when it is 10, 20, 30, 40 or 50, and the status found carries that code |
| StatusCodes.RentalOrderStatusFromCode | src/backend/Tracklet/operations/status_codes.py:16-21 | the same for rental-order statuses |
| StatusCodes.FurnitureAssignmentStatusFromCode | src/backend/Tracklet/operations/status_codes.py:24-29 | the same for furniture-assignment statuses |
| StatusCodes.CodesStepByTen | src/backend/Tracklet/operations/status_codes.py:8-29 | each enumeration lists every member, and in declaration order the codes run 10, 20, 30, 40, 50 |
| StatusCodes.CodesDistinct | src/backend/Tracklet/operations/status_codes.py:8-29 | within each enumeration the codes are pairwise distinct, and decoding a member's code gives the member back |
| ReferenceTracking.ZeroPad4 | src/backend/Tracklet/operations/models.py:47 | `{n:04d}` is all digits, at least four of them: zeros followed by the decimal digits of n |
| ReferenceTracking.Digits | src/backend/Tracklet/operations/models.py:47 | the decimal digits of n: at least one, all digits, and no leading zero unless n is a single digit |
| ReferenceTracking.DigitsRoundTrip | src/backend/Tracklet/operations/models.py:47 | the decimal digits of n read back as n |
| ReferenceTracking.LeadingZeros | src/backend/Tracklet/operations/models.py:47 | leading zeros do not change the number a digit string denotes |
| ReferenceTracking.ZeroPad4RoundTrip | src/backend/Tracklet/operations/models.py:47 | the zero-padded text reads back as n |
| ReferenceTracking.Latest | src/backend/Tracklet/operations/models.py:40-44 | the record `.first()` returns under `order_by('-reference_int', '-pk')`: no other matching record has a higher reference number, or the same number and a higher key |
| ReferenceTracking.LatestUnique | src/backend/Tracklet/operations/models.py:42-43 | that ordering is strict, so the latest record is unique |
| ReferenceTracking.NextReferenceNumber | src/backend/Tracklet/operations/models.py:46 | the next number is at least 1, is 1 when no reference has the prefix, and is above every matching reference number |
| ReferenceTracking.NextReferenceNumberIsTight | src/backend/Tracklet/operations/models.py:46 | the next number is 1 or one above some matching record's number, so it is the least number above them all |
| ReferenceTracking.GenerateReference | src/backend/Tracklet/operations/models.py:38-47 | the new reference is the prefix followed by at least four digits, and those digits denote the next number |
| ReferenceTracking.FirstReference | src/backend/Tracklet/operations/models.py:46-47 | with no record under the prefix the reference is prefix + "0001" |
| ReferenceTracking.GeneratedReferenceIsFresh | src/backend/Tracklet/operations/models.py:38-53 | when every stored reference number was rebuilt from its reference, the generated reference differs from every stored one |
| ReferenceTracking.AssignedReference | src/backend/Tracklet/operations/models.py:50-51 | save keeps a non-blank reference and replaces a blank one with a generated one |
| ReferenceTracking.AssignedReferenceIsStable | src/backend/Tracklet/operations/models.py:49-53 | an assigned reference is never blank, so saving again keeps it whatever the table holds by then |
| OperationsModels.CleanEvent | src/backend/Tracklet/operations/models.py:162-169 | an event is accepted exactly when it ends after it starts; otherwise the error is on end_datetime |
| OperationsModels.CleanAssignment | src/backend/Tracklet/operations/models.py:258-273 | accepted exactly when the quantity is positive, a part or an item is set, and the check-in is not before the check-out; the first failing check names the field |
| OperationsModels.SameTimeCheckInAccepted | src/backend/Tracklet/operations/models.py:267-268 | checking in at the moment of check-out is accepted |
| OperationsModels.CleanOrder | src/backend/Tracklet/operations/models.py:343-352 | accepted exactly when the rental ends after it starts and any return date is not before the start; rental_end is checked first, then returned_date |
| OperationsModels.IsOverdue | src/backend/Tracklet/operations/models.py:354-365 | `is_overdue`: not returned, past its end and Active or Overdue; OperationsApi.OverdueCriteriaIsIsOverdue and OperationsModels.StampKeepsOverdue state its properties |
| OperationsModels.StampForSave | src/backend/Tracklet/operations/models.py:367-373 | the pre-save updates leave the reference, notes and rental period unchanged |
| OperationsModels.ReturnedGetsStamped | src/backend/Tracklet/operations/models.py:368-369 | a Returned order without a return date gets `now` as its return date, and nothing else changes |
| OperationsModels.LateOrderBecomesOverdue | src/backend/Tracklet/operations/models.py:371-373 | an Active or Overdue order that is past its end and not returned becomes Overdue, and nothing else changes |
| OperationsModels.OtherOrdersUnchanged | src/backend/Tracklet/operations/models.py:367-375 | any other order is written as it is |
| OperationsModels.StampKeepsOverdue | src/backend/Tracklet/operations/models.py:354-373 | saving does not change `is_overdue`, and an order overdue after the save has the Overdue status |
| OperationsModels.StampIdempotent | src/backend/Tracklet/operations/models.py:367-373 | stamping twice at the same time is stamping once |
| OperationsModels.ReturnedAfterSaveHasDate | src/backend/Tracklet/operations/models.py:368-369 | a Returned order always has a return date after the save |
| OperationsModels.Least | src/backend/Tracklet/operations/models.py:432 | `.first()` on an unordered non-empty set of lines is its lowest key |
| OperationsModels.Overlapping | src/backend/Tracklet/operations/models.py:424-428 | the lines of the same asset, other than the line itself, whose order is Draft, Active or Overdue and overlaps the period; a subset of the stored lines, and OperationsModels.CleanLine accepts exactly when it is empty |
| OperationsModels.CleanLine | src/backend/Tracklet/operations/models.py:404-438 | a non-positive quantity is refused first; a missing order or asset is accepted; otherwise the line is accepted exactly when no other line books the asset over an overlapping period in a Draft, Active or Overdue order, and the error names the conflicting order's reference |
| OperationsModels.BackToBackNeverConflicts | src/backend/Tracklet/operations/models.py:428 | the period bounds are strict: a booking that ends when the new one starts, or starts when it ends, does not conflict |
| OperationsModels.ClosedOrdersNeverConflict | src/backend/Tracklet/operations/models.py:419-426 | lines of Returned or Cancelled orders never conflict |
| OperationsModels.SavingCleanLineKeepsNoDoubleBooking | src/backend/Tracklet/operations/models.py:404-442 | writing a line its own clean accepted keeps every pair of distinct lines free of a clash |
| OperationsModels.WriteKeepsAssignmentsUnique | src/backend/Tracklet/operations/models.py:200-211 | a write the two unique constraints accept keeps the table free of duplicate (event, item) and (event, part) rows |
| OperationsModels.WriteKeepsEventReferencesUnique | src/backend/Tracklet/operations/models.py:23-31 | a write whose reference no other event holds keeps the event references unique |
| OperationsModels.WriteKeepsOrderReferencesUnique | src/backend/Tracklet/operations/models.py:23-31 | the same for rental orders |
| OperationsModels.BlankEventReferenceNeverClashes | src/backend/Tracklet/operations/models.py:38-53 | when reference_int is rebuilt from the reference, a blank reference is replaced by one no stored event holds, so that save is never refused on the reference |
| OperationsModels.BlankOrderReferenceNeverClashes | src/backend/Tracklet/operations/models.py:38-53 | the same for rental orders |
| OperationsModels.SavedEvent | src/backend/Tracklet/operations/models.py:49-55 | saving an event changes only its reference fields: the assigned reference, and reference_int rebuilt from it |
| OperationsModels.SavedOrder | src/backend/Tracklet/operations/models.py:367-375 | saving an order applies the status stamps, then assigns the reference and rebuilds reference_int |
| OperationsModels.SavedOrderOverdueIsMarked | src/backend/Tracklet/operations/models.py:354-375 | after a save the order is overdue exactly when it was before, and then its status is Overdue |
| OperationsModels.Database.SaveAssignment | src/backend/Tracklet/operations/models.py:275-277 | runs clean, then the foreign key check, then the unique constraints; it succeeds exactly when all pass, and then writes the row under its key or a fresh one; a failure writes nothing |
| OperationsModels.Database.SaveLine | src/backend/Tracklet/operations/models.py:440-442 | runs clean against the stored lines and succeeds exactly when it accepts; it writes under the line's key or a fresh one and keeps the calendar free of double bookings |
| OperationsModels.Database.PutEvent | src/backend/Tracklet/operations/models.py:23-31 | the write of an event succeeds exactly when no other stored event holds its reference; a refused write changes nothing |
| OperationsModels.Database.PutOrder | src/backend/Tracklet/operations/models.py:23-31 | the same for rental orders |
| OperationsModels.Event.Save | src/backend/Tracklet/operations/models.py:23-53 | the event's fields become SavedEvent of the old ones; the save succeeds exactly when no other stored event holds the resulting reference (`unique=True`), and then the table holds the event under its old key or a fresh one; a refused save writes nothing and leaves a new event without a key |
| OperationsModels.RentalOrder.Stamp | src/backend/Tracklet/operations/models.py:367-373 | the order's fields become StampForSave of the old ones, and its key is untouched |
| OperationsModels.RentalOrder.FillReference | src/backend/Tracklet/operations/models.py:49-52 | the order's reference becomes the assigned one and reference_int is rebuilt from it; nothing else changes |
| OperationsModels.RentalOrder.Save | src/backend/Tracklet/operations/models.py:367-375 | after Stamp and FillReference the order's fields are SavedOrder of the old ones; the save succeeds exactly when no other stored order holds the resulting reference, and then the table holds the order under its old key or a fresh one; a refused save writes nothing |
| OperationsSerializers.NotesPreview | src/backend/Tracklet/operations/serializers.py:77-83 | the stripped notes when they have at most 64 characters; otherwise their first 64 characters followed by "..." |
| OperationsSerializers.NotesPreviewIdempotent | src/backend/Tracklet/operations/serializers.py:77-83 | previewing a preview gives the same preview |
| OperationsSerializers.ValidateAssignment | src/backend/Tracklet/operations/serializers.py:230-242 | part and item come from the data, else from the instance; refused exactly when both are empty; a part without a submitted item gets an explicit null item; nothing else changes |
| OperationsSerializers.ValidatedInputNamesPartOrItem | src/backend/Tracklet/operations/serializers.py:234-241 | validated new data names a part or an item, and validation changes at most the item |
| OperationsSerializers.NewAssignment | src/backend/Tracklet/operations/serializers.py:186-190 | the row an insert writes, with quantity 1 and Reserved for fields not submitted; OperationsSerializers.CreateAssignment states when it is written |
| OperationsSerializers.Merge | src/backend/Tracklet/operations/serializers.py:200-224 | a merge adds the submitted quantity, updates status and timestamps only when submitted, clears the item, and keeps the event and part |
| OperationsSerializers.MergedNotes | src/backend/Tracklet/operations/serializers.py:214-222 | the notes after a merge; OperationsSerializers.MergedNotesCases states its three cases |
| OperationsSerializers.MergeOfEmptySubmission | src/backend/Tracklet/operations/serializers.py:200-224 | a submission with only blank notes merely clears the item |
| OperationsSerializers.MergedNotesCases | src/backend/Tracklet/operations/serializers.py:214-222 | blank notes keep the old notes; other notes are appended on a new line under the stripped old notes, or replace empty ones |
| OperationsSerializers.CreateAssignment | src/backend/Tracklet/operations/serializers.py:176-228 | without a part, or with no (event, part) row yet, it inserts the new row and succeeds exactly when clean accepts it, the event exists and no unique constraint is broken, reporting updated_existing = false; otherwise it merges into the existing row, succeeds exactly when clean accepts the merged row and the event exists, and reports that row with true; a failure writes nothing |
| OperationsSerializers.MergeRespectsConstraints | src/backend/Tracklet/operations/serializers.py:224 | the merged row never collides with another row under the unique constraints |
| OperationsSerializers.RepeatedSubmissionMerges | src/backend/Tracklet/operations/test_api.py:95-138 | 12 chairs and then 3 more give 15, status 20 and both notes on two lines |
| OperationsSerializers.ValidateLine | src/backend/Tracklet/operations/serializers.py:317-352 | its errors are on order or asset and name no conflicting reference |
| OperationsSerializers.SerializerQueryIsModelQuery | src/backend/Tracklet/operations/serializers.py:335-343 | the serializer's overlap query finds exactly the lines the model's clean finds |
| OperationsSerializers.SerializerAgreesWithModel | src/backend/Tracklet/operations/serializers.py:317-352 | for a positive quantity and a well-formed order, the serializer reports an asset conflict exactly when the model's clean does |
| OperationsSerializers.ValidateLineRejectsBadRange | src/backend/Tracklet/operations/serializers.py:324-327 | an order that does not end after it starts is refused on the order field |
| OperationsApi.Where | src/backend/Tracklet/operations/api.py:57 | a queryset filter keeps exactly the records that satisfy the predicate, unchanged |
| OperationsApi.FilterActive | src/backend/Tracklet/operations/api.py:48-59 | true keeps exactly the assignments not checked in or Reserved or In Use; false keeps everything |
| OperationsApi.FilterInUse | src/backend/Tracklet/operations/api.py:61-65 | `filter_in_use`: true applies the active filter, false keeps everything; OperationsApi.InUseIsActive states that it equals the active filter |
| OperationsApi.InUseIsActive | src/backend/Tracklet/operations/api.py:61-65 | the in_use filter is the active filter |
| OperationsApi.FilterOverdue | src/backend/Tracklet/operations/api.py:88-105 | true keeps exactly the orders meeting the overdue criteria; false keeps exactly the others |
| OperationsApi.OverdueCriteriaIsIsOverdue | src/backend/Tracklet/operations/api.py:91-100 | the database criterion agrees with the model's `is_overdue` on every order |
| OperationsApi.OverdueFilterPartitions | src/backend/Tracklet/operations/api.py:102-105 | for one `now` the two answers split the orders between them: overdue orders in one, the rest in the other |
| OperationsApi.CreateResponseStatus | src/backend/Tracklet/operations/api.py:242-246 | 200 when an existing row was updated, 201 when a row was created |
| OperationsApi.ListRow | src/backend/Tracklet/operations/api.py:296-311 | a list row counts the order's lines; returned_lines is all of them for a Returned order and 0 otherwise; overdue is `is_overdue` |
| OperationsApi.ReturnedLinesAllOrNothing | src/backend/Tracklet/operations/api.py:303-309 | returned_lines is 0 or line_items, and is non-zero only for Returned orders |
| OperationsApi.SavedReturnedOrderNotOverdue | src/backend/Tracklet/operations/api.py:91-100 | a Returned order is never listed as overdue once it has been saved |
| RentalPdfImport.NormalizeSpaces | src/backend/Tracklet/operations/management/commands/import_rental_pdf.py:85-86 | the result has no whitespace at its ends and only single ' ' inside; None gives "" |
| RentalPdfImport.PlainIsNormalized | src/backend/Tracklet/operations/management/commands/import_rental_pdf.py:85-86 | printable text with only single inner spaces is already normalised |
| RentalPdfImport.NormalizeOfNormalized | src/backend/Tracklet/operations/management/commands/import_rental_pdf.py:85-86 | normalised text is left as it is |
| RentalPdfImport.NormalizeIdempotent | src/backend/Tracklet/operations/management/commands/import_rental_pdf.py:85-86 | normalising twice is normalising once |
| RentalPdfImport.JoinNormalized | src/backend/Tracklet/operations/management/commands/import_rental_pdf.py:217 | two non-empty normalised texts joined with one space are normalised |
| RentalPdfImport.MapProductType | src/backend/Tracklet/operations/management/commands/import_rental_pdf.py:89-118 | every product type maps to a level-one category of the menu and one of its children |
| RentalPdfImport.MapFolded | src/backend/Tracklet/operations/management/commands/import_rental_pdf.py:92-118 | the decision chain on the folded type always lands inside the menu hierarchy |
| RentalPdfImport.ChargerWinsOverLounge | src/backend/Tracklet/operations/management/commands/import_rental_pdf.py:92-100 | a type that mentions "charger" is a Tabletop/Chargers type, even if it also mentions "lounge" |
| RentalPdfImport.IsKnownProductType | src/backend/Tracklet/operations/management/commands/import_rental_pdf.py:120-141 | `_is_known_product_type`: the normalised, case-folded type is one of the eleven names or contains "charger" or "lounge"; RentalPdfImport.UnknownTypeFallsBackToDecor states that an unknown type falls back to Decor/Decor |
| RentalPdfImport.UnknownTypeFallsBackToDecor | src/backend/Tracklet/operations/management/commands/import_rental_pdf.py:118-142 | a type that is not known maps to Decor/Decor |
| RentalPdfImport.FoldsTo | src/backend/Tracklet/operations/management/commands/import_rental_pdf.py:90 | a normalised type is classified by its lower-cased spelling |
| RentalPdfImport.Title | src/backend/Tracklet/operations/management/commands/import_rental_pdf.py:153 | title-casing keeps the length, keeps letters letters, and keeps every non-letter in place |
| RentalPdfImport.TitleIdempotent | src/backend/Tracklet/operations/management/commands/import_rental_pdf.py:153 | title-casing twice is title-casing once |
| RentalPdfImport.TitleKeepsShape | src/backend/Tracklet/operations/management/commands/import_rental_pdf.py:146-153 | title-casing keeps text normalised and creates no new " - " |
| RentalPdfImport.FamilyPrefix | src/backend/Tracklet/operations/management/commands/import_rental_pdf.py:148-149 | the text before the first " - " of a normalised name is non-empty, normalised and free of " - " |
| RentalPdfImport.ExtractModelFamily | src/backend/Tracklet/operations/management/commands/import_rental_pdf.py:144-152 | `_extract_model_family`: the title-cased normalised text before the first " - "; RentalPdfImport.ModelFamilyHasNoSeparator, ModelFamilyIdempotent, FamilyWithColour and FamilyBeforeSeparator state its properties |
| RentalPdfImport.ModelFamilyHasNoSeparator | src/backend/Tracklet/operations/management/commands/import_rental_pdf.py:145-153 | a model family never contains " - " |
| RentalPdfImport.ModelFamilyIdempotent | src/backend/Tracklet/operations/management/commands/import_rental_pdf.py:145-153 | the family of a family is itself |
| RentalPdfImport.TitleSplits | src/backend/Tracklet/operations/management/commands/import_rental_pdf.py:153 | title-casing works word by word: it splits after any non-letter |
| RentalPdfImport.FamilyWithColour | src/backend/Tracklet/operations/management/commands/import_rental_pdf.py:145-153 | a plain family name, " - " and a colour give the title-cased family name |
| RentalPdfImport.FamilyBeforeSeparator | src/backend/Tracklet/operations/management/commands/import_rental_pdf.py:148-153 | a normalised name gives the title-cased text before its first " - " |
| RentalPdfImport.ShouldUseModelLevel | src/backend/Tracklet/operations/management/commands/import_rental_pdf.py:156-161 | "all" gives true, "none" gives false, and any other mode gives true exactly for Furniture with one of its four children |
| RentalPdfImport.IsCategoryInSubtree | src/backend/Tracklet/operations/management/commands/import_rental_pdf.py:300-310 | `_is_category_in_subtree`: the nested-set bounds of the root enclose the category's, in the same tree; RentalPdfImport.SubtreeIsAPreorder states its properties |
| RentalPdfImport.SubtreeIsAPreorder | src/backend/Tracklet/operations/management/commands/import_rental_pdf.py:301-310 | no category is in the subtree of None, every category is in its own subtree, and subtrees nest |
| RentalPdfImportExamples.KnownTypesMapToTheirLeaf | src/backend/Tracklet/operations/test_commands.py:20-74 | Chairs, Lounge furniture, Charger plates and Tablecloths map to their own leaf categories |
| RentalPdfImportExamples.ModelFamilyExamples | src/backend/Tracklet/operations/test_commands.py:23-65 | "COCO CHAIR - <colour>" gives "Coco Chair" and "Velvet Lounge Chair - <colour>" gives "Velvet Lounge Chair" |
| RentalPdfRows.SortByLength | src/backend/Tracklet/operations/management/commands/import_rental_pdf.py:184-186 | the alternatives are a permutation of the types, longest first |
| RentalPdfRows.RowTypeIsKnownType | src/backend/Tracklet/operations/management/commands/import_rental_pdf.py:184-188 | which texts the type group accepts does not depend on the order of the alternatives |
| RentalPdfRows.TypeSplitFrom | src/backend/Tracklet/operations/management/commands/import_rental_pdf.py:188 | the lazy name group ends at the first place where a single space and a type reaching the end of the text follow, or there is none |
| RentalPdfRows.IdGroupIsDigitRun | src/backend/Tracklet/operations/management/commands/import_rental_pdf.py:188 | the id group is the whole leading digit run |
| RentalPdfRows.GroupsAreNormalized | src/backend/Tracklet/operations/management/commands/import_rental_pdf.py:188 | on normalised text the name and type groups are normalised already |
| RentalPdfRows.RowOfNormalizedText | src/backend/Tracklet/operations/management/commands/import_rental_pdf.py:210-214 | on normalised text the built row carries the groups verbatim and the id's value |
| RentalPdfRows.MatchRow | src/backend/Tracklet/operations/management/commands/import_rental_pdf.py:183-189 | the compiled row expression applied to a text; RentalPdfRows.MatchRowSpec and MatchOnNormalizedText state what it matches |
| RentalPdfRows.MatchRowSpec | src/backend/Tracklet/operations/management/commands/import_rental_pdf.py:188 | the matcher fails exactly when no split of the text fits the expression; on success its split has the shortest name group and the row is built from it |
| RentalPdfRows.MatchOnNormalizedText | src/backend/Tracklet/operations/management/commands/import_rental_pdf.py:208-214 | a match on normalised text yields the id digits, the name and the type verbatim |
| RentalPdfRows.NoIdGroup | src/backend/Tracklet/operations/management/commands/import_rental_pdf.py:188 | a text that does not start with digits and a space never matches |
| RentalPdfRows.NoTypeGroup | src/backend/Tracklet/operations/management/commands/import_rental_pdf.py:188 | a text with no type group after the id never matches |
| RentalPdfRows.MatchedTypeIsKnown | src/backend/Tracklet/operations/management/commands/import_rental_pdf.py:188 | the matched type is one of the alternatives up to case and ends the text |
| RentalPdfRows.Step | src/backend/Tracklet/operations/management/commands/import_rental_pdf.py:196-228 | one iteration keeps every row found so far and adds at most one |
| RentalPdfRows.ScanFrom | src/backend/Tracklet/operations/management/commands/import_rental_pdf.py:196-237 | the loop only ever appends rows |
| RentalPdfRows.Scan | src/backend/Tracklet/operations/management/commands/import_rental_pdf.py:191-237 | the first loop of `_extract_rows_from_lines` from an empty buffer; RentalPdfRows.ScanKeepsInvariant, LeadingUnnumberedLinesAreIgnored and ScannedTypesAreKnown state its properties |
| RentalPdfRows.NextBufferIsNormalized | src/backend/Tracklet/operations/management/commands/import_rental_pdf.py:215-217 | the buffer a line leaves is normalised |
| RentalPdfRows.StepKeepsInvariant | src/backend/Tracklet/operations/management/commands/import_rental_pdf.py:196-228 | each iteration keeps the buffer normalised and never leaves a buffer that would match |
| RentalPdfRows.ScanKeepsInvariant | src/backend/Tracklet/operations/management/commands/import_rental_pdf.py:196-228 | so does the whole loop |
| RentalPdfRows.BlankAndHeaderLinesAreSkipped | src/backend/Tracklet/operations/management/commands/import_rental_pdf.py:199-204 | blank lines and the table header change nothing |
| RentalPdfRows.ScanFromAppend | src/backend/Tracklet/operations/management/commands/import_rental_pdf.py:196 | running over a then b is running over a + b |
| RentalPdfRows.LeadingUnnumberedLinesAreIgnored | src/backend/Tracklet/operations/management/commands/import_rental_pdf.py:216-219 | lines before the first numbered line are dropped |
| RentalPdfRows.UnnumberedKeepStart | src/backend/Tracklet/operations/management/commands/import_rental_pdf.py:216-219 | from the start state, unnumbered lines leave it unchanged |
| RentalPdfRows.ContinuationJoinsWithOneSpace | src/backend/Tracklet/operations/management/commands/import_rental_pdf.py:216-217 | a line that does not start a row is joined to the pending buffer after exactly one space |
| RentalPdfRows.ScannedTypesAreKnown | src/backend/Tracklet/operations/management/commands/import_rental_pdf.py:183-237 | every row found carries, up to case, one of the known product types |
| RentalPdfRows.ScannedTypesAreAlternatives | src/backend/Tracklet/operations/management/commands/import_rental_pdf.py:196-237 | from a state whose rows carry row types, every later state's rows do too |
| RentalPdfRows.StepTypesAreAlternatives | src/backend/Tracklet/operations/management/commands/import_rental_pdf.py:207-228 | the row an iteration adds carries a row type |
| RentalPdfRows.FirstIds | src/backend/Tracklet/operations/management/commands/import_rental_pdf.py:239-241 | the dict's keys are distinct and are exactly the ids of the rows |
| RentalPdfRows.LastById | src/backend/Tracklet/operations/management/commands/import_rental_pdf.py:239-241 | the dict maps exactly the ids of the rows, each to a row with that id |
| RentalPdfRows.UniqueRowsAreDistinctAndComplete | src/backend/Tracklet/operations/management/commands/import_rental_pdf.py:239-243 | the kept rows have distinct ids and cover every id of the input |
| RentalPdfRows.UniqueRows | src/backend/Tracklet/operations/management/commands/import_rental_pdf.py:239-243 | the rows kept by the id dictionary; RentalPdfRows.UniqueRowsAreDistinctAndComplete, LastRowWins, FirstAppearanceOrder and UniqueRowsAreRows state its properties |
| RentalPdfRows.LastRowWins | src/backend/Tracklet/operations/management/commands/import_rental_pdf.py:240-241 | the row kept for an id is its last occurrence |
| RentalPdfRows.FirstAppearanceOrder | src/backend/Tracklet/operations/management/commands/import_rental_pdf.py:239-243 | ids come out in order of first appearance |
| RentalPdfRows.UniqueRowsAreRows | src/backend/Tracklet/operations/management/commands/import_rental_pdf.py:239-243 | every kept row is an input row |
| RentalPdfRows.ExtractedRowsAreDistinctAndTyped | src/backend/Tracklet/operations/management/commands/import_rental_pdf.py:191-243 | the extractor returns one row per id, each with a known product type |
| RentalPdfRows.ScanFromSnoc | src/backend/Tracklet/operations/management/commands/import_rental_pdf.py:196 | scanning one more line is one more iteration |
| RentalPdfRows.ReadLine | src/backend/Tracklet/operations/management/commands/import_rental_pdf.py:196-228 | one pass of the loop body on a raw line leaves exactly the state Step describes, and never a buffer that would match |
| RentalPdfRows.ExtractRowsFromLines | src/backend/Tracklet/operations/management/commands/import_rental_pdf.py:191-243 | the loop with its buffer and the final re-test return the last row per id of the scan, in order of first appearance |
| RentalPdfRows.KeepLastRowPerId | src/backend/Tracklet/operations/management/commands/import_rental_pdf.py:239-243 | the dict loop returns UniqueRows of its input |
| EventsApi.FilterStatus | src/backend/Tracklet/tracklet_events/api.py:50-54 | the status filter keeps a sub-map of the queryset with the records unchanged |
| EventsApi.FilterStatusIsEffectiveStatus | src/backend/Tracklet/tracklet_events/api.py:50-54 | an event is kept for code v exactly when its custom key is v, or it has no custom key and its status is v |
| EventsApi.CustomKeyOverridesStatus | src/backend/Tracklet/tracklet_events/api.py:51-53 | an event with a custom key other than v is excluded even when its status is v |
| EventsApi.StatusFiltersAreDisjoint | src/backend/Tracklet/tracklet_events/api.py:50-54 | no event is listed under two different codes |
| EventsApi.FilterHasEndDate | src/backend/Tracklet/tracklet_events/api.py:108-110 | keeps a sub-map of the queryset with the records unchanged |
| EventsApi.HasEndDatePartitions | src/backend/Tracklet/tracklet_events/api.py:108-110 | true keeps exactly the events with an end date and false exactly those without, so the two answers split the list |
| EventsApi.CreateEvent | src/backend/Tracklet/tracklet_events/api.py:26-36 | accepted data is stored as one new event with the requesting user as created_by and answered with 201, other events unchanged; refused data stores nothing and is answered with 400 |
| EventsApi.CreatedEventIsListedByStatus | src/backend/Tracklet/tracklet_events/api.py:26-54 | a created event is listed under the status it was submitted with, and under no other |
| StockAvailabilityStyles.NormalizeKey | src/frontend/src/tables/stock/stockAvailabilityStyles.ts:32-35 | the key has no whitespace and no lower-case letter |
| StockAvailabilityStyles.NormalizeKeyIdempotent | src/frontend/src/tables/stock/stockAvailabilityStyles.ts:32-35 | a key normalises to itself |
| StockAvailabilityStyles.KeyOfTwoWords | src/frontend/src/tables/stock/stockAvailabilityStyles.ts:32-35 | two words with any whitespace run between them give the upper-cased words joined by one "_" |
| StockAvailabilityStyles.BlankValueGivesEmptyKey | src/frontend/src/tables/stock/stockAvailabilityStyles.ts:32 | null, undefined and all-whitespace values give the empty key |
| StockAvailabilityStyles.SplitOn | src/frontend/src/tables/stock/stockAvailabilityStyles.ts:23 | split gives at least one part, none containing the separator, and joining the parts back gives the text |
| StockAvailabilityStyles.Capitalize | src/frontend/src/tables/stock/stockAvailabilityStyles.ts:24 | capitalising keeps the length |
| StockAvailabilityStyles.FormatLabel | src/frontend/src/tables/stock/stockAvailabilityStyles.ts:20-26 | `formatAvailabilityLabel`: lower-case, split on "_", capitalise each part, join with spaces; StockAvailabilityStyles.FormatLabelShape and OneWordLabel state its properties |
| StockAvailabilityStyles.FormatLabelShape | src/frontend/src/tables/stock/stockAvailabilityStyles.ts:20-26 | the label is as long as the key and has no "_" |
| StockAvailabilityStyles.OneWordLabel | src/frontend/src/tables/stock/stockAvailabilityStyles.ts:20-26 | a key without "_" becomes one capitalised lower-case word |
| StockAvailabilityStyles.UnavailableLabel | src/frontend/src/tables/stock/stockAvailabilityStyles.ts:20-26 | UNAVAILABLE is labelled "Unavailable" |
| StockAvailabilityStyles.StyleFor | src/frontend/src/tables/stock/stockAvailabilityStyles.ts:37 | `AVAIL_STYLE[key] ?? DEFAULT_STYLE`; StockAvailabilityStyles.StyleColours states the colours of each key |
| StockAvailabilityStyles.StyleColours | src/frontend/src/tables/stock/stockAvailabilityStyles.ts:13-18 | AVAILABLE is green, MISSING yellow on dark, BROKEN red, and every other key the grey default |
| StockAvailabilityStyles.StyleOfKey | src/frontend/src/tables/stock/stockAvailabilityStyles.ts:37-44 | the colours of a computed key are its table entry, or the default |
| StockAvailabilityStyles.StockAvailabilityStyle | src/frontend/src/tables/stock/stockAvailabilityStyles.ts:28-46 | the colours are those of the normalised key |
| StockAvailabilityStyles.BlankValueIsUnavailable | src/frontend/src/tables/stock/stockAvailabilityStyles.ts:37-44 | a blank value reads as UNAVAILABLE in grey, labelled "Unavailable" unless a label is given |
| StockAvailabilityStyles.EmptyKeyIsUnavailable | src/frontend/src/tables/stock/stockAvailabilityStyles.ts:37-44 | the empty key is shown as UNAVAILABLE in grey, labelled "Unavailable" unless a label is given |
| StockAvailabilityStyles.LabelChoice | src/frontend/src/tables/stock/stockAvailabilityStyles.ts:44 | a non-empty fallback label wins; otherwise the label is the formatted key |
| StockAvailabilityStyles.ReturnedKeyIsNormal | src/frontend/src/tables/stock/stockAvailabilityStyles.ts:38-43 | the returned key is never empty, has no whitespace and normalises to itself |
| EventStatusStyles.StatusStyleFor | src/frontend/src/tables/events/eventStatusStyles.ts:29 | the lookup always returns one of the table's styles |
| EventStatusStyles.EventStatusBadgeStyle | src/frontend/src/tables/events/eventStatusStyles.ts:21-30 | total: every status gets one of the six colour pairs |
| EventStatusStyles.StatusColours | src/frontend/src/tables/events/eventStatusStyles.ts:11-19 | SCHEDULED is blue, IN_PROGRESS yellow on dark, COMPLETED green, CANCELLED red, ON_HOLD grape; DRAFT, TBD and every other key get the grey default |
| EventStatusStyles.BlankStatusIsDefault | src/frontend/src/tables/events/eventStatusStyles.ts:24-29 | a null, undefined, empty or all-whitespace status gets the default |
| EventStatusStyles.InProgressSpellings | src/frontend/src/tables/events/eventStatusStyles.ts:24-27 | "in"/"In", any whitespace run and "progress"/"Progress" give the key IN_PROGRESS and the yellow style |
| EventStatusStyles.InProgressExamples | src/frontend/src/tables/events/eventStatusStyles.ts:24-29 | "in  progress" and "In Progress" both get the IN_PROGRESS style |
| FeatureFlags.EveryModuleHasAFlag | src/frontend/src/defaults/featureFlags.ts:5-16 | the record has an entry for each of the eight module keys |
| FeatureFlags.IsModuleEnabled | src/frontend/src/defaults/featureFlags.ts:18-20 | `isModuleEnabled`: the module's entry is true; FeatureFlags.EnabledModulesAre states which modules that is |
| FeatureFlags.EnabledModulesAre | src/frontend/src/defaults/featureFlags.ts:5-20 | exactly dashboard, parts, stock, events and rentals are enabled; exactly manufacturing, purchasing and sales are not |
| Links.FilterTabs | src/frontend/src/defaults/links.tsx:81-104 | the filter keeps an order-preserving sub-list holding exactly the tabs the callback accepts |
| Links.GetNavTabs | src/frontend/src/defaults/links.tsx:30-105 | the tabs are an order-preserving sub-list of the eight declared tabs, holding exactly those the callback accepts |
| Links.FilterStep | src/frontend/src/defaults/links.tsx:81 | filtering decides the first tab, then filters the rest |
| Links.KeepTab | src/frontend/src/defaults/links.tsx:81-104 | the filter callback of `getNavTabs`: the module switch first, then the role; Links.KeepTabDecisions states its verdict on each declared tab |
| Links.KeepTabDecisions | src/frontend/src/defaults/links.tsx:81-104 | home is always kept; part and stock follow their roles; manufacturing, purchasing and sales are dropped; events and rentals follow sales_order |
| Links.NavTabsAre | src/frontend/src/defaults/links.tsx:30-105 | the tab list is home, then part, stock, events and rentals, each present exactly when its role is held |
| Links.LaterTabs | src/frontend/src/defaults/links.tsx:49-104 | of manufacturing, purchasing, sales, events and rentals, only events and rentals can remain, both by the sales_order role |
| Links.HomeTabIsFirst | src/frontend/src/defaults/links.tsx:32-36 | home is always present and first |
| Links.DisabledModulesAreHidden | src/frontend/src/defaults/links.tsx:82-92 | manufacturing, purchasing and sales never appear, whatever the roles |
| Links.TabsFollowRoles | src/frontend/src/defaults/links.tsx:37-103 | part and stock appear exactly with their own roles; events and rentals appear exactly with sales_order |
| Links.AboutLinks | src/frontend/src/defaults/links.tsx:197-229 | instance then licenses, then "about" exactly when the user is a superuser or the restriction is not set, so 2 or 3 entries |

## Left out

- I/O and framework plumbing are not modelled: reading the PDF, the management command's `handle`, category and stock creation and purging, URL routing, querysets, search and ordering, and the admin. These are file, database or framework work around the modelled logic.
- Concurrency is not modelled. The `IntegrityError` retry in the assignment upsert and `transaction.atomic` are left out; get-or-create is one lookup followed by one insert.
- `rebuild_reference_field` is not part of this model. It is a parameter `refInt`.
- `timezone.now()` is the parameter `now`, and datetimes are integers on one clock.
- `str2bool` of the has_end_date filter is not part of this model. The filter takes the boolean it returns.
- The events serializer's `is_valid` and the view's `clean_data` are not part of this model. Their verdict is the parameter `valid` of `EventsApi.CreateEvent`, and the creation date is the parameter `today`.
- `user.hasViewRole`, `user.isSuperuser()` and `settings.isSet(...)` are not part of this model. They are parameters of `Links.GetNavTabs` and `Links.AboutLinks`.
- Icons, the translated titles and the dialog actions of the menus are only named. `DocumentationLinks`, `serverInfo`, `aboutTracklet` and `licenseInfo` open dialogs or return constant lists, and are not modelled.
- Case mapping is ASCII only. This covers Python's `casefold`, `lower` and `title`, and JavaScript's `toUpperCase` and `toLowerCase`. Non-ASCII letters keep their case in the model.
- The regular expression's `\d` is ASCII digits. `re.IGNORECASE` is ASCII-only case-insensitive comparison.
- `String(value)` of the frontend badges is taken on string inputs only. A non-string status becomes None or its text before the call.
- The three copies of `get_notes_preview` (serializers.py:77-83, 165-171, 292-298) are the same code. One function models all three.
- `NormalizeKey` is shared. The two badge files use the same normalisation expression, so one definition serves both.
- RentalPdfRows.ExtractRowsFromLines takes the product-type list as a parameter instead of reading `KNOWN_PRODUCT_TYPES`. It sorts that list into the alternatives itself. `RentalPdfImport.KnownProductTypes` is the list to pass.
- RentalPdfRows.MatchRow is a hand-written matcher for `^\s*(\d+)\s+(.+?)\s+(types)\s*$`. It is exact on what the extractor feeds it, and `MatchRowSpec` states that exactly. The extractor only ever matches normalised text: no edge spaces and single inner spaces. On other text, whitespace around the groups is not skipped as the expression would skip it.
- RentalPdfRows.RowTypeIsKnownType: the model's type group accepts any alternative that reaches the end of the text, so the longest-first order of `_compile_row_regex` cannot change a match. The order is kept but has no observable effect.
- RentalPdfRows.KeepLastRowPerId is the second loop of `_extract_rows_from_lines`, split into its own method. RentalPdfRows.ReadLine is the first loop's body, also split into its own method.
- StockAvailabilityStyles.StyleColours states the colours key by key. It does not state the converse, that a colour pair names its key: the default and UNAVAILABLE share one pair.
- EventStatusStyles.StatusColours likewise maps keys to colours and does not invert the table.
- OperationsSerializers.ValidateLine states only the shape of its errors in its own contract. What it accepts is stated by `SerializerAgreesWithModel` and `ValidateLineRejectsBadRange`.
- OperationsModels.Database.SaveAssignment and the other methods that change state are specified against the record functions above. The classes stand for the Django model instances; only the fields the modelled logic reads or writes are present.
