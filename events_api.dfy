/**
 * The list filters and the create action of the events API.  A queryset is
 * a map from primary key to event; filtering keeps a sub-map.
 */
module EventsApi {
  import opened Wrappers
  import opened ReferenceTracking
  import OperationsApi

  /** An event row, with the fields the filters and the create action touch. */
  datatype TrackletEvent = TrackletEvent(
    title: string,
    description: string,
    status: int,
    statusCustomKey: Option<int>,
    startDate: int,
    endDate: Option<int>,
    creationDate: int,
    createdBy: Option<Pk>)

  /** The writable fields a client submits; `created_by` and `creation_date` are read-only. */
  datatype EventData = EventData(
    title: string,
    description: string,
    status: int,
    statusCustomKey: Option<int>,
    startDate: int,
    endDate: Option<int>)

  // ---------------------------------------------------------------- filter_status

  /** `Q(status=value, status_custom_key__isnull=True) | Q(status_custom_key=value)`. */
  predicate StatusMatches(e: TrackletEvent, value: int) {
    (e.status == value && e.statusCustomKey.None?) || e.statusCustomKey == Some(value)
  }

  /** The status an event shows: its custom key when it has one, its built-in status otherwise. */
  function EffectiveStatus(e: TrackletEvent): int {
    if e.statusCustomKey.Some? then e.statusCustomKey.value else e.status
  }

  /** `filter_status`; `.distinct()` has nothing to do on a map. */
  function FilterStatus(qs: map<Pk, TrackletEvent>, value: int): (r: map<Pk, TrackletEvent>)
    ensures r.Keys <= qs.Keys
    ensures forall k :: k in r ==> r[k] == qs[k]
  {
    OperationsApi.Where(qs, e => StatusMatches(e, value))
  }

  /** An event is listed under a status code exactly when that is the status it shows. */
  lemma FilterStatusIsEffectiveStatus(qs: map<Pk, TrackletEvent>, value: int, k: Pk)
    requires k in qs
    ensures k in FilterStatus(qs, value) <==> EffectiveStatus(qs[k]) == value
  {
  }

  /** A custom key other than the queried code hides the event, whatever its built-in status. */
  lemma CustomKeyOverridesStatus(qs: map<Pk, TrackletEvent>, value: int, k: Pk)
    requires k in qs && qs[k].statusCustomKey.Some? && qs[k].statusCustomKey.value != value
    ensures k !in FilterStatus(qs, value)
  {
  }

  /** Every event is listed under exactly one status code. */
  lemma StatusFiltersAreDisjoint(qs: map<Pk, TrackletEvent>, v1: int, v2: int)
    requires v1 != v2
    ensures FilterStatus(qs, v1).Keys !! FilterStatus(qs, v2).Keys
  {
    forall k | k in FilterStatus(qs, v1) ensures k !in FilterStatus(qs, v2) {
      FilterStatusIsEffectiveStatus(qs, v1, k);
      FilterStatusIsEffectiveStatus(qs, v2, k);
    }
  }

  // ---------------------------------------------------------------- filter_has_end_date

  /** `filter_has_end_date`, with `str2bool(value)` as `value`: `end_date__isnull = not value`. */
  function FilterHasEndDate(qs: map<Pk, TrackletEvent>, value: bool): (r: map<Pk, TrackletEvent>)
    ensures r.Keys <= qs.Keys
    ensures forall k :: k in r ==> r[k] == qs[k]
  {
    OperationsApi.Where(qs, (e: TrackletEvent) => e.endDate.None? == !value)
  }

  /** True keeps exactly the events with an end date, false exactly those without, and the two split the list. */
  lemma {:induction false} HasEndDatePartitions(qs: map<Pk, TrackletEvent>)
    ensures forall k :: k in FilterHasEndDate(qs, true) <==> k in qs && qs[k].endDate.Some?
    ensures forall k :: k in FilterHasEndDate(qs, false) <==> k in qs && qs[k].endDate.None?
    ensures FilterHasEndDate(qs, true).Keys !! FilterHasEndDate(qs, false).Keys
    ensures FilterHasEndDate(qs, true).Keys + FilterHasEndDate(qs, false).Keys == qs.Keys
  {
    var t := FilterHasEndDate(qs, true);
    var f := FilterHasEndDate(qs, false);
    forall k | k in qs ensures k in t.Keys + f.Keys {
      if qs[k].endDate.Some? { assert k in t; } else { assert k in f; }
    }
  }

  // ---------------------------------------------------------------- create

  /** The HTTP answer of a create request and the event table after it. */
  datatype CreateOutcome = CreateOutcome(status: int, db: map<Pk, TrackletEvent>, created: Option<Pk>)

  /**
   * `EventCreateMixin.create`: when the serializer accepts the data (`valid`), the event
   * is saved under the fresh key `pk`, with the requesting user as its creator and
   * `today` as its creation date, and the answer is 201; otherwise nothing is saved
   * and the answer is 400.
   */
  function CreateEvent(db: map<Pk, TrackletEvent>, data: EventData, user: Pk, valid: bool, pk: Pk, today: int): (r: CreateOutcome)
    requires pk !in db
    ensures !valid ==> r.status == 400 && r.db == db && r.created.None?
    ensures valid ==> r.status == 201 && r.created == Some(pk)
    ensures valid ==> r.db.Keys == db.Keys + {pk} && forall k :: k in db ==> r.db[k] == db[k]
    ensures valid ==> var e := r.db[pk];
      e.createdBy == Some(user) && e.creationDate == today
      && e.title == data.title && e.description == data.description && e.status == data.status
      && e.statusCustomKey == data.statusCustomKey && e.startDate == data.startDate && e.endDate == data.endDate
  {
    if !valid then CreateOutcome(400, db, None)
    else
      var e := TrackletEvent(data.title, data.description, data.status, data.statusCustomKey,
        data.startDate, data.endDate, today, Some(user));
      CreateOutcome(201, db[pk := e], Some(pk))
  }

  /** A created event is listed under the status it was submitted with, and under that status only. */
  lemma CreatedEventIsListedByStatus(db: map<Pk, TrackletEvent>, data: EventData, user: Pk, pk: Pk, today: int, value: int)
    requires pk !in db
    ensures var r := CreateEvent(db, data, user, true, pk, today);
      pk in FilterStatus(r.db, value) <==> (if data.statusCustomKey.Some? then data.statusCustomKey.value else data.status) == value
  {
    var r := CreateEvent(db, data, user, true, pk, today);
    FilterStatusIsEffectiveStatus(r.db, value, pk);
  }
}
