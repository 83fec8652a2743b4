/**
 * The integer status codes of events, rental orders and furniture
 * assignments, with their labels and badge colours.  The records store the
 * bare integer; these enumerations give it a meaning.
 */
module StatusCodes {
  import opened Wrappers

  datatype Color = Secondary | Primary | Info | Success | Danger | Warning

  datatype EventStatus = Draft | Scheduled | InProgress | Completed | Cancelled {
    function Code(): int {
      match this
      case Draft => 10
      case Scheduled => 20
      case InProgress => 30
      case Completed => 40
      case Cancelled => 50
    }

    function Label(): string {
      match this
      case Draft => "Draft"
      case Scheduled => "Scheduled"
      case InProgress => "In Progress"
      case Completed => "Completed"
      case Cancelled => "Cancelled"
    }

    function Color(): Color {
      match this
      case Draft => Secondary
      case Scheduled => Primary
      case InProgress => Info
      case Completed => Success
      case Cancelled => Danger
    }
  }

  /** The members of `EventStatus` in declaration order. */
  const EventStatuses: seq<EventStatus> := [EventStatus.Draft, Scheduled, InProgress, Completed, EventStatus.Cancelled]

  /** The member whose code is `c`, if any. */
  function EventStatusFromCode(c: int): (r: Option<EventStatus>)
    ensures r.Some? <==> c in {10, 20, 30, 40, 50}
    ensures r.Some? ==> r.value.Code() == c
  {
    if c == 10 then Some(EventStatus.Draft)
    else if c == 20 then Some(Scheduled)
    else if c == 30 then Some(InProgress)
    else if c == 40 then Some(Completed)
    else if c == 50 then Some(EventStatus.Cancelled)
    else None
  }

  datatype RentalOrderStatus = Draft | Active | Overdue | Returned | Cancelled {
    function Code(): int {
      match this
      case Draft => 10
      case Active => 20
      case Overdue => 30
      case Returned => 40
      case Cancelled => 50
    }

    function Label(): string {
      match this
      case Draft => "Draft"
      case Active => "Active"
      case Overdue => "Overdue"
      case Returned => "Returned"
      case Cancelled => "Cancelled"
    }

    function Color(): Color {
      match this
      case Draft => Secondary
      case Active => Primary
      case Overdue => Warning
      case Returned => Success
      case Cancelled => Danger
    }
  }

  const RentalOrderStatuses: seq<RentalOrderStatus> :=
    [RentalOrderStatus.Draft, Active, Overdue, RentalOrderStatus.Returned, RentalOrderStatus.Cancelled]

  function RentalOrderStatusFromCode(c: int): (r: Option<RentalOrderStatus>)
    ensures r.Some? <==> c in {10, 20, 30, 40, 50}
    ensures r.Some? ==> r.value.Code() == c
  {
    if c == 10 then Some(RentalOrderStatus.Draft)
    else if c == 20 then Some(Active)
    else if c == 30 then Some(Overdue)
    else if c == 40 then Some(RentalOrderStatus.Returned)
    else if c == 50 then Some(RentalOrderStatus.Cancelled)
    else None
  }

  datatype FurnitureAssignmentStatus = Reserved | InUse | Returned | Missing | Damaged {
    function Code(): int {
      match this
      case Reserved => 10
      case InUse => 20
      case Returned => 30
      case Missing => 40
      case Damaged => 50
    }

    function Label(): string {
      match this
      case Reserved => "Reserved"
      case InUse => "In Use"
      case Returned => "Returned"
      case Missing => "Missing"
      case Damaged => "Damaged"
    }

    function Color(): Color {
      match this
      case Reserved => Secondary
      case InUse => Primary
      case Returned => Success
      case Missing => Warning
      case Damaged => Danger
    }
  }

  const FurnitureAssignmentStatuses: seq<FurnitureAssignmentStatus> :=
    [Reserved, InUse, FurnitureAssignmentStatus.Returned, Missing, Damaged]

  function FurnitureAssignmentStatusFromCode(c: int): (r: Option<FurnitureAssignmentStatus>)
    ensures r.Some? <==> c in {10, 20, 30, 40, 50}
    ensures r.Some? ==> r.value.Code() == c
  {
    if c == 10 then Some(Reserved)
    else if c == 20 then Some(InUse)
    else if c == 30 then Some(FurnitureAssignmentStatus.Returned)
    else if c == 40 then Some(Missing)
    else if c == 50 then Some(Damaged)
    else None
  }

  /** Each enumeration lists every member once, and its codes rise by exactly 10 in declaration order from 10. */
  lemma CodesStepByTen()
    ensures forall s: EventStatus :: s in EventStatuses
    ensures forall i :: 0 <= i < |EventStatuses| ==> EventStatuses[i].Code() == 10 * (i + 1)
    ensures forall s: RentalOrderStatus :: s in RentalOrderStatuses
    ensures forall i :: 0 <= i < |RentalOrderStatuses| ==> RentalOrderStatuses[i].Code() == 10 * (i + 1)
    ensures forall s: FurnitureAssignmentStatus :: s in FurnitureAssignmentStatuses
    ensures forall i :: 0 <= i < |FurnitureAssignmentStatuses| ==>
      FurnitureAssignmentStatuses[i].Code() == 10 * (i + 1)
  {
    forall s: EventStatus ensures s in EventStatuses {
      assert EventStatuses[s.Code() / 10 - 1] == s;
    }
    forall s: RentalOrderStatus ensures s in RentalOrderStatuses {
      assert RentalOrderStatuses[s.Code() / 10 - 1] == s;
    }
    forall s: FurnitureAssignmentStatus ensures s in FurnitureAssignmentStatuses {
      assert FurnitureAssignmentStatuses[s.Code() / 10 - 1] == s;
    }
  }

  /** The code determines the member: within each enumeration the codes are distinct, and decoding inverts encoding. */
  lemma CodesDistinct()
    ensures forall s: EventStatus, t: EventStatus :: s.Code() == t.Code() ==> s == t
    ensures forall s: RentalOrderStatus, t: RentalOrderStatus :: s.Code() == t.Code() ==> s == t
    ensures forall s: FurnitureAssignmentStatus, t: FurnitureAssignmentStatus :: s.Code() == t.Code() ==> s == t
    ensures forall s: EventStatus :: EventStatusFromCode(s.Code()) == Some(s)
    ensures forall s: RentalOrderStatus :: RentalOrderStatusFromCode(s.Code()) == Some(s)
    ensures forall s: FurnitureAssignmentStatus :: FurnitureAssignmentStatusFromCode(s.Code()) == Some(s)
  {
  }
}
