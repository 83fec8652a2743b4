/**
 * The event status badge of the frontend event tables: the status is
 * normalised to an upper-case key (the same normalisation as the stock
 * availability badge) and looked up in a style table with a grey default.
 */
module EventStatusStyles {
  import opened Wrappers
  import opened Text
  import opened StockAvailabilityStyles

  /** `DEFAULT_STATUS_STYLE`. */
  const DefaultStatusStyle := Colours("var(--mantine-color-gray-6)", "#fff")

  const Blue := Colours("var(--mantine-color-blue-6)", "#fff")
  const Yellow := Colours("var(--mantine-color-yellow-5)", "#111")
  const Green := Colours("var(--mantine-color-green-6)", "#fff")
  const Red := Colours("var(--mantine-color-red-6)", "#fff")
  const Grape := Colours("var(--mantine-color-grape-6)", "#fff")

  /** `STATUS_STYLE`: DRAFT and TBD are listed with the default style itself. */
  const StatusStyle: map<string, Colours> := map[
    "SCHEDULED" := Blue,
    "IN_PROGRESS" := Yellow,
    "COMPLETED" := Green,
    "CANCELLED" := Red,
    "ON_HOLD" := Grape,
    "DRAFT" := DefaultStatusStyle,
    "TBD" := DefaultStatusStyle]

  /** `STATUS_STYLE[statusKey] ?? DEFAULT_STATUS_STYLE`: always one of the table's styles. */
  function StatusStyleFor(key: string): (r: Colours)
    ensures r in StatusStyle.Values
  {
    assert StatusStyle["DRAFT"] == DefaultStatusStyle;
    if key in StatusStyle then StatusStyle[key] else DefaultStatusStyle
  }

  /**
   * `getEventStatusBadgeStyle`, with a null or undefined status as None: total, and
   * the result is one of the six colour pairs of the table.
   */
  function EventStatusBadgeStyle(status: Option<string>): (r: Colours)
    ensures r in {Blue, Yellow, Green, Red, Grape, DefaultStatusStyle}
  {
    StatusStyleFor(NormalizeKey(status))
  }

  /** The five coloured keys get their colours; DRAFT, TBD and every other key get the default. */
  lemma StatusColours(key: string)
    ensures key == "SCHEDULED" ==> StatusStyleFor(key) == Blue
    ensures key == "IN_PROGRESS" ==> StatusStyleFor(key) == Yellow
    ensures key == "COMPLETED" ==> StatusStyleFor(key) == Green
    ensures key == "CANCELLED" ==> StatusStyleFor(key) == Red
    ensures key == "ON_HOLD" ==> StatusStyleFor(key) == Grape
    ensures key !in {"SCHEDULED", "IN_PROGRESS", "COMPLETED", "CANCELLED", "ON_HOLD"} ==>
      StatusStyleFor(key) == DefaultStatusStyle
  {
  }

  /** A null, undefined, empty or all-whitespace status gets the default style. */
  lemma BlankStatusIsDefault(status: Option<string>)
    requires forall i :: 0 <= i < |status.GetOr("")| ==> JsIsSpace(status.GetOr("")[i])
    ensures EventStatusBadgeStyle(status) == DefaultStatusStyle
  {
    BlankValueGivesEmptyKey(status);
    assert "" !in StatusStyle;
  }

  /** The upper-casing of the two words, evaluated once here so the lemma below stays small. */
  lemma InProgressWords()
    ensures Upper("in") == "IN" && Upper("In") == "IN"
    ensures Upper("progress") == "PROGRESS" && Upper("Progress") == "PROGRESS"
    ensures "IN" + "_" + "PROGRESS" == "IN_PROGRESS"
  {
  }

  /** The words "in" and "progress" in either case, with any whitespace run between them, read as IN_PROGRESS. */
  lemma {:induction false} InProgressSpellings(first: string, w: string, second: string)
    requires first == "in" || first == "In"
    requires second == "progress" || second == "Progress"
    requires w != "" && forall i :: 0 <= i < |w| ==> JsIsSpace(w[i])
    ensures NormalizeKey(Some(first + w + second)) == "IN_PROGRESS"
    ensures EventStatusBadgeStyle(Some(first + w + second)) == Yellow
  {
    InProgressWords();
    KeyOfTwoWords(first, w, second);
    StatusColours("IN_PROGRESS");
  }

  /** "in  progress", with two spaces, and "In Progress" both give the IN_PROGRESS style. */
  lemma InProgressExamples(status: string)
    requires status == "in  progress" || status == "In Progress"
    ensures EventStatusBadgeStyle(Some(status)) == Yellow
  {
    if status == "in  progress" {
      assert status == "in" + "  " + "progress";
      InProgressSpellings("in", "  ", "progress");
    } else {
      assert status == "In" + " " + "Progress";
      InProgressSpellings("In", " ", "Progress");
    }
  }
}
