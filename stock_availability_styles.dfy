/**
 * The stock availability badge of the frontend stock tables: the value is
 * normalised to an upper-case key, looked up in a small style table, and
 * labelled either with the caller's label or with the key made readable.
 */
module StockAvailabilityStyles {
  import opened Wrappers
  import opened Text

  /** A badge background and foreground colour. */
  datatype Colours = Colours(bg: string, fg: string)

  /** `StockAvailabilityStyle`; `labelText` is its `label` field. */
  datatype AvailabilityStyle = AvailabilityStyle(bg: string, fg: string, key: string, labelText: string)

  /** `DEFAULT_STYLE`. */
  const DefaultStyle := Colours("var(--mantine-color-gray-6)", "#fff")

  /** `AVAIL_STYLE`. */
  const AvailStyle: map<string, Colours> := map[
    "AVAILABLE" := Colours("var(--mantine-color-green-6)", "#fff"),
    "UNAVAILABLE" := Colours("var(--mantine-color-gray-6)", "#fff"),
    "MISSING" := Colours("var(--mantine-color-yellow-5)", "#111"),
    "BROKEN" := Colours("var(--mantine-color-red-6)", "#fff")]

  // ---------------------------------------------------------------- the key

  /**
   * `String(value ?? '').trim().toUpperCase().replace(/\s+/g, '_')`, with null and
   * undefined as None: no whitespace is left, and no lower-case letter.
   */
  function NormalizeKey(value: Option<string>): (key: string)
    ensures forall i :: 0 <= i < |key| ==> !JsIsSpace(key[i]) && !IsLower(key[i])
  {
    var t := Upper(Strip(value.GetOr(""), JsIsSpace));
    CollapseRemovesSpaces(t, JsIsSpace, '_');
    CollapseChars(t, JsIsSpace, '_');
    Collapse(t, JsIsSpace, "_")
  }

  /** Upper-casing a text without lower-case letters changes nothing. */
  lemma UpperOfUpper(s: string)
    requires forall i :: 0 <= i < |s| ==> !IsLower(s[i])
    ensures Upper(s) == s
  {
  }

  /** A key normalises to itself. */
  lemma {:induction false} NormalizeKeyIdempotent(value: Option<string>)
    ensures NormalizeKey(Some(NormalizeKey(value))) == NormalizeKey(value)
  {
    var k := NormalizeKey(value);
    StripShape(k, JsIsSpace);
    UpperOfUpper(k);
    CollapseOfSpaceless(k, JsIsSpace, "_");
  }

  /** Upper-casing keeps whitespace and non-whitespace apart. */
  lemma UpperKeepsSpaces(s: string)
    ensures forall i :: 0 <= i < |s| ==> (JsIsSpace(Upper(s)[i]) <==> JsIsSpace(s[i]))
  {
  }

  /** Upper-casing works character by character, so it distributes over concatenation. */
  lemma UpperAppend(x: string, y: string)
    ensures Upper(x + y) == Upper(x) + Upper(y)
  {
  }

  /** `a + w + b` has no whitespace at either edge, so trimming changes nothing. */
  lemma TwoWordsAreTrimmed(a: string, w: string, b: string)
    requires a != "" && b != ""
    requires !JsIsSpace(a[0]) && !JsIsSpace(b[|b| - 1])
    ensures Strip(a + w + b, JsIsSpace) == a + w + b
  {
    var s := a + w + b;
    assert s[0] == a[0] && s[|s| - 1] == b[|b| - 1];
    StripShape(s, JsIsSpace);
  }

  /** Upper-casing three pieces one by one. */
  lemma UpperOfThree(a: string, w: string, b: string)
    ensures Upper(a + w + b) == Upper(a) + (Upper(w) + Upper(b))
  {
    UpperAppend(a + w, b);
    UpperAppend(a, w);
  }

  /** The key of a text without edge whitespace: its upper-cased form with each whitespace run collapsed. */
  lemma KeyOfTrimmed(s: string)
    requires Strip(s, JsIsSpace) == s
    ensures NormalizeKey(Some(s)) == Collapse(Upper(s), JsIsSpace, "_")
  {
  }

  /**
   * Two words separated by one run of whitespace give the upper-cased words
   * joined by a single '_'.
   */
  lemma {:induction false} KeyOfTwoWords(a: string, w: string, b: string)
    requires a != "" && b != "" && w != ""
    requires forall i :: 0 <= i < |a| ==> !JsIsSpace(a[i])
    requires forall i :: 0 <= i < |b| ==> !JsIsSpace(b[i])
    requires forall i :: 0 <= i < |w| ==> JsIsSpace(w[i])
    ensures NormalizeKey(Some(a + w + b)) == Upper(a) + "_" + Upper(b)
  {
    TwoWordsAreTrimmed(a, w, b);
    KeyOfTrimmed(a + w + b);
    UpperOfThree(a, w, b);
    UpperedWords(a, w, b);
    CollapseTwoWords(Upper(a), Upper(w), Upper(b), JsIsSpace, "_");
  }

  /** Upper-casing keeps words free of whitespace and a whitespace run a whitespace run. */
  lemma UpperedWords(a: string, w: string, b: string)
    requires w != "" && b != ""
    requires forall i :: 0 <= i < |a| ==> !JsIsSpace(a[i])
    requires forall i :: 0 <= i < |b| ==> !JsIsSpace(b[i])
    requires forall i :: 0 <= i < |w| ==> JsIsSpace(w[i])
    ensures forall i :: 0 <= i < |Upper(a)| ==> !JsIsSpace(Upper(a)[i])
    ensures Upper(w) != "" && forall i :: 0 <= i < |Upper(w)| ==> JsIsSpace(Upper(w)[i])
    ensures Upper(b) != "" && forall i :: 0 <= i < |Upper(b)| ==> !JsIsSpace(Upper(b)[i])
  {
    UpperKeepsSpaces(a);
    UpperKeepsSpaces(w);
    UpperKeepsSpaces(b);
  }

  /** Null, undefined, empty and all-whitespace values give the empty key. */
  lemma {:induction false} BlankValueGivesEmptyKey(value: Option<string>)
    requires forall i :: 0 <= i < |value.GetOr("")| ==> JsIsSpace(value.GetOr("")[i])
    ensures NormalizeKey(value) == ""
  {
    var s := value.GetOr("");
    if |s| > 0 {
      assert TrimStart(s, JsIsSpace) == "" by {
        var n := SkipFrom(s, JsIsSpace, 0);
        assert n == |s|;
      }
    }
  }

  // ---------------------------------------------------------------- the label

  /** `s.split(c)`: the texts between the separators, one more than there are separators. */
  function SplitOn(s: string, c: char): (r: seq<string>)
    ensures |r| >= 1
    ensures forall k :: 0 <= k < |r| ==> c !in r[k]
    ensures JoinWith(r, [c]) == s
    decreases |s|
  {
    if |s| == 0 then [""]
    else
      var rest := SplitOn(s[1..], c);
      if s[0] == c then
        assert s == [c] + s[1..];
        [""] + rest
      else
        var r := [[s[0]] + rest[0]] + rest[1..];
        assert rest == [rest[0]] + rest[1..];
        assert JoinWith(r, [c]) == [s[0]] + JoinWith(rest, [c]);
        assert s == [s[0]] + s[1..];
        r
  }

  /** `parts.join(sep)`. */
  function JoinWith(parts: seq<string>, sep: string): string
    decreases |parts|
  {
    if |parts| == 0 then ""
    else if |parts| == 1 then parts[0]
    else parts[0] + sep + JoinWith(parts[1..], sep)
  }

  /** `segment.charAt(0).toUpperCase() + segment.slice(1)`. */
  function Capitalize(segment: string): (r: string)
    ensures |r| == |segment|
  {
    if segment == "" then "" else [ToUpper(segment[0])] + segment[1..]
  }

  /** `formatAvailabilityLabel`: lower-case, split at '_', capitalise each segment, join with ' '. */
  function FormatLabel(key: string): string {
    var parts := SplitOn(Lower(key), '_');
    JoinWith(seq(|parts|, i requires 0 <= i < |parts| => Capitalize(parts[i])), " ")
  }

  /** Joining parts of the same lengths with separators of the same length gives the same length. */
  lemma {:induction false} JoinSameLength(ps: seq<string>, qs: seq<string>, sep: string, sep2: string)
    requires |ps| == |qs| && |sep| == |sep2|
    requires forall i :: 0 <= i < |ps| ==> |ps[i]| == |qs[i]|
    ensures |JoinWith(ps, sep)| == |JoinWith(qs, sep2)|
    decreases |ps|
  {
    if |ps| > 1 {
      JoinSameLength(ps[1..], qs[1..], sep, sep2);
    }
  }

  /** A character in neither the parts nor the separator is not in the join. */
  lemma {:induction false} JoinAvoids(ps: seq<string>, sep: string, c: char)
    requires c !in sep && forall i :: 0 <= i < |ps| ==> c !in ps[i]
    ensures c !in JoinWith(ps, sep)
    decreases |ps|
  {
    if |ps| > 1 {
      JoinAvoids(ps[1..], sep, c);
    }
  }

  /** The label is as long as the key and has no '_' left. */
  lemma FormatLabelShape(key: string)
    ensures |FormatLabel(key)| == |key|
    ensures '_' !in FormatLabel(key)
  {
    var parts := SplitOn(Lower(key), '_');
    var caps := seq(|parts|, i requires 0 <= i < |parts| => Capitalize(parts[i]));
    JoinSameLength(caps, parts, " ", "_");
    forall i | 0 <= i < |caps| ensures '_' !in caps[i] {
      if parts[i] != "" {
        assert caps[i] == [ToUpper(parts[i][0])] + parts[i][1..];
        assert parts[i][0] in parts[i];
      }
    }
    JoinAvoids(caps, " ", '_');
  }

  /** A text without the separator splits into itself alone. */
  lemma {:induction false} SplitWithoutSeparator(s: string, c: char)
    requires c !in s
    ensures SplitOn(s, c) == [s]
    decreases |s|
  {
    if |s| > 0 {
      assert s[0] in s;
      assert forall x :: x in s[1..] ==> x in s;
      SplitWithoutSeparator(s[1..], c);
    }
  }

  /** A key without '_' becomes one capitalised word. */
  lemma OneWordLabel(key: string)
    requires '_' !in key
    ensures FormatLabel(key) == Capitalize(Lower(key))
  {
    assert '_' !in Lower(key) by {
      forall i | 0 <= i < |key| ensures Lower(key)[i] != '_' {
        assert key[i] in key;
      }
    }
    SplitWithoutSeparator(Lower(key), '_');
  }

  /** `formatAvailabilityLabel('UNAVAILABLE')` reads "Unavailable". */
  lemma UnavailableLabel()
    ensures FormatLabel("UNAVAILABLE") == "Unavailable"
  {
    OneWordLabel("UNAVAILABLE");
    UnavailableWord();
  }

  /** The lower-casing and capitalising of the one word, evaluated once here so the lemma above stays small. */
  lemma UnavailableWord()
    ensures Lower("UNAVAILABLE") == "unavailable"
    ensures Capitalize("unavailable") == "Unavailable"
  {
  }

  // ---------------------------------------------------------------- the style

  /** `AVAIL_STYLE[key] ?? DEFAULT_STYLE`. */
  function StyleFor(key: string): Colours {
    if key in AvailStyle then AvailStyle[key] else DefaultStyle
  }

  /**
   * AVAILABLE, MISSING and BROKEN get their own colours; every other key, UNAVAILABLE
   * and the empty key included, gets the default grey.
   */
  lemma StyleColours(key: string)
    ensures key == "AVAILABLE" ==> StyleFor(key) == Colours("var(--mantine-color-green-6)", "#fff")
    ensures key == "MISSING" ==> StyleFor(key) == Colours("var(--mantine-color-yellow-5)", "#111")
    ensures key == "BROKEN" ==> StyleFor(key) == Colours("var(--mantine-color-red-6)", "#fff")
    ensures key != "AVAILABLE" && key != "MISSING" && key != "BROKEN" ==> StyleFor(key) == DefaultStyle
  {
  }

  /** The part of `getStockAvailabilityStyle` after the key is computed. */
  function StyleOfKey(key: string, fallbackLabel: Option<string>): (r: AvailabilityStyle)
    ensures Colours(r.bg, r.fg) == StyleFor(key)
  {
    var style := StyleFor(key);
    var normalizedKey := if key == "" then "UNAVAILABLE" else key;
    AvailabilityStyle(style.bg, style.fg, normalizedKey,
      if fallbackLabel.Some? && fallbackLabel.value != "" then fallbackLabel.value else FormatLabel(normalizedKey))
  }

  /** `getStockAvailabilityStyle`, with an undefined fallback label as None. */
  function StockAvailabilityStyle(value: Option<string>, fallbackLabel: Option<string>): (r: AvailabilityStyle)
    ensures Colours(r.bg, r.fg) == StyleFor(NormalizeKey(value))
  {
    StyleOfKey(NormalizeKey(value), fallbackLabel)
  }

  /** A blank, null or undefined value reads as UNAVAILABLE in default grey. */
  lemma BlankValueIsUnavailable(value: Option<string>, fallbackLabel: Option<string>)
    requires forall i :: 0 <= i < |value.GetOr("")| ==> JsIsSpace(value.GetOr("")[i])
    ensures var r := StockAvailabilityStyle(value, fallbackLabel);
      r.key == "UNAVAILABLE" && Colours(r.bg, r.fg) == DefaultStyle
      && (fallbackLabel.None? || fallbackLabel == Some("") ==> r.labelText == "Unavailable")
  {
    BlankValueGivesEmptyKey(value);
    EmptyKeyIsUnavailable(fallbackLabel);
  }

  /** The empty key is shown as UNAVAILABLE in default grey. */
  lemma EmptyKeyIsUnavailable(fallbackLabel: Option<string>)
    ensures var r := StyleOfKey("", fallbackLabel);
      r.key == "UNAVAILABLE" && Colours(r.bg, r.fg) == DefaultStyle
      && (fallbackLabel.None? || fallbackLabel == Some("") ==> r.labelText == "Unavailable")
  {
    UnavailableLabel();
    assert "" !in AvailStyle;
  }

  /** A non-empty fallback label wins; otherwise the label is the formatted key. */
  lemma LabelChoice(value: Option<string>, fallbackLabel: Option<string>)
    ensures var r := StockAvailabilityStyle(value, fallbackLabel);
      (fallbackLabel.Some? && fallbackLabel.value != "" ==> r.labelText == fallbackLabel.value)
      && (fallbackLabel.None? || fallbackLabel == Some("") ==>
            r.labelText == FormatLabel(r.key) && |r.labelText| == |r.key| && '_' !in r.labelText)
  {
    FormatLabelShape(StockAvailabilityStyle(value, fallbackLabel).key);
  }

  /** "UNAVAILABLE" has neither whitespace nor lower-case letters. */
  lemma UnavailableChars()
    ensures forall i :: 0 <= i < |"UNAVAILABLE"| ==> !JsIsSpace("UNAVAILABLE"[i]) && !IsLower("UNAVAILABLE"[i])
  {
  }

  /** The returned key is never empty, has no whitespace, and is a fixed point of the normalisation. */
  lemma ReturnedKeyIsNormal(value: Option<string>, fallbackLabel: Option<string>)
    ensures var k := StockAvailabilityStyle(value, fallbackLabel).key;
      k != "" && (forall i :: 0 <= i < |k| ==> !JsIsSpace(k[i])) && NormalizeKey(Some(k)) == k
  {
    var key := NormalizeKey(value);
    if key == "" {
      var k := "UNAVAILABLE";
      UnavailableChars();
      StripShape(k, JsIsSpace);
      UpperOfUpper(k);
      CollapseOfSpaceless(k, JsIsSpace, "_");
    } else {
      NormalizeKeyIdempotent(value);
    }
  }
}
