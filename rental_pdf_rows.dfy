/**
 * The row extractor of the rental PDF import: the regular expression that
 * recognises "<id> <name> <type>" rows, and the loop that buffers the text
 * lines of the PDF until a buffer reads as a row, then keeps the last row
 * of each product id in order of first appearance.
 *
 * The expression `^\s*(\d+)\s+(.+?)\s+(<types>)\s*$` (case-insensitive) is
 * written out by hand for normalised text, which is all the extractor ever
 * hands it: every buffer is a normalised line or two normalised texts
 * joined by one space.
 */
module RentalPdfRows {
  import opened Wrappers
  import opened Text
  import opened ReferenceTracking
  import opened RentalPdfImport

  /** One extracted row. */
  datatype Row = Row(productId: nat, productName: string, productType: string)

  // ---------------------------------------------------------------- the row expression

  /** The list runs from the longest entry to the shortest. */
  predicate ByLength(ys: seq<string>) {
    forall i, j :: 0 <= i < j < |ys| ==> |ys[i]| >= |ys[j]|
  }

  /** An entry at least as long as the head of an ordered list can go in front of it. */
  lemma {:induction false} ConsByLength(h: string, t: seq<string>)
    ensures ByLength(t) && (t == [] || |h| >= |t[0]|) ==> ByLength([h] + t)
  {
    if ByLength(t) && (t == [] || |h| >= |t[0]|) {
      var r := [h] + t;
      forall i, j | 0 <= i < j < |r| ensures |r[i]| >= |r[j]| {
        if i == 0 {
          assert r[j] == t[j - 1];
          if j > 1 { assert |t[0]| >= |t[j - 1]|; }
        } else {
          assert r[i] == t[i - 1] && r[j] == t[j - 1];
        }
      }
    }
  }

  /** Dropping the head of an ordered list keeps it ordered. */
  lemma {:induction false} TailByLength(ys: seq<string>)
    requires ys != []
    ensures ByLength(ys) ==> ByLength(ys[1..])
  {
    if ByLength(ys) {
      forall i, j | 0 <= i < j < |ys[1..]| ensures |ys[1..][i]| >= |ys[1..][j]| {
        assert ys[1..][i] == ys[i + 1] && ys[1..][j] == ys[j + 1];
      }
    }
  }

  /** Insert `x` into a list ordered by decreasing length, ahead of the entries no longer than it. */
  function InsertByLength(x: string, ys: seq<string>): (r: seq<string>)
    ensures multiset(r) == multiset(ys) + multiset{x}
    ensures ByLength(ys) ==> ByLength(r)
    ensures r != [] && (r[0] == x || (ys != [] && r[0] == ys[0]))
  {
    if ys == [] then [x]
    else if |x| >= |ys[0]| then
      ConsByLength(x, ys);
      [x] + ys
    else
      var rest := InsertByLength(x, ys[1..]);
      assert ys == [ys[0]] + ys[1..];
      TailByLength(ys);
      assert rest[0] == x || rest[0] == ys[1];
      ConsByLength(ys[0], rest);
      [ys[0]] + rest
  }

  /** `sorted(types, key=len, reverse=True)`: the alternatives of the type group, longest first, as `_compile_row_regex` orders them. */
  function SortByLength(xs: seq<string>): (r: seq<string>)
    ensures multiset(r) == multiset(xs)
    ensures forall i, j :: 0 <= i < j < |r| ==> |r[i]| >= |r[j]|
  {
    if xs == [] then []
    else
      assert xs == [xs[0]] + xs[1..];
      var r := InsertByLength(xs[0], SortByLength(xs[1..]));
      assert ByLength(r);
      r
  }

  /** `t` matches one of the alternatives, ignoring case. */
  predicate IsRowType(alts: seq<string>, t: string) {
    exists k :: 0 <= k < |alts| && Lower(t) == Lower(alts[k])
  }

  /** The order of the alternatives is not observable: only which types they are. */
  lemma RowTypeIsKnownType(alts: seq<string>, types: seq<string>, t: string)
    requires multiset(alts) == multiset(types)
    ensures IsRowType(alts, t) <==> IsRowType(types, t)
  {
    if IsRowType(alts, t) {
      var k :| 0 <= k < |alts| && Lower(t) == Lower(alts[k]);
      assert alts[k] in multiset(types);
      var m :| 0 <= m < |types| && types[m] == alts[k];
    }
    if IsRowType(types, t) {
      var k :| 0 <= k < |types| && Lower(t) == Lower(types[k]);
      assert types[k] in multiset(alts);
      var m :| 0 <= m < |alts| && alts[m] == types[k];
    }
  }

  /** The type group can end at `k`: a single space at `k`, and a row type after it up to the end. */
  predicate SplitsAt(alts: seq<string>, s: string, k: int) {
    0 <= k < |s| && s[k] == ' ' && IsRowType(alts, s[k + 1..])
  }

  /** The first `k` at or after `j` at which the type group can start, or -1: the lazy `(.+?)`. */
  function TypeSplitFrom(alts: seq<string>, s: string, j: nat): (r: int)
    ensures r == -1 || (j <= r && SplitsAt(alts, s, r))
    ensures r == -1 ==> forall k :: j <= k ==> !SplitsAt(alts, s, k)
    ensures r != -1 ==> forall k :: j <= k < r ==> !SplitsAt(alts, s, k)
    decreases |s| - j
  {
    if j >= |s| then -1
    else if s[j] == ' ' && IsRowType(alts, s[j + 1..]) then j
    else TypeSplitFrom(alts, s, j + 1)
  }

  /** The expression matches with the id group `s[..n]` and the type group after position `j`. */
  predicate IsRowSplit(alts: seq<string>, s: string, n: int, j: int) {
    0 < n < |s| && (forall i :: 0 <= i < n ==> IsDigit(s[i])) && s[n] == ' '
    && n + 2 <= j && SplitsAt(alts, s, j)
  }

  /** The row `_extract_rows_from_lines` builds from the split (n, j): `int` of the id, the other groups normalised. */
  function RowOf(alts: seq<string>, s: string, n: int, j: int): Row
    requires IsRowSplit(alts, s, n, j)
  {
    Row(DigitsValue(s[..n]), NormalizeSpaces(Some(s[n + 1..j])), NormalizeSpaces(Some(s[j + 1..])))
  }

  /** The digit run that starts a normalised text is the only possible id group. */
  lemma {:induction false} IdGroupIsDigitRun(alts: seq<string>, s: string, n: int, j: int)
    requires IsRowSplit(alts, s, n, j)
    ensures n == SkipFrom(s, IsDigit, 0)
  {
    var d := SkipFrom(s, IsDigit, 0);
  }

  /** A slice of normalised text that begins and ends with a non-space is normalised. */
  lemma {:induction false} NormalizedSlice(s: string, a: int, b: int)
    requires IsNormalized(s) && 0 <= a < b <= |s|
    requires !PyIsSpace(s[a]) && !PyIsSpace(s[b - 1])
    ensures IsNormalized(s[a..b])
  {
    var t := s[a..b];
    assert t[0] == s[a] && t[|t| - 1] == s[b - 1];
    forall i | 0 <= i < |t| - 1 ensures !(PyIsSpace(t[i]) && PyIsSpace(t[i + 1])) {
      assert t[i] == s[a + i] && t[i + 1] == s[a + i + 1];
    }
    forall i | 0 <= i < |t| && PyIsSpace(t[i]) ensures t[i] == ' ' {
      assert t[i] == s[a + i];
    }
  }

  /** The name and type groups of a split of normalised text are normalised already. */
  lemma {:induction false} GroupsAreNormalized(alts: seq<string>, s: string, n: int, j: int)
    requires IsNormalized(s) && IsRowSplit(alts, s, n, j)
    ensures IsNormalized(s[n + 1..j]) && IsNormalized(s[j + 1..])
  {
    assert s[n] == ' ' && s[j] == ' ';
    assert !PyIsSpace(s[n + 1]) && !PyIsSpace(s[j - 1]);
    NormalizedSlice(s, n + 1, j);
    assert !PyIsSpace(s[|s| - 1]);
    assert !PyIsSpace(s[j + 1]);
    NormalizedSlice(s, j + 1, |s|);
    assert s[j + 1..|s|] == s[j + 1..];
  }

  /** Normalising the groups of a split of normalised text changes nothing. */
  lemma RowOfNormalizedText(alts: seq<string>, s: string, n: int, j: int)
    requires IsNormalized(s) && IsRowSplit(alts, s, n, j)
    ensures RowOf(alts, s, n, j) == Row(DigitsValue(s[..n]), s[n + 1..j], s[j + 1..])
  {
    GroupsAreNormalized(alts, s, n, j);
    NormalizeOfNormalized(s[n + 1..j]);
    NormalizeOfNormalized(s[j + 1..]);
  }

  /** `regex.match(s)` and the row built from its groups, or None. */
  function MatchRow(alts: seq<string>, s: string): Option<Row> {
    var n := SkipFrom(s, IsDigit, 0);
    if n == 0 || n == |s| || s[n] != ' ' then None
    else
      var j := TypeSplitFrom(alts, s, n + 2);
      if j == -1 then None
      else
        assert IsRowSplit(alts, s, n, j);
        Some(RowOf(alts, s, n, j))
  }

  /**
   * The expression matches exactly when the text splits into a digit run, a name of
   * at least one character and a row type; the match takes the earliest type split.
   */
  lemma MatchRowSpec(alts: seq<string>, s: string)
    ensures MatchRow(alts, s).None? <==> forall n, j :: !IsRowSplit(alts, s, n, j)
    ensures MatchRow(alts, s).Some? ==> exists n, j ::
      IsRowSplit(alts, s, n, j) && (forall k :: n + 2 <= k < j ==> !SplitsAt(alts, s, k))
      && MatchRow(alts, s).value == RowOf(alts, s, n, j)
  {
    var n := SkipFrom(s, IsDigit, 0);
    if n == 0 || n == |s| || s[n] != ' ' {
      NoIdGroup(alts, s);
    } else {
      var j := TypeSplitFrom(alts, s, n + 2);
      if j == -1 {
        NoTypeGroup(alts, s);
      } else {
        assert IsRowSplit(alts, s, n, j) && MatchRow(alts, s).value == RowOf(alts, s, n, j);
      }
    }
  }

  /** On normalised text the name and type groups come out verbatim. */
  lemma MatchOnNormalizedText(alts: seq<string>, s: string)
    requires IsNormalized(s) && MatchRow(alts, s).Some?
    ensures exists n, j ::
      IsRowSplit(alts, s, n, j)
      && MatchRow(alts, s).value == Row(DigitsValue(s[..n]), s[n + 1..j], s[j + 1..])
  {
    var n, j := MatchedSplit(alts, s);
    RowOfNormalizedText(alts, s, n, j);
  }

  /** Without a digit run followed by a space there is no id group. */
  lemma NoIdGroup(alts: seq<string>, s: string)
    requires var n := SkipFrom(s, IsDigit, 0); n == 0 || n == |s| || s[n] != ' '
    ensures forall n, j :: !IsRowSplit(alts, s, n, j)
  {
    forall n, j | IsRowSplit(alts, s, n, j) ensures false { IdGroupIsDigitRun(alts, s, n, j); }
  }

  /** Without a place for the type group after the id group there is no match. */
  lemma NoTypeGroup(alts: seq<string>, s: string)
    requires var n := SkipFrom(s, IsDigit, 0); TypeSplitFrom(alts, s, n + 2) == -1
    ensures forall n, j :: !IsRowSplit(alts, s, n, j)
  {
    forall n, j | IsRowSplit(alts, s, n, j) ensures false { IdGroupIsDigitRun(alts, s, n, j); }
  }

  /** On normalised text the matched type is one of the alternatives up to case, and it ends the text. */
  lemma MatchedTypeIsKnown(alts: seq<string>, s: string)
    requires IsNormalized(s) && MatchRow(alts, s).Some?
    ensures var t := MatchRow(alts, s).value.productType;
      IsRowType(alts, t) && |t| < |s| && s[|s| - |t|..] == t
  {
    var n, j := MatchedSplit(alts, s);
    RowOfNormalizedText(alts, s, n, j);
    TypeAfterSplit(alts, s, j);
  }

  /** A successful match comes from its split. */
  lemma MatchedSplit(alts: seq<string>, s: string) returns (n: int, j: int)
    requires MatchRow(alts, s).Some?
    ensures IsRowSplit(alts, s, n, j) && MatchRow(alts, s) == Some(RowOf(alts, s, n, j))
  {
    n := SkipFrom(s, IsDigit, 0);
    j := TypeSplitFrom(alts, s, n + 2);
  }

  /** The text after a type split is a row type that ends the text. */
  lemma TypeAfterSplit(alts: seq<string>, s: string, j: int)
    requires SplitsAt(alts, s, j)
    ensures var t := s[j + 1..]; IsRowType(alts, t) && |t| < |s| && s[|s| - |t|..] == t
  {
    assert |s| - |s[j + 1..]| == j + 1;
  }

  // ---------------------------------------------------------------- line classification

  /** `'product id' in low and 'product name' in low and 'product type' in low`. */
  predicate IsHeader(line: string) {
    var low := Lower(line);
    Contains(low, "product id") && Contains(low, "product name") && Contains(low, "product type")
  }

  /** `re.match(r'^\d+\s+', line)`. */
  predicate StartsNumbered(line: string) {
    var n := SkipFrom(line, IsDigit, 0);
    0 < n < |line| && PyIsSpace(line[n])
  }

  // ---------------------------------------------------------------- the buffering loop

  /** The loop's state: the pending buffer and the rows found so far. */
  datatype ScanState = ScanState(buffer: string, rows: seq<Row>)

  /** What holds at the head of every iteration: the buffer is normalised and never reads as a row. */
  predicate ScanInvariant(alts: seq<string>, st: ScanState) {
    IsNormalized(st.buffer) && (st.buffer != "" ==> MatchRow(alts, st.buffer).None?)
  }

  /** The buffer a non-skipped line leaves: the line itself when it starts a row, else the join. */
  function NextBuffer(buffer: string, line: string): string {
    if StartsNumbered(line) then line else buffer + " " + line
  }

  /**
   * One iteration of the loop on a raw line, without the re-test of the old buffer:
   * that re-test never matches (see `StepKeepsInvariant`).
   */
  function Step(alts: seq<string>, st: ScanState, raw: string): (r: ScanState)
    ensures st.rows <= r.rows && |r.rows| <= |st.rows| + 1
  {
    var line := NormalizeSpaces(Some(raw));
    if line == "" || IsHeader(line) then st
    else if !StartsNumbered(line) && st.buffer == "" then st
    else
      var buffer := NextBuffer(st.buffer, line);
      var m := MatchRow(alts, buffer);
      if m.Some? then ScanState("", st.rows + [m.value]) else ScanState(buffer, st.rows)
  }

  /** The loop run from state `st` over `lines`. */
  function ScanFrom(alts: seq<string>, st: ScanState, lines: seq<string>): (r: ScanState)
    ensures st.rows <= r.rows
  {
    if lines == [] then st
    else Step(alts, ScanFrom(alts, st, lines[..|lines| - 1]), lines[|lines| - 1])
  }

  const Start := ScanState("", [])

  /** The loop of `_extract_rows_from_lines` over all the lines. */
  function Scan(alts: seq<string>, lines: seq<string>): ScanState {
    ScanFrom(alts, Start, lines)
  }

  /** A buffered text that is not skipped is normalised. */
  lemma NextBufferIsNormalized(buffer: string, line: string)
    requires IsNormalized(buffer) && IsNormalized(line) && line != ""
    requires StartsNumbered(line) || buffer != ""
    ensures IsNormalized(NextBuffer(buffer, line))
  {
    if !StartsNumbered(line) { JoinNormalized(buffer, line); }
  }

  /** Each iteration keeps the buffer normalised and never leaves a buffer that reads as a row. */
  lemma StepKeepsInvariant(alts: seq<string>, st: ScanState, raw: string)
    requires ScanInvariant(alts, st)
    ensures ScanInvariant(alts, Step(alts, st, raw))
  {
    StepKeepsNormalized(alts, st, raw);
    StepLeavesNoMatch(alts, st, raw);
  }

  lemma StepKeepsNormalized(alts: seq<string>, st: ScanState, raw: string)
    requires IsNormalized(st.buffer)
    ensures IsNormalized(Step(alts, st, raw).buffer)
  {
    var line := NormalizeSpaces(Some(raw));
    if line != "" && !IsHeader(line) && (StartsNumbered(line) || st.buffer != "") {
      NextBufferIsNormalized(st.buffer, line);
    }
  }

  lemma StepLeavesNoMatch(alts: seq<string>, st: ScanState, raw: string)
    requires st.buffer != "" ==> MatchRow(alts, st.buffer).None?
    ensures var b := Step(alts, st, raw).buffer; b != "" ==> MatchRow(alts, b).None?
  {
  }

  lemma {:induction false} ScanKeepsInvariant(alts: seq<string>, st: ScanState, lines: seq<string>)
    requires ScanInvariant(alts, st)
    ensures ScanInvariant(alts, ScanFrom(alts, st, lines))
  {
    if lines != [] {
      ScanKeepsInvariant(alts, st, lines[..|lines| - 1]);
      StepKeepsInvariant(alts, ScanFrom(alts, st, lines[..|lines| - 1]), lines[|lines| - 1]);
    }
  }

  /** Blank lines and the table header are skipped. */
  lemma BlankAndHeaderLinesAreSkipped(alts: seq<string>, st: ScanState, raw: string)
    requires NormalizeSpaces(Some(raw)) == "" || IsHeader(NormalizeSpaces(Some(raw)))
    ensures Step(alts, st, raw) == st
  {
  }

  /** Running over `a` then over `b` is running over `a + b`. */
  lemma {:induction false} ScanFromAppend(alts: seq<string>, st: ScanState, a: seq<string>, b: seq<string>)
    ensures ScanFrom(alts, st, a + b) == ScanFrom(alts, ScanFrom(alts, st, a), b)
    decreases |b|
  {
    if b == [] {
      assert a + b == a;
    } else {
      assert (a + b)[..|a + b| - 1] == a + b[..|b| - 1];
      assert (a + b)[|a + b| - 1] == b[|b| - 1];
      ScanFromAppend(alts, st, a, b[..|b| - 1]);
    }
  }

  /** Lines before the first numbered line change nothing. */
  lemma {:induction false} LeadingUnnumberedLinesAreIgnored(alts: seq<string>, pre: seq<string>, rest: seq<string>)
    requires forall i :: 0 <= i < |pre| ==> !StartsNumbered(NormalizeSpaces(Some(pre[i])))
    ensures Scan(alts, pre + rest) == Scan(alts, rest)
  {
    UnnumberedKeepStart(alts, pre);
    ScanFromAppend(alts, Start, pre, rest);
  }

  lemma {:induction false} UnnumberedKeepStart(alts: seq<string>, pre: seq<string>)
    requires forall i :: 0 <= i < |pre| ==> !StartsNumbered(NormalizeSpaces(Some(pre[i])))
    ensures ScanFrom(alts, Start, pre) == Start
  {
    if pre != [] {
      UnnumberedKeepStart(alts, pre[..|pre| - 1]);
    }
  }

  /** A line that does not start a row is appended to a pending buffer after exactly one space. */
  lemma ContinuationJoinsWithOneSpace(alts: seq<string>, st: ScanState, raw: string)
    requires ScanInvariant(alts, st) && st.buffer != ""
    requires var line := NormalizeSpaces(Some(raw));
      line != "" && !IsHeader(line) && !StartsNumbered(line)
    ensures var joined := st.buffer + " " + NormalizeSpaces(Some(raw));
      IsNormalized(joined)
      && Step(alts, st, raw) == if MatchRow(alts, joined).Some? then ScanState("", st.rows + [MatchRow(alts, joined).value])
                          else ScanState(joined, st.rows)
  {
    JoinNormalized(st.buffer, NormalizeSpaces(Some(raw)));
  }

  /** Every row carries, up to case, one of `types`. */
  predicate AllOfTypes(types: seq<string>, rows: seq<Row>) {
    forall r :: r in rows ==> IsRowType(types, r.productType)
  }

  /** Every row the loop finds carries, up to case, one of the product types the expression was built from. */
  lemma ScannedTypesAreKnown(types: seq<string>, lines: seq<string>)
    ensures AllOfTypes(types, Scan(SortByLength(types), lines).rows)
  {
    var alts := SortByLength(types);
    var rows := Scan(alts, lines).rows;
    ScannedTypesAreAlternatives(alts, Start, lines);
    forall r | r in rows ensures IsRowType(types, r.productType) {
      RowTypeIsKnownType(alts, types, r.productType);
    }
  }

  /** From a state whose rows all carry a row type, so do the rows of every later state. */
  lemma {:induction false} ScannedTypesAreAlternatives(alts: seq<string>, st: ScanState, lines: seq<string>)
    requires ScanInvariant(alts, st) && AllOfTypes(alts, st.rows)
    ensures AllOfTypes(alts, ScanFrom(alts, st, lines).rows)
  {
    if lines != [] {
      var prev := ScanFrom(alts, st, lines[..|lines| - 1]);
      ScannedTypesAreAlternatives(alts, st, lines[..|lines| - 1]);
      ScanKeepsInvariant(alts, st, lines[..|lines| - 1]);
      StepTypesAreAlternatives(alts, prev, lines[|lines| - 1]);
    }
  }

  /** One iteration adds at most one row, and it carries a row type. */
  lemma StepTypesAreAlternatives(alts: seq<string>, st: ScanState, raw: string)
    requires ScanInvariant(alts, st) && AllOfTypes(alts, st.rows)
    ensures AllOfTypes(alts, Step(alts, st, raw).rows)
  {
    var line := NormalizeSpaces(Some(raw));
    var next := Step(alts, st, raw);
    if line != "" && !IsHeader(line) && (StartsNumbered(line) || st.buffer != "") {
      var buffer := NextBuffer(st.buffer, line);
      var m := MatchRow(alts, buffer);
      if m.Some? {
        NextBufferIsNormalized(st.buffer, line);
        MatchedTypeIsKnown(alts, buffer);
        assert next.rows == st.rows + [m.value];
        AllOfTypesSnoc(alts, st.rows, m.value);
      } else {
        assert next.rows == st.rows;
      }
    } else {
      assert next.rows == st.rows;
    }
  }

  lemma AllOfTypesSnoc(types: seq<string>, rows: seq<Row>, r: Row)
    requires AllOfTypes(types, rows) && IsRowType(types, r.productType)
    ensures AllOfTypes(types, rows + [r])
  {
  }

  // ---------------------------------------------------------------- keeping one row per id

  /** Some row carries the id `k`. */
  predicate HasId(rows: seq<Row>, k: nat) {
    exists i :: 0 <= i < |rows| && rows[i].productId == k
  }

  lemma {:induction false} HasIdOfSnoc(rows: seq<Row>, k: nat)
    requires rows != []
    ensures HasId(rows, k) <==> HasId(rows[..|rows| - 1], k) || rows[|rows| - 1].productId == k
  {
    var pre := rows[..|rows| - 1];
    if HasId(rows, k) {
      var i :| 0 <= i < |rows| && rows[i].productId == k;
      if i < |pre| { assert pre[i] == rows[i]; }
    }
    if HasId(pre, k) {
      var i :| 0 <= i < |pre| && pre[i].productId == k;
      assert rows[i] == pre[i];
    }
  }

  /** The ids of `rows` in order of first appearance: the key order of the `unique_rows` dict. */
  function FirstIds(rows: seq<Row>): (ks: seq<nat>)
    ensures forall p, q :: 0 <= p < q < |ks| ==> ks[p] != ks[q]
    ensures forall k :: k in ks <==> HasId(rows, k)
  {
    if rows == [] then []
    else
      var ks := FirstIds(rows[..|rows| - 1]);
      var id := rows[|rows| - 1].productId;
      assert forall k :: HasId(rows, k) <==> HasId(rows[..|rows| - 1], k) || k == id by {
        forall k ensures HasId(rows, k) <==> HasId(rows[..|rows| - 1], k) || k == id { HasIdOfSnoc(rows, k); }
      }
      if id in ks then ks else ks + [id]
  }

  /** The values of the `unique_rows` dict: each id mapped to its last row. */
  function LastById(rows: seq<Row>): (m: map<nat, Row>)
    ensures forall k :: k in m <==> HasId(rows, k)
    ensures forall k :: k in m ==> m[k].productId == k
  {
    if rows == [] then map[]
    else
      var m := LastById(rows[..|rows| - 1]);
      var last := rows[|rows| - 1];
      assert forall k :: HasId(rows, k) <==> HasId(rows[..|rows| - 1], k) || k == last.productId by {
        forall k ensures HasId(rows, k) <==> HasId(rows[..|rows| - 1], k) || k == last.productId { HasIdOfSnoc(rows, k); }
      }
      m[last.productId := last]
  }

  /** `list(unique_rows.values())`. */
  function UniqueRows(rows: seq<Row>): (r: seq<Row>) {
    var ks := FirstIds(rows);
    var m := LastById(rows);
    seq(|ks|, i requires 0 <= i < |ks| => m[ks[i]])
  }

  /** The kept rows have distinct ids, and every id of the input is kept. */
  lemma UniqueRowsAreDistinctAndComplete(rows: seq<Row>)
    ensures var u := UniqueRows(rows);
      (forall p, q :: 0 <= p < q < |u| ==> u[p].productId != u[q].productId)
      && (forall i :: 0 <= i < |rows| ==> exists p :: 0 <= p < |u| && u[p].productId == rows[i].productId)
  {
    var u := UniqueRows(rows);
    var ks := FirstIds(rows);
    forall i | 0 <= i < |rows| ensures exists p :: 0 <= p < |u| && u[p].productId == rows[i].productId {
      var k := rows[i].productId;
      assert k in ks;
      var p :| 0 <= p < |ks| && ks[p] == k;
      assert u[p].productId == k;
    }
  }

  /** The row kept for an id is the last row with that id. */
  lemma {:induction false} LastRowWins(rows: seq<Row>, k: nat)
    requires k in LastById(rows)
    ensures exists i ::
      0 <= i < |rows| && rows[i] == LastById(rows)[k] && forall j :: i < j < |rows| ==> rows[j].productId != k
  {
    var last := rows[|rows| - 1];
    if last.productId == k {
      assert rows[|rows| - 1] == LastById(rows)[k];
    } else {
      var pre := rows[..|rows| - 1];
      LastRowWins(pre, k);
      var i :| 0 <= i < |pre| && pre[i] == LastById(pre)[k] && forall j :: i < j < |pre| ==> pre[j].productId != k;
      assert rows[i] == pre[i];
      forall j | i < j < |rows| ensures rows[j].productId != k {
        if j < |pre| { assert rows[j] == pre[j]; }
      }
    }
  }

  /** Ids are kept in order of first appearance: each id occurs before the first occurrence of any later id. */
  lemma {:induction false} FirstAppearanceOrder(rows: seq<Row>, p: int, q: int)
    requires 0 <= p < q < |FirstIds(rows)|
    ensures exists a ::
      0 <= a < |rows| && rows[a].productId == FirstIds(rows)[p] && forall b :: 0 <= b <= a ==> rows[b].productId != FirstIds(rows)[q]
  {
    var pre := rows[..|rows| - 1];
    var ks := FirstIds(pre);
    var kp := FirstIds(rows)[p];
    var kq := FirstIds(rows)[q];
    if q < |ks| {
      assert FirstIds(rows)[p] == ks[p] && FirstIds(rows)[q] == ks[q];
      FirstAppearanceOrder(pre, p, q);
      var a :| 0 <= a < |pre| && pre[a].productId == kp && forall b :: 0 <= b <= a ==> pre[b].productId != kq;
      assert rows[a] == pre[a];
      forall b | 0 <= b <= a ensures rows[b].productId != kq { assert rows[b] == pre[b]; }
    } else {
      // kq is the last row's id, seen for the first time there
      assert kq == rows[|rows| - 1].productId && kq !in ks;
      assert kp == ks[p] && kp in ks && HasId(pre, kp);
      var a :| 0 <= a < |pre| && pre[a].productId == kp;
      assert rows[a] == pre[a];
      forall b | 0 <= b <= a ensures rows[b].productId != kq {
        assert rows[b] == pre[b];
      }
    }
  }

  /** Every kept row is one of the input rows. */
  lemma UniqueRowsAreRows(rows: seq<Row>)
    ensures forall r :: r in UniqueRows(rows) ==> r in rows
  {
    var u := UniqueRows(rows);
    var ks := FirstIds(rows);
    forall r | r in u ensures r in rows {
      var p :| 0 <= p < |u| && u[p] == r;
      assert ks[p] in ks && HasId(rows, ks[p]);
      LastRowWins(rows, ks[p]);
    }
  }

  /** What the extractor returns: one row per id, each carrying one of the product types. */
  lemma ExtractedRowsAreDistinctAndTyped(types: seq<string>, lines: seq<string>)
    ensures var u := UniqueRows(Scan(SortByLength(types), lines).rows);
      AllOfTypes(types, u) && forall p, q :: 0 <= p < q < |u| ==> u[p].productId != u[q].productId
  {
    var rows := Scan(SortByLength(types), lines).rows;
    ScannedTypesAreKnown(types, lines);
    UniqueRowsAreRows(rows);
    UniqueRowsAreDistinctAndComplete(rows);
  }

  // ---------------------------------------------------------------- the extractor as written

  /** Scanning one more line is one more `Step`. */
  lemma ScanFromSnoc(alts: seq<string>, lines: seq<string>, i: int)
    requires 0 <= i < |lines|
    ensures ScanFrom(alts, Start, lines[..i + 1]) == Step(alts, ScanFrom(alts, Start, lines[..i]), lines[i])
  {
    assert lines[..i + 1][..i] == lines[..i];
  }

  /**
   * One pass of the loop body of `_extract_rows_from_lines` on a raw line: skip it,
   * start a new buffer or extend the pending one, then try the expression.
   */
  method ReadLine(alts: seq<string>, buffer: string, rows: seq<Row>, raw: string)
    returns (buffer': string, rows': seq<Row>)
    requires buffer != "" ==> MatchRow(alts, buffer).None?
    ensures ScanState(buffer', rows') == Step(alts, ScanState(buffer, rows), raw)
    ensures buffer' != "" ==> MatchRow(alts, buffer').None?
  {
    buffer', rows' := buffer, rows;
    var line := NormalizeSpaces(Some(raw));
    if line == "" || IsHeader(line) {
      return;
    }
    if StartsNumbered(line) {
      if buffer' != "" {
        var m := MatchRow(alts, buffer');
        if m.Some? {
          // the buffer was matched when it was last changed and did not match
          assert false;
        }
      }
      buffer' := line;
    } else if buffer' != "" {
      buffer' := buffer' + " " + line;
    } else {
      return;
    }
    var m := MatchRow(alts, buffer');
    if m.Some? {
      rows' := rows' + [m.value];
      buffer' := "";
    }
  }

  /** `_extract_rows_from_lines`, with its loop, buffer, row list and id table. */
  method ExtractRowsFromLines(types: seq<string>, lines: seq<string>) returns (result: seq<Row>)
    ensures result == UniqueRows(Scan(SortByLength(types), lines).rows)
  {
    var alts := SortByLength(types);
    var rows: seq<Row> := [];
    var buffer := "";
    var i := 0;
    while i < |lines|
      invariant 0 <= i <= |lines|
      invariant ScanState(buffer, rows) == ScanFrom(alts, Start, lines[..i])
      invariant buffer != "" ==> MatchRow(alts, buffer).None?
    {
      ScanFromSnoc(alts, lines, i);
      buffer, rows := ReadLine(alts, buffer, rows, lines[i]);
      i := i + 1;
    }
    assert lines[..|lines|] == lines;
    if buffer != "" {
      var m := MatchRow(alts, buffer);
      if m.Some? {
        // same reason: a buffer that matched was cleared
        assert false;
      }
    }
    result := KeepLastRowPerId(rows);
  }

  /** The `unique_rows` loop: a dict from id to row, read back in key order. */
  method KeepLastRowPerId(rows: seq<Row>) returns (result: seq<Row>)
    ensures result == UniqueRows(rows)
  {
    var keys: seq<nat> := [];
    var table: map<nat, Row> := map[];
    var j := 0;
    while j < |rows|
      invariant 0 <= j <= |rows|
      invariant keys == FirstIds(rows[..j]) && table == LastById(rows[..j])
    {
      assert rows[..j + 1][..j] == rows[..j];
      var row := rows[j];
      if row.productId !in table {
        keys := keys + [row.productId];
      } else {
        assert row.productId in keys;
      }
      table := table[row.productId := row];
      j := j + 1;
    }
    assert rows[..|rows|] == rows;
    result := seq(|keys|, k requires 0 <= k < |keys| => table[keys[k]]);
  }
}
