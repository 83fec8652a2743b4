/**
 * Character classes and string transforms shared by the backend (Python)
 * and frontend (TypeScript) parts of the model.  Case mapping is ASCII only.
 */
module Text {

  /** Python's `str.isspace`, which is also what `\s` matches in a `str` regex. */
  predicate PyIsSpace(c: char) {
    ('\U{9}' <= c <= '\U{D}') || ('\U{1C}' <= c <= '\U{20}') || c == '\U{85}' || c == '\U{A0}'
    || c == '\U{1680}' || ('\U{2000}' <= c <= '\U{200A}') || c == '\U{2028}' || c == '\U{2029}'
    || c == '\U{202F}' || c == '\U{205F}' || c == '\U{3000}'
  }

  /** JavaScript's `\s` class, which is also the set `String.prototype.trim` removes. */
  predicate JsIsSpace(c: char) {
    ('\U{9}' <= c <= '\U{D}') || c == '\U{20}' || c == '\U{A0}' || c == '\U{1680}'
    || ('\U{2000}' <= c <= '\U{200A}') || c == '\U{2028}' || c == '\U{2029}'
    || c == '\U{202F}' || c == '\U{205F}' || c == '\U{3000}' || c == '\U{FEFF}'
  }

  predicate IsDigit(c: char) { '0' <= c <= '9' }
  predicate IsUpper(c: char) { 'A' <= c <= 'Z' }
  predicate IsLower(c: char) { 'a' <= c <= 'z' }
  predicate IsLetter(c: char) { IsUpper(c) || IsLower(c) }

  function ToLower(c: char): (r: char)
    ensures IsLetter(c) ==> IsLower(r)
    ensures !IsUpper(c) ==> r == c
  {
    if IsUpper(c) then (c as int + 32) as char else c
  }

  function ToUpper(c: char): (r: char)
    ensures IsLetter(c) ==> IsUpper(r)
    ensures !IsLower(c) ==> r == c
  {
    if IsLower(c) then (c as int - 32) as char else c
  }

  function Lower(s: string): (r: string)
    ensures |r| == |s|
    ensures forall i :: 0 <= i < |s| ==> r[i] == ToLower(s[i])
  {
    seq(|s|, i requires 0 <= i < |s| => ToLower(s[i]))
  }

  function Upper(s: string): (r: string)
    ensures |r| == |s|
    ensures forall i :: 0 <= i < |s| ==> r[i] == ToUpper(s[i])
  {
    seq(|s|, i requires 0 <= i < |s| => ToUpper(s[i]))
  }

  /** The first index at or after `k` whose character does not satisfy `sp` (or `|s|`). */
  function SkipFrom(s: string, sp: char -> bool, k: nat): (n: nat)
    requires k <= |s|
    ensures k <= n <= |s|
    ensures forall i :: k <= i < n ==> sp(s[i])
    ensures n < |s| ==> !sp(s[n])
    decreases |s| - k
  {
    if k < |s| && sp(s[k]) then SkipFrom(s, sp, k + 1) else k
  }

  /** The length of `s` once the trailing `sp` characters below index `k` are dropped. */
  function SkipBack(s: string, sp: char -> bool, k: nat): (n: nat)
    requires k <= |s|
    ensures n <= k
    ensures forall i :: n <= i < k ==> sp(s[i])
    ensures n > 0 ==> !sp(s[n - 1])
  {
    if k > 0 && sp(s[k - 1]) then SkipBack(s, sp, k - 1) else k
  }

  /** Drops the leading characters that satisfy `sp`. */
  function TrimStart(s: string, sp: char -> bool): (r: string)
    ensures |r| <= |s| && r == s[|s| - |r|..]
    ensures |r| > 0 ==> !sp(r[0])
    ensures forall i :: 0 <= i < |s| - |r| ==> sp(s[i])
  {
    s[SkipFrom(s, sp, 0)..]
  }

  /** Drops the trailing characters that satisfy `sp`. */
  function TrimEnd(s: string, sp: char -> bool): (r: string)
    ensures |r| <= |s| && r == s[..|r|]
    ensures |r| > 0 ==> !sp(r[|r| - 1])
    ensures forall i :: |r| <= i < |s| ==> sp(s[i])
  {
    s[..SkipBack(s, sp, |s|)]
  }

  /** Python's `str.strip()` (with `PyIsSpace`) or JavaScript's `trim()` (with `JsIsSpace`). */
  function Strip(s: string, sp: char -> bool): string {
    TrimEnd(TrimStart(s, sp), sp)
  }

  /** `re.sub(r'\s+', rep, s)` / `s.replace(/\s+/g, rep)`: each maximal run of `sp` characters becomes `rep`. */
  function Collapse(s: string, sp: char -> bool, rep: string): string
    decreases |s|
  {
    if |s| == 0 then ""
    else if sp(s[0]) then rep + Collapse(TrimStart(s, sp), sp, rep)
    else [s[0]] + Collapse(s[1..], sp, rep)
  }

  /** `s.startswith(prefix)`. */
  predicate StartsWith(s: string, prefix: string) {
    |prefix| <= |s| && s[..|prefix|] == prefix
  }

  /** `sub` occurs in `s` starting at index `i`. */
  predicate OccursAt(s: string, sub: string, i: int) {
    0 <= i && i + |sub| <= |s| && s[i..i + |sub|] == sub
  }

  /** `sub in s`. */
  predicate Contains(s: string, sub: string) {
    exists i :: 0 <= i <= |s| && OccursAt(s, sub, i)
  }

  /** Index of the first occurrence of `sub` in `s` at or after `from`, or -1. */
  function FindFrom(s: string, sub: string, from: nat): (r: int)
    requires from <= |s|
    ensures r == -1 || (from <= r && OccursAt(s, sub, r))
    ensures r == -1 ==> forall i :: from <= i ==> !OccursAt(s, sub, i)
    ensures r != -1 ==> forall i :: from <= i < r ==> !OccursAt(s, sub, i)
    decreases |s| - from
  {
    if from + |sub| > |s| then -1
    else if s[from..from + |sub|] == sub then from
    else if from == |s| then -1
    else FindFrom(s, sub, from + 1)
  }

  /** `s.find(sub)`: the index of the first occurrence, -1 when there is none. */
  function Find(s: string, sub: string): (r: int)
    ensures r == -1 <==> !Contains(s, sub)
    ensures r != -1 ==> OccursAt(s, sub, r)
    ensures r != -1 ==> forall i :: 0 <= i < r ==> !OccursAt(s, sub, i)
  {
    FindFrom(s, sub, 0)
  }

  /** Every `sp` character of `s` is `c`, and no two `sp` characters are adjacent. */
  predicate Collapsed(s: string, sp: char -> bool, c: char) {
    (forall i :: 0 <= i < |s| && sp(s[i]) ==> s[i] == c)
    && (forall i :: 0 <= i < |s| - 1 ==> !(sp(s[i]) && sp(s[i + 1])))
  }

  /** Neither the first nor the last character of `s` satisfies `sp`. */
  predicate NoEdgeSpace(s: string, sp: char -> bool) {
    |s| > 0 ==> !sp(s[0]) && !sp(s[|s| - 1])
  }

  /** Collapsing with a separator `c` that is itself a space leaves single `c`s only, and keeps the edges. */
  lemma {:induction false} CollapseIsCollapsed(s: string, sp: char -> bool, c: char)
    requires sp(c)
    ensures Collapsed(Collapse(s, sp, [c]), sp, c)
    ensures |s| > 0 && !sp(s[0]) ==> |Collapse(s, sp, [c])| > 0 && Collapse(s, sp, [c])[0] == s[0]
    ensures |s| > 0 && !sp(s[|s| - 1]) ==>
      |Collapse(s, sp, [c])| > 0 && Collapse(s, sp, [c])[|Collapse(s, sp, [c])| - 1] == s[|s| - 1]
    ensures |s| == 0 <==> |Collapse(s, sp, [c])| == 0
    decreases |s|
  {
    if |s| == 0 {
    } else if sp(s[0]) {
      var rest := TrimStart(s, sp);
      CollapseIsCollapsed(rest, sp, c);
      var r := Collapse(rest, sp, [c]);
      assert Collapse(s, sp, [c]) == [c] + r;
      if |rest| > 0 {
        assert !sp(rest[0]);
        assert rest[|rest| - 1] == s[|s| - 1];
      }
    } else {
      var rest := s[1..];
      CollapseIsCollapsed(rest, sp, c);
      var r := Collapse(rest, sp, [c]);
      assert Collapse(s, sp, [c]) == [s[0]] + r;
      if |rest| > 0 {
        assert rest[|rest| - 1] == s[|s| - 1];
      }
    }
  }

  /** A collapsed string is a fixed point of collapsing. */
  lemma {:induction false} CollapseOfCollapsed(s: string, sp: char -> bool, c: char)
    requires Collapsed(s, sp, c)
    ensures Collapse(s, sp, [c]) == s
    decreases |s|
  {
    if |s| == 0 {
    } else {
      var tail := s[1..];
      assert Collapsed(tail, sp, c) by {
        forall i | 0 <= i < |tail| - 1 ensures !(sp(tail[i]) && sp(tail[i + 1])) {
          assert tail[i] == s[i + 1] && tail[i + 1] == s[i + 2];
        }
      }
      CollapseOfCollapsed(tail, sp, c);
      if sp(s[0]) {
        assert |tail| > 0 ==> !sp(s[1]);
        assert TrimStart(s, sp) == tail;
      }
    }
  }

  /** Collapsing a string with no `sp` character changes nothing. */
  lemma {:induction false} CollapseOfSpaceless(s: string, sp: char -> bool, rep: string)
    requires forall i :: 0 <= i < |s| ==> !sp(s[i])
    ensures Collapse(s, sp, rep) == s
    decreases |s|
  {
    if |s| > 0 {
      CollapseOfSpaceless(s[1..], sp, rep);
    }
  }

  /** With a separator that is not a space, the result has no `sp` character left. */
  lemma {:induction false} CollapseRemovesSpaces(s: string, sp: char -> bool, c: char)
    requires !sp(c)
    ensures forall i :: 0 <= i < |Collapse(s, sp, [c])| ==> !sp(Collapse(s, sp, [c])[i])
    decreases |s|
  {
    if |s| == 0 {
    } else if sp(s[0]) {
      CollapseRemovesSpaces(TrimStart(s, sp), sp, c);
    } else {
      CollapseRemovesSpaces(s[1..], sp, c);
    }
  }

  /** Every character of the result is a character of the input or the separator `c`. */
  lemma {:induction false} CollapseChars(s: string, sp: char -> bool, c: char)
    ensures forall i :: 0 <= i < |Collapse(s, sp, [c])| ==>
      Collapse(s, sp, [c])[i] == c || Collapse(s, sp, [c])[i] in s
    decreases |s|
  {
    if |s| == 0 {
    } else if sp(s[0]) {
      var rest := TrimStart(s, sp);
      CollapseChars(rest, sp, c);
      forall x | x in rest ensures x in s {
        var j :| 0 <= j < |rest| && rest[j] == x;
        assert s[|s| - |rest| + j] == x;
      }
    } else {
      CollapseChars(s[1..], sp, c);
      forall x | x in s[1..] ensures x in s {
        var j :| 0 <= j < |s[1..]| && s[1..][j] == x;
        assert s[j + 1] == x;
      }
    }
  }

  /** A prefix without `sp` characters is copied through by collapsing. */
  lemma {:induction false} CollapseSpacelessPrefix(x: string, y: string, sp: char -> bool, rep: string)
    requires forall i :: 0 <= i < |x| ==> !sp(x[i])
    ensures Collapse(x + y, sp, rep) == x + Collapse(y, sp, rep)
    decreases |x|
  {
    if |x| > 0 {
      var s := x + y;
      assert s[0] == x[0] && !sp(s[0]);
      assert s[1..] == x[1..] + y;
      assert Collapse(s, sp, rep) == [x[0]] + Collapse(x[1..] + y, sp, rep);
      CollapseSpacelessPrefix(x[1..], y, sp, rep);
      assert x == [x[0]] + x[1..];
    } else {
      assert x + y == y;
    }
  }

  /** A non-empty run of `sp` characters before a non-`sp` character becomes one `rep`. */
  lemma {:induction false} CollapseRun(w: string, y: string, sp: char -> bool, rep: string)
    requires w != [] && forall i :: 0 <= i < |w| ==> sp(w[i])
    requires y != [] && !sp(y[0])
    ensures Collapse(w + y, sp, rep) == rep + Collapse(y, sp, rep)
  {
    var s := w + y;
    var n := SkipFrom(s, sp, 0);
    assert s[|w|] == y[0];
    assert n == |w|;
    assert TrimStart(s, sp) == y;
  }

  /** Two `sp`-free words around one run of `sp` characters collapse to the words joined by `rep`. */
  lemma {:induction false} CollapseTwoWords(x: string, w: string, y: string, sp: char -> bool, rep: string)
    requires forall i :: 0 <= i < |x| ==> !sp(x[i])
    requires w != [] && forall i :: 0 <= i < |w| ==> sp(w[i])
    requires y != [] && forall i :: 0 <= i < |y| ==> !sp(y[i])
    ensures Collapse(x + (w + y), sp, rep) == x + rep + y
  {
    CollapseSpacelessPrefix(x, w + y, sp, rep);
    CollapseRun(w, y, sp, rep);
    CollapseOfSpaceless(y, sp, rep);
  }

  /** Stripping removes both edges, and a string without space edges is its own strip. */
  lemma StripShape(s: string, sp: char -> bool)
    ensures NoEdgeSpace(Strip(s, sp), sp)
    ensures NoEdgeSpace(s, sp) ==> Strip(s, sp) == s
  {
    var t := TrimStart(s, sp);
    if |TrimEnd(t, sp)| > 0 {
      assert TrimEnd(t, sp)[0] == t[0];
    }
    if NoEdgeSpace(s, sp) && |s| > 0 {
      assert t == s;
    }
  }
}
