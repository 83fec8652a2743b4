/**
 * Reference allocation shared by events ("EV") and rental orders ("RN"):
 * the next reference is the prefix followed by a number, zero-padded to at
 * least four digits, one above the reference number of the latest record
 * whose reference carries the prefix.
 */
module ReferenceTracking {
  import opened Text

  /** Primary keys, as the database assigns them. */
  type Pk = x: int | x >= 1 witness 1

  /** The two fields of a stored record that reference allocation reads. */
  datatype RefRow = RefRow(reference: string, referenceInt: int)

  function DigitChar(d: int): (c: char)
    requires 0 <= d < 10
    ensures IsDigit(c)
  {
    ('0' as int + d) as char
  }

  /** The decimal digits of `n`, without leading zeros. */
  function Digits(n: nat): (r: string)
    ensures 1 <= |r|
    ensures forall i :: 0 <= i < |r| ==> IsDigit(r[i])
    ensures |r| == 1 || r[0] != '0'
  {
    if n < 10 then [DigitChar(n)] else Digits(n / 10) + [DigitChar(n % 10)]
  }

  function DigitValue(c: char): (d: nat)
    requires IsDigit(c)
    ensures d < 10
  {
    c as int - '0' as int
  }

  /** The number a string of decimal digits denotes: the reference definition `Digits` is checked against. */
  function DigitsValue(s: string): nat
    requires forall i :: 0 <= i < |s| ==> IsDigit(s[i])
  {
    if |s| == 0 then 0 else DigitsValue(s[..|s| - 1]) * 10 + DigitValue(s[|s| - 1])
  }

  function Zeros(k: int): (r: string)
    ensures |r| == if k > 0 then k else 0
    ensures forall i :: 0 <= i < |r| ==> r[i] == '0'
  {
    seq(if k > 0 then k else 0, i => '0')
  }

  /** Python's `f'{n:04d}'` for a non-negative `n`. */
  function ZeroPad4(n: nat): (r: string)
    ensures |r| == if |Digits(n)| < 4 then 4 else |Digits(n)|
    ensures forall i :: 0 <= i < |r| ==> IsDigit(r[i])
    ensures r == Zeros(4 - |Digits(n)|) + Digits(n)
  {
    Zeros(4 - |Digits(n)|) + Digits(n)
  }

  lemma {:induction false} DigitsRoundTrip(n: nat)
    ensures DigitsValue(Digits(n)) == n
    decreases n
  {
    if n >= 10 {
      DigitsRoundTrip(n / 10);
      var d := Digits(n);
      assert d[..|d| - 1] == Digits(n / 10);
    }
  }

  /** Leading zeros do not change the value of a digit string. */
  lemma {:induction false} LeadingZeros(k: int, s: string)
    requires forall i :: 0 <= i < |s| ==> IsDigit(s[i])
    ensures forall i :: 0 <= i < |Zeros(k) + s| ==> IsDigit((Zeros(k) + s)[i])
    ensures DigitsValue(Zeros(k) + s) == DigitsValue(s)
    decreases |s|, k
  {
    var z := Zeros(k);
    if |s| == 0 {
      assert z + s == z;
      if |z| > 0 {
        LeadingZeros(k - 1, s);
        assert z[..|z| - 1] == Zeros(k - 1) == Zeros(k - 1) + s;
      }
    } else {
      LeadingZeros(k, s[..|s| - 1]);
      assert (z + s)[..|z + s| - 1] == z + s[..|s| - 1];
    }
  }

  /** Reading back a zero-padded number gives the number. */
  lemma ZeroPad4RoundTrip(n: nat)
    ensures DigitsValue(ZeroPad4(n)) == n
  {
    DigitsRoundTrip(n);
    LeadingZeros(4 - |Digits(n)|, Digits(n));
  }

  /** The keys of the records whose reference starts with `prefix` (`filter(reference__startswith=prefix)`). */
  function PrefixMatches(rows: map<Pk, RefRow>, prefix: string): (s: set<Pk>)
    ensures s <= rows.Keys
  {
    set k | k in rows && StartsWith(rows[k].reference, prefix)
  }

  /** Record `k` sorts at or before record `j` under `order_by('-reference_int', '-pk')`. */
  predicate RanksAbove(rows: map<Pk, RefRow>, k: Pk, j: Pk)
    requires k in rows && j in rows
  {
    rows[j].referenceInt < rows[k].referenceInt
    || (rows[j].referenceInt == rows[k].referenceInt && j <= k)
  }

  /** `k` is what `.first()` returns on that ordering of `s`. */
  predicate IsLatest(rows: map<Pk, RefRow>, s: set<Pk>, k: Pk)
    requires s <= rows.Keys
  {
    k in s && forall j :: j in s ==> RanksAbove(rows, k, j)
  }

  lemma {:induction false} LatestExists(rows: map<Pk, RefRow>, s: set<Pk>)
    requires s <= rows.Keys && s != {}
    ensures exists k :: IsLatest(rows, s, k)
    decreases |s|
  {
    if forall x :: x !in s { assert false; }
    var x :| x in s;
    if forall y :: y in s ==> y == x {
      assert IsLatest(rows, s, x);
    } else {
      var z :| z in s && z != x;
      var rest := s - {x};
      assert z in rest;
      MaxRecurse(rows, s, x, rest);
    }
  }

  lemma {:induction false} MaxRecurse(rows: map<Pk, RefRow>, s: set<Pk>, x: Pk, rest: set<Pk>)
    requires s <= rows.Keys && x in s && rest == s - {x} && rest != {}
    ensures exists k :: IsLatest(rows, s, k)
    decreases |s|, 0
  {
    assert |rest| < |s|;
    LatestExists(rows, rest);
    var m :| IsLatest(rows, rest, m);
    if RanksAbove(rows, x, m) {
      forall y | y in s ensures RanksAbove(rows, x, y) {
        if y != x { assert y in rest; }
      }
      assert IsLatest(rows, s, x);
    } else {
      forall y | y in s ensures RanksAbove(rows, m, y) {
        if y != x { assert y in rest; }
      }
      assert IsLatest(rows, s, m);
    }
  }

  /** The latest record of `s`: highest reference number, ties broken by the highest key. */
  function Latest(rows: map<Pk, RefRow>, s: set<Pk>): (k: Pk)
    requires s <= rows.Keys && s != {}
    ensures IsLatest(rows, s, k)
  {
    LatestExists(rows, s);
    var k :| IsLatest(rows, s, k); k
  }

  /** The ordering is total and strict on keys, so `.first()` is well defined. */
  lemma LatestUnique(rows: map<Pk, RefRow>, s: set<Pk>, k1: Pk, k2: Pk)
    requires s <= rows.Keys
    requires IsLatest(rows, s, k1) && IsLatest(rows, s, k2)
    ensures k1 == k2
  {
    assert RanksAbove(rows, k1, k2) && RanksAbove(rows, k2, k1);
  }

  /** `next_ref` of `generate_reference`. */
  function NextReferenceNumber(rows: map<Pk, RefRow>, prefix: string): (n: int)
    ensures n >= 1
    ensures PrefixMatches(rows, prefix) == {} ==> n == 1
    ensures forall k :: k in PrefixMatches(rows, prefix) ==> rows[k].referenceInt < n
  {
    var s := PrefixMatches(rows, prefix);
    if s == {} then 1
    else
      var latest := Latest(rows, s);
      if rows[latest].referenceInt + 1 > 1 then rows[latest].referenceInt + 1 else 1
  }

  /** The next number is the least one above every matching reference number: it is 1, or one above some matching record. */
  lemma NextReferenceNumberIsTight(rows: map<Pk, RefRow>, prefix: string)
    ensures var n := NextReferenceNumber(rows, prefix);
      n == 1 || exists k :: k in PrefixMatches(rows, prefix) && rows[k].referenceInt == n - 1
  {
    var s := PrefixMatches(rows, prefix);
    if s != {} {
      var latest := Latest(rows, s);
      assert latest in s;
    }
  }

  /** `generate_reference`: the prefix followed by the next number in at least four digits. */
  function GenerateReference(rows: map<Pk, RefRow>, prefix: string): (r: string)
    ensures StartsWith(r, prefix)
    ensures |r| >= |prefix| + 4
    ensures forall i :: |prefix| <= i < |r| ==> IsDigit(r[i])
    ensures DigitsValue(r[|prefix|..]) == NextReferenceNumber(rows, prefix)
  {
    var n := NextReferenceNumber(rows, prefix);
    ZeroPad4RoundTrip(n);
    var r := prefix + ZeroPad4(n);
    assert r[|prefix|..] == ZeroPad4(n);
    r
  }

  /** With no record under the prefix the first reference is number 0001. */
  lemma FirstReference(rows: map<Pk, RefRow>, prefix: string)
    requires PrefixMatches(rows, prefix) == {}
    ensures GenerateReference(rows, prefix) == prefix + "0001"
  {
    assert Digits(1) == "1";
    assert ZeroPad4(1) == "0001";
  }

  /**
   * When every stored reference number was computed from its reference by
   * `refInt`, and `refInt` reads the generated reference back as its number,
   * the generated reference differs from every stored one.
   */
  lemma GeneratedReferenceIsFresh(rows: map<Pk, RefRow>, prefix: string, refInt: string -> int)
    requires forall k :: k in rows ==> rows[k].referenceInt == refInt(rows[k].reference)
    requires refInt(GenerateReference(rows, prefix)) == NextReferenceNumber(rows, prefix)
    ensures forall k :: k in rows ==> rows[k].reference != GenerateReference(rows, prefix)
  {
    var g := GenerateReference(rows, prefix);
    forall k | k in rows ensures rows[k].reference != g {
      if StartsWith(rows[k].reference, prefix) {
        assert k in PrefixMatches(rows, prefix);
        assert refInt(rows[k].reference) < refInt(g);
      }
    }
  }

  /** The reference `save` keeps: a non-blank one as it is, a blank one replaced by a generated one. */
  function AssignedReference(current: string, rows: map<Pk, RefRow>, prefix: string): (r: string)
    ensures current != "" ==> r == current
    ensures current == "" ==> r == GenerateReference(rows, prefix)
  {
    if current != "" then current else GenerateReference(rows, prefix)
  }

  /** A saved reference is never blank, so saving again leaves it alone whatever the table then holds. */
  lemma AssignedReferenceIsStable(current: string, rows: map<Pk, RefRow>, later: map<Pk, RefRow>, prefix: string)
    ensures AssignedReference(current, rows, prefix) != ""
    ensures AssignedReference(AssignedReference(current, rows, prefix), later, prefix)
      == AssignedReference(current, rows, prefix)
  {
    if current == "" {
      var g := GenerateReference(rows, prefix);
      assert |g| >= 4;
    }
  }
}
