/**
 * The pure part of the rental PDF import command: whitespace normalisation,
 * product-type classification into the two-level category menu, model
 * families, the row matcher and the line-buffering row extractor, and the
 * nested-set subtree test.  Text is ASCII as far as case is concerned.
 */
module RentalPdfImport {
  import opened Wrappers
  import opened Text
  import opened ReferenceTracking

  const KnownProductTypes: seq<string> := [
    "Charger plates", "Glassware", "Napkins", "Runner", "Chairs", "Lounge furniture",
    "Tables", "Bars", "Chargers", "Flatware", "Tablecloths", "Decor"]

  /** The level-one categories and their level-two children. */
  const MenuHierarchy: map<string, seq<string>> := map[
    "Tabletop" := ["Chargers", "Flatware", "Glassware"],
    "Furniture" := ["Lounge Furniture", "Chairs", "Tables", "Bars"],
    "Linens" := ["Tablecloths", "Napkins", "Runner"],
    "Decor" := ["Decor"]]

  /** The (level one, level two) pairs that get model-family subcategories by default. */
  const ModelLevelEnabled: set<(string, string)> := {
    ("Furniture", "Chairs"), ("Furniture", "Tables"), ("Furniture", "Bars"), ("Furniture", "Lounge Furniture")}

  // ---------------------------------------------------------------- whitespace

  /** What `_normalize_spaces` returns: no space at either end, and every space a single ' '. */
  predicate IsNormalized(s: string) {
    NoEdgeSpace(s, PyIsSpace) && Collapsed(s, PyIsSpace, ' ')
  }

  /** `_normalize_spaces`: strip, then turn each whitespace run into one space; None counts as "". */
  function NormalizeSpaces(value: Option<string>): (r: string)
    ensures IsNormalized(r)
    ensures value.None? ==> r == ""
  {
    var t := Strip(value.GetOr(""), PyIsSpace);
    StripShape(value.GetOr(""), PyIsSpace);
    CollapseIsCollapsed(t, PyIsSpace, ' ');
    Collapse(t, PyIsSpace, [' '])
  }

  /** Printable ASCII whose only spaces are single inner ' 's. */
  predicate PlainText(s: string) {
    (forall i :: 0 <= i < |s| ==> s[i] == ' ' || '!' <= s[i] <= '~')
    && (forall i :: 0 <= i < |s| - 1 ==> s[i] != ' ' || s[i + 1] != ' ')
    && (|s| > 0 ==> s[0] != ' ' && s[|s| - 1] != ' ')
  }

  /** Plain text is normalised. */
  lemma {:induction false} PlainIsNormalized(s: string)
    requires PlainText(s)
    ensures IsNormalized(s)
  {
  }

  /** Normalised text is left as it is. */
  lemma NormalizeOfNormalized(s: string)
    requires IsNormalized(s)
    ensures NormalizeSpaces(Some(s)) == s
  {
    StripShape(s, PyIsSpace);
    CollapseOfCollapsed(s, PyIsSpace, ' ');
  }

  /** Normalising twice is normalising once. */
  lemma NormalizeIdempotent(value: Option<string>)
    ensures NormalizeSpaces(Some(NormalizeSpaces(value))) == NormalizeSpaces(value)
  {
    NormalizeOfNormalized(NormalizeSpaces(value));
  }

  /** Two non-empty normalised texts joined by one space are normalised. */
  lemma {:induction false} JoinNormalized(a: string, b: string)
    requires IsNormalized(a) && IsNormalized(b) && a != "" && b != ""
    ensures IsNormalized(a + " " + b)
  {
    var s := a + " " + b;
    forall i | 0 <= i < |s| - 1 ensures !(PyIsSpace(s[i]) && PyIsSpace(s[i + 1])) {
      if i < |a| - 1 {
        assert s[i] == a[i] && s[i + 1] == a[i + 1];
      } else if i == |a| - 1 {
        assert s[i] == a[|a| - 1];
      } else if i == |a| {
        assert s[i + 1] == b[0];
      } else {
        assert s[i] == b[i - |a| - 1] && s[i + 1] == b[i - |a|];
      }
    }
    forall i | 0 <= i < |s| && PyIsSpace(s[i]) ensures s[i] == ' ' {
      if i < |a| { assert s[i] == a[i]; } else if i > |a| { assert s[i] == b[i - |a| - 1]; }
    }
    assert s[0] == a[0] && s[|s| - 1] == b[|b| - 1];
  }

  // ---------------------------------------------------------------- product types and categories

  /** Python's `casefold` on ASCII text. */
  function Casefold(s: string): string {
    Lower(s)
  }

  /** `_map_product_type`: the (level one, level two) category of a product type. */
  function MapProductType(productType: string): (r: (string, string))
    ensures r.0 in MenuHierarchy && r.1 in MenuHierarchy[r.0]
  {
    MapFolded(Casefold(NormalizeSpaces(Some(productType))))
  }

  /** The decision chain of `_map_product_type`, on the already normalised and case-folded type. */
  function MapFolded(p: string): (r: (string, string))
    ensures r.0 in MenuHierarchy && r.1 in MenuHierarchy[r.0]
  {
    if p == "charger plates" || Contains(p, "charger") then ("Tabletop", "Chargers")
    else if p == "flatware" then ("Tabletop", "Flatware")
    else if p == "glassware" then ("Tabletop", "Glassware")
    else if p == "lounge furniture" || Contains(p, "lounge") then ("Furniture", "Lounge Furniture")
    else if p == "chairs" then ("Furniture", "Chairs")
    else if p == "tables" then ("Furniture", "Tables")
    else if p == "bars" then ("Furniture", "Bars")
    else if p == "tablecloths" then ("Linens", "Tablecloths")
    else if p == "napkins" then ("Linens", "Napkins")
    else if p == "runner" then ("Linens", "Runner")
    else if p == "decor" then ("Decor", "Decor")
    else ("Decor", "Decor")
  }

  /** The "charger" test comes first: a type mentioning both chargers and lounges is a charger. */
  lemma ChargerWinsOverLounge(productType: string)
    requires Contains(Casefold(NormalizeSpaces(Some(productType))), "charger")
    ensures MapProductType(productType) == ("Tabletop", "Chargers")
  {
  }

  const KnownProductTypeNames: set<string> := {
    "chairs", "tables", "bars", "lounge furniture", "charger plates", "flatware",
    "glassware", "tablecloths", "napkins", "runner", "decor"}

  /** `_is_known_product_type`. */
  predicate IsKnownProductType(productType: string) {
    var p := Casefold(NormalizeSpaces(Some(productType)));
    p in KnownProductTypeNames || Contains(p, "charger") || Contains(p, "lounge")
  }

  /** An unknown type falls back to Decor/Decor, which is when the import warns about it. */
  lemma UnknownTypeFallsBackToDecor(productType: string)
    requires !IsKnownProductType(productType)
    ensures MapProductType(productType) == ("Decor", "Decor")
  {
  }

  /** A normalised type is classified by its lower-cased spelling. */
  lemma {:induction false} FoldsTo(s: string, p: string, r: (string, string))
    requires IsNormalized(s) && Lower(s) == p && MapFolded(p) == r
    ensures MapProductType(s) == r
  {
    NormalizeOfNormalized(s);
  }

  /** `sub` does not occur in `s`, checked position by position. */
  lemma {:induction false} NoOccurrence(s: string, sub: string)
    requires |sub| >= 3
    requires forall i :: 0 <= i <= |s| - |sub| ==> s[i] != sub[0] || s[i + 1] != sub[1] || s[i + 2] != sub[2]
    ensures !Contains(s, sub)
  {
    forall i | 0 <= i <= |s| ensures !OccursAt(s, sub, i) {
      if i <= |s| - |sub| {
        var w := s[i..i + |sub|];
        assert w[0] == s[i] && w[1] == s[i + 1] && w[2] == s[i + 2];
      }
    }
  }

  /** Python's `str.title` on ASCII text: a letter after a letter is lowered, any other letter raised. */
  function Title(s: string): (r: string)
    ensures |r| == |s|
    ensures forall i :: 0 <= i < |s| ==> (IsLetter(r[i]) <==> IsLetter(s[i]))
    ensures forall i :: 0 <= i < |s| && !IsLetter(s[i]) ==> r[i] == s[i]
  {
    seq(|s|, i requires 0 <= i < |s| =>
      if !IsLetter(s[i]) then s[i]
      else if i > 0 && IsLetter(s[i - 1]) then ToLower(s[i])
      else ToUpper(s[i]))
  }

  lemma TitleIdempotent(s: string)
    ensures Title(Title(s)) == Title(s)
  {
  }

  /** `_extract_model_family`: the normalised text before the first " - ", title-cased. */
  function ExtractModelFamily(productName: string): string {
    var name := NormalizeSpaces(Some(productName));
    var i := Find(name, " - ");
    var family := if i != -1 then NormalizeSpaces(Some(name[..i])) else name;
    Title(family)
  }

  /** Title-casing keeps every whitespace character where it was and creates none. */
  lemma TitleKeepsSpaces(s: string)
    ensures forall i :: 0 <= i < |s| ==> (PyIsSpace(Title(s)[i]) <==> PyIsSpace(s[i]))
    ensures forall i :: 0 <= i < |s| && PyIsSpace(s[i]) ==> Title(s)[i] == s[i]
  {
  }

  lemma TitleKeepsNormalized(s: string)
    requires IsNormalized(s)
    ensures IsNormalized(Title(s))
  {
    TitleKeepsSpaces(s);
  }

  lemma TitleKeepsSeparators(s: string)
    ensures forall j :: OccursAt(Title(s), " - ", j) ==> OccursAt(s, " - ", j)
  {
    var r := Title(s);
    forall j | OccursAt(r, " - ", j) ensures OccursAt(s, " - ", j) {
      assert r[j] == ' ' && r[j + 1] == '-' && r[j + 2] == ' ';
      assert s[j] == r[j] && s[j + 1] == r[j + 1] && s[j + 2] == r[j + 2];
      assert s[j..j + 3] == " - ";
    }
  }

  /** Title-casing only touches letters, so it keeps text normalised and keeps every " - " where it was. */
  lemma TitleKeepsShape(s: string)
    ensures IsNormalized(s) ==> IsNormalized(Title(s))
    ensures forall j :: OccursAt(Title(s), " - ", j) ==> OccursAt(s, " - ", j)
  {
    if IsNormalized(s) {
      TitleKeepsNormalized(s);
    }
    TitleKeepsSeparators(s);
  }

  /** The part of a normalised name before its first " - " is normalised and has no " - ". */
  lemma {:induction false} FamilyPrefix(name: string, i: int)
    requires IsNormalized(name) && i == Find(name, " - ") && i != -1
    ensures 0 < i && IsNormalized(name[..i])
    ensures forall j :: !OccursAt(name[..i], " - ", j)
  {
    assert name[i] == name[i..i + 3][0] == ' ';
    var f := name[..i];
    forall j | OccursAt(f, " - ", j) ensures false {
      assert f[j..j + 3] == name[j..j + 3];
      assert OccursAt(name, " - ", j);
    }
    assert f[|f| - 1] == name[i - 1];
  }

  /** A model family never contains the " - " separator. */
  lemma ModelFamilyHasNoSeparator(productName: string)
    ensures !Contains(ExtractModelFamily(productName), " - ")
  {
    var name := NormalizeSpaces(Some(productName));
    var i := Find(name, " - ");
    var family := if i != -1 then NormalizeSpaces(Some(name[..i])) else name;
    if i != -1 {
      FamilyPrefix(name, i);
      NormalizeOfNormalized(name[..i]);
    }
    TitleKeepsShape(family);
  }

  /** Extracting the family of a family gives it back. */
  lemma ModelFamilyIdempotent(productName: string)
    ensures ExtractModelFamily(ExtractModelFamily(productName)) == ExtractModelFamily(productName)
  {
    var name := NormalizeSpaces(Some(productName));
    var i := Find(name, " - ");
    var family := if i != -1 then NormalizeSpaces(Some(name[..i])) else name;
    if i != -1 {
      FamilyPrefix(name, i);
      NormalizeOfNormalized(name[..i]);
    }
    TitleKeepsShape(family);
    var r := Title(family);
    NormalizeOfNormalized(r);
    ModelFamilyHasNoSeparator(productName);
    TitleIdempotent(family);
  }

  /** Title-casing works word by word: it can be split after any non-letter. */
  lemma {:induction false} TitleSplits(a: string, b: string)
    requires a != "" && !IsLetter(a[|a| - 1])
    ensures Title(a + b) == Title(a) + Title(b)
  {
    var s := a + b;
    forall i | 0 <= i < |s| ensures Title(s)[i] == (Title(a) + Title(b))[i] {
      if i < |a| {
        assert s[i] == a[i];
        if i > 0 { assert s[i - 1] == a[i - 1]; }
      } else {
        assert s[i] == b[i - |a|];
        assert s[i - 1] == if i == |a| then a[|a| - 1] else b[i - |a| - 1];
      }
    }
  }

  /** A plain family name, " - " and a colour: the family is the title-cased name. */
  lemma {:induction false} FamilyWithColour(family: string, colour: string)
    requires PlainText(family) && family != ""
    requires forall i :: 0 <= i < |family| ==> family[i] != '-'
    requires IsNormalized(colour) && colour != ""
    ensures ExtractModelFamily(family + " - " + colour) == Title(family)
  {
    var f := family + " -";
    forall i | 0 <= i < |f| - 1 ensures f[i] != ' ' || f[i + 1] != ' ' {
      if i < |family| - 1 { assert f[i] == family[i] && f[i + 1] == family[i + 1]; }
    }
    PlainIsNormalized(f);
    JoinNormalized(family + " -", colour);
    var name := family + " - " + colour;
    assert family + " -" + " " + colour == name;
    assert name[..|family|] == family;
    assert name[|family|..|family| + 3] == " - ";
    FamilyBeforeSeparator(name, |family|);
  }

  /** For a normalised name whose first " - " is at `i`, the family is the title-cased text before it. */
  lemma {:induction false} FamilyBeforeSeparator(name: string, i: int)
    requires IsNormalized(name)
    requires OccursAt(name, " - ", i)
    requires forall j :: 0 <= j < i ==> name[j] != ' ' || name[j + 1] != '-'
    ensures ExtractModelFamily(name) == Title(name[..i])
  {
    NormalizeOfNormalized(name);
    forall j | 0 <= j < i ensures !OccursAt(name, " - ", j) {
      assert name[j..j + 3][0] == name[j] && name[j..j + 3][1] == name[j + 1];
    }
    FamilyPrefix(name, i);
    NormalizeOfNormalized(name[..i]);
  }

  /** `_should_use_model_level`. */
  function ShouldUseModelLevel(levelOne: string, levelTwo: string, mode: string): (r: bool)
    ensures mode == "all" ==> r
    ensures mode == "none" ==> !r
    ensures mode != "all" && mode != "none" ==> (r <==> levelOne == "Furniture" && levelTwo in MenuHierarchy["Furniture"])
  {
    if mode == "all" then true
    else if mode == "none" then false
    else (levelOne, levelTwo) in ModelLevelEnabled
  }

  /** A nested-set position in the category tree. */
  datatype Category = Category(treeId: int, lft: int, rght: int)

  /** `_is_category_in_subtree`. */
  predicate IsCategoryInSubtree(category: Category, root: Option<Category>) {
    root.Some? && category.treeId == root.value.treeId
    && category.lft >= root.value.lft && category.rght <= root.value.rght
  }

  /** Every category is in its own subtree, subtrees nest, and there is no subtree of nothing. */
  lemma SubtreeIsAPreorder(a: Category, b: Category, c: Category)
    ensures !IsCategoryInSubtree(a, None)
    ensures IsCategoryInSubtree(a, Some(a))
    ensures IsCategoryInSubtree(a, Some(b)) && IsCategoryInSubtree(b, Some(c)) ==> IsCategoryInSubtree(a, Some(c))
  {
  }
}
