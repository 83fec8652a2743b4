/**
 * The import test's expectations, stated on concrete product types and names:
 * where the known types land in the category menu, and the model families
 * the import derives from two product names.
 */
module RentalPdfImportExamples {
  import opened Text
  import opened RentalPdfImport

  /** The category default for known types: each known type lands under the leaf of the same name. */
  lemma KnownTypesMapToTheirLeaf()
    ensures MapProductType("Chairs") == ("Furniture", "Chairs")
    ensures MapProductType("Lounge furniture") == ("Furniture", "Lounge Furniture")
    ensures MapProductType("Charger plates") == ("Tabletop", "Chargers")
    ensures MapProductType("Tablecloths") == ("Linens", "Tablecloths")
  {
    ChairsLeaf();
    LoungeLeaf();
    ChargerPlatesLeaf();
    TableclothsLeaf();
  }

  /** The lower-cased spellings of the four known types, evaluated once for the lemmas below. */
  lemma KnownTypesLowered()
    ensures Lower("Chairs") == "chairs"
    ensures Lower("Lounge furniture") == "lounge furniture"
    ensures Lower("Charger plates") == "charger plates"
    ensures Lower("Tablecloths") == "tablecloths"
  {
  }

  lemma ChairsLeaf()
    ensures MapProductType("Chairs") == ("Furniture", "Chairs")
  {
    PlainIsNormalized("Chairs");
    KnownTypesLowered();
    ChairsFolded();
    FoldsTo("Chairs", "chairs", ("Furniture", "Chairs"));
  }

  lemma ChairsFolded()
    ensures MapFolded("chairs") == ("Furniture", "Chairs")
  {
    NoOccurrence("chairs", "charger");
    NoOccurrence("chairs", "lounge");
  }

  lemma LoungeLeaf()
    ensures MapProductType("Lounge furniture") == ("Furniture", "Lounge Furniture")
  {
    PlainIsNormalized("Lounge furniture");
    KnownTypesLowered();
    LoungeFolded();
    FoldsTo("Lounge furniture", "lounge furniture", ("Furniture", "Lounge Furniture"));
  }

  lemma LoungeFolded()
    ensures MapFolded("lounge furniture") == ("Furniture", "Lounge Furniture")
  {
    NoOccurrence("lounge furniture", "charger");
  }

  lemma ChargerPlatesLeaf()
    ensures MapProductType("Charger plates") == ("Tabletop", "Chargers")
  {
    PlainIsNormalized("Charger plates");
    KnownTypesLowered();
    ChargerPlatesFolded();
    FoldsTo("Charger plates", "charger plates", ("Tabletop", "Chargers"));
  }

  lemma ChargerPlatesFolded()
    ensures MapFolded("charger plates") == ("Tabletop", "Chargers")
  {
  }

  lemma TableclothsLeaf()
    ensures MapProductType("Tablecloths") == ("Linens", "Tablecloths")
  {
    PlainIsNormalized("Tablecloths");
    KnownTypesLowered();
    TableclothsFolded();
    FoldsTo("Tablecloths", "tablecloths", ("Linens", "Tablecloths"));
  }

  lemma TableclothsFolded()
    ensures MapFolded("tablecloths") == ("Linens", "Tablecloths")
  {
    NoOccurrence("tablecloths", "charger");
    NoOccurrence("tablecloths", "lounge");
  }

  /** The families the import test expects, for any colour after the separator. */
  lemma ModelFamilyExamples(colour: string)
    requires IsNormalized(colour) && colour != ""
    ensures ExtractModelFamily("COCO CHAIR" + " - " + colour) == "Coco Chair"
    ensures ExtractModelFamily("Velvet Lounge Chair" + " - " + colour) == "Velvet Lounge Chair"
  {
    PlainNames();
    FamilyWithColour("COCO CHAIR", colour);
    TitleOfCocoChair();
    FamilyWithColour("Velvet Lounge Chair", colour);
    TitleOfVelvetLoungeChair();
  }

  lemma PlainNames()
    ensures PlainText("COCO CHAIR") && forall i :: 0 <= i < |"COCO CHAIR"| ==> "COCO CHAIR"[i] != '-'
    ensures PlainText("Velvet Lounge Chair")
    ensures forall i :: 0 <= i < |"Velvet Lounge Chair"| ==> "Velvet Lounge Chair"[i] != '-'
  {
  }

  lemma TitleOfCocoChair()
    ensures Title("COCO CHAIR") == "Coco Chair"
  {
  }

  lemma TitleOfVelvetLoungeChair()
    ensures Title("Velvet Lounge Chair") == "Velvet Lounge Chair"
  {
    TitleSplits("Velvet ", "Lounge Chair");
    TitleSplits("Lounge ", "Chair");
    TitledWords();
    VelvetLoungeChairWords();
  }

  lemma TitledWords()
    ensures Title("Velvet ") == "Velvet "
    ensures Title("Lounge ") == "Lounge "
    ensures Title("Chair") == "Chair"
  {
  }

  lemma VelvetLoungeChairWords()
    ensures "Velvet " + ("Lounge " + "Chair") == "Velvet Lounge Chair"
  {
  }
}
