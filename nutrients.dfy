/**
 * The nutrient catalogue: the 32 members of the `Nutrient` enum with their
 * upstream codes, and the display-name table behind `getNutrientCommonName`.
 */
module Nutrients {

  /** The enum's members, in declaration order. */
  datatype Nutrient =
    | Calories
    | Fat
    | SaturatedFat
    | MonosaturatedFat
    | PolyunsaturatedFat
    | Carbohydrate
    | NetCarbohydrate
    | Fiber
    | Sugar
    | Protein
    | Cholesterol
    | Sodium
    | Calcium
    | Magnesium
    | Potassium
    | Iron
    | Zinc
    | Phosphorus
    | VitaminA
    | VitaminC
    | Thiamin
    | Riboflavin
    | Niacin
    | VitaminB6
    | FolateTotal
    | FolateFood
    | FolicAcid
    | VitaminB12
    | VitaminD
    | VitaminE
    | VitaminK
    | Water

  /** The member's name, the string under which the enum declares it. */
  function MemberName(n: Nutrient): string {
    match n
    case Calories => "Calories"
    case Fat => "Fat"
    case SaturatedFat => "SaturatedFat"
    case MonosaturatedFat => "MonosaturatedFat"
    case PolyunsaturatedFat => "PolyunsaturatedFat"
    case Carbohydrate => "Carbohydrate"
    case NetCarbohydrate => "NetCarbohydrate"
    case Fiber => "Fiber"
    case Sugar => "Sugar"
    case Protein => "Protein"
    case Cholesterol => "Cholesterol"
    case Sodium => "Sodium"
    case Calcium => "Calcium"
    case Magnesium => "Magnesium"
    case Potassium => "Potassium"
    case Iron => "Iron"
    case Zinc => "Zinc"
    case Phosphorus => "Phosphorus"
    case VitaminA => "VitaminA"
    case VitaminC => "VitaminC"
    case Thiamin => "Thiamin"
    case Riboflavin => "Riboflavin"
    case Niacin => "Niacin"
    case VitaminB6 => "VitaminB6"
    case FolateTotal => "FolateTotal"
    case FolateFood => "FolateFood"
    case FolicAcid => "FolicAcid"
    case VitaminB12 => "VitaminB12"
    case VitaminD => "VitaminD"
    case VitaminE => "VitaminE"
    case VitaminK => "VitaminK"
    case Water => "Water"
  }

  /** The member's value: the nutrient's code in the upstream service's vocabulary. */
  function Code(n: Nutrient): string {
    match n
    case Calories => "ENERC_KCAL"
    case Fat => "FAT"
    case SaturatedFat => "FASAT"
    case MonosaturatedFat => "FAMS"
    case PolyunsaturatedFat => "FAPU"
    case Carbohydrate => "CHOCDF"
    case NetCarbohydrate => "CHOCDF.net"
    case Fiber => "FIBTG"
    case Sugar => "SUGAR"
    case Protein => "PROCNT"
    case Cholesterol => "CHOLE"
    case Sodium => "NA"
    case Calcium => "CA"
    case Magnesium => "MG"
    case Potassium => "K"
    case Iron => "FE"
    case Zinc => "ZN"
    case Phosphorus => "P"
    case VitaminA => "VITA_RAE"
    case VitaminC => "VITC"
    case Thiamin => "THIA"
    case Riboflavin => "RIBF"
    case Niacin => "NIA"
    case VitaminB6 => "VITB6A"
    case FolateTotal => "FOLFE"
    case FolateFood => "FOLFD"
    case FolicAcid => "FOLAC"
    case VitaminB12 => "VITB12"
    case VitaminD => "VITD"
    case VitaminE => "TOCPHA"
    case VitaminK => "VITK1"
    case Water => "WATER"
  }

  /** The members in declaration order, the order in which `Object.entries` visits them. */
  const AllNutrients: seq<Nutrient> := [
    Calories,
    Fat,
    SaturatedFat,
    MonosaturatedFat,
    PolyunsaturatedFat,
    Carbohydrate,
    NetCarbohydrate,
    Fiber,
    Sugar,
    Protein,
    Cholesterol,
    Sodium,
    Calcium,
    Magnesium,
    Potassium,
    Iron,
    Zinc,
    Phosphorus,
    VitaminA,
    VitaminC,
    Thiamin,
    Riboflavin,
    Niacin,
    VitaminB6,
    FolateTotal,
    FolateFood,
    FolicAcid,
    VitaminB12,
    VitaminD,
    VitaminE,
    VitaminK,
    Water
  ]

  /** The display-name table, keyed by member name; each entry is a one-element list. */
  const NameList: map<string, seq<string>> := map[
    "Calories" := ["Calories"],
    "Fat" := ["Fat"],
    "SaturatedFat" := ["Saturated Fat"],
    "MonosaturatedFat" := ["Monosaturated Fat"],
    "PolyunsaturatedFat" := ["Polyunsaturated Fat"],
    "Carbohydrate" := ["Carbohydrate"],
    "NetCarbohydrate" := ["Net Carbohydrate"],
    "Fiber" := ["Fiber"],
    "Sugar" := ["Sugar"],
    "Protein" := ["Protein"],
    "Cholesterol" := ["Cholesterol"],
    "Sodium" := ["Sodium"],
    "Calcium" := ["Calcium"],
    "Magnesium" := ["Magnesium"],
    "Potassium" := ["Potassium"],
    "Iron" := ["Iron"],
    "Zinc" := ["Zinc"],
    "Phosphorus" := ["Phosphorus"],
    "VitaminA" := ["Vitamin A"],
    "VitaminC" := ["Vitamin C"],
    "Thiamin" := ["Thiamin"],
    "Riboflavin" := ["Riboflavin"],
    "Niacin" := ["Niacin"],
    "VitaminB6" := ["Vitamin B6"],
    "FolateTotal" := ["Folate (Total)"],
    "FolateFood" := ["Folate (Food)"],
    "FolicAcid" := ["Folic Acid"],
    "VitaminB12" := ["Vitamin B12"],
    "VitaminD" := ["Vitamin D"],
    "VitaminE" := ["Vitamin E"],
    "VitaminK" := ["Vitamin K"],
    "Water" := ["Water"]
  ]

  /**
   * `getNutrientCommonName`: the first listed name, or "" for a string not in
   * the table. Every listed name is non-empty, so "" means exactly "not listed".
   */
  function CommonName(s: string): (r: string)
    ensures r != "" <==> s in NameList
  {
    if s in NameList then NameList[s][0] else ""
  }

  /** The display name of each member, one case per constructor. */
  function DisplayName(n: Nutrient): string {
    match n
    case Calories => "Calories"
    case Fat => "Fat"
    case SaturatedFat => "Saturated Fat"
    case MonosaturatedFat => "Monosaturated Fat"
    case PolyunsaturatedFat => "Polyunsaturated Fat"
    case Carbohydrate => "Carbohydrate"
    case NetCarbohydrate => "Net Carbohydrate"
    case Fiber => "Fiber"
    case Sugar => "Sugar"
    case Protein => "Protein"
    case Cholesterol => "Cholesterol"
    case Sodium => "Sodium"
    case Calcium => "Calcium"
    case Magnesium => "Magnesium"
    case Potassium => "Potassium"
    case Iron => "Iron"
    case Zinc => "Zinc"
    case Phosphorus => "Phosphorus"
    case VitaminA => "Vitamin A"
    case VitaminC => "Vitamin C"
    case Thiamin => "Thiamin"
    case Riboflavin => "Riboflavin"
    case Niacin => "Niacin"
    case VitaminB6 => "Vitamin B6"
    case FolateTotal => "Folate (Total)"
    case FolateFood => "Folate (Food)"
    case FolicAcid => "Folic Acid"
    case VitaminB12 => "Vitamin B12"
    case VitaminD => "Vitamin D"
    case VitaminE => "Vitamin E"
    case VitaminK => "Vitamin K"
    case Water => "Water"
  }

  /** The member's position in declaration order. */
  function Index(n: Nutrient): nat {
    match n
    case Calories => 0
    case Fat => 1
    case SaturatedFat => 2
    case MonosaturatedFat => 3
    case PolyunsaturatedFat => 4
    case Carbohydrate => 5
    case NetCarbohydrate => 6
    case Fiber => 7
    case Sugar => 8
    case Protein => 9
    case Cholesterol => 10
    case Sodium => 11
    case Calcium => 12
    case Magnesium => 13
    case Potassium => 14
    case Iron => 15
    case Zinc => 16
    case Phosphorus => 17
    case VitaminA => 18
    case VitaminC => 19
    case Thiamin => 20
    case Riboflavin => 21
    case Niacin => 22
    case VitaminB6 => 23
    case FolateTotal => 24
    case FolateFood => 25
    case FolicAcid => 26
    case VitaminB12 => 27
    case VitaminD => 28
    case VitaminE => 29
    case VitaminK => 30
    case Water => 31
  }
  /** The walk over the catalogue visits every member. */
  lemma CatalogueComplete(n: Nutrient)
    ensures n in AllNutrients
  {
  }

  /** Each member stands at its own position in the walk. */
  lemma CatalogueAt(n: Nutrient)
    ensures Index(n) < |AllNutrients| && AllNutrients[Index(n)] == n
  {
  }

  /** The walk over the catalogue visits the 32 members once each, in declaration order. */
  lemma CatalogueOrder()
    ensures |AllNutrients| == 32
    ensures forall i | 0 <= i < |AllNutrients| :: Index(AllNutrients[i]) == i
  {
    CatalogueOrderFirstHalf();
    CatalogueOrderSecondHalf();
  }

  lemma CatalogueOrderFirstHalf()
    ensures forall i | 0 <= i < 16 :: Index(AllNutrients[i]) == i
  {
  }

  lemma CatalogueOrderSecondHalf()
    ensures forall i | 16 <= i < 32 :: Index(AllNutrients[i]) == i
  {
  }

  // One lemma per row of the table: each looks up a single member name and a
  // single code, which keeps every proof small.

  lemma RowCalories()
    ensures CommonName(MemberName(Calories)) == DisplayName(Calories) != ""
    ensures CommonName(Code(Calories)) == ""
  {
  }

  lemma RowFat()
    ensures CommonName(MemberName(Fat)) == DisplayName(Fat) != ""
    ensures CommonName(Code(Fat)) == ""
  {
  }

  lemma RowSaturatedFat()
    ensures CommonName(MemberName(SaturatedFat)) == DisplayName(SaturatedFat) != ""
    ensures CommonName(Code(SaturatedFat)) == ""
  {
  }

  lemma RowMonosaturatedFat()
    ensures CommonName(MemberName(MonosaturatedFat)) == DisplayName(MonosaturatedFat) != ""
    ensures CommonName(Code(MonosaturatedFat)) == ""
  {
  }

  lemma RowPolyunsaturatedFat()
    ensures CommonName(MemberName(PolyunsaturatedFat)) == DisplayName(PolyunsaturatedFat) != ""
    ensures CommonName(Code(PolyunsaturatedFat)) == ""
  {
  }

  lemma RowCarbohydrate()
    ensures CommonName(MemberName(Carbohydrate)) == DisplayName(Carbohydrate) != ""
    ensures CommonName(Code(Carbohydrate)) == ""
  {
  }

  lemma RowNetCarbohydrate()
    ensures CommonName(MemberName(NetCarbohydrate)) == DisplayName(NetCarbohydrate) != ""
    ensures CommonName(Code(NetCarbohydrate)) == ""
  {
  }

  lemma RowFiber()
    ensures CommonName(MemberName(Fiber)) == DisplayName(Fiber) != ""
    ensures CommonName(Code(Fiber)) == ""
  {
  }

  lemma RowSugar()
    ensures CommonName(MemberName(Sugar)) == DisplayName(Sugar) != ""
    ensures CommonName(Code(Sugar)) == ""
  {
  }

  lemma RowProtein()
    ensures CommonName(MemberName(Protein)) == DisplayName(Protein) != ""
    ensures CommonName(Code(Protein)) == ""
  {
  }

  lemma RowCholesterol()
    ensures CommonName(MemberName(Cholesterol)) == DisplayName(Cholesterol) != ""
    ensures CommonName(Code(Cholesterol)) == ""
  {
  }

  lemma RowSodium()
    ensures CommonName(MemberName(Sodium)) == DisplayName(Sodium) != ""
    ensures CommonName(Code(Sodium)) == ""
  {
  }

  lemma RowCalcium()
    ensures CommonName(MemberName(Calcium)) == DisplayName(Calcium) != ""
    ensures CommonName(Code(Calcium)) == ""
  {
  }

  lemma RowMagnesium()
    ensures CommonName(MemberName(Magnesium)) == DisplayName(Magnesium) != ""
    ensures CommonName(Code(Magnesium)) == ""
  {
  }

  lemma RowPotassium()
    ensures CommonName(MemberName(Potassium)) == DisplayName(Potassium) != ""
    ensures CommonName(Code(Potassium)) == ""
  {
  }

  lemma RowIron()
    ensures CommonName(MemberName(Iron)) == DisplayName(Iron) != ""
    ensures CommonName(Code(Iron)) == ""
  {
  }

  lemma RowZinc()
    ensures CommonName(MemberName(Zinc)) == DisplayName(Zinc) != ""
    ensures CommonName(Code(Zinc)) == ""
  {
  }

  lemma RowPhosphorus()
    ensures CommonName(MemberName(Phosphorus)) == DisplayName(Phosphorus) != ""
    ensures CommonName(Code(Phosphorus)) == ""
  {
  }

  lemma RowVitaminA()
    ensures CommonName(MemberName(VitaminA)) == DisplayName(VitaminA) != ""
    ensures CommonName(Code(VitaminA)) == ""
  {
  }

  lemma RowVitaminC()
    ensures CommonName(MemberName(VitaminC)) == DisplayName(VitaminC) != ""
    ensures CommonName(Code(VitaminC)) == ""
  {
  }

  lemma RowThiamin()
    ensures CommonName(MemberName(Thiamin)) == DisplayName(Thiamin) != ""
    ensures CommonName(Code(Thiamin)) == ""
  {
  }

  lemma RowRiboflavin()
    ensures CommonName(MemberName(Riboflavin)) == DisplayName(Riboflavin) != ""
    ensures CommonName(Code(Riboflavin)) == ""
  {
  }

  lemma RowNiacin()
    ensures CommonName(MemberName(Niacin)) == DisplayName(Niacin) != ""
    ensures CommonName(Code(Niacin)) == ""
  {
  }

  lemma RowVitaminB6()
    ensures CommonName(MemberName(VitaminB6)) == DisplayName(VitaminB6) != ""
    ensures CommonName(Code(VitaminB6)) == ""
  {
  }

  lemma RowFolateTotal()
    ensures CommonName(MemberName(FolateTotal)) == DisplayName(FolateTotal) != ""
    ensures CommonName(Code(FolateTotal)) == ""
  {
  }

  lemma RowFolateFood()
    ensures CommonName(MemberName(FolateFood)) == DisplayName(FolateFood) != ""
    ensures CommonName(Code(FolateFood)) == ""
  {
  }

  lemma RowFolicAcid()
    ensures CommonName(MemberName(FolicAcid)) == DisplayName(FolicAcid) != ""
    ensures CommonName(Code(FolicAcid)) == ""
  {
  }

  lemma RowVitaminB12()
    ensures CommonName(MemberName(VitaminB12)) == DisplayName(VitaminB12) != ""
    ensures CommonName(Code(VitaminB12)) == ""
  {
  }

  lemma RowVitaminD()
    ensures CommonName(MemberName(VitaminD)) == DisplayName(VitaminD) != ""
    ensures CommonName(Code(VitaminD)) == ""
  {
  }

  lemma RowVitaminE()
    ensures CommonName(MemberName(VitaminE)) == DisplayName(VitaminE) != ""
    ensures CommonName(Code(VitaminE)) == ""
  {
  }

  lemma RowVitaminK()
    ensures CommonName(MemberName(VitaminK)) == DisplayName(VitaminK) != ""
    ensures CommonName(Code(VitaminK)) == ""
  {
  }

  lemma RowWater()
    ensures CommonName(MemberName(Water)) == DisplayName(Water) != ""
    ensures CommonName(Code(Water)) == ""
  {
  }

  /**
   * `getNutrientCommonName` succeeds on every member name, the key under which
   * profiles store a nutrient: it gives that member's display name, never "".
   * The table is keyed by member name, not by code: looking up a member's
   * upstream code (the enum's value, e.g. "ENERC_KCAL") gives "".
   */
  lemma CommonNameOfMember(n: Nutrient)
    ensures CommonName(MemberName(n)) == DisplayName(n)
    ensures DisplayName(n) != ""
    ensures CommonName(Code(n)) == ""
  {
    match n
    case Calories => RowCalories();
    case Fat => RowFat();
    case SaturatedFat => RowSaturatedFat();
    case MonosaturatedFat => RowMonosaturatedFat();
    case PolyunsaturatedFat => RowPolyunsaturatedFat();
    case Carbohydrate => RowCarbohydrate();
    case NetCarbohydrate => RowNetCarbohydrate();
    case Fiber => RowFiber();
    case Sugar => RowSugar();
    case Protein => RowProtein();
    case Cholesterol => RowCholesterol();
    case Sodium => RowSodium();
    case Calcium => RowCalcium();
    case Magnesium => RowMagnesium();
    case Potassium => RowPotassium();
    case Iron => RowIron();
    case Zinc => RowZinc();
    case Phosphorus => RowPhosphorus();
    case VitaminA => RowVitaminA();
    case VitaminC => RowVitaminC();
    case Thiamin => RowThiamin();
    case Riboflavin => RowRiboflavin();
    case Niacin => RowNiacin();
    case VitaminB6 => RowVitaminB6();
    case FolateTotal => RowFolateTotal();
    case FolateFood => RowFolateFood();
    case FolicAcid => RowFolicAcid();
    case VitaminB12 => RowVitaminB12();
    case VitaminD => RowVitaminD();
    case VitaminE => RowVitaminE();
    case VitaminK => RowVitaminK();
    case Water => RowWater();
  }

  // A string that is no member name differs from each of the 32 names; the
  // names are checked four at a time.

  lemma NotMemberName0(s: string)
    requires forall n :: MemberName(n) != s
    ensures s != "Calories" && s != "Fat" && s != "SaturatedFat" && s != "MonosaturatedFat"
  {
    assert MemberName(Calories) != s;
    assert MemberName(Fat) != s;
    assert MemberName(SaturatedFat) != s;
    assert MemberName(MonosaturatedFat) != s;
  }

  lemma NotMemberName1(s: string)
    requires forall n :: MemberName(n) != s
    ensures s != "PolyunsaturatedFat" && s != "Carbohydrate" && s != "NetCarbohydrate" && s != "Fiber"
  {
    assert MemberName(PolyunsaturatedFat) != s;
    assert MemberName(Carbohydrate) != s;
    assert MemberName(NetCarbohydrate) != s;
    assert MemberName(Fiber) != s;
  }

  lemma NotMemberName2(s: string)
    requires forall n :: MemberName(n) != s
    ensures s != "Sugar" && s != "Protein" && s != "Cholesterol" && s != "Sodium"
  {
    assert MemberName(Sugar) != s;
    assert MemberName(Protein) != s;
    assert MemberName(Cholesterol) != s;
    assert MemberName(Sodium) != s;
  }

  lemma NotMemberName3(s: string)
    requires forall n :: MemberName(n) != s
    ensures s != "Calcium" && s != "Magnesium" && s != "Potassium" && s != "Iron"
  {
    assert MemberName(Calcium) != s;
    assert MemberName(Magnesium) != s;
    assert MemberName(Potassium) != s;
    assert MemberName(Iron) != s;
  }

  lemma NotMemberName4(s: string)
    requires forall n :: MemberName(n) != s
    ensures s != "Zinc" && s != "Phosphorus" && s != "VitaminA" && s != "VitaminC"
  {
    assert MemberName(Zinc) != s;
    assert MemberName(Phosphorus) != s;
    assert MemberName(VitaminA) != s;
    assert MemberName(VitaminC) != s;
  }

  lemma NotMemberName5(s: string)
    requires forall n :: MemberName(n) != s
    ensures s != "Thiamin" && s != "Riboflavin" && s != "Niacin" && s != "VitaminB6"
  {
    assert MemberName(Thiamin) != s;
    assert MemberName(Riboflavin) != s;
    assert MemberName(Niacin) != s;
    assert MemberName(VitaminB6) != s;
  }

  lemma NotMemberName6(s: string)
    requires forall n :: MemberName(n) != s
    ensures s != "FolateTotal" && s != "FolateFood" && s != "FolicAcid" && s != "VitaminB12"
  {
    assert MemberName(FolateTotal) != s;
    assert MemberName(FolateFood) != s;
    assert MemberName(FolicAcid) != s;
    assert MemberName(VitaminB12) != s;
  }

  lemma NotMemberName7(s: string)
    requires forall n :: MemberName(n) != s
    ensures s != "VitaminD" && s != "VitaminE" && s != "VitaminK" && s != "Water"
  {
    assert MemberName(VitaminD) != s;
    assert MemberName(VitaminE) != s;
    assert MemberName(VitaminK) != s;
    assert MemberName(Water) != s;
  }

  /** Any string that is not a member name gives "": the lookup never fails. */
  lemma CommonNameOutsideCatalogue(s: string)
    requires forall n :: MemberName(n) != s
    ensures CommonName(s) == ""
  {
    assert s !in NameList by {
      NotMemberName0(s);
      NotMemberName1(s);
      NotMemberName2(s);
      NotMemberName3(s);
      NotMemberName4(s);
      NotMemberName5(s);
      NotMemberName6(s);
      NotMemberName7(s);
    }
  }
}
