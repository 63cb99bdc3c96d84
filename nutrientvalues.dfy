/**
 * `getNutrientValues`: every ingredient of the input is looked up with the
 * nutrition-analysis service, each answer is read into a `FoodInfo` with one
 * `UnitValue` per catalogued nutrient the answer reports, and the foods are
 * collected under the key `foodMatch + " (" + measure + ")"`, a later food
 * replacing an earlier one with the same key.
 *
 * The service is a parameter (a function from the ingredient text to its
 * answer); the answer is modelled by the fields the function reads.
 */
module NutrientValues {
  import opened Options
  import opened JsMaps
  import opened Nutrients
  import opened Profiles
  import opened Foods
  import opened Ingredients

  /** One entry of the answer's `totalNutrients` table. */
  datatype RawNutrient = RawNutrient(labelText: string, quantity: real, unit: string)

  /**
   * The parts of the service's answer that are read: `totalNutrients` and
   * `totalDaily` keyed by nutrient code (only the `quantity` of a `totalDaily`
   * entry is read), and `foodMatch`, `quantity` and `measure` of the first
   * parsed ingredient.
   */
  datatype Response = Response(
    totalNutrients: map<string, RawNutrient>,
    totalDaily: map<string, real>,
    foodMatch: string,
    quantity: real,
    measure: string)

  /**
   * The percent of the daily value used when the answer has no `totalDaily`
   * entry for a code: only monounsaturated fat, polyunsaturated fat and
   * cholesterol have one, as the quantity divided by 36, 15 and 150.
   */
  function Fallback(code: string, quantity: real): (r: Option<real>)
    ensures r.Some? <==> code == "FAMS" || code == "FAPU" || code == "CHOLE"
  {
    if code == Code(MonosaturatedFat) then Some(quantity / 36.0)
    else if code == Code(PolyunsaturatedFat) then Some(quantity / 15.0)
    else if code == Code(Cholesterol) then Some(quantity / 150.0)
    else None
  }

  /**
   * The `percentDaily` given to a reported nutrient: absent only when the
   * answer has no `totalDaily` entry and the code has no fallback.
   */
  function PercentDaily(resp: Response, code: string, quantity: real): (r: Option<real>)
    ensures r.None? <==> code !in resp.totalDaily && code != "FAMS" && code != "FAPU" && code != "CHOLE"
  {
    if code in resp.totalDaily then Some(resp.totalDaily[code]) else Fallback(code, quantity)
  }

  /**
   * What the answer says about nutrient `n`: present exactly when the answer
   * reports its code, with the reported quantity, unit and label.
   */
  function ValueOf(resp: Response, n: Nutrient): (r: Option<UnitValue>)
    ensures r.Some? <==> Code(n) in resp.totalNutrients
    ensures r.Some? ==>
      && r.value.quantity == resp.totalNutrients[Code(n)].quantity
      && r.value.unit == resp.totalNutrients[Code(n)].unit
      && r.value.labelText == resp.totalNutrients[Code(n)].labelText
  {
    var code := Code(n);
    if code in resp.totalNutrients then
      var raw := resp.totalNutrients[code];
      Some(UnitValue(raw.unit, raw.labelText, raw.quantity, PercentDaily(resp, code, raw.quantity)))
    else None
  }

  /** The profile after the walk has visited the nutrients `ns`, in order. */
  function ProfileOver(resp: Response, ns: seq<Nutrient>): Profile
    decreases |ns|
  {
    if ns == [] then Empty()
    else
      var p := ProfileOver(resp, ns[..|ns| - 1]);
      var n := ns[|ns| - 1];
      match ValueOf(resp, n)
      case None => p
      case Some(v) => Set(p, n, v)
  }

  /** The profile read from an answer: the walk over the whole catalogue. */
  function ProfileOf(resp: Response): Profile {
    ProfileOver(resp, AllNutrients)
  }

  /** The food read from an answer. */
  function FoodOf(resp: Response): FoodInfo {
    FoodInfo(resp.foodMatch, resp.quantity, resp.measure, ProfileOf(resp))
  }

  /** The key a food is stored under. */
  function FoodKey(resp: Response): string {
    resp.foodMatch + " (" + resp.measure + ")"
  }

  /** The foods of the answers `rs`, stored one after the other: at most one entry per answer. */
  function CollectFoods(rs: seq<Response>): (r: FoodNutrientMap)
    ensures |r.keys| <= |rs|
    decreases |rs|
  {
    if rs == [] then Empty()
    else
      var last := rs[|rs| - 1];
      Set(CollectFoods(rs[..|rs| - 1]), FoodKey(last), FoodOf(last))
  }

  /** The service's answers to the ingredients `xs`, in order. */
  function Queried(service: string -> Response, xs: seq<string>): (rs: seq<Response>)
    ensures |rs| == |xs|
    ensures forall i | 0 <= i < |xs| :: rs[i] == service(xs[i])
  {
    seq(|xs|, i requires 0 <= i < |xs| => service(xs[i]))
  }

  /** The foods `getNutrientValues` returns for `input`. */
  function NutrientValuesOf(service: string -> Response, input: string): FoodNutrientMap {
    CollectFoods(Queried(service, IngredientList(input)))
  }

  /** The loop of `getNutrientValues`, one awaited answer per ingredient. */
  method GetNutrientValues(input: string, service: string -> Response) returns (responses: FoodNutrientMap)
    ensures responses == NutrientValuesOf(service, input)
  {
    var ingredients := IngredientList(input);
    responses := Empty();
    for i := 0 to |ingredients|
      invariant responses == CollectFoods(Queried(service, ingredients[..i]))
    {
      var json := service(ingredients[i]);
      var info := ReadFood(json);
      responses := Set(responses, json.foodMatch + " (" + json.measure + ")", info);
      QueriedSnoc(service, ingredients, i);
    }
    assert ingredients[..|ingredients|] == ingredients;
  }

  /** The body of one iteration: the food read from one answer. */
  method ReadFood(json: Response) returns (info: FoodInfo)
    ensures info == FoodOf(json)
  {
    var foodNutrients := BuildProfile(json);
    info := FoodInfo(json.foodMatch, json.quantity, json.measure, foodNutrients);
  }

  /** The walk over the catalogue that fills a food's profile. */
  method BuildProfile(json: Response) returns (foodNutrients: Profile)
    ensures foodNutrients == ProfileOf(json)
  {
    foodNutrients := WalkNutrients(json, AllNutrients);
  }

  /** The `forEach` over the enum's entries `ns`: each reported nutrient is stored. */
  method WalkNutrients(json: Response, ns: seq<Nutrient>) returns (foodNutrients: Profile)
    ensures foodNutrients == ProfileOver(json, ns)
  {
    foodNutrients := Empty();
    for i := 0 to |ns|
      invariant foodNutrients == ProfileOver(json, ns[..i])
    {
      var n := ns[i];
      var value := ReadNutrient(json, Code(n));
      if value.Some? {
        foodNutrients := Set(foodNutrients, n, value.value);
      }
      assert ns[..i + 1][..i] == ns[..i];
    }
    assert ns[..|ns|] == ns;
  }

  /** One nutrient of the walk: its reported value, with its percent of the daily value. */
  method ReadNutrient(json: Response, code: string) returns (value: Option<UnitValue>)
    ensures code in json.totalNutrients <==> value.Some?
    ensures value.Some? ==> var raw := json.totalNutrients[code];
      value.value == UnitValue(raw.unit, raw.labelText, raw.quantity, PercentDaily(json, code, raw.quantity))
  {
    if code in json.totalNutrients {
      var raw := json.totalNutrients[code];
      var percentDaily: Option<real>;
      if code !in json.totalDaily {
        if code == "FAMS" {
          percentDaily := Some(raw.quantity / 36.0);
        } else if code == "FAPU" {
          percentDaily := Some(raw.quantity / 15.0);
        } else if code == "CHOLE" {
          percentDaily := Some(raw.quantity / 150.0);
        } else {
          percentDaily := None;
        }
      } else {
        percentDaily := Some(json.totalDaily[code]);
      }
      value := Some(UnitValue(raw.unit, raw.labelText, raw.quantity, percentDaily));
    } else {
      value := None;
    }
  }

  /**
   * The fallback applies to exactly three nutrients: monounsaturated fat,
   * polyunsaturated fat and cholesterol; every other code gets no percentage.
   */
  lemma FallbackOf(n: Nutrient, quantity: real)
    ensures Fallback(Code(n), quantity) ==
      if n == MonosaturatedFat then Some(quantity / 36.0)
      else if n == PolyunsaturatedFat then Some(quantity / 15.0)
      else if n == Cholesterol then Some(quantity / 150.0)
      else None
  {
    match n
    case Calories =>
    case Fat =>
    case SaturatedFat =>
    case MonosaturatedFat =>
    case PolyunsaturatedFat =>
    case Carbohydrate =>
    case NetCarbohydrate =>
    case Fiber =>
    case Sugar =>
    case Protein =>
    case Cholesterol =>
    case Sodium =>
    case Calcium =>
    case Magnesium =>
    case Potassium =>
    case Iron =>
    case Zinc =>
    case Phosphorus =>
    case VitaminA =>
    case VitaminC =>
    case Thiamin =>
    case Riboflavin =>
    case Niacin =>
    case VitaminB6 =>
    case FolateTotal =>
    case FolateFood =>
    case FolicAcid =>
    case VitaminB12 =>
    case VitaminD =>
    case VitaminE =>
    case VitaminK =>
    case Water =>
  }

  /**
   * A reported nutrient keeps the service's quantity, unit and label, and its
   * percent of the daily value is the service's `totalDaily` quantity when
   * there is one, and otherwise the fallback.
   */
  lemma ValueOfReported(resp: Response, n: Nutrient)
    requires Code(n) in resp.totalNutrients
    ensures var raw := resp.totalNutrients[Code(n)];
      && ValueOf(resp, n).Some?
      && ValueOf(resp, n).value.quantity == raw.quantity
      && ValueOf(resp, n).value.unit == raw.unit
      && ValueOf(resp, n).value.labelText == raw.labelText
      && ValueOf(resp, n).value.percentDaily ==
        if Code(n) in resp.totalDaily then Some(resp.totalDaily[Code(n)])
        else if n == MonosaturatedFat then Some(raw.quantity / 36.0)
        else if n == PolyunsaturatedFat then Some(raw.quantity / 15.0)
        else if n == Cholesterol then Some(raw.quantity / 150.0)
        else None
  {
    FallbackOf(n, resp.totalNutrients[Code(n)].quantity);
  }

  /** After visiting `ns`, the profile holds exactly the reported nutrients among them. */
  lemma {:induction false} ProfileOverGet(resp: Response, ns: seq<Nutrient>, n: Nutrient)
    ensures Get(ProfileOver(resp, ns), n) == if n in ns then ValueOf(resp, n) else None
    decreases |ns|
  {
    if ns != [] {
      var pre, m := ns[..|ns| - 1], ns[|ns| - 1];
      var p := ProfileOver(resp, pre);
      assert n in ns <==> n in pre || n == m by {
        assert ns == pre + [m];
      }
      assert Get(p, n) == if n in pre then ValueOf(resp, n) else None by {
        ProfileOverGet(resp, pre, n);
      }
      match ValueOf(resp, m)
      case None =>
        assert ProfileOver(resp, ns) == p;
      case Some(v) =>
        assert ProfileOver(resp, ns) == Set(p, m, v);
        SetGet(p, m, v, n);
    }
  }

  /**
   * The profile read from an answer holds a nutrient exactly when the answer
   * reports its code, with the value read from the answer.
   */
  lemma ProfileOfGet(resp: Response, n: Nutrient)
    ensures Get(ProfileOf(resp), n) == ValueOf(resp, n)
    ensures Get(ProfileOf(resp), n).Some? <==> Code(n) in resp.totalNutrients
  {
    CatalogueComplete(n);
    ProfileOverGet(resp, AllNutrients, n);
  }

  /** Strictly increasing in declaration order. */
  predicate InDeclarationOrder(ns: seq<Nutrient>) {
    forall a, b | 0 <= a < b < |ns| :: Index(ns[a]) < Index(ns[b])
  }

  /** Walking nutrients in declaration order lists the reported ones in that order. */
  lemma {:induction false} ProfileOverOrder(resp: Response, ns: seq<Nutrient>)
    requires InDeclarationOrder(ns)
    ensures forall a | 0 <= a < |ProfileOver(resp, ns).keys| :: ProfileOver(resp, ns).keys[a] in ns
    ensures InDeclarationOrder(ProfileOver(resp, ns).keys)
    decreases |ns|
  {
    if ns != [] {
      var pre, m := ns[..|ns| - 1], ns[|ns| - 1];
      var p := ProfileOver(resp, pre);
      var ks := p.keys;
      assert forall a | 0 <= a < |ks| :: ks[a] in pre && Index(ks[a]) < Index(m) by {
        assert InDeclarationOrder(pre);
        ProfileOverOrder(resp, pre);
      }
      assert InDeclarationOrder(ks) by {
        assert InDeclarationOrder(pre);
        ProfileOverOrder(resp, pre);
      }
      match ValueOf(resp, m)
      case None =>
        assert ProfileOver(resp, ns) == p;
      case Some(v) =>
        ProfileOverAppend(p, m, v);
    }
  }

  /** Storing a nutrient declared after every one present appends it and keeps the order. */
  lemma ProfileOverAppend(p: Profile, m: Nutrient, v: UnitValue)
    requires forall a | 0 <= a < |p.keys| :: Index(p.keys[a]) < Index(m)
    requires InDeclarationOrder(p.keys)
    ensures Set(p, m, v).keys == p.keys + [m]
    ensures InDeclarationOrder(Set(p, m, v).keys)
  {
    var ks := p.keys;
    assert m !in ks;
    SetGet(p, m, v, m);
    var qs := ks + [m];
    forall a, b | 0 <= a < b < |qs|
      ensures Index(qs[a]) < Index(qs[b])
    {
      assert qs[a] == ks[a];
      if b < |ks| {
        assert qs[b] == ks[b];
      }
    }
  }

  /** The profile lists its nutrients in the enum's declaration order. */
  lemma ProfileOfOrder(resp: Response)
    ensures InDeclarationOrder(ProfileOf(resp).keys)
  {
    assert InDeclarationOrder(AllNutrients) by {
      CatalogueOrder();
    }
    ProfileOverOrder(resp, AllNutrients);
  }

  /**
   * Later foods win: the food stored under a key is the one read from the last
   * answer with that key.
   */
  lemma {:induction false} CollectLastWins(rs: seq<Response>, i: nat)
    requires i < |rs|
    requires forall j | i < j < |rs| :: FoodKey(rs[j]) != FoodKey(rs[i])
    ensures Get(CollectFoods(rs), FoodKey(rs[i])) == Some(FoodOf(rs[i]))
    decreases |rs|
  {
    var pre := rs[..|rs| - 1];
    var last := rs[|rs| - 1];
    if i == |rs| - 1 {
      SetGet(CollectFoods(pre), FoodKey(last), FoodOf(last), FoodKey(last));
    } else {
      assert Get(CollectFoods(pre), FoodKey(rs[i])) == Some(FoodOf(rs[i])) by {
        assert pre[i] == rs[i];
        assert forall j | i < j < |pre| :: pre[j] == rs[j];
        CollectLastWins(pre, i);
      }
      SetGet(CollectFoods(pre), FoodKey(last), FoodOf(last), FoodKey(rs[i]));
    }
  }

  /** A key no answer produces is not in the result. */
  lemma {:induction false} CollectAbsent(rs: seq<Response>, k: string)
    requires forall i | 0 <= i < |rs| :: FoodKey(rs[i]) != k
    ensures Get(CollectFoods(rs), k) == None
    decreases |rs|
  {
    if rs != [] {
      var pre := rs[..|rs| - 1];
      var last := rs[|rs| - 1];
      assert Get(CollectFoods(pre), k) == None by {
        assert forall i | 0 <= i < |pre| :: pre[i] == rs[i];
        CollectAbsent(pre, k);
      }
      SetGet(CollectFoods(pre), FoodKey(last), FoodOf(last), k);
    }
  }

  /** No two answers produce the same key. */
  predicate DistinctKeys(rs: seq<Response>) {
    forall i, j | 0 <= i < j < |rs| :: FoodKey(rs[i]) != FoodKey(rs[j])
  }

  /** The keys of the answers `rs`, in order. */
  function FoodKeys(rs: seq<Response>): (ks: seq<string>)
    ensures |ks| == |rs|
    ensures forall i | 0 <= i < |rs| :: ks[i] == FoodKey(rs[i])
  {
    seq(|rs|, i requires 0 <= i < |rs| => FoodKey(rs[i]))
  }

  /** The result has one entry per distinct key: exactly the keys some answer produces. */
  lemma {:induction false} CollectKeys(rs: seq<Response>, k: string)
    ensures k in CollectFoods(rs).values <==> k in FoodKeys(rs)
    decreases |rs|
  {
    if rs != [] {
      var pre, last := rs[..|rs| - 1], rs[|rs| - 1];
      var c := CollectFoods(pre);
      calc <==> {
        k in CollectFoods(rs).values;
        { SetGet(c, FoodKey(last), FoodOf(last), k); }
        k == FoodKey(last) || k in c.values;
        { CollectKeys(pre, k); }
        k == FoodKey(last) || k in FoodKeys(pre);
        { assert FoodKeys(rs) == FoodKeys(pre) + [FoodKey(last)]; }
        k in FoodKeys(rs);
      }
    }
  }

  /**
   * The keys come in the order in which they first occur among the answers: a
   * repeated key keeps the position of its first answer (and, by
   * `CollectLastWins`, the food of its last).
   */
  lemma {:induction false} CollectOrder(rs: seq<Response>)
    ensures CollectFoods(rs).keys == AppendNew([], FoodKeys(rs))
    decreases |rs|
  {
    if rs != [] {
      var pre, last := rs[..|rs| - 1], rs[|rs| - 1];
      var c, ks := CollectFoods(pre), FoodKeys(rs);
      var d := AppendNew([], FoodKeys(pre));
      calc {
        CollectFoods(rs).keys;
        { SetGet(c, FoodKey(last), FoodOf(last), FoodKey(last)); }
        if FoodKey(last) in c.keys then c.keys else c.keys + [FoodKey(last)];
        { CollectOrder(pre); }
        if FoodKey(last) in d then d else d + [FoodKey(last)];
        { assert ks[..|ks| - 1] == FoodKeys(pre) && ks[|ks| - 1] == FoodKey(last); }
        AppendNew([], ks);
      }
    }
  }

  /**
   * When the keys are distinct nothing is overwritten: the result holds one
   * food per answer, in the order of the answers.
   */
  lemma {:induction false} CollectDistinct(rs: seq<Response>)
    requires DistinctKeys(rs)
    ensures CollectFoods(rs).keys == FoodKeys(rs)
    decreases |rs|
  {
    if rs != [] {
      var pre, last := rs[..|rs| - 1], rs[|rs| - 1];
      var c := CollectFoods(pre);
      calc {
        CollectFoods(rs).keys;
        Set(c, FoodKey(last), FoodOf(last)).keys;
        { CollectAbsent(pre, FoodKey(last));
          SetGet(c, FoodKey(last), FoodOf(last), FoodKey(last)); }
        c.keys + [FoodKey(last)];
        { assert DistinctKeys(pre);
          CollectDistinct(pre); }
        FoodKeys(pre) + [FoodKey(last)];
        FoodKeys(rs);
      }
    }
  }

  /**
   * Ingredients typed with `", "` between them are each looked up once, in
   * the order they were typed.
   */
  lemma NutrientValuesOfTyped(service: string -> Response, xs: seq<string>)
    requires AllClean(xs)
    ensures NutrientValuesOf(service, JoinComma(xs)) == CollectFoods(Queried(service, xs))
  {
    IngredientListJoin(xs);
  }

  lemma QueriedSnoc(service: string -> Response, xs: seq<string>, i: nat)
    requires i < |xs|
    ensures Queried(service, xs[..i + 1]) == Queried(service, xs[..i]) + [service(xs[i])]
  {
  }
}
