/**
 * Parsed ingredients and the merge of two ingredient maps
 * (`combineFoodNutrientMaps`).
 */
module Foods {
  import opened Options
  import opened JsMaps
  import opened Nutrients
  import opened Profiles

  /** One parsed ingredient: matched name, parsed quantity and measure, and its nutrients. */
  datatype FoodInfo = FoodInfo(name: string, quantity: real, measure: string, nutrients: Profile)

  /** Ingredients keyed by `"<name> (<measure>)"`. */
  type FoodNutrientMap = JsMap<string, FoodInfo>

  /**
   * The second loop: an entry of `b` whose key is new is stored as it is; one
   * whose key is taken is merged with the entry already there, keeping that
   * entry's name and measure.
   */
  function MergeFood(prev: Option<FoodInfo>, value: FoodInfo): (r: FoodInfo)
    ensures prev.None? ==> r == value
    ensures prev.Some? ==>
      && r.name == prev.value.name
      && r.measure == prev.value.measure
      && r.quantity == prev.value.quantity + value.quantity
      && r.nutrients.keys == AppendNew(prev.value.nutrients.keys, value.nutrients.keys)
  {
    match prev
    case None => value
    case Some(p) =>
      SumOfTwoKeys(p.nutrients, value.nutrients);
      FoodInfo(p.name, p.quantity + value.quantity, p.measure, SumProfiles([p.nutrients, value.nutrients]))
  }

  /**
   * The result of `combineFoodNutrientMaps(a, b)`: the keys of `a` in their
   * order, then the keys only `b` has, in `b`'s order.
   */
  function Combine(a: FoodNutrientMap, b: FoodNutrientMap): (r: FoodNutrientMap)
    ensures r.keys == AppendNew(a.keys, b.keys)
  {
    MergeAll(a, b, MergeFood)
  }

  /** `combineFoodNutrientMaps`: copy `a` into a new map, then fold the entries of `b` into it. */
  method CombineFoodNutrientMaps(a: FoodNutrientMap, b: FoodNutrientMap) returns (ret: FoodNutrientMap)
    ensures ret == Combine(a, b)
  {
    var copy := Copy(a);
    ret := MergeEntries(copy, b);
    CombineIsLoop(a, b);
  }

  /**
   * The second loop of `combineFoodNutrientMaps`: each entry of `b` is stored
   * in `ret`, merged with the entry already there if its key is taken.
   */
  method MergeEntries(start: FoodNutrientMap, b: FoodNutrientMap) returns (ret: FoodNutrientMap)
    ensures ret == MergeFirst(start, b, |b.keys|, MergeFood)
  {
    ret := start;
    for j := 0 to |b.keys|
      invariant ret == MergeFirst(start, b, j, MergeFood)
    {
      var key := b.keys[j];
      var value := b.values[key];
      var prevVal := Get(ret, key);
      var stored := MergeInfo(prevVal, value);
      ret := Set(ret, key, stored);
    }
  }

  /**
   * The entry stored for a key of `b`: merged with the entry already stored
   * under it, or `b`'s own entry when the key is new.
   */
  method MergeInfo(prevVal: Option<FoodInfo>, value: FoodInfo) returns (stored: FoodInfo)
    ensures stored == MergeFood(prevVal, value)
  {
    if prevVal.Some? {
      var prev := prevVal.value;
      var nutrients := SumNutrients([prev.nutrients, value.nutrients]);
      stored := FoodInfo(prev.name, prev.quantity + value.quantity, prev.measure, nutrients);
    } else {
      stored := value;
    }
  }

  lemma CombineIsLoop(a: FoodNutrientMap, b: FoodNutrientMap)
    ensures Combine(a, b) == MergeFirst(a, b, |b.keys|, MergeFood)
  {
  }

  /**
   * A key only in `a` keeps `a`'s entry, a key only in `b` gets `b`'s entry,
   * and a key in both gets their merge.
   */
  lemma CombineGet(a: FoodNutrientMap, b: FoodNutrientMap, k: string)
    ensures k !in b.values ==> Get(Combine(a, b), k) == Get(a, k)
    ensures k in b.values ==> Get(Combine(a, b), k) == Some(MergeFood(Get(a, k), b.values[k]))
  {
    MergeAllGet(a, b, MergeFood, k);
  }

  /**
   * Merging two entries keeps the first one's name and measure, adds the
   * quantities, and sums the nutrient profiles as `sumNutrients` does: a
   * nutrient present in both gets the added quantity.
   */
  lemma MergeFoodShared(x: FoodInfo, y: FoodInfo, n: Nutrient)
    requires n in x.nutrients.values && n in y.nutrients.values
    ensures MergeFood(Some(x), y).name == x.name && MergeFood(Some(x), y).measure == x.measure
    ensures MergeFood(Some(x), y).quantity == x.quantity + y.quantity
    ensures n in MergeFood(Some(x), y).nutrients.values
    ensures MergeFood(Some(x), y).nutrients.values[n].quantity ==
      x.nutrients.values[n].quantity + y.nutrients.values[n].quantity
  {
    SumOfTwo(x.nutrients, y.nutrients, n);
  }

  /** The result has exactly the keys of both maps. */
  lemma CombineKeys(a: FoodNutrientMap, b: FoodNutrientMap)
    ensures Combine(a, b).values.Keys == a.values.Keys + b.values.Keys
  {
    MergeAllKeys(a, b, MergeFood);
  }

  /** Combining with an empty map, on either side, changes nothing. */
  lemma CombineIdentity(a: FoodNutrientMap)
    ensures Combine(a, Empty()) == a
    ensures Combine(Empty(), a) == a
  {
    MergeAllIntoEmpty(a, MergeFood);
  }

  /** Maps with no key in common combine into a map with as many entries as both together. */
  lemma CombineDisjointSize(a: FoodNutrientMap, b: FoodNutrientMap)
    requires a.values.Keys !! b.values.Keys
    ensures |Combine(a, b).values| == |a.values| + |b.values|
  {
    CombineKeys(a, b);
    var c := Combine(a, b).values.Keys;
    assert |c| == |a.values.Keys| + |b.values.Keys|;
  }
}
