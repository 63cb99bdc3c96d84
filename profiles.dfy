/**
 * Nutrient profiles and their summation (`sumNutrients`).
 */
module Profiles {
  import opened Options
  import opened JsMaps
  import opened Nutrients

  /**
   * One nutrient's measured amount for a food, with its optional percent of
   * the daily value. The source's `label` field is `labelText` here (`label` is
   * a keyword).
   */
  datatype UnitValue = UnitValue(unit: string, labelText: string, quantity: real, percentDaily: Option<real>)

  /** A food's nutrients: at most one value per nutrient, in insertion order. */
  type Profile = JsMap<Nutrient, UnitValue>

  /**
   * What `sumNutrients` stores for a nutrient when it meets `value` and the
   * running sum held `prev`. The percent of the daily value is computed as the
   * source parses it: `prev ?? 0 + (value ?? 0)` is `prev ?? (0 + (value ?? 0))`.
   */
  function Accumulate(prev: Option<UnitValue>, value: UnitValue): (r: UnitValue)
    ensures prev.None? ==> r == value
    ensures prev.Some? ==>
      && r.unit == prev.value.unit
      && r.labelText == prev.value.labelText
      && r.quantity == prev.value.quantity + value.quantity
      && r.percentDaily == if prev.value.percentDaily.Some? then prev.value.percentDaily else value.percentDaily
  {
    match prev
    case None => UnitValue(value.unit, value.labelText, value.quantity, value.percentDaily)
    case Some(p) =>
      UnitValue(
        p.unit,
        p.labelText,
        p.quantity + value.quantity,
        if p.percentDaily.None? && value.percentDaily.None? then None
        else Some(p.percentDaily.GetOr(0.0 + value.percentDaily.GetOr(0.0))))
  }

  /**
   * The running sum after folding `ps` from left to right. Its nutrients come
   * in the order in which they first occur across the profiles.
   */
  function SumProfiles(ps: seq<Profile>): (r: Profile)
    ensures r.keys == AppendNew([], KeysOf(ps))
    decreases |ps|
  {
    if ps == [] then Empty()
    else
      var init := ps[..|ps| - 1];
      AppendNewConcat([], KeysOf(init), ps[|ps| - 1].keys);
      MergeAll(SumProfiles(init), ps[|ps| - 1], Accumulate)
  }

  /** The nutrients of the profiles `ps`, each profile's in its order, one profile after another. */
  function KeysOf(ps: seq<Profile>): seq<Nutrient>
    decreases |ps|
  {
    if ps == [] then [] else KeysOf(ps[..|ps| - 1]) + ps[|ps| - 1].keys
  }

  /** `sumNutrients`: the nested `forEach` loops that fill the map `sum`. */
  method SumNutrients(input: seq<Profile>) returns (sum: Profile)
    ensures sum == SumProfiles(input)
  {
    sum := Empty();
    for i := 0 to |input|
      invariant sum == SumProfiles(input[..i])
    {
      var profile := input[i];
      ghost var before := sum;
      for j := 0 to |profile.keys|
        invariant sum == MergeFirst(before, profile, j, Accumulate)
      {
        var key := profile.keys[j];
        var value := profile.values[key];
        var prevValue := Get(sum, key);
        sum := Set(sum, key, Accumulate(prevValue, value));
      }
      assert input[..i + 1][..i] == input[..i];
    }
    assert input[..|input|] == input;
  }

  // A reference description of the sum, one nutrient at a time.

  /** The values that the profiles in `ps` hold for `n`, in order. */
  function Contributions(ps: seq<Profile>, n: Nutrient): seq<UnitValue>
    decreases |ps|
  {
    if ps == [] then []
    else
      Contributions(ps[..|ps| - 1], n) +
      match Get(ps[|ps| - 1], n)
      case Some(v) => [v]
      case None => []
  }

  function TotalQuantity(c: seq<UnitValue>): real {
    if c == [] then 0.0 else c[0].quantity + TotalQuantity(c[1..])
  }

  /** The first percent of the daily value that is present, if any. */
  function FirstPercent(c: seq<UnitValue>): Option<real> {
    if c == [] then None
    else if c[0].percentDaily.Some? then c[0].percentDaily
    else FirstPercent(c[1..])
  }

  /**
   * The value a nutrient ends up with: nothing if no profile has it; otherwise
   * the unit and label of its first contribution, the total quantity, and the
   * first present percent of the daily value.
   */
  function Combined(c: seq<UnitValue>): Option<UnitValue> {
    if c == [] then None
    else Some(UnitValue(c[0].unit, c[0].labelText, TotalQuantity(c), FirstPercent(c)))
  }

  lemma {:induction false} TotalQuantitySnoc(c: seq<UnitValue>, v: UnitValue)
    ensures TotalQuantity(c + [v]) == TotalQuantity(c) + v.quantity
    decreases |c|
  {
    if c != [] {
      assert (c + [v])[1..] == c[1..] + [v];
      TotalQuantitySnoc(c[1..], v);
    }
  }

  lemma {:induction false} FirstPercentSnoc(c: seq<UnitValue>, v: UnitValue)
    ensures FirstPercent(c + [v]) == if FirstPercent(c).Some? then FirstPercent(c) else v.percentDaily
    decreases |c|
  {
    if c != [] {
      assert (c + [v])[1..] == c[1..] + [v];
      FirstPercentSnoc(c[1..], v);
    }
  }

  /** Folding one more contribution into the reference value is one step of `sumNutrients`. */
  lemma CombinedSnoc(c: seq<UnitValue>, v: UnitValue)
    ensures Combined(c + [v]) == Some(Accumulate(Combined(c), v))
  {
    TotalQuantitySnoc(c, v);
    FirstPercentSnoc(c, v);
    if c != [] {
      assert (c + [v])[0] == c[0];
    }
  }

  /**
   * The sum holds, for every nutrient, exactly the reference value of its
   * contributions: quantities are added whatever their units, unit and label
   * come from the first profile that has the nutrient, and the percent of the
   * daily value is the first one present.
   */
  lemma {:induction false} SumProfilesAt(ps: seq<Profile>, n: Nutrient)
    ensures Get(SumProfiles(ps), n) == Combined(Contributions(ps, n))
    decreases |ps|
  {
    if ps != [] {
      var init, p := ps[..|ps| - 1], ps[|ps| - 1];
      SumProfilesAt(init, n);
      MergeAllGet(SumProfiles(init), p, Accumulate, n);
      match Get(p, n)
      case Some(v) =>
        CombinedSnoc(Contributions(init, n), v);
      case None =>
        assert Contributions(ps, n) == Contributions(init, n);
    }
  }

  lemma {:induction false} ContributionsEmpty(ps: seq<Profile>, n: Nutrient)
    ensures Contributions(ps, n) == [] <==> forall i | 0 <= i < |ps| :: n !in ps[i].values
    decreases |ps|
  {
    if ps != [] {
      var pre, p := ps[..|ps| - 1], ps[|ps| - 1];
      ContributionsEmpty(pre, n);
      assert forall i | 0 <= i < |pre| :: pre[i] == ps[i];
      assert Contributions(ps, n) == [] <==> Contributions(pre, n) == [] && n !in p.values;
    }
  }

  /** The sum has exactly the nutrients that some input profile has. */
  lemma SumProfilesKeys(ps: seq<Profile>, n: Nutrient)
    ensures n in SumProfiles(ps).values <==> exists i | 0 <= i < |ps| :: n in ps[i].values
  {
    SumProfilesAt(ps, n);
    ContributionsEmpty(ps, n);
  }

  /** Summing no profiles gives the empty profile; summing one profile gives that profile back. */
  lemma SumProfilesIdentity(p: Profile)
    ensures SumProfiles([]) == Empty()
    ensures SumProfiles([p]) == p
  {
    assert [p][..0] == [];
    forall v ensures Accumulate(None, v) == v {
    }
    MergeAllIntoEmpty(p, Accumulate);
  }

  /**
   * The sum lists each nutrient of the profiles once, in the order in which
   * the nutrients first occur, profile after profile.
   */
  lemma SumProfilesKeyOrder(ps: seq<Profile>)
    ensures forall n :: n in SumProfiles(ps).keys <==> n in KeysOf(ps)
    ensures ByFirstOccurrence(SumProfiles(ps).keys, KeysOf(ps))
  {
    AppendNewFirstOccurrences(KeysOf(ps));
  }

  /** The sum of two profiles lists the first one's nutrients, then the second one's new ones. */
  lemma SumOfTwoKeys(p1: Profile, p2: Profile)
    ensures SumProfiles([p1, p2]).keys == AppendNew(p1.keys, p2.keys)
  {
    assert [p1, p2][..1] == [p1];
    SumProfilesIdentity(p1);
  }

  /**
   * Two profiles that share a nutrient: the quantities add up, unit and label
   * are the first profile's, and the first profile's percent of the daily
   * value, when present, is kept as it is rather than added to the second's.
   */
  lemma SumOfTwo(p1: Profile, p2: Profile, n: Nutrient)
    requires n in p1.values && n in p2.values
    ensures n in SumProfiles([p1, p2]).values
    ensures SumProfiles([p1, p2]).values[n].quantity == p1.values[n].quantity + p2.values[n].quantity
    ensures SumProfiles([p1, p2]).values[n].unit == p1.values[n].unit
    ensures SumProfiles([p1, p2]).values[n].labelText == p1.values[n].labelText
    ensures SumProfiles([p1, p2]).values[n].percentDaily ==
      if p1.values[n].percentDaily.Some? then p1.values[n].percentDaily else p2.values[n].percentDaily
  {
    var ps, v1, v2 := [p1, p2], p1.values[n], p2.values[n];
    SumProfilesAt(ps, n);
    assert ps[..1] == [p1] && [p1][..0] == [];
    assert Contributions([p1], n) == [v1];
    assert Contributions(ps, n) == [v1] + [v2];
    assert [v1][1..] == [];
    TotalQuantitySnoc([v1], v2);
    FirstPercentSnoc([v1], v2);
  }
}
