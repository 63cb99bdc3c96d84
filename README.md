# vitalert food parsing, modelled in Dafny

vitalert is a small React application. It takes a comma-separated list of
ingredients, looks each one up with the Edamam nutrition-analysis service, and
shows the nutrients of the meal ordered by percent of the daily value. This
project models the non-visual core of that application, `src/FoodParsing.tsx`,
and proves properties of the model. The core consists of:

- **the nutrient catalogue.** This is the `Nutrient` enum with its 32 members and their upstream codes. Beside it sit the display-name table and `getNutrientCommonName` (`nutrients.dfy`, module `Nutrients`).
- **`getNutrientValues`.** It splits the input at `\s*,\s*` and drops empty pieces (`ingredients.dfy`, module `Ingredients`). It reads each answer into a food with its nutrient profile, using the percent-daily fallback for monounsaturated fat, polyunsaturated fat and cholesterol. Each food is stored under `foodMatch + " (" + measure + ")"`, and a later food overwrites an earlier one (`nutrientvalues.dfy`, module `NutrientValues`).
- **`sumNutrients`** (`profiles.dfy`, module `Profiles`).
- **`combineFoodNutrientMaps`** (`foods.dfy`, module `Foods`).
- **`sortByDailyValue`** (`ordering.dfy`, module `Ordering`).

A JavaScript `Map` is modelled as `JsMaps.JsMap`: a sequence of distinct keys in insertion order, together with a map from those keys to their values (`jsmaps.dfy`). `Map.prototype.set` and the `forEach` loops that fill one map from another are written once, in that module. `Options.Option` stands for a value that may be `undefined`.

The operations that work by updating a map step by step are methods with loops:
- `GetNutrientValues`, `WalkNutrients`, `SumNutrients`, `Copy`, `MergeEntries` and the push loop of `SortByDailyValue`;
- the sort itself, which is an in-place stable insertion sort on an array.

Each method that models a source function is proved equal to a specification function, and the properties the source promises are proved about those functions. The helper that shifts array elements inside the sort is specified pointwise instead.

The enum has 32 members. Two details of the code decide what the model computes:
- In `sumNutrients`, `prev.percentDaily ?? 0 + (value.percentDaily ?? 0)` parses as `prev ?? (0 + (value ?? 0))`. So a nutrient keeps the first percent of the daily value that is present; percentages are not added.
- `getNutrientCommonName` looks names up by member name (`"VitaminA"`), which is the key profiles are stored under. It does not look them up by the enum's value (`"VITA_RAE"`); a code gives `""`.

## Model

| member | source | states |
|---|---|---|
| Nutrients.MemberName | src/FoodParsing.tsx:20-53 | definition without a contract: the name each of the 32 members is declared under, the key `Object.entries` gives (`v[0]`); `CommonNameOfMember` states the lookups by it |
| Nutrients.Code | src/FoodParsing.tsx:20-53 | definition without a contract: the string value of each member (`v[1]`), the code the answer is read by; `CatalogueAt` pairs each member with it |
| Nutrients.CatalogueComplete | src/FoodParsing.tsx:111-112 | the walk over `Object.entries(Nutrient)` visits every member |
| Nutrients.CatalogueOrder | src/FoodParsing.tsx:20-53 | the walk has exactly 32 entries, the i-th being the member declared i-th, so each member is visited once, in declaration order |
| Nutrients.CatalogueAt | src/FoodParsing.tsx:20-53 | every member stands in the walk at its declaration position |
| Nutrients.CommonName | src/FoodParsing.tsx:90-93 | the lookup gives a non-empty name exactly when its argument is a name listed in the table, and "" for any other string |
| Nutrients.CommonNameOfMember | src/FoodParsing.tsx:55-93 | for each of the 32 members, looking up its member name gives its non-empty display name; looking up its upstream code gives "" |
| Nutrients.CommonNameOutsideCatalogue | src/FoodParsing.tsx:90-93 | every string that is not a member name gives "": the lookup never fails |
| Ingredients.IsSpace | src/FoodParsing.tsx:101 | definition without a contract: the characters of the JavaScript class `\s` in the split's regular expression |
| Ingredients.TrimStart | src/FoodParsing.tsx:101 | the greedy `\s*` after a comma: the result is no longer than its input and does not start with white space |
| Ingredients.TrimStartCut | src/FoodParsing.tsx:101 | what `TrimStart` keeps is a suffix of its input, and everything it removes is white space |
| Ingredients.TrimEnd | src/FoodParsing.tsx:101 | the greedy `\s*` before a comma: the result is no longer than its input and does not end in white space |
| Ingredients.TrimEndCut | src/FoodParsing.tsx:101 | what `TrimEnd` keeps is a prefix of its input, and everything it removes is white space |
| Ingredients.SplitAtCommas | src/FoodParsing.tsx:101 | splitting at `\s*,\s*` always gives at least one piece, and no piece contains a comma |
| Ingredients.SplitAtCommasCount | src/FoodParsing.tsx:101 | there is exactly one piece more than the input has commas |
| Ingredients.SplitAtCommasEdges | src/FoodParsing.tsx:101 | the white space next to a comma goes with the separator: no piece ends in white space before a comma, and no piece starts with white space after one |
| Ingredients.SplitAtCommasFirst | src/FoodParsing.tsx:101 | the first piece starts where the input starts (leading white space is kept) |
| Ingredients.SplitAtCommasSeparators | src/FoodParsing.tsx:101 | for every input, splitting loses nothing: there is one separator fewer than pieces, the input is the pieces with the separators between them, and every separator is white space, exactly one comma and white space |
| Ingredients.CutSeparator | src/FoodParsing.tsx:101 | at the first comma, the input is the trimmed text before it, a separator, and the trimmed rest |
| Ingredients.NonEmpty | src/FoodParsing.tsx:101 | the filter keeps only non-empty pieces, all taken from its input |
| Ingredients.NonEmptyAppend | src/FoodParsing.tsx:101 | the filter distributes over concatenation: filtering `a + b` gives the filtered `a` followed by the filtered `b`, so kept pieces keep their input order |
| Ingredients.NonEmptySingle | src/FoodParsing.tsx:101 | a single piece is kept exactly when it is non-empty |
| Ingredients.IngredientList | src/FoodParsing.tsx:101 | every ingredient queried is non-empty and has no comma |
| Ingredients.SplitJoin | src/FoodParsing.tsx:101 | split is the inverse of joining with ", ": ingredients without commas or edge white space come back as they were, in order |
| Ingredients.NonEmptyKeeps | src/FoodParsing.tsx:101 | the empty-piece filter leaves a list of non-empty ingredients unchanged |
| Ingredients.IngredientListJoin | src/FoodParsing.tsx:101 | an ingredient list typed with ", " between its items is queried exactly as typed, in order |
| NutrientValues.NutrientValuesOf | src/FoodParsing.tsx:100-143 | definition without a contract: the foods collected from the answers to the ingredient list; `GetNutrientValues` is proved equal to it and `NutrientValuesOfTyped` states it for typed lists |
| NutrientValues.Queried | src/FoodParsing.tsx:104-110 | one answer per ingredient, the i-th being the service's answer for the i-th ingredient |
| NutrientValues.GetNutrientValues | src/FoodParsing.tsx:100-143 | the loop returns the map collected from the answers to the ingredient list, in input order |
| NutrientValues.ReadFood | src/FoodParsing.tsx:130-139 | an answer is read into its food: matched name, quantity, measure and nutrient profile |
| NutrientValues.BuildProfile | src/FoodParsing.tsx:109-129 | a food's profile is the walk over the whole catalogue |
| NutrientValues.WalkNutrients | src/FoodParsing.tsx:111-129 | the `forEach` loop stores, for each visited nutrient the answer reports, its value |
| NutrientValues.ReadNutrient | src/FoodParsing.tsx:113-126 | a value exists exactly when `totalNutrients` has the code; it carries the answer's unit, label and quantity and the `totalDaily` quantity, else the fallback of 36, 15 or 150 for FAMS, FAPU and CHOLE, else none |
| NutrientValues.Fallback | src/FoodParsing.tsx:117-123 | a fallback exists exactly for the codes FAMS, FAPU and CHOLE |
| NutrientValues.PercentDaily | src/FoodParsing.tsx:115-125 | a reported nutrient lacks a percent of the daily value exactly when the answer has no `totalDaily` entry for it and its code is none of FAMS, FAPU and CHOLE |
| NutrientValues.ValueOf | src/FoodParsing.tsx:113-126 | the answer gives a value for a nutrient exactly when `totalNutrients` has its code, and that value carries the reported quantity, unit and label |
| NutrientValues.ProfileOver | src/FoodParsing.tsx:111-129 | definition without a contract: the profile after the walk has visited the given nutrients in order; `ProfileOverGet` and `ProfileOverOrder` state its contents and order |
| NutrientValues.ProfileOf | src/FoodParsing.tsx:109-129 | definition without a contract: the walk over the whole catalogue; `ProfileOfGet` and `ProfileOfOrder` state its contents and order |
| NutrientValues.FoodOf | src/FoodParsing.tsx:130-139 | definition without a contract: the food built from an answer, with its matched name, quantity, measure and profile; `ReadFood` is proved equal to it |
| NutrientValues.FallbackOf | src/FoodParsing.tsx:117-123 | the fallback is q/36 for monounsaturated fat, q/15 for polyunsaturated fat, q/150 for cholesterol and absent for each of the other 29 nutrients |
| NutrientValues.ValueOfReported | src/FoodParsing.tsx:113-126 | a reported nutrient keeps the answer's quantity, unit and label; its percent of the daily value is the `totalDaily` quantity when present, otherwise the fallback |
| NutrientValues.ProfileOverGet | src/FoodParsing.tsx:111-129 | after visiting some nutrients, the profile holds exactly the visited nutrients the answer reports, with their values |
| NutrientValues.ProfileOfGet | src/FoodParsing.tsx:109-129 | a food's profile holds a nutrient exactly when the answer's `totalNutrients` has its code, with the value read from the answer |
| NutrientValues.ProfileOverOrder | src/FoodParsing.tsx:111-129 | visiting nutrients in declaration order stores only visited nutrients, in declaration order |
| NutrientValues.ProfileOfOrder | src/FoodParsing.tsx:109-129 | a food's profile lists its nutrients in the enum's declaration order |
| NutrientValues.FoodKey | src/FoodParsing.tsx:140 | definition without a contract: the key `foodMatch + " (" + measure + ")"`; what storing under it does is stated by `CollectLastWins` and `CollectKeys` |
| NutrientValues.CollectFoods | src/FoodParsing.tsx:102-141 | storing one food per answer leaves at most as many entries as answers |
| NutrientValues.CollectLastWins | src/FoodParsing.tsx:140 | the food stored under a key is the one from the last answer with that key: later duplicates overwrite earlier ones |
| NutrientValues.CollectAbsent | src/FoodParsing.tsx:102-141 | a key that no answer produces is absent from the result |
| NutrientValues.CollectKeys | src/FoodParsing.tsx:102-141 | the result has an entry exactly for the keys `name (measure)` that some answer produces |
| NutrientValues.CollectOrder | src/FoodParsing.tsx:102-141 | the keys come in the order in which they first occur among the answers: a repeated key keeps its first position (and, by `CollectLastWins`, the last food) |
| NutrientValues.CollectDistinct | src/FoodParsing.tsx:102-141 | when all keys are distinct, the result holds one food per answer, in answer order |
| NutrientValues.NutrientValuesOfTyped | src/FoodParsing.tsx:100-104 | for input typed as ingredients joined by ", ", the result is the collection of the answers to exactly those ingredients, in order |
| Profiles.SumNutrients | src/FoodParsing.tsx:145-167 | the nested loops compute the fold of the profiles into an empty map |
| Profiles.SumProfilesAt | src/FoodParsing.tsx:145-167 | each nutrient of the sum has, over the profiles that hold it, the summed quantity, the first profile's unit and label and the first present percent of the daily value; a nutrient no profile holds is absent |
| Profiles.SumProfilesKeys | src/FoodParsing.tsx:145-167 | the sum holds a nutrient exactly when some input profile does |
| Profiles.SumProfilesIdentity | src/FoodParsing.tsx:145-167 | the sum of no profiles is empty; the sum of one profile is that profile |
| Profiles.SumOfTwo | src/FoodParsing.tsx:152-163 | for a nutrient in both of two profiles: the quantities add, unit and label are the first's, and the first's percent of the daily value wins when present |
| Profiles.CombinedSnoc | src/FoodParsing.tsx:152-163 | one step of the loop extends the per-nutrient reference value by the next contribution |
| Profiles.Accumulate | src/FoodParsing.tsx:152-163 | a nutrient seen for the first time is stored as it is; a nutrient already present keeps its unit and label, adds the quantities, and keeps its own percent of the daily value when present, else takes the new one |
| Profiles.SumProfiles | src/FoodParsing.tsx:145-167 | the sum lists its nutrients as the first occurrences, in order, of the profiles' nutrients taken profile after profile |
| Profiles.SumProfilesKeyOrder | src/FoodParsing.tsx:145-167 | the sum holds exactly the nutrients of the profiles, each once, ordered by where each first occurs, profile after profile |
| Profiles.SumOfTwoKeys | src/FoodParsing.tsx:178 | the sum of two profiles lists the first profile's nutrients, then the second's new ones in its order |
| Foods.CombineFoodNutrientMaps | src/FoodParsing.tsx:169-187 | the copy followed by the merge loop gives the combined map |
| Foods.MergeEntries | src/FoodParsing.tsx:174-185 | the second loop folds every entry of `b` into the copy |
| Foods.MergeInfo | src/FoodParsing.tsx:175-184 | the entry stored for a key is the merge with the entry already there, or `b`'s own entry when the key is new |
| Foods.CombineGet | src/FoodParsing.tsx:169-187 | a key only in `a` keeps `a`'s entry, a key only in `b` gets `b`'s entry, a key in both gets their merge |
| Foods.MergeFoodShared | src/FoodParsing.tsx:177-182 | merging two entries keeps the first's name and measure, adds quantities, and sums the nutrient profiles (shared nutrients' quantities add) |
| Foods.MergeFood | src/FoodParsing.tsx:175-184 | a new key stores `b`'s entry as it is; a taken key keeps the stored name and measure, adds the quantities, and lists the stored profile's nutrients before the new ones |
| Foods.Combine | src/FoodParsing.tsx:169-187 | the combined map lists `a`'s keys in their order, then the keys only `b` has, in `b`'s order |
| Foods.CombineKeys | src/FoodParsing.tsx:169-187 | the combined map has exactly the keys of both maps |
| Foods.CombineIdentity | src/FoodParsing.tsx:169-187 | combining with an empty map, on either side, gives the other map unchanged |
| Foods.CombineDisjointSize | src/FoodParsing.tsx:169-187 | maps without shared keys combine into a map with as many entries as both together |
| JsMaps.Empty | src/FoodParsing.tsx:102 | definition without a contract: `new Map()`, no keys and no values (also lines 109, 146 and 170) |
| JsMaps.SetGet | src/FoodParsing.tsx:140 | `set` stores the value under its key and changes no other key; a new key is appended to the iteration order, a known key keeps its place |
| JsMaps.Get | src/FoodParsing.tsx:149 | definition without a contract: the value stored under a key, or none; `SetGet` and `MergeAllGet` state what it returns after updates |
| JsMaps.Set | src/FoodParsing.tsx:140 | definition without a contract: overwrite a known key in place, append a new one; `SetGet` states its effect |
| JsMaps.Copy | src/FoodParsing.tsx:170-173 | copying a map entry by entry into a new map gives the same map, order included |
| JsMaps.MergeAllGet | src/FoodParsing.tsx:174-185 | after folding `m` into an accumulator, each key of `m` holds the merge of the old value and `m`'s value; every other key keeps its old value |
| JsMaps.MergeAllKeys | src/FoodParsing.tsx:147-165 | the fold's keys are the accumulator's keys plus `m`'s keys |
| JsMaps.MergeFirst | src/FoodParsing.tsx:174-185 | definition without a contract: the map after the first `n` turns of `m.forEach((v, k) => acc.set(k, f(acc.get(k), v)))`; `MergeFirstOrder` states its keys and the loops' invariants use it |
| JsMaps.MergeAll | src/FoodParsing.tsx:174-185 | the fold lists the accumulator's keys in their order, then the keys of `m` it lacked, in `m`'s order |
| JsMaps.MergeFirstOrder | src/FoodParsing.tsx:174-185 | after the first `n` turns of the loop, the keys are the accumulator's followed by the new keys among the first `n` of `m` |
| JsMaps.AppendNew | src/FoodParsing.tsx:147-165 | definition without a contract: a list of keys followed by the elements of a second list it lacks, each once, in that list's order; `AppendNewFirstOccurrences` characterises it by first occurrence |
| JsMaps.AppendNewConcat | src/FoodParsing.tsx:147-165 | appending the new keys of two lists in turn is appending the new keys of their concatenation |
| JsMaps.FirstIndex | src/FoodParsing.tsx:147-165 | the position it gives holds the element, and the element does not occur before it |
| JsMaps.AppendNewFirstOccurrences | src/FoodParsing.tsx:147-165 | starting from no keys, appending the new keys of a list gives each of its elements once, ordered by first occurrence |
| JsMaps.MergeAllIntoEmpty | src/FoodParsing.tsx:147-165 | folding into an empty map with a merge that keeps a first value as it is reproduces the map, order included |
| JsMaps.Entries | src/FoodParsing.tsx:191-193 | the pushed pairs are the map's entries in iteration order, each with the value stored under its key |
| Ordering.SortByDailyValue | src/FoodParsing.tsx:189-196 | the result holds the profile's entries, each as often as it occurs, non-decreasing in `percentDaily ?? 1.1`, with equal weights in iteration order; it is the insertion sort of the entries |
| Ordering.Weight | src/FoodParsing.tsx:194 | the comparator key is an entry's percent of the daily value when present, and 1.1 when absent |
| Ordering.SortInPlace | src/FoodParsing.tsx:194 | the in-place sort leaves the array holding the insertion sort of its old contents |
| Ordering.InsertionSorted | src/FoodParsing.tsx:194 | the sorted entries, as many as the input has; `InsertionSortedSorted`, `InsertionSortedPermutation` and `InsertionSortedStable` state that they are sorted, a permutation and stable |
| Ordering.InsertionSortedSorted | src/FoodParsing.tsx:194 | the sorted sequence is non-decreasing in `percentDaily ?? 1.1` |
| Ordering.InsertionSortedPermutation | src/FoodParsing.tsx:194 | sorting keeps every entry, each as often as it occurred |
| Ordering.InsertionSortedStable | src/FoodParsing.tsx:194 | entries of equal weight keep their relative order |
| Ordering.SortedStableUnique | src/FoodParsing.tsx:194 | two sequences that are sorted and agree weight by weight on their entries and order are equal |
| Ordering.StableSortIsInsertionSort | src/FoodParsing.tsx:194 | any result of a stable sort with this comparator is the insertion sort's result, so the model fixes the output of `Array.prototype.sort` |

## Left out

- The network request (lines 106-108) and `response.json()` (line 110) are not modelled. The service is the parameter `service: string -> Response`, and a failed request or a rejected promise is not represented.
- The credentials read from the environment (lines 95-98) are not modelled. The request URL is not modelled either, because the ingredient text passed to the service stands for it.
- The React import (line 1) is not part of this model.
- An answer is modelled only through the fields the code reads: `totalNutrients`, the `quantity` of a `totalDaily` entry, and `foodMatch`, `quantity` and `measure` of `ingredients[0].parsed[0]`. A missing `ingredients[0].parsed[0]`, which throws in the source, is not modelled.
- The `console.error` on a unit mismatch (line 151) is not modelled. It is output only; the sum goes on as modelled.
- Numbers are exact reals. IEEE-754 rounding, NaN and infinities are not modelled, and neither is the comparator's behaviour on NaN.
- The source writes `percentDaily` into the answer's own object before storing it (lines 118 and 125). The model builds a new `UnitValue` with the same fields instead. Aliasing between the answer and the stored profile is therefore not captured.
- Ordering.SortInPlace: the engine's sort algorithm is not modelled. Any stable sort with the comparator gives the same result (`StableSortIsInsertionSort`), so the model sorts with insertion sort.
- Profiles are keyed by the `Nutrient` datatype. At run time the keys are the member names (`v[0]`, line 128), and `MemberName` gives each member the name it is declared under.
- NutrientValues.GetNutrientValues: the service is a function of the ingredient text, so equal ingredients always get the same answer. The network does not promise this, but no property proved here depends on it.
