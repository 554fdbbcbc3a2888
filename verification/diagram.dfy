/** The nutrient diagram (`src/components/YDiagram.js`): which nutrients are
    drawn, how many thresholds a value has passed, which bands are opaque,
    and the French level suffix. */
module Diagram {
  import opened Wrappers
  import opened Seqs
  import opened Grouping

  /** One row of the diagram. */
  datatype Nutrient = Nutrient(key: string, name: string, value: Option<real>, unit: string,
                               level: Option<string>, thresholds: seq<real>)

  /** The `nutriments` object of a formatted product. The salt unit is
      stored as `salt_unit_unit`, a field the diagram never reads. */
  datatype Nutriments = Nutriments(
    salt: Option<real>, saltUnitUnit: Option<string>,
    sugars: Option<real>, sugarsUnit: Option<string>,
    fat: Option<real>, fatUnit: Option<string>,
    saturatedFat: Option<real>, saturatedFatUnit: Option<string>,
    proteins: Option<real>, proteinsUnit: Option<string>,
    fiber: Option<real>, fiberUnit: Option<string>,
    fruitsVegetables: Option<real>)

  /** `nutrient_levels`: "low", "moderate" or "high" when known. */
  datatype NutrientLevels = NutrientLevels(salt: Option<string>, sugars: Option<string>,
                                           fat: Option<string>, saturatedFat: Option<string>)

  const CaloriesThresholds: seq<real> := [160.0, 360.0, 560.0, 800.0]
  const SaltThresholds: seq<real> := [0.46, 0.92, 1.62, 2.3]
  const SugarsThresholds: seq<real> := [9.0, 18.0, 31.0, 45.0]
  const FatThresholds: seq<real> := [5.0, 10.0, 15.0, 20.0]
  const SaturatedFatThresholds: seq<real> := [2.0, 4.0, 7.0, 10.0]
  const ProteinsThresholds: seq<real> := [8.0, 16.0]
  const FiberThresholds: seq<real> := [3.5, 7.0]
  const FruitsThresholds: seq<real> := [25.0, 50.0, 75.0, 100.0]

  /** `unit || "g"`: a missing or empty unit reads as grams. */
  function UnitOr(unit: Option<string>): (r: string)
  {
    if unit.Some? && |unit.value| > 0 then unit.value else "g"
  }

  /** `level || null` in the list element: an empty level is no level. */
  function LevelOrNull(level: Option<string>): (r: Option<string>)
  {
    if level.Some? && |level.value| > 0 then level else None
  }

  /** The eight candidate rows, calories to fruits and vegetables. */
  function AllNutrients(productCalories: int, n: Nutriments, levels: NutrientLevels): (all: seq<Nutrient>)
    ensures |all| == |RowKeys|
    ensures forall k :: 0 <= k < |all| ==> all[k].key == RowKeys[k]
  {
    [ Nutrient("1", "Calories", Some(productCalories as real), "kcal", None, CaloriesThresholds),
      Nutrient("2", "Sel", n.salt, UnitOr(None), LevelOrNull(levels.salt), SaltThresholds),
      Nutrient("3", "Sucres", n.sugars, UnitOr(n.sugarsUnit), LevelOrNull(levels.sugars), SugarsThresholds),
      Nutrient("4", "Lipides", n.fat, UnitOr(n.fatUnit), LevelOrNull(levels.fat), FatThresholds),
      Nutrient("5", "Acides gras sat.", n.saturatedFat, UnitOr(n.saturatedFatUnit),
               LevelOrNull(levels.saturatedFat), SaturatedFatThresholds),
      Nutrient("6", "Proteines", n.proteins, UnitOr(n.proteinsUnit), None, ProteinsThresholds),
      Nutrient("7", "Fibres", n.fiber, UnitOr(n.fiberUnit), None, FiberThresholds),
      Nutrient("8", "Fruits et Legumes", n.fruitsVegetables, "%", None, FruitsThresholds) ]
  }

  /** `typeof value !== undefined && value > 0`: the first test compares a
      type name with `undefined` and always holds, so only a present positive value is drawn. */
  predicate Shown(x: Nutrient)
  {
    x.value.Some? && x.value.value > 0.0
  }

  /** `filter` on `Shown`, over any list of rows. */
  function KeepShown(all: seq<Nutrient>): (r: seq<Nutrient>)
    ensures forall i :: 0 <= i < |r| ==> Shown(r[i])
    ensures forall x :: x in all ==> (x in r <==> Shown(x))
    ensures forall x :: x in r ==> x in all
  {
    SelectCounts(all, Shown, true);
    var r := Select(all, Shown, true);
    assert forall x :: x in r <==> x in multiset(r);
    r
  }

  /** The rows drawn: those of the eight with a present, positive value. */
  function DiagramData(productCalories: int, n: Nutriments, levels: NutrientLevels): (r: seq<Nutrient>)
    ensures forall i :: 0 <= i < |r| ==> Shown(r[i])
    ensures forall x :: x in AllNutrients(productCalories, n, levels) ==> (x in r <==> Shown(x))
    ensures forall x :: x in r ==> x in AllNutrients(productCalories, n, levels)
  {
    KeepShown(AllNutrients(productCalories, n, levels))
  }

  /** The keys of the eight rows, in drawing order. */
  const RowKeys: seq<string> := ["1", "2", "3", "4", "5", "6", "7", "8"]

  /** Every row's key is one of `RowKeys`, and the keys strictly increase
      along that list. */
  predicate InRowOrder(r: seq<Nutrient>)
  {
    (forall i :: 0 <= i < |r| ==> r[i].key in RowKeys) &&
    forall i, j :: 0 <= i < j < |r| ==> IndexOf(RowKeys, r[i].key) < IndexOf(RowKeys, r[j].key)
  }

  lemma RowKeysDistinct()
    ensures NoDup(RowKeys)
  {
  }

  /** Rows whose keys follow `RowKeys` position by position are drawn in
      that order. */
  lemma ShownInOrder(all: seq<Nutrient>)
    requires |all| <= |RowKeys|
    requires forall k :: 0 <= k < |all| ==> all[k].key == RowKeys[k]
    ensures InRowOrder(KeepShown(all))
  {
    var rank := (x: Nutrient) => IndexOf(RowKeys, x.key);
    RowKeysDistinct();
    forall k | 0 <= k < |all|
      ensures rank(all[k]) == k
    {
      assert all[k].key == RowKeys[k];
    }
    SelectIncreasing(all, Shown, true, rank);
    var r := KeepShown(all);
    assert r == Select(all, Shown, true);
    forall j | 0 <= j < |r|
      ensures r[j].key in RowKeys
    {
      assert r[j] in all;
    }
  }

  /** The drawn rows keep the fixed order calories, salt, sugars, fat,
      saturated fat, proteins, fibre, fruits and vegetables: their keys
      strictly increase along `RowKeys`, and cutting the eight rows anywhere
      cuts the drawn list at the same place. */
  lemma DiagramDataOrder(productCalories: int, n: Nutriments, levels: NutrientLevels, a: seq<Nutrient>, b: seq<Nutrient>)
    requires AllNutrients(productCalories, n, levels) == a + b
    ensures InRowOrder(DiagramData(productCalories, n, levels))
    ensures DiagramData(productCalories, n, levels) == Select(a, Shown, true) + Select(b, Shown, true)
  {
    ShownInOrder(AllNutrients(productCalories, n, levels));
    assert DiagramData(productCalories, n, levels) == KeepShown(AllNutrients(productCalories, n, levels));
    SelectAppend(a, b, Shown, true);
  }

  datatype DiagramView = NoNutritionData | Rows(rows: seq<Nutrient>)

  /** "Aucune donnees nutritionnelles" when no row is drawn. */
  function Diagram(productCalories: int, n: Nutriments, levels: NutrientLevels): (v: DiagramView)
    ensures v.NoNutritionData? <==> forall x :: x in AllNutrients(productCalories, n, levels) ==> !Shown(x)
    ensures v.Rows? ==> |v.rows| > 0 && forall i :: 0 <= i < |v.rows| ==> Shown(v.rows[i])
  {
    var data := DiagramData(productCalories, n, levels);
    assert |data| > 0 ==> data[0] in data;
    if |data| == 0 then NoNutritionData else Rows(data)
  }

  /** A product whose energy is unknown (calories -1) never draws a calories row. */
  lemma NoCaloriesRowForSentinel(n: Nutriments, levels: NutrientLevels)
    ensures forall x :: x in DiagramData(-1, n, levels) ==> x.key != "1"
  {
  }

  /* ------------------------------------------------------------------ */
  /*  Thresholds passed                                                 */
  /* ------------------------------------------------------------------ */

  /** How many thresholds, from the first, the value reaches before one it does not. */
  function LeadingPassed(value: real, thresholds: seq<real>): (k: nat)
    ensures k <= |thresholds|
    ensures forall i :: 0 <= i < k ==> value >= thresholds[i]
    ensures k < |thresholds| ==> value < thresholds[k]
  {
    if |thresholds| == 0 || value < thresholds[0] then 0
    else 1 + LeadingPassed(value, thresholds[1..])
  }

  /** The cursor position: leading thresholds passed, at most one less than
      their number (0 for an empty list, where `value >= undefined` is false). */
  function FilledBounds(value: real, thresholds: seq<real>): (count: nat)
    ensures |thresholds| == 0 ==> count == 0
    ensures |thresholds| > 0 ==> count <= |thresholds| - 1
    ensures forall i :: 0 <= i < count ==> value >= thresholds[i]
    ensures |thresholds| > 0 && count < |thresholds| - 1 ==> value < thresholds[count]
  {
    var k := LeadingPassed(value, thresholds);
    if |thresholds| > 0 && k > |thresholds| - 1 then |thresholds| - 1 else k
  }

  /** `bornes_remplies`, loop for loop. */
  method BornesRemplies(value: real, thresholds: seq<real>) returns (count: nat)
    ensures count == FilledBounds(value, thresholds)
    ensures |thresholds| > 0 ==> count <= |thresholds| - 1
    ensures forall i :: 0 <= i < count ==> value >= thresholds[i]
  {
    count := 0;
    while count < |thresholds| - 1 && value >= thresholds[count]
      invariant count <= LeadingPassed(value, thresholds)
      invariant |thresholds| == 0 || count <= |thresholds| - 1
      invariant forall i :: 0 <= i < count ==> value >= thresholds[i]
    {
      count := count + 1;
    }
  }

  /** A larger value never passes fewer thresholds. */
  lemma {:induction false} LeadingPassedMonotone(v1: real, v2: real, thresholds: seq<real>)
    requires v1 <= v2
    ensures LeadingPassed(v1, thresholds) <= LeadingPassed(v2, thresholds)
  {
    if |thresholds| > 0 && v1 >= thresholds[0] {
      LeadingPassedMonotone(v1, v2, thresholds[1..]);
    }
  }

  lemma FilledBoundsMonotone(v1: real, v2: real, thresholds: seq<real>)
    requires v1 <= v2
    ensures FilledBounds(v1, thresholds) <= FilledBounds(v2, thresholds)
  {
    LeadingPassedMonotone(v1, v2, thresholds);
  }

  predicate Ascending(s: seq<real>)
  {
    forall i, j :: 0 <= i < j < |s| ==> s[i] < s[j]
  }

  /** Number of thresholds the value reaches, wherever they stand. */
  function CountPassed(value: real, thresholds: seq<real>): (n: nat)
  {
    if |thresholds| == 0 then 0
    else (if value >= thresholds[0] then 1 else 0) + CountPassed(value, thresholds[1..])
  }

  lemma {:induction false} CountPassedNone(value: real, thresholds: seq<real>)
    requires forall i :: 0 <= i < |thresholds| ==> value < thresholds[i]
    ensures CountPassed(value, thresholds) == 0
  {
    if |thresholds| > 0 {
      CountPassedNone(value, thresholds[1..]);
    }
  }

  /** On ascending thresholds, stopping at the first failure counts every
      threshold reached. */
  lemma {:induction false} LeadingPassedCountsAll(value: real, thresholds: seq<real>)
    requires Ascending(thresholds)
    ensures LeadingPassed(value, thresholds) == CountPassed(value, thresholds)
  {
    if |thresholds| > 0 {
      if value < thresholds[0] {
        CountPassedNone(value, thresholds);
      } else {
        LeadingPassedCountsAll(value, thresholds[1..]);
      }
    }
  }

  /** Every threshold list of the diagram is ascending. */
  lemma ThresholdsAscending()
    ensures Ascending(CaloriesThresholds) && Ascending(SaltThresholds) && Ascending(SugarsThresholds)
    ensures Ascending(FatThresholds) && Ascending(SaturatedFatThresholds)
    ensures Ascending(ProteinsThresholds) && Ascending(FiberThresholds) && Ascending(FruitsThresholds)
  {
  }

  /* ------------------------------------------------------------------ */
  /*  Bands                                                             */
  /* ------------------------------------------------------------------ */

  datatype Opacity = Opaque | Faded

  /** `opacity: index <= b_remplies ? 1 : 0.1`, for every band. */
  function BandOpacities(bands: nat, filled: nat): (r: seq<Opacity>)
    ensures |r| == bands
    ensures forall i :: 0 <= i < bands ==> (r[i] == Opaque <==> i <= filled)
  {
    seq(bands, i requires 0 <= i < bands => if i <= filled then Opaque else Faded)
  }

  function CountOpaque(s: seq<Opacity>): (n: nat)
  {
    if |s| == 0 then 0 else (if s[0] == Opaque then 1 else 0) + CountOpaque(s[1..])
  }

  lemma {:induction false} CountOpaquePrefix(s: seq<Opacity>, m: nat)
    requires m <= |s|
    requires forall i :: 0 <= i < |s| ==> (s[i] == Opaque <==> i < m)
    ensures CountOpaque(s) == m
  {
    if |s| > 0 {
      if m > 0 {
        CountOpaquePrefix(s[1..], m - 1);
      } else {
        CountOpaquePrefix(s[1..], 0);
      }
    }
  }

  /** The opaque bands are exactly the first `filled + 1`: the band the value
      is in and every band below it. */
  lemma OpaqueBandsCount(value: real, thresholds: seq<real>)
    requires |thresholds| > 0
    ensures CountOpaque(BandOpacities(|thresholds|, FilledBounds(value, thresholds)))
         == FilledBounds(value, thresholds) + 1
  {
    var f := FilledBounds(value, thresholds);
    CountOpaquePrefix(BandOpacities(|thresholds|, f), f + 1);
  }

  /* ------------------------------------------------------------------ */
  /*  Level                                                             */
  /* ------------------------------------------------------------------ */

  /** `level ? " - " + niveaux_fr[level] : ""`; an unknown level looks up
      `undefined`, which string concatenation spells out. */
  function LevelSuffix(level: Option<string>): (r: string)
    ensures level.None? || level == Some("") ==> r == ""
    ensures level == Some("low") ==> r == " - Faible"
    ensures level == Some("moderate") ==> r == " - Modere"
    ensures level == Some("high") ==> r == " - Eleve"
    ensures r != "" ==> |r| > 3 && r[..3] == " - "
  {
    match level
    case None => ""
    case Some(l) =>
      if |l| == 0 then ""
      else " - " + (match l
                    case "low" => "Faible"
                    case "moderate" => "Modere"
                    case "high" => "Eleve"
                    case _ => "undefined")
  }

  datatype TextColour = Black | RedText | OrangeText | GreenText | UndefinedColour

  /** Colour of the value: by level when there is one, black otherwise. */
  function LevelColour(level: Option<string>): (c: TextColour)
    ensures c == Black <==> level.None? || level == Some("")
    ensures level == Some("high") ==> c == RedText
    ensures level == Some("moderate") ==> c == OrangeText
    ensures level == Some("low") ==> c == GreenText
  {
    match level
    case None => Black
    case Some(l) =>
      if |l| == 0 then Black
      else match l
           case "high" => RedText
           case "moderate" => OrangeText
           case "low" => GreenText
           case _ => UndefinedColour
  }
}
