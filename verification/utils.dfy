/** Calorie arithmetic and input normalisation from `src/utils/index.js`.
    Numbers are exact reals; `Math.round` is `floor(x + 1/2)`. */
module Utils {
  import opened Wrappers
  import opened Seqs

  /* ------------------------------------------------------------------ */
  /*  Rounding                                                          */
  /* ------------------------------------------------------------------ */

  /** JavaScript's `Math.round`: the nearest integer, halves rounded up. */
  function Round(x: real): (r: int)
    ensures r as real - 0.5 <= x < r as real + 0.5
  {
    (x + 0.5).Floor
  }

  /** Rounding never reverses the order of two values. */
  lemma RoundMonotone(x: real, y: real)
    requires x <= y
    ensures Round(x) <= Round(y)
  {
  }

  /** The rounding contract pins the result down: it is the only integer
      within half a unit (below, inclusive) of `x`. */
  lemma RoundUnique(x: real, n: int)
    requires n as real - 0.5 <= x < n as real + 0.5
    ensures Round(x) == n
  {
  }

  /* ------------------------------------------------------------------ */
  /*  Energy of a scanned product                                       */
  /* ------------------------------------------------------------------ */

  /** Kilojoules to kilocalories, rounded. */
  function Kcal(kJ: real): (r: int)
    ensures r as real - 0.5 <= kJ / 4.184 < r as real + 0.5
  {
    Round(kJ / 4.184)
  }

  /** The `calories` field of a formatted product: `kcal(energy) || -1`.
      A missing energy gives NaN and a zero gives 0; both are falsy and
      become the sentinel -1. */
  function ProductCalories(energy: Option<real>): (r: int)
    ensures r != 0
    ensures energy.None? ==> r == -1
    ensures energy.Some? && Kcal(energy.value) != 0 ==> r == Kcal(energy.value)
    ensures r > 0 <==> energy.Some? && energy.value >= 2.092
  {
    match energy
    case None => -1
    case Some(e) =>
      var k := Kcal(e);
      if k == 0 then -1 else k
  }

  /* ------------------------------------------------------------------ */
  /*  Ingredient text                                                   */
  /* ------------------------------------------------------------------ */

  predicate IsMarkdown(c: char)
  {
    c == '_' || c == '*'
  }

  /** JavaScript truthiness of an optional string: present and non-empty. */
  predicate Truthy(s: Option<string>)
  {
    s.Some? && |s.value| > 0
  }

  /** Every `_` and `*` removed, every other character kept in order. */
  function StripMarkdown(s: string): (r: string)
    ensures |r| == |s| - Count(s, '_') - Count(s, '*')
    ensures forall i :: 0 <= i < |r| ==> !IsMarkdown(r[i])
    ensures forall c :: c in r ==> c in s
    ensures (forall i :: 0 <= i < |s| ==> !IsMarkdown(s[i])) ==> r == s
  {
    if |s| == 0 then ""
    else (if IsMarkdown(s[0]) then "" else [s[0]]) + StripMarkdown(s[1..])
  }

  /** Stripping works character by character: it distributes over
      concatenation, so the kept characters stay in their original order. */
  lemma {:induction false} StripMarkdownAppend(a: string, b: string)
    ensures StripMarkdown(a + b) == StripMarkdown(a) + StripMarkdown(b)
  {
    if |a| == 0 {
      assert a + b == b;
    } else {
      var t := a + b;
      assert t[0] == a[0] && t[1..] == a[1..] + b;
      StripMarkdownAppend(a[1..], b);
      assert StripMarkdown(t) == (if IsMarkdown(a[0]) then "" else [a[0]]) + StripMarkdown(t[1..]);
    }
  }

  /** A second cleanup changes nothing. */
  lemma StripMarkdownIdempotent(s: string)
    ensures StripMarkdown(StripMarkdown(s)) == StripMarkdown(s)
  {
  }

  /** The `ingredients` field: the French text when it is non-empty,
      otherwise the generic one, cleaned of Markdown; `""` when neither is usable. */
  function Ingredients(textFr: Option<string>, text: Option<string>): (r: string)
    ensures forall i :: 0 <= i < |r| ==> !IsMarkdown(r[i])
    ensures Truthy(textFr) ==> r == StripMarkdown(textFr.value)
    ensures !Truthy(textFr) && Truthy(text) ==> r == StripMarkdown(text.value)
    ensures !Truthy(textFr) && !Truthy(text) ==> r == ""
  {
    var chosen := if Truthy(textFr) then textFr else text;
    if Truthy(chosen) then StripMarkdown(chosen.value) else ""
  }

  /* ------------------------------------------------------------------ */
  /*  Consumed calories                                                 */
  /* ------------------------------------------------------------------ */

  /** Calories eaten for `quantity` of `unit` of a product worth
      `calories100` per 100 g (or ml) and sold as `productQuantity`. */
  function ConsumedCalories(quantity: real, unit: string, calories100: int, productQuantity: real): (r: int)
    ensures (unit == "g" || unit == "ml") ==>
      r as real - 0.5 <= calories100 as real * quantity / 100.0 < r as real + 0.5
    ensures unit == "%" ==>
      r as real - 0.5 <= quantity * calories100 as real * productQuantity / 10000.0 < r as real + 0.5
    ensures unit != "g" && unit != "ml" && unit != "%" ==> r == calories100
  {
    match unit
    case "g" => Round((calories100 as real * quantity) / 100.0)
    case "ml" => Round((calories100 as real * quantity) / 100.0)
    case "%" =>
      var caloriesProductQuantity := (calories100 as real * productQuantity) / 100.0;
      Round((quantity / 100.0) * caloriesProductQuantity)
    case _ => calories100
  }

  /** Eating `quantity` percent of a package is eating
      `quantity * productQuantity / 100` grams of it: both round the same value once. */
  lemma PercentIsGramsOfFraction(quantity: real, calories100: int, productQuantity: real)
    ensures ConsumedCalories(quantity, "%", calories100, productQuantity)
         == ConsumedCalories(quantity * productQuantity / 100.0, "g", calories100, productQuantity)
  {
    var c := calories100 as real;
    assert (quantity / 100.0) * ((c * productQuantity) / 100.0)
        == (c * (quantity * productQuantity / 100.0)) / 100.0;
  }

  /** For a non-negative energy density, eating more by weight never counts fewer calories. */
  lemma ConsumedCaloriesMonotone(q1: real, q2: real, unit: string, calories100: int, productQuantity: real)
    requires unit == "g" || unit == "ml"
    requires calories100 >= 0 && q1 <= q2
    ensures ConsumedCalories(q1, unit, calories100, productQuantity)
         <= ConsumedCalories(q2, unit, calories100, productQuantity)
  {
    var c := calories100 as real;
    assert c * q1 <= c * q2;
    RoundMonotone(c * q1 / 100.0, c * q2 / 100.0);
  }

  /** Units the consumption form offers: `%` only for a product with a known
      positive package quantity. */
  function UnitsOffered(productQuantity: Option<real>): (units: seq<string>)
    ensures units == ["g", "ml"] || units == ["g", "ml", "%"]
    ensures "%" in units <==> productQuantity.Some? && productQuantity.value > 0.0
  {
    ["g", "ml"] + (if productQuantity.Some? && productQuantity.value > 0.0 then ["%"] else [])
  }

  /* ------------------------------------------------------------------ */
  /*  Quantity input                                                    */
  /* ------------------------------------------------------------------ */

  /** `quantity.replace(",", ".")`: a string pattern replaces only the first comma. */
  function FormatQuantity(s: string): (r: string)
    ensures |r| == |s|
    ensures forall k :: 0 <= k < |s| ==> r[k] == (if k == IndexOf(s, ',') then '.' else s[k])
    ensures ',' !in s ==> r == s
  {
    if |s| == 0 then s
    else if s[0] == ',' then "." + s[1..]
    else [s[0]] + FormatQuantity(s[1..])
  }

  /** A decimal written with at most one comma comes out comma-free; further
      commas would survive. */
  lemma FormatQuantityOneComma(s: string)
    requires Count(s, ',') <= 1
    ensures ',' !in FormatQuantity(s)
    ensures Count(FormatQuantity(s), '.') == Count(s, '.') + Count(s, ',')
  {
    FormatQuantityCounts(s);
    CountZero(FormatQuantity(s), ',');
  }

  lemma {:induction false} FormatQuantityCounts(s: string)
    ensures ',' in s ==> Count(FormatQuantity(s), ',') == Count(s, ',') - 1
    ensures ',' in s ==> Count(FormatQuantity(s), '.') == Count(s, '.') + 1
    ensures ',' !in s ==> FormatQuantity(s) == s
  {
    if |s| > 0 {
      var r := FormatQuantity(s);
      if s[0] == ',' {
        assert r == ['.'] + s[1..];
        assert s == [','] + s[1..];
        CountAppend(['.'], s[1..], ',');
        CountAppend(['.'], s[1..], '.');
        CountAppend([','], s[1..], ',');
        CountAppend([','], s[1..], '.');
      } else {
        FormatQuantityCounts(s[1..]);
        assert r == [s[0]] + FormatQuantity(s[1..]);
        assert s == [s[0]] + s[1..];
        CountAppend([s[0]], FormatQuantity(s[1..]), ',');
        CountAppend([s[0]], FormatQuantity(s[1..]), '.');
        CountAppend([s[0]], s[1..], ',');
        CountAppend([s[0]], s[1..], '.');
      }
    }
  }

  /* ------------------------------------------------------------------ */
  /*  Daily calories (Harris-Benedict)                                  */
  /* ------------------------------------------------------------------ */

  /** Basal metabolism: female coefficients for `"f"`, male ones for every other value. */
  function Bmr(gender: string, height: real, weight: real, age: int): (r: real)
    ensures age >= 0 && gender == "f" ==> r <= 655.1 + 9.56 * weight + 1.85 * height
    ensures age >= 0 && gender != "f" ==> r <= 66.5 + 13.75 * weight + 5.0 * height
  {
    if gender == "f" then 655.1 + 9.56 * weight + 1.85 * height - 4.67 * age as real
    else 66.5 + 13.75 * weight + 5.0 * height - 6.77 * age as real
  }

  /** Either formula grows with weight and height and falls with age. */
  lemma BmrMonotone(gender: string, h1: real, w1: real, a1: int, h2: real, w2: real, a2: int)
    requires h1 <= h2 && w1 <= w2 && a2 <= a1
    ensures Bmr(gender, h1, w1, a1) <= Bmr(gender, h2, w2, a2)
  {
  }

  /** The "extreme cases" guard as written: both bounds at once, so no
      metabolism is ever replaced. */
  function ClampAsWritten(mb: real): (r: real)
    ensures r == mb
  {
    if mb <= 500.0 && mb >= 12000.0 then 2500.0 else mb
  }

  /** The guard as evidently intended: outside (500, 12000) use 2500. */
  function ClampIntended(mb: real): (r: real)
    ensures 500.0 < r < 12000.0
    ensures 500.0 < mb < 12000.0 ==> r == mb
  {
    if mb <= 500.0 || mb >= 12000.0 then 2500.0 else mb
  }

  /** An input the as-written guard lets through: a 120-year-old man of
      20 kg and 100 cm has a metabolism of 29.1 kcal, and it is used as is. */
  lemma ClampAsWrittenKeepsImplausible()
    ensures Bmr("m", 100.0, 20.0, 120) == 29.1
    ensures ClampAsWritten(Bmr("m", 100.0, 20.0, 120)) < 500.0
    ensures ClampIntended(Bmr("m", 100.0, 20.0, 120)) == 2500.0
  {
  }

  const DefaultGender: string := "m"
  const DefaultHeight: real := 175.0
  const DefaultWeight: real := 75.0
  const DefaultDob: int := 1990
  const DefaultActivity: real := 1.2

  /** `dailyCalories` as written; `currentYear` stands for `new Date().getFullYear()`.
      Absent arguments take the JavaScript default values. */
  function DailyCalories(gender: Option<string>, height: Option<real>, weight: Option<real>,
                         dob: Option<int>, activity: Option<real>, currentYear: int): (r: int)
    ensures
      var g := gender.GetOr(DefaultGender);
      var h := height.GetOr(DefaultHeight);
      var w := weight.GetOr(DefaultWeight);
      var age := currentYear - dob.GetOr(DefaultDob);
      var mb := if g == "f" then 655.1 + 9.56 * w + 1.85 * h - 4.67 * age as real
                else 66.5 + 13.75 * w + 5.0 * h - 6.77 * age as real;
      r as real - 0.5 <= mb * activity.GetOr(DefaultActivity) < r as real + 0.5
  {
    var age := currentYear - dob.GetOr(DefaultDob);
    var mb := Bmr(gender.GetOr(DefaultGender), height.GetOr(DefaultHeight), weight.GetOr(DefaultWeight), age);
    Round(ClampAsWritten(mb) * activity.GetOr(DefaultActivity))
  }

  /** `dailyCalories` with the guard as intended: the metabolism the estimate
      is scaled from always lies strictly between 500 and 12000 kcal. */
  function DailyCaloriesIntended(gender: Option<string>, height: Option<real>, weight: Option<real>,
                                 dob: Option<int>, activity: Option<real>, currentYear: int): (r: int)
    ensures
      var mb := Bmr(gender.GetOr(DefaultGender), height.GetOr(DefaultHeight), weight.GetOr(DefaultWeight),
                    currentYear - dob.GetOr(DefaultDob));
      if 500.0 < mb < 12000.0 then r == DailyCalories(gender, height, weight, dob, activity, currentYear)
      else r == Round(2500.0 * activity.GetOr(DefaultActivity))
  {
    var age := currentYear - dob.GetOr(DefaultDob);
    var mb := Bmr(gender.GetOr(DefaultGender), height.GetOr(DefaultHeight), weight.GetOr(DefaultWeight), age);
    var clamped := ClampIntended(mb);
    Round(clamped * activity.GetOr(DefaultActivity))
  }

  /** Reference values: 200 g at 250 kcal/100 g, half of a 500 g package at
      200 kcal/100 g, and the default profile in 2020. */
  lemma ReferenceValues()
    ensures ConsumedCalories(200.0, "g", 250, 0.0) == 500
    ensures ConsumedCalories(50.0, "%", 200, 500.0) == 500
    ensures DailyCalories(None, None, None, None, None, 2020) == 2124
  {
    RoundUnique(500.0, 500);
    assert (50.0 / 100.0) * ((200 as real * 500.0) / 100.0) == 500.0;
    assert Bmr("m", 175.0, 75.0, 30) * 1.2 == 2123.58;
    RoundUnique(2123.58, 2124);
  }
}
