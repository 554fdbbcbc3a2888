# Yakoi nutrition rules, modelled in Dafny

Yakoi is a React Native app. It scans food products, looks them up in
OpenFoodFacts, records what the user eats and compares it with a daily
calorie budget. This project models the deterministic rules inside the app's
screens and utilities as pure Dafny functions over sequences, maps and exact
numbers, and proves what those rules guarantee:

- **calorie arithmetic** (`src/utils/index.js`): consumed calories per unit, the
  kJ-to-kcal conversion and its `-1` sentinel, Markdown stripping of the
  ingredient text, the decimal-comma fix and the Harris-Benedict daily budget;
- **the consumption screen** (`src/screens/application/ConsumptionScreen.js`):
  records sorted newest first, grouped by day, week and month, calorie totals
  per period, the shown period and the arrows that page through periods;
- **the nutrient diagram** (`src/components/YDiagram.js`): which nutrients are
  drawn, how many thresholds a value passes, which bands are opaque, the level
  suffix and colour;
- **the progress bar** (`src/components/YProgressBar.js`): its colour band;
- **the product sheet** (`src/screens/application/ProductScreen.js`): the
  allergen line, the label pills and when consuming is offered;
- **the shopping list** (`src/screens/application/ShoppingListScreen.js`): add,
  tick and delete;
- **the store** (`store.js`): the `userInfo` reducer and its action creators.

Modules: `Wrappers` (`Option`), `Seqs` (index and count helpers), `Utils`,
`Dates` (instants, week starts, calendar months), `Grouping` (the
label-dedup-filter grouping the screen uses three times), `Folds` (sums and
left folds), `Consumption`, `Diagram`, `ProgressBar`, `Product`,
`ShoppingList` and `Store`.

Modelling choices:

- **Rounding.** `Math.round` is `floor(x + 1/2)` over `real`, so halves round
  toward +Infinity, as in JavaScript: 2.5 becomes 3 and -2.5 becomes -2.
  Numbers are exact reals, not IEEE doubles.
- **Daily-budget guard.** The guard at `src/utils/index.js:199` joins its two
  bounds with `&&`, so it never fires. `Utils.DailyCalories` models the code
  as written; the intended guard is `Utils.DailyCaloriesIntended` (see
  Findings).
- **Instants.** An instant is an integer number of milliseconds from local
  midnight on 1 January 1970, a Thursday. The app sets moment's locale to
  French, so a week starts on Monday at midnight. The labels
  `"dddd DD/MM/YYYY"` and `"MMMM YYYY"` are one-to-one with the day number and
  the (year, month) pair, so the model groups by those keys. Calendar months
  come from the proleptic Gregorian calendar: the start of each year is
  counted year by year from 1970, and months are offsets within the year.
- **Truthiness.** JavaScript truthiness of an optional string is "present and
  non-empty". Defaulted parameters are `Option`s that fall back to the
  JavaScript default.
- **Current year.** `new Date().getFullYear()` becomes the `currentYear`
  parameter.
- **Hidden field.** `formatProductData` stores the salt unit under
  `salt_unit_unit`, but the diagram reads `salt_unit`. The diagram's salt unit
  is therefore always `"g"`, and the model gives the salt row no unit input.
- **The `%` unit.** `getConsumedCalories` itself demands nothing, so
  `Utils.ConsumedCalories` has no precondition. The form's rule that `%` is only
  offered for a positive package quantity is modelled on its own, as
  `Utils.UnitsOffered`.

## Model

| member | source | states |
|---|---|---|
| `Utils.Round` | src/utils/index.js:135 | `Math.round` gives the integer within half a unit of x, with halves going up |
| `Utils.RoundUnique` | src/utils/index.js:135 | that integer is the only one within half a unit, so any value meeting the bound is the rounded one |
| `Utils.RoundMonotone` | src/utils/index.js:135 | rounding preserves order |
| `Utils.Kcal` | src/utils/index.js:134-136 | kilocalories are kilojoules / 4.184, rounded |
| `Utils.ProductCalories` | src/utils/index.js:76 | a product's `calories` is never 0: a missing energy or one that rounds to 0 kcal gives -1; it is positive exactly when the energy is present and at least 2.092 kJ |
| `Utils.StripMarkdown` | src/utils/index.js:61-65 | every `_` and `*` is dropped (length falls by their count), no marker remains, only characters of the input appear, and clean text is unchanged |
| `Utils.StripMarkdownAppend` | src/utils/index.js:63-65 | cleanup works character by character: it distributes over concatenation, so kept characters keep their order |
| `Utils.StripMarkdownIdempotent` | src/utils/index.js:61-66 | cleaning twice is cleaning once |
| `Utils.Ingredients` | src/utils/index.js:58-66 | the cleaned French text when it is non-empty, else the cleaned generic text, else `""`; the result never holds a marker |
| `Utils.ConsumedCalories` | src/utils/index.js:146-164 | `g`/`ml` round calories100·quantity/100; `%` rounds quantity/100 · calories100·productQuantity/100 once; any other unit returns calories100 whatever the quantity |
| `Utils.PercentIsGramsOfFraction` | src/utils/index.js:157-159 | eating q % of a package counts the same as eating q·productQuantity/100 grams |
| `Utils.ConsumedCaloriesMonotone` | src/utils/index.js:153-155 | for a non-negative density, more grams or millilitres never count fewer calories |
| `Utils.UnitsOffered` | src/screens/application/ConsumptionFormScreen.android.js:37-41 | the form offers exactly `g` and `ml`, in that order, followed by `%` exactly for a known positive package quantity |
| `Utils.FormatQuantity` | src/utils/index.js:171-173 | `replace(",", ".")` changes only the first comma into a point; length and every other character stay, and a comma-free string is returned as is |
| `Utils.FormatQuantityCounts` | src/utils/index.js:172 | when there is a comma, the comma count falls by one and the point count rises by one |
| `Utils.FormatQuantityOneComma` | src/utils/index.js:172 | an input with at most one comma comes out comma-free |
| `Utils.Bmr` | src/utils/index.js:194-196 | for a non-negative age the estimate is at most the weight-and-height part of the female formula for `"f"` and of the male formula for any other value: age only lowers it |
| `Utils.BmrMonotone` | src/utils/index.js:194-196 | for either formula, more weight or height never lowers the estimate and more age never raises it |
| `Utils.ClampAsWritten` | src/utils/index.js:198-199 | the guard `MB <= 500 && MB >= 12000` never holds: every metabolism passes through unchanged |
| `Utils.ClampAsWrittenKeepsImplausible` | src/utils/index.js:194-199 | a 120-year-old man of 20 kg and 100 cm gets a metabolism of 29.1 kcal, which the guard keeps; the intended guard gives 2500 |
| `Utils.ClampIntended` | src/utils/index.js:198-199 | the intended guard always yields a metabolism strictly between 500 and 12000, and keeps any plausible one |
| `Utils.DailyCalories` | src/utils/index.js:185-202 | with defaults m, 175 cm, 75 kg, born 1990, activity 1.2 and age = currentYear − dob, the result is the female formula for `"f"` and the male one otherwise, times activity, rounded, with no clamping |
| `Utils.DailyCaloriesIntended` | src/utils/index.js:193-201 | with the intended guard, a plausible metabolism gives the as-written result and an implausible one gives round(2500 · activity) |
| `Utils.ReferenceValues` | src/utils/index.js:146-202 | 200 g at 250 kcal/100 g is 500 kcal, 50 % of a 500 g package at 200 kcal/100 g is 500 kcal, and the default profile in 2020 needs 2124 kcal |
| `Dates.WeekStart` | src/screens/application/ConsumptionScreen.js:131-133 | `startOf("week")` in the French locale is the latest Monday midnight not after the instant, within seven days of it |
| `Dates.WeekStartIdempotent` | src/screens/application/ConsumptionScreen.js:146 | moving to the week start twice moves once, so repeated filtering leaves dates at their week start |
| `Dates.WeekStartSameWeek` | src/screens/application/ConsumptionScreen.js:131-133 | every instant of a week has that week's start |
| `Dates.MonthOf` | src/screens/application/ConsumptionScreen.js:154 | the `"MMMM YYYY"` month of a day is a month from 1 to 12 whose first day is at or before the day and whose following month starts after it |
| `Dates.MonthOfDays` | src/screens/application/ConsumptionScreen.js:154 | a day lies in exactly one month: a month whose days include the day is the day's month |
| `Dates.MonthOfMonotone` | src/screens/application/ConsumptionScreen.js:154 | a later day never falls in an earlier month |
| `Dates.MonthLength` | src/screens/application/ConsumptionScreen.js:154 | months have the Gregorian lengths: 30 days for April, June, September and November, 29 for February in a leap year and 28 otherwise, 31 for the rest |
| `Dates.YearStartClosedForm` | src/screens/application/ConsumptionScreen.js:154 | from 1970 on, each year starts 365 days after the previous one plus one per leap year, leap years following the 4/100/400 rule |
| `Dates.WeekReference` | src/screens/application/ConsumptionScreen.js:131-133 | noon on Wednesday 1 April 2020 lies in the week that starts on Monday 30 March 2020 |
| `Dates.MonthReferenceApril` | src/screens/application/ConsumptionScreen.js:154 | day 18353, 1 April 2020, is in April 2020 |
| `Dates.MonthReferenceMarch` | src/screens/application/ConsumptionScreen.js:154 | day 18351, 30 March 2020, is in March 2020 |
| `Grouping.Unique` | src/screens/application/ConsumptionScreen.js:108-114 | the `indexOf(x) === index` filter keeps each label once, holds exactly the input's labels, and keeps them in first-occurrence order |
| `Grouping.Select` | src/screens/application/ConsumptionScreen.js:121-123 | a bucket's filter keeps only records of its label |
| `Grouping.SelectCounts` | src/screens/application/ConsumptionScreen.js:121-123 | the filter keeps every record of its label exactly as often as the list has it, and nothing else |
| `Grouping.SelectAppend` | src/screens/application/ConsumptionScreen.js:121-123 | filtering distributes over concatenation, so records keep their relative order |
| `Grouping.GroupTitles` | src/screens/application/ConsumptionScreen.js:108-126 | titles are distinct and in first-occurrence order; every record's label is a title and every title labels some record |
| `Grouping.GroupEmpty` | src/screens/application/ConsumptionScreen.js:108-126 | no records, no buckets |
| `Grouping.GroupNonEmpty` | src/screens/application/ConsumptionScreen.js:117-126 | every bucket holds at least one record |
| `Grouping.GroupPartition` | src/screens/application/ConsumptionScreen.js:117-126 | the buckets together hold exactly the records, with multiplicity |
| `Grouping.GroupMembers` | src/screens/application/ConsumptionScreen.js:121-123 | a bucket holds only records of the list whose label is its title |
| `Grouping.GroupHome` | src/screens/application/ConsumptionScreen.js:117-126 | every record sits in the bucket titled by its label |
| `Grouping.GroupTitlesDescending` | src/screens/application/ConsumptionScreen.js:74-126 | when records are ordered by a rank of their label, highest first, and the rank tells labels apart, the bucket titles strictly decrease in rank |
| `Folds.FoldIsSum` | src/screens/application/ConsumptionScreen.js:300-312 | the left fold from an accumulator is that accumulator plus the sum of the measures |
| `Folds.SumPermutation` | src/screens/application/ConsumptionScreen.js:300-312 | a total does not depend on the order of the records |
| `Consumption.InsertNewest` | src/screens/application/ConsumptionScreen.js:82 | insertion adds exactly one record and keeps the others |
| `Consumption.InsertNewestSorted` | src/screens/application/ConsumptionScreen.js:82 | inserting into a newest-first list keeps it newest first |
| `Consumption.SortNewestFirst` | src/screens/application/ConsumptionScreen.js:74-82 | `sort((a, b) => b.date - a.date)` returns a permutation of the records in non-increasing date order |
| `Consumption.InsertNewestStable` | src/screens/application/ConsumptionScreen.js:82 | inserting a record puts it just before the records of its date already placed, so same-date records keep their relative order |
| `Consumption.SortNewestFirstStable` | src/screens/application/ConsumptionScreen.js:82 | the sort is stable: records of the same date keep their input order |
| `Consumption.Restamp` | src/screens/application/ConsumptionScreen.js:146 | the in-place `startOf("week")` moves a record's date to its week start, never forward, and changes nothing else: id, product, quantity, unit, calories and week stay |
| `Consumption.RestampNewestFirst` | src/screens/application/ConsumptionScreen.js:144-147 | moving every date to its week start keeps the list newest first |
| `Consumption.Aggregate` | src/screens/application/ConsumptionScreen.js:74-169 | as written, the day, week and month lists, flattened, each hold exactly the records moved to their week start, with multiplicity |
| `Consumption.AggregateMembers` | src/screens/application/ConsumptionScreen.js:117-169 | as written, a day or week bucket holds only records of its day or week, and a month bucket only records whose week start lies in its month, each moved to its week start |
| `Consumption.AggregatePeriodOrder` | src/screens/application/ConsumptionScreen.js:74-169 | every tab lists its periods from the most recent to the oldest: titles strictly decrease by day, by week start and by month, so index 0 is the newest period |
| `Consumption.AggregateIntended` | src/screens/application/ConsumptionScreen.js:74-169 | as intended, the day, week and month lists, flattened, each hold exactly the records, with multiplicity |
| `Consumption.AggregateIntendedMembers` | src/screens/application/ConsumptionScreen.js:117-169 | as intended, a bucket holds only records of its own day, week or month |
| `Consumption.AggregateEmpty` | src/screens/application/ConsumptionScreen.js:108-169 | no records give no day, week or month buckets, as written or as intended |
| `Consumption.AggregateDayTitles` | src/screens/application/ConsumptionScreen.js:108-126 | day titles are distinct, and there is one exactly for each day with a record |
| `Consumption.AggregateWeekTitles` | src/screens/application/ConsumptionScreen.js:129-150 | week titles are distinct, and there is one exactly for each week start of a record |
| `Consumption.AggregateMonthTitles` | src/screens/application/ConsumptionScreen.js:153-169 | month titles are distinct, and there is one exactly for each month of a record's week start, since the dates were already moved |
| `Consumption.AggregateNewestFirst` | src/screens/application/ConsumptionScreen.js:108-169 | every bucket of every period lists its records newest first |
| `Consumption.AggregateHome` | src/screens/application/ConsumptionScreen.js:117-169 | as written, a record appears, moved to its week start, in its day bucket, its week bucket and the bucket of its week start's month |
| `Consumption.MonthOfWeekStartCounterexample` | src/screens/application/ConsumptionScreen.js:144-165 | a record from noon on 1 April 2020 lands in March 2020 as written and in April 2020 as intended |
| `Consumption.AggregateIntendedHome` | src/screens/application/ConsumptionScreen.js:129-165 | as intended, a record appears unchanged in the buckets of its own day, week and month |
| `Consumption.AggregateConservesCalories` | src/screens/application/ConsumptionScreen.js:108-169 | as written, the day, week and month totals each add up to the calories of all records, as the partition implies |
| `Consumption.TabContent` | src/screens/application/ConsumptionScreen.js:288-318 | no periods show the empty-list placeholder; a valid index shows that period's records and their calorie sum; an index with no period shows no records and 0 calories |
| `Consumption.PeriodMax` | src/screens/application/ConsumptionScreen.js:207-229 | the bar maximum is one daily budget for a day, seven for a week and thirty for a month |
| `Consumption.BarWarnsOverBudget` | src/screens/application/ConsumptionScreen.js:207-229 | the budget is 1, 7 or 30 daily budgets, and the bar warns (orange or red) exactly when the period's calories reach it |
| `Consumption.Press` | src/screens/application/ConsumptionScreen.js:405-463 | "previous" is disabled at the oldest period and "next" at the newest; a disabled arrow changes nothing, an enabled one moves by one, and a valid index stays valid |
| `Consumption.PressAll` | src/screens/application/ConsumptionScreen.js:405-463 | any sequence of presses from a valid index stays on a valid index |
| `Consumption.PreviousReaches` | src/screens/application/ConsumptionScreen.js:405-443 | k presses of "previous" go back k periods, stopping at the oldest |
| `Consumption.PastTheEndNotClamped` | src/screens/application/ConsumptionScreen.js:405 | the `===` guard does not stop an index already past the oldest period |
| `Consumption.ResetOnLengthChange` | src/screens/application/ConsumptionScreen.js:410-412 | whenever the number of periods changes, the index goes back to 0, the most recent period |
| `Consumption.ShownAfterReset` | src/screens/application/ConsumptionScreen.js:289-312 | after that reset a tab with periods shows the most recent period's records |
| `Diagram.DiagramData` | src/components/YDiagram.js:84-95 | the drawn rows are exactly the nutrients with a present positive value, and only those |
| `Diagram.AllNutrients` | src/components/YDiagram.js:7-93 | the eight candidate rows carry the keys "1" to "8", in that order |
| `Diagram.DiagramDataOrder` | src/components/YDiagram.js:84-95 | the drawn rows keep the fixed calories-to-fruits order: every key is one of "1" to "8" and the keys strictly increase along the list, so the drawn list is the eight rows with the hidden ones taken out; cutting the eight rows in two cuts the drawn list at the same place |
| `Grouping.SelectIncreasing` | src/components/YDiagram.js:95 | a filter keeps its input's order: any rank that strictly increases along the input strictly increases along the kept elements |
| `Diagram.Diagram` | src/components/YDiagram.js:97-120 | "Aucune donnees nutritionnelles" is shown exactly when no nutrient has a positive value |
| `Diagram.NoCaloriesRowForSentinel` | src/components/YDiagram.js:8-15 | a product of unknown energy (calories -1) draws no calories row |
| `Diagram.LeadingPassed` | src/components/YDiagram.js:150-153 | the count of leading thresholds the value reaches, stopping at the first it does not reach |
| `Diagram.BornesRemplies` | src/components/YDiagram.js:146-156 | the cursor count is the leading-threshold count capped at len − 1 (0 for no thresholds), and the value reaches every threshold below it |
| `Diagram.FilledBounds` | src/components/YDiagram.js:146-156 | no thresholds give 0; otherwise the count is at most len − 1, the value reaches every threshold below it, and below that cap it misses the threshold at the count |
| `Diagram.LeadingPassedMonotone` | src/components/YDiagram.js:150 | a larger value never passes fewer thresholds |
| `Diagram.FilledBoundsMonotone` | src/components/YDiagram.js:146-156 | the cursor count never decreases as the value grows |
| `Diagram.LeadingPassedCountsAll` | src/components/YDiagram.js:150 | on ascending thresholds, stopping at the first failure counts every threshold the value reaches |
| `Diagram.ThresholdsAscending` | src/components/YDiagram.js:8-82 | all eight threshold lists are strictly ascending |
| `Diagram.BandOpacities` | src/components/YDiagram.js:196-201 | band i is opaque exactly when i ≤ the cursor count; every other band is faded |
| `Diagram.OpaqueBandsCount` | src/components/YDiagram.js:196-201 | exactly count + 1 bands are opaque: the band the value is in and every band below it |
| `Diagram.LevelSuffix` | src/components/YDiagram.js:125-130 | no level gives `""`; low, moderate and high give " - Faible", " - Modere" and " - Eleve"; any suffix starts with " - " |
| `Diagram.LevelColour` | src/components/YDiagram.js:133-143 | the value is black exactly when there is no level; high is red, moderate orange and low green |
| `ProgressBar.Divide` | src/components/YProgressBar.js:12 | `value / max` is the real quotient for a non-zero max; a zero max gives NaN for 0 and +Infinity for positive values |
| `ProgressBar.BarColour` | src/components/YProgressBar.js:26-31 | a finite ratio below a quarter is light grey and one of five quarters or more is red; NaN and +Infinity fail every comparison and end on red; -Infinity is light grey |
| `ProgressBar.ProgressColour` | src/components/YProgressBar.js:11-31 | with a positive maximum the bar is orange or red exactly when the value reaches the maximum; a zero maximum gives red for a non-negative value; the default props (0 of 100) give light grey |
| `ProgressBar.BandIff` | src/components/YProgressBar.js:26-31 | a finite ratio gets colour k (light grey to red) exactly when it lies in the k-th quarter, the first band open below and the last open above |
| `ProgressBar.BandMonotone` | src/components/YProgressBar.js:26-31 | the colour never goes down as the ratio grows |
| `Product.AllergenKeysDistinct` | src/screens/application/ProductScreen.js:48-63 | the fourteen recognised tags are distinct, so at most one test fires per tag |
| `Product.AllergenNamesRecognised` | src/screens/application/ProductScreen.js:47-64 | the names are those of the recognised tags in input order, one per occurrence (duplicates kept); other tags add nothing |
| `Product.AllergenNamesAppend` | src/screens/application/ProductScreen.js:47-64 | the name list is built tag by tag, so it distributes over concatenation |
| `Product.Join` | src/screens/application/ProductScreen.js:67 | a join starts with its first item |
| `Product.JoinAppend` | src/screens/application/ProductScreen.js:67 | joining two non-empty lists puts exactly one separator between their joins |
| `Product.AllergenNamesFound` | src/screens/application/ProductScreen.js:45-64 | some name is pushed exactly when some tag is recognised, and the first name never begins like the placeholder |
| `Product.FoundAllergens` | src/screens/application/ProductScreen.js:43-68 | when some tag is recognised, the line is the French names of all recognised tags, in tag order with duplicates kept, joined by ", "; the line is exactly "Aucun allergenes" when no tag is recognised, and differs from it otherwise |
| `Product.FoundAllergensFirst` | src/screens/application/ProductScreen.js:45-67 | otherwise the line starts with the French name of the first recognised tag |
| `Product.LabelsAndTags` | src/screens/application/ProductScreen.js:217-272 | nothing is rendered when no ingredient tag is one of the four known; otherwise the pills are the organic pill when the labels hold "en:organic", then the pill of each known tag in list order |
| `Product.LabelsFromTags` | src/screens/application/ProductScreen.js:217-272 | every pill after the organic one comes from a known ingredient tag of the product, and every known tag shows its pill |
| `Product.ConsumeOffered` | src/screens/application/ProductScreen.js:115 | the consume button appears exactly when the energy is known and at least 2.092 kJ |
| `ShoppingList.AddProduct` | src/screens/application/ShoppingListScreen.js:26-36 | an empty name changes nothing; otherwise the name is appended unticked, earlier items are unchanged and the field is cleared |
| `ShoppingList.TypeThenAdd` | src/screens/application/ShoppingListScreen.js:26-36 | after typing and adding, the field is empty and the list grew by the typed name only if it was non-empty |
| `ShoppingList.ToggleComplete` | src/screens/application/ShoppingListScreen.js:42-55 | only the tick of item i flips; names, length and other items stay, and an index outside the list changes nothing |
| `ShoppingList.ToggleInvolution` | src/screens/application/ShoppingListScreen.js:42-55 | ticking the same item twice restores the list |
| `ShoppingList.ToggleTicked` | src/screens/application/ShoppingListScreen.js:42-55 | ticking an item in range moves the ticked count by exactly one |
| `ShoppingList.DeleteProduct` | src/screens/application/ShoppingListScreen.js:61-63 | exactly the item at i disappears and the rest keep their order; an index outside the list changes nothing |
| `ShoppingList.DeleteThenToggle` | src/screens/application/ShoppingListScreen.js:42-63 | deleting an earlier item then ticking the shifted index equals ticking then deleting |
| `Store.UserInfo` | store.js:10-21 | a reset gives `{}`; a change gives the state's keys plus the payload's, payload values winning and the other values kept, and a missing payload changes nothing; other actions and a missing state leave the state (or `{}`) |
| `Store.ChangeInfos` | store.js:24-29 | `changer_infos` builds a change action carrying the fields as given |
| `Store.Reset` | store.js:31-35 | `reinitialiser` builds a reset action with no payload, whatever its argument |
| `Store.InitialState` | store.js:7-19 | with no state yet, an action of any other type (as when the store is created) yields the initial `{}` |
| `Store.ChangeIdempotent` | store.js:15-16 | applying the same `changer_infos` action twice equals applying it once |
| `Store.ChangesCompose` | store.js:15-16 | two changes in a row are one change whose later fields win |
| `Store.ResetForgets` | store.js:12-13 | `reinitialiser` forgets every earlier change, whatever its argument |
| `Store.DispatchChanges` | store.js:15-29 | after a run of changes a field is present exactly when it was before or some change set it, and it holds the value of the last change that set it |
| `Store.DispatchUntouched` | store.js:15-16 | a field that no change of the run sets keeps its value |

## Left out

- Network and storage: `fetch`, the backend routes, the OpenFoodFacts lookup,
  SecureStore and NetInfo. Their results are inputs of the model.
- Rendering: React components, styles, animations, navigation and barcode
  scanning. Only the decisions they display are modelled.
- The exact text of moment.js formats and time zones. Instants are local
  milliseconds and labels are keys one-to-one with the formatted text.
- IEEE-754 arithmetic. All arithmetic is over exact reals. NaN and the
  infinities appear only where a division by zero reaches a comparison (the
  progress bar). A missing `product_quantity` makes the `%` formula NaN in
  JavaScript; the model takes a real package quantity. Signed zero is left
  out.
- `Utils.ConsumedCalories`: does not model string-to-number coercion of the
  quantity. The form passes the string `formatQuantity(quantity)`
  (ConsumptionFormScreen.android.js:72 and :121), and JavaScript's `*` and `/`
  coerce it to a number. The form submits only when `Number` of that string is
  a non-zero number (line 212), so the model takes that number as a real.
- The percentage text at ConsumptionScreen.js:349, the diagram cursor position
  at YDiagram.js:160-163 and the pill icons: display arithmetic only.
- The `useState` hook after the early return in `TabContent`, which breaks
  React's hook rules. The model treats the index as a parameter.
- The `(product.ingredients || product.labels)` guard at ProductScreen.js:139.
  The labels are always an array and so always truthy; the model starts from
  `LabelsAndTags`.
- Email validation, profile-form coercions, the History, Favorites and Profile
  screens, and the iOS consumption form: outside the calorie and grouping rules.

## Findings

| source | as written | input that shows it | evidently intended | confidence | as-written member | corrected member |
|---|---|---|---|---|---|---|
| src/utils/index.js:199 | `MB = (MB <= 500 && MB >= 12000) ? 2500 : MB` can never be true, so implausible metabolisms are used as they are | a man aged 120, 20 kg, 100 cm: MB = 29.1, kept | replace MB by 2500 when it is at most 500 or at least 12000 (`\|\|`) | not executed | `Utils.ClampAsWrittenKeepsImplausible` | `Utils.DailyCaloriesIntended` |
| src/screens/application/ConsumptionScreen.js:146 | the weekly filter calls `date.startOf("week")` on the shared record without cloning, so every record's date moves to its week start before the months are labelled and filtered | a record from noon on Wednesday 1 April 2020 has week start Monday 30 March 2020 and is counted in March 2020 | clone the date, as line 131 does and its comment asks, so records keep their dates and months come from them | not executed | `Consumption.MonthOfWeekStartCounterexample` | `Consumption.AggregateIntendedHome` |
