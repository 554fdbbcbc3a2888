/** The product sheet (`src/screens/application/ProductScreen.js`): the
    allergen line, the label pills and when consuming is offered. */
module Product {
  import opened Wrappers
  import opened Grouping
  import Utils

  /* ------------------------------------------------------------------ */
  /*  Allergens                                                         */
  /* ------------------------------------------------------------------ */

  /** Recognised allergen tags with their French names, in the order the
      screen tests them. */
  const AllergenTable: seq<(string, string)> := [
    ("en:fish", "poisson"), ("en:milk", "lait"), ("en:gluten", "gluten"),
    ("en:soybeans", "soja"), ("en:eggs", "oeufs"), ("en:nuts", "noix"),
    ("en:mustard", "moutarde"), ("en:celery", "celeri"),
    ("en:sulphur-dioxide-and-sulphites", "sulfites"), ("en:peanuts", "cacahuetes"),
    ("en:sesame-seeds", "graines de sesame"), ("en:crustaceans", "crustaces"),
    ("en:molluscs", "mollusques"), ("fr:avoine", "avoine") ]

  const NoAllergen: string := "Aucun allergenes"

  /** The tag is one of the table's keys. */
  predicate Listed(table: seq<(string, string)>, tag: string)
  {
    |table| > 0 && (table[0].0 == tag || Listed(table[1..], tag))
  }

  /** No key is listed twice. */
  predicate DistinctKeys(table: seq<(string, string)>)
  {
    |table| == 0 || (!Listed(table[1..], table[0].0) && DistinctKeys(table[1..]))
  }

  /** The name the table gives a tag, "" for a tag it does not list. */
  function NameIn(table: seq<(string, string)>, tag: string): (name: string)
  {
    if |table| == 0 then ""
    else if table[0].0 == tag then table[0].1
    else NameIn(table[1..], tag)
  }

  /** A listed tag's name is one of the table's entries. */
  lemma {:induction false} NameInEntry(table: seq<(string, string)>, tag: string)
    requires Listed(table, tag)
    ensures exists k :: 0 <= k < |table| && table[k] == (tag, NameIn(table, tag))
  {
    if table[0].0 != tag {
      NameInEntry(table[1..], tag);
      var k :| 0 <= k < |table[1..]| && table[1..][k] == (tag, NameIn(table[1..], tag));
      assert table[k + 1] == table[1..][k];
    }
  }

  /** What one tag pushes: one name per test it passes, in test order. */
  function NamesIn(table: seq<(string, string)>, tag: string): (names: seq<string>)
  {
    if |table| == 0 then []
    else (if table[0].0 == tag then [table[0].1] else []) + NamesIn(table[1..], tag)
  }

  /** With distinct keys, a listed tag pushes exactly its own name and any other tag nothing. */
  lemma {:induction false} NamesInDistinct(table: seq<(string, string)>, tag: string)
    requires DistinctKeys(table)
    ensures NamesIn(table, tag) == if Listed(table, tag) then [NameIn(table, tag)] else []
  {
    if |table| > 0 {
      NamesInDistinct(table[1..], tag);
    }
  }

  /** Keys that differ pairwise are distinct. */
  lemma {:induction false} PairwiseDistinct(table: seq<(string, string)>)
    requires forall i, j :: 0 <= i < j < |table| ==> table[i].0 != table[j].0
    ensures DistinctKeys(table)
  {
    if |table| > 0 {
      var rest := table[1..];
      assert forall i, j :: 0 <= i < j < |rest| ==> rest[i].0 != rest[j].0 by {
        forall i, j | 0 <= i < j < |rest| ensures rest[i].0 != rest[j].0 {
          assert rest[i] == table[i + 1] && rest[j] == table[j + 1];
        }
      }
      PairwiseDistinct(rest);
      assert forall k :: 0 <= k < |rest| ==> rest[k].0 != table[0].0 by {
        forall k | 0 <= k < |rest| ensures rest[k].0 != table[0].0 {
          assert rest[k] == table[k + 1];
        }
      }
      NotListed(rest, table[0].0);
    }
  }

  lemma {:induction false} NotListed(table: seq<(string, string)>, tag: string)
    requires forall k :: 0 <= k < |table| ==> table[k].0 != tag
    ensures !Listed(table, tag)
  {
    if |table| > 0 {
      assert forall k :: 0 <= k < |table[1..]| ==> table[1..][k].0 != tag by {
        forall k | 0 <= k < |table[1..]| ensures table[1..][k].0 != tag {
          assert table[1..][k] == table[k + 1];
        }
      }
      NotListed(table[1..], tag);
    }
  }

  lemma AllergenKeysPairwise()
    ensures forall i, j :: 0 <= i < j < |AllergenTable| ==> AllergenTable[i].0 != AllergenTable[j].0
  {
  }

  lemma AllergenKeysDistinct()
    ensures DistinctKeys(AllergenTable)
  {
    AllergenKeysPairwise();
    PairwiseDistinct(AllergenTable);
  }

  /** The names pushed for a whole list of tags, one test loop per tag. */
  function NamesAll(table: seq<(string, string)>, tags: seq<string>): (names: seq<string>)
  {
    if |tags| == 0 then [] else NamesIn(table, tags[0]) + NamesAll(table, tags[1..])
  }

  lemma {:induction false} NamesAllAppend(table: seq<(string, string)>, a: seq<string>, b: seq<string>)
    ensures NamesAll(table, a + b) == NamesAll(table, a) + NamesAll(table, b)
  {
    if |a| == 0 {
      assert a + b == b;
    } else {
      assert (a + b)[1..] == a[1..] + b;
      NamesAllAppend(table, a[1..], b);
    }
  }

  /** The name of every tag of the list, in order. */
  function NamesOf(table: seq<(string, string)>, tags: seq<string>): (r: seq<string>)
    ensures |r| == |tags|
    ensures forall i :: 0 <= i < |tags| ==> r[i] == NameIn(table, tags[i])
  {
    if |tags| == 0 then [] else [NameIn(table, tags[0])] + NamesOf(table, tags[1..])
  }

  lemma {:induction false} NamesAllListed(table: seq<(string, string)>, tags: seq<string>, listed: string -> bool)
    requires DistinctKeys(table)
    requires forall t :: listed(t) == Listed(table, t)
    ensures NamesAll(table, tags) == NamesOf(table, Select(tags, listed, true))
  {
    if |tags| > 0 {
      var t0, tl := tags[0], tags[1..];
      NamesAllListed(table, tl, listed);
      NamesInDistinct(table, t0);
      var rest := Select(tl, listed, true);
      assert NamesAll(table, tags) == NamesIn(table, t0) + NamesAll(table, tl);
      assert Select(tags, listed, true) == (if listed(t0) then [t0] else []) + rest;
      if listed(t0) {
        assert ([t0] + rest)[1..] == rest;
      } else {
        assert NamesIn(table, t0) == [];
      }
    }
  }

  predicate IsAllergen(tag: string)
  {
    Listed(AllergenTable, tag)
  }

  /** The French name of a recognised tag, "" otherwise. */
  function AllergenName(tag: string): (name: string)
  {
    NameIn(AllergenTable, tag)
  }

  /** The names pushed for the product's allergen tags. */
  function AllergenNames(tags: seq<string>): (names: seq<string>)
  {
    NamesAll(AllergenTable, tags)
  }

  /** The line is built tag by tag, so it distributes over concatenation. */
  lemma AllergenNamesAppend(a: seq<string>, b: seq<string>)
    ensures AllergenNames(a + b) == AllergenNames(a) + AllergenNames(b)
  {
    NamesAllAppend(AllergenTable, a, b);
  }

  /** The names are those of the recognised tags, in list order, duplicates
      kept; unrecognised tags contribute nothing. */
  lemma AllergenNamesRecognised(tags: seq<string>)
    ensures AllergenNames(tags) == NamesOf(AllergenTable, Select(tags, IsAllergen, true))
  {
    AllergenKeysDistinct();
    NamesAllListed(AllergenTable, tags, IsAllergen);
  }

  /** `items.join(sep)`. */
  function Join(items: seq<string>, sep: string): (r: string)
    ensures |items| > 0 ==> |r| >= |items[0]| && r[..|items[0]|] == items[0]
  {
    if |items| == 0 then ""
    else if |items| == 1 then items[0]
    else items[0] + sep + Join(items[1..], sep)
  }

  /** Joining two non-empty lists puts one separator between their joins. */
  lemma {:induction false} JoinAppend(a: seq<string>, b: seq<string>, sep: string)
    requires |a| > 0 && |b| > 0
    ensures Join(a + b, sep) == Join(a, sep) + sep + Join(b, sep)
  {
    if |a| == 1 {
      assert (a + b)[1..] == b;
    } else {
      assert (a + b)[1..] == a[1..] + b;
      JoinAppend(a[1..], b, sep);
    }
  }

  /** No allergen name starts like the placeholder. */
  lemma NameNotPlaceholder(tag: string)
    requires IsAllergen(tag)
    ensures |AllergenName(tag)| > 0 && AllergenName(tag)[0] != NoAllergen[0]
  {
    NameInEntry(AllergenTable, tag);
    AllergenNamesLowerCase();
  }

  lemma AllergenNamesLowerCase()
    ensures forall k :: 0 <= k < |AllergenTable| ==> |AllergenTable[k].1| > 0 && 'a' <= AllergenTable[k].1[0] <= 'z'
  {
  }

  /** Some name is pushed exactly when some tag is recognised, and the first
      one never starts like the placeholder. */
  lemma AllergenNamesFound(tags: seq<string>)
    ensures |AllergenNames(tags)| == 0 <==> forall t :: t in tags ==> !IsAllergen(t)
    ensures |AllergenNames(tags)| > 0 ==>
      |AllergenNames(tags)[0]| > 0 && AllergenNames(tags)[0][0] != NoAllergen[0]
  {
    AllergenNamesRecognised(tags);
    SelectCounts(tags, IsAllergen, true);
    var sel := Select(tags, IsAllergen, true);
    if |sel| == 0 {
      forall t | t in tags ensures !IsAllergen(t) {
        assert multiset(sel)[t] == 0;
      }
    } else {
      var first := sel[0];
      assert first in multiset(sel);
      assert AllergenNames(tags)[0] == AllergenName(first);
      NameNotPlaceholder(first);
      assert first in tags;
    }
  }

  /** The allergen line: the names of every recognised tag, in tag order with
      duplicates kept, separated by ", "; or "Aucun allergenes", which appears
      exactly when no tag is recognised. */
  function FoundAllergens(tags: seq<string>): (r: string)
    ensures r == NoAllergen <==> forall t :: t in tags ==> !IsAllergen(t)
    ensures (exists t :: t in tags && IsAllergen(t)) ==>
      r == Join(NamesOf(AllergenTable, Select(tags, IsAllergen, true)), ", ")
  {
    var names := AllergenNames(tags);
    AllergenNamesFound(tags);
    AllergenNamesRecognised(tags);
    Join(if |names| == 0 then [NoAllergen] else names, ", ")
  }

  /** Otherwise the line starts with the name of the first recognised tag. */
  lemma FoundAllergensFirst(tags: seq<string>, i: nat)
    requires i < |tags| && IsAllergen(tags[i])
    requires forall j :: 0 <= j < i ==> !IsAllergen(tags[j])
    ensures var name := AllergenName(tags[i]);
      |FoundAllergens(tags)| >= |name| && FoundAllergens(tags)[..|name|] == name
  {
    AllergenNamesRecognised(tags);
    LeadingSkipped(tags, i);
    var names := AllergenNames(tags);
    assert names[0] == AllergenName(tags[i]);
    assert FoundAllergens(tags) == Join(names, ", ");
  }

  /** When the first recognised tag is at `i`, the selection starts with it. */
  lemma {:induction false} LeadingSkipped(tags: seq<string>, i: nat)
    requires i < |tags| && IsAllergen(tags[i])
    requires forall j :: 0 <= j < i ==> !IsAllergen(tags[j])
    ensures |Select(tags, IsAllergen, true)| > 0 && Select(tags, IsAllergen, true)[0] == tags[i]
  {
    if i > 0 {
      LeadingSkipped(tags[1..], i - 1);
    }
  }

  /* ------------------------------------------------------------------ */
  /*  Labels                                                            */
  /* ------------------------------------------------------------------ */

  /** Ingredient tags the label row knows how to show. */
  predicate IsKnownTag(tag: string)
  {
    tag == "en:palm-oil-free" || tag == "en:palm-oil" || tag == "en:vegetarian" || tag == "en:vegan"
  }

  datatype Pill = Organic | PalmOilFree | PalmOil | Vegetarian | Vegan

  function PillOf(tag: string): (p: Pill)
    requires IsKnownTag(tag)
  {
    match tag
    case "en:palm-oil-free" => PalmOilFree
    case "en:palm-oil" => PalmOil
    case "en:vegetarian" => Vegetarian
    case _ => Vegan
  }

  function PillsOf(tags: seq<string>): (r: seq<Pill>)
    requires forall i :: 0 <= i < |tags| ==> IsKnownTag(tags[i])
    ensures |r| == |tags|
    ensures forall i :: 0 <= i < |tags| ==> r[i] == PillOf(tags[i])
  {
    seq(|tags|, i requires 0 <= i < |tags| => PillOf(tags[i]))
  }

  /** The label row: nothing when no ingredient tag is known; otherwise the
      organic pill when the labels hold "en:organic", then one pill per known
      tag in list order. */
  function LabelsAndTags(ingredientsTags: seq<string>, labels: seq<string>): (r: Option<seq<Pill>>)
    ensures r.None? <==> forall t :: t in ingredientsTags ==> !IsKnownTag(t)
    ensures r.Some? ==> (|r.value| > 0 && r.value[0] == Organic <==> "en:organic" in labels)
    ensures r.Some? ==> |r.value| == |Select(ingredientsTags, IsKnownTag, true)| + (if "en:organic" in labels then 1 else 0)
    ensures r.Some? ==>
      r.value == (if "en:organic" in labels then [Organic] else []) + PillsOf(Select(ingredientsTags, IsKnownTag, true))
  {
    var tags := Select(ingredientsTags, IsKnownTag, true);
    SelectCounts(ingredientsTags, IsKnownTag, true);
    if |tags| == 0 then
      assert forall t :: t in ingredientsTags ==> multiset(tags)[t] == 0;
      None
    else
      assert tags[0] in multiset(tags);
      var organic := if Seqs.IndexOf(labels, "en:organic") < |labels| then [Organic] else [];
      Some(organic + PillsOf(tags))
  }

  /** Every pill after the organic one comes from a known ingredient tag of
      the product, and every known tag gives its pill. */
  lemma LabelsFromTags(ingredientsTags: seq<string>, labels: seq<string>)
    ensures var r := LabelsAndTags(ingredientsTags, labels);
      r.Some? ==>
        && (forall p :: p in r.value && p != Organic ==>
              exists t :: t in ingredientsTags && IsKnownTag(t) && PillOf(t) == p)
        && (forall t :: t in ingredientsTags && IsKnownTag(t) ==> PillOf(t) in r.value)
  {
    var r := LabelsAndTags(ingredientsTags, labels);
    if r.Some? {
      forall p | p in r.value && p != Organic
        ensures exists t :: t in ingredientsTags && IsKnownTag(t) && PillOf(t) == p
      {
        PillSource(ingredientsTags, labels, p);
      }
      forall t | t in ingredientsTags && IsKnownTag(t)
        ensures PillOf(t) in r.value
      {
        TagShown(ingredientsTags, labels, t);
      }
    }
  }

  lemma PillSource(ingredientsTags: seq<string>, labels: seq<string>, p: Pill)
    requires LabelsAndTags(ingredientsTags, labels).Some?
    requires p in LabelsAndTags(ingredientsTags, labels).value && p != Organic
    ensures exists t :: t in ingredientsTags && IsKnownTag(t) && PillOf(t) == p
  {
    var r := LabelsAndTags(ingredientsTags, labels).value;
    var tags := Select(ingredientsTags, IsKnownTag, true);
    var organic := if "en:organic" in labels then [Organic] else [];
    var pills := PillsOf(tags);
    assert r == organic + pills;
    var k :| 0 <= k < |r| && r[k] == p;
    var i := k - |organic|;
    assert 0 <= i < |tags| && pills[i] == p;
    SelectMember(ingredientsTags, IsKnownTag, true, tags[i]);
  }

  lemma TagShown(ingredientsTags: seq<string>, labels: seq<string>, t: string)
    requires t in ingredientsTags && IsKnownTag(t)
    ensures LabelsAndTags(ingredientsTags, labels).Some?
    ensures PillOf(t) in LabelsAndTags(ingredientsTags, labels).value
  {
    var r := LabelsAndTags(ingredientsTags, labels).value;
    var tags := Select(ingredientsTags, IsKnownTag, true);
    var organic := if "en:organic" in labels then [Organic] else [];
    assert r == organic + PillsOf(tags);
    SelectCounts(ingredientsTags, IsKnownTag, true);
    assert t in multiset(tags);
    var i :| 0 <= i < |tags| && tags[i] == t;
    assert r[|organic| + i] == PillOf(t);
  }

  /* ------------------------------------------------------------------ */
  /*  Consuming                                                         */
  /* ------------------------------------------------------------------ */

  /** `product.calories > 0 && <actions/>`: the consume button appears exactly
      for products whose energy is known and rounds to at least one
      kilocalorie. */
  function ConsumeOffered(energy: Option<real>): (offered: bool)
    ensures offered <==> energy.Some? && energy.value >= 2.092
  {
    Utils.ProductCalories(energy) > 0
  }
}
