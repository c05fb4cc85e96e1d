/**
 * The two validators of a recipe payload: the tag list and the ingredient
 * list. Tags are referred to by primary key; an ingredient entry is a
 * dictionary that may or may not carry the key `id`.
 */
module RecipeValidators {
  import opened Wrappers
  import opened Collections

  type Id = nat

  datatype TagsError = NoTags | RepeatedTags

  /** `set(data)` */
  function Elements(data: seq<Id>): set<Id> {
    set x | x in data
  }

  /** `validate_tags(data)`: returns `data`, or fails with the first check that is violated. */
  function ValidateTags(data: seq<Id>): (r: Result<seq<Id>, TagsError>)
    ensures r.Success? <==> data != [] && Distinct(data)
    ensures r.Success? ==> r.value == data
    ensures data == [] ==> r == Failure(NoTags)
    ensures data != [] && !Distinct(data) ==> r == Failure(RepeatedTags)
  {
    ElementsCount(data);
    if data == [] then Failure(NoTags)
    else if |Elements(data)| != |data| then Failure(RepeatedTags)
    else Success(data)
  }

  /** A list has as many distinct elements as entries exactly when none repeats. */
  lemma {:induction false} ElementsCount(data: seq<Id>)
    ensures |Elements(data)| <= |data|
    ensures |Elements(data)| == |data| <==> Distinct(data)
    decreases |data|
  {
    if data != [] {
      var init := data[..|data| - 1];
      var last := data[|data| - 1];
      ElementsCount(init);
      assert data == init + [last];
      assert Elements(data) == Elements(init) + {last};
      if last in init {
        assert Elements(data) == Elements(init);
        var k :| 0 <= k < |init| && init[k] == last;
        assert data[k] == data[|data| - 1];
      } else {
        assert last !in Elements(init);
        assert |Elements(data)| == |Elements(init)| + 1;
      }
    }
  }

  /** An entry of the ingredient list; `id` is absent when the key is missing. */
  datatype IngredientData = IngredientData(id: Option<Id>, amount: string)

  datatype IngredientsError =
    | NoIngredients                  // the empty list, or no entry with an id
    | MissingId(index: nat)          // the `KeyError` raised by `ingredient_data['id']`
    | RepeatedIngredient(index: nat) // an id already seen earlier in the list

  /** `any('id' in ingredient_data for ingredient_data in data)` */
  predicate SomeId(data: seq<IngredientData>) {
    exists i | 0 <= i < |data| :: data[i].id.Some?
  }

  /** The first `n` entries all carry an id and no id repeats among them. */
  predicate CleanPrefix(data: seq<IngredientData>, n: nat)
    requires n <= |data|
  {
    (forall i :: 0 <= i < n ==> data[i].id.Some?) &&
    (forall i, j :: 0 <= i < j < n ==> data[i].id != data[j].id)
  }

  /** The ids of the entries accepted so far: `[ingredient['id'] for ingredient in unique_ingredients]`. */
  function IdsOf(entries: seq<IngredientData>): (r: seq<Option<Id>>)
    ensures |r| == |entries|
    ensures forall k :: 0 <= k < |entries| ==> r[k] == entries[k].id
  {
    if entries == [] then [] else [entries[0].id] + IdsOf(entries[1..])
  }

  /** `validate_ingredients(data)` */
  method ValidateIngredients(data: seq<IngredientData>) returns (r: Result<seq<IngredientData>, IngredientsError>)
    ensures r.Success? <==> data != [] && CleanPrefix(data, |data|)
    ensures r.Success? ==> r.value == data
    ensures r == Failure(NoIngredients) <==> !SomeId(data)
    ensures r.Failure? && r.error.MissingId? ==>
              r.error.index < |data| && data[r.error.index].id.None? && CleanPrefix(data, r.error.index)
    ensures r.Failure? && r.error.RepeatedIngredient? ==>
              r.error.index < |data| && CleanPrefix(data, r.error.index) &&
              exists j :: 0 <= j < r.error.index && data[j].id == data[r.error.index].id
  {
    if data == [] || !SomeId(data) {
      assert data == [] || data[0].id.None?;
      return Failure(NoIngredients);
    }
    var unique: seq<IngredientData> := [];
    var i := 0;
    while i < |data|
      invariant 0 <= i <= |data|
      invariant unique == data[..i]
      invariant CleanPrefix(data, i)
    {
      var entry := data[i];
      if entry.id.None? {
        return Failure(MissingId(i));
      }
      if entry.id in IdsOf(unique) {
        return Failure(RepeatedIngredient(i));
      }
      unique := unique + [entry];
      i := i + 1;
    }
    return Success(data);
  }

  /** An entry without an id fails the list even when other entries carry one. */
  lemma MissingIdExample()
    ensures !CleanPrefix([IngredientData(Some(1), "2"), IngredientData(None, "3")], 2)
    ensures SomeId([IngredientData(Some(1), "2"), IngredientData(None, "3")])
  {
    var data := [IngredientData(Some(1), "2"), IngredientData(None, "3")];
    assert data[0].id.Some? && data[1].id.None?;
  }

  /** Two entries with the same id fail the list even when their amounts differ. */
  lemma RepeatedIdExample()
    ensures !CleanPrefix([IngredientData(Some(1), "2"), IngredientData(Some(1), "3")], 2)
  {
    var data := [IngredientData(Some(1), "2"), IngredientData(Some(1), "3")];
    assert data[0].id == data[1].id;
  }
}
