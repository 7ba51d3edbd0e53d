/** The stores behind the services: a recipe store keyed by recipe id and a read-only
    unit-of-measure store, each an in-memory map standing for a database table. */
module Repositories {
  import opened Domain

  /** How many rows have no id yet. */
  function MissingIds(rows: seq<IngredientRow>): nat
  {
    if rows == [] then 0
    else (if rows[0].id.None? then 1 else 0) + MissingIds(rows[1..])
  }

  /** Persisting a recipe cascades to its ingredients: each one without an id is given the
      next generated id, in iteration order; ingredients with an id keep it. */
  function AssignIds(rows: seq<IngredientRow>, next: int): (r: seq<IngredientRow>)
    ensures |r| == |rows|
  {
    if rows == [] then []
    else if rows[0].id.None? then [rows[0].(id := Some(next))] + AssignIds(rows[1..], next + 1)
    else [rows[0]] + AssignIds(rows[1..], next)
  }

  /** After persisting, every row has an id; a row that had one is unchanged, and a row
      that had none differs only in its id, which is newly generated. */
  lemma {:induction false} AssignIdsSpec(rows: seq<IngredientRow>, next: int)
    ensures var r := AssignIds(rows, next);
      && (forall k :: 0 <= k < |rows| ==> r[k].id.Some?)
      && (forall k :: 0 <= k < |rows| && rows[k].id.Some? ==> r[k] == rows[k])
      && (forall k :: 0 <= k < |rows| && rows[k].id.None? ==>
            r[k] == rows[k].(id := r[k].id) && next <= r[k].id.value < next + MissingIds(rows))
  {
    if rows != [] {
      var n := if rows[0].id.None? then next + 1 else next;
      AssignIdsSpec(rows[1..], n);
      var r := AssignIds(rows, next);
      assert r[1..] == AssignIds(rows[1..], n);
      forall k | 1 <= k < |rows|
        ensures r[k] == AssignIds(rows[1..], n)[k - 1] && rows[k] == rows[1..][k - 1]
      {
      }
    }
  }

  /** Two successive cascades, the second starting where the first left the sequence,
      never generate the same id. */
  lemma GeneratedIdsDistinct(first: seq<IngredientRow>, second: seq<IngredientRow>, next: int)
    ensures forall i, j :: 0 <= i < |first| && first[i].id.None? && 0 <= j < |second| && second[j].id.None? ==>
              AssignIds(first, next)[i].id != AssignIds(second, next + MissingIds(first))[j].id
  {
    AssignIdsSpec(first, next);
    AssignIdsSpec(second, next + MissingIds(first));
  }

  /** Rows that all have ids are left exactly as they are. */
  lemma {:induction false} AssignIdsKeepsIdentified(rows: seq<IngredientRow>, next: int)
    requires forall k :: 0 <= k < |rows| ==> rows[k].id.Some?
    ensures AssignIds(rows, next) == rows
  {
    if rows != [] {
      AssignIdsKeepsIdentified(rows[1..], next);
    }
  }

  /** Counting the rows without an id one row further. */
  lemma {:induction false} MissingIdsSnoc(rows: seq<IngredientRow>, i: nat)
    requires i < |rows|
    ensures MissingIds(rows[..i + 1]) == MissingIds(rows[..i]) + (if rows[i].id.None? then 1 else 0)
  {
    if i > 0 {
      MissingIdsSnoc(rows[1..], i - 1);
      assert rows[..i + 1][1..] == rows[1..][..i];
      assert rows[..i][1..] == rows[1..][..i - 1];
    }
  }

  /** The i-th row after persisting: the ids are generated in iteration order, so a row
      without an id gets the next id plus the number of id-less rows before it. */
  lemma {:induction false} AssignIdsAt(rows: seq<IngredientRow>, next: int, i: nat)
    requires i < |rows|
    ensures AssignIds(rows, next)[i]
         == if rows[i].id.None? then rows[i].(id := Some(next + MissingIds(rows[..i]))) else rows[i]
  {
    if i > 0 {
      var n := if rows[0].id.None? then next + 1 else next;
      AssignIdsAt(rows[1..], n, i - 1);
      assert AssignIds(rows, next)[i] == AssignIds(rows[1..], n)[i - 1];
      assert rows[..i][1..] == rows[1..][..i - 1];
    }
  }

  class UnitOfMeasureRepository {
    const uoms: map<int, UnitOfMeasure>

    constructor (uoms: map<int, UnitOfMeasure>)
      ensures this.uoms == uoms
    {
      this.uoms := uoms;
    }

    /** Spring Data `findById`: a null id is rejected, an unknown id gives an empty Optional. */
    function FindById(id: Option<int>): (r: Result<Option<UnitOfMeasure>>)
      ensures r.Failure? <==> id.None?
      ensures r.Failure? ==> r.error == IllegalArgument
      ensures r.Success? ==> (r.value.Some? <==> id.value in uoms)
      ensures r.Success? && r.value.Some? ==> r.value.value == uoms[id.value]
    {
      if id.None? then Failure(IllegalArgument)
      else if id.value in uoms then Success(Some(uoms[id.value]))
      else Success(None)
    }
  }

  /** A database identity sequence: it hands out consecutive ids. */
  class IdSequence {
    var next: int

    constructor (first: int)
      ensures next == first
    {
      next := first;
    }
  }

  class RecipeRepository {
    var recipes: map<int, Recipe>
    /** The id the store generates for the next new recipe. */
    var nextRecipeId: int
    /** The sequence the store draws new ingredient ids from. */
    const ingredientIds: IdSequence

    /** Every stored recipe carries its key as id, the generator is past every key,
        and every stored ingredient collection is a set. */
    ghost predicate Valid()
      reads this`recipes, this`nextRecipeId, recipes.Values`id, recipes.Values`ingredients
    {
      forall k :: k in recipes ==> recipes[k].id == Some(k) && k < nextRecipeId && recipes[k].Valid()
    }

    constructor ()
      ensures Valid() && recipes == map[]
    {
      recipes := map[];
      nextRecipeId := 1;
      ingredientIds := new IdSequence(1);
    }

    /** The recipe stored under the given id, if any: an operation on that recipe's
        aggregate may change its ingredient collection (and the id a save assigns). */
    function StoredRecipe(id: Option<int>): set<Recipe>
      reads this`recipes
    {
      if id.Some? && id.value in recipes then {recipes[id.value]} else {}
    }

    /** The ingredients of the recipe stored under the given id: what an operation on that
        recipe's aggregate may change besides the recipe itself. */
    function StoredIngredients(id: Option<int>): set<Ingredient>
      reads this`recipes, StoredRecipe(id)`ingredients
    {
      if id.Some? && id.value in recipes then set i | i in recipes[id.value].ingredients else {}
    }

    /** Spring Data `findById`: a null id is rejected, an unknown id gives an empty Optional. */
    function FindById(id: Option<int>): (r: Result<Option<Recipe>>)
      reads this`recipes
      ensures r.Failure? <==> id.None?
      ensures r.Failure? ==> r.error == IllegalArgument
      ensures r.Success? ==> (r.value.Some? <==> id.value in recipes)
      ensures r.Success? && r.value.Some? ==> r.value.value == recipes[id.value]
    {
      if id.None? then Failure(IllegalArgument)
      else if id.value in recipes then Success(Some(recipes[id.value]))
      else Success(None)
    }

    /** Generates an id for the i-th ingredient if it has none; no other ingredient and no
        parent link changes. */
    method PersistIngredient(ingredients: seq<Ingredient>, i: nat, ingredient: Ingredient)
      requires NoDuplicates(ingredients) && i < |ingredients| && ingredients[i] == ingredient
      modifies ingredientIds`next, ingredient`id
      ensures old(ingredient.id).Some? ==> ingredient.Row() == old(ingredient.Row()) && ingredientIds.next == old(ingredientIds.next)
      ensures old(ingredient.id).None? ==>
                ingredient.Row() == old(ingredient.Row()).(id := Some(old(ingredientIds.next)))
                && ingredientIds.next == old(ingredientIds.next) + 1
      ensures forall j :: 0 <= j < |ingredients| && j != i ==> ingredients[j].Row() == old(ingredients[j].Row())
      ensures forall j :: 0 <= j < |ingredients| ==> ingredients[j].recipe == old(ingredients[j].recipe)
    {
      assert forall j :: 0 <= j < |ingredients| && j != i ==> ingredients[j] != ingredient;
      if ingredient.id.None? {
        ingredient.id := Some(ingredientIds.next);
        ingredientIds.next := ingredientIds.next + 1;
      }
    }

    /** The cascade of a save to a recipe's ingredients: ids are generated for those that
        have none, in iteration order. */
    method PersistIngredients(ingredients: seq<Ingredient>)
      requires NoDuplicates(ingredients)
      modifies ingredientIds`next, ingredients`id
      ensures Rows(ingredients) == AssignIds(old(Rows(ingredients)), old(ingredientIds.next))
      ensures ingredientIds.next == old(ingredientIds.next) + MissingIds(old(Rows(ingredients)))
      ensures Parents(ingredients) == old(Parents(ingredients))
    {
      ghost var before := Rows(ingredients);
      ghost var parents := Parents(ingredients);
      ghost var after := AssignIds(before, ingredientIds.next);
      var i := 0;
      while i < |ingredients|
        invariant 0 <= i <= |ingredients| == |before|
        invariant ingredientIds.next == old(ingredientIds.next) + MissingIds(before[..i])
        invariant forall j :: 0 <= j < |ingredients| ==>
                    ingredients[j].Row() == (if j < i then after[j] else before[j])
                    && ingredients[j].recipe == parents[j]
      {
        AssignIdsAt(before, old(ingredientIds.next), i);
        MissingIdsSnoc(before, i);
        PersistIngredient(ingredients, i, ingredients[i]);
        i := i + 1;
      }
      assert before[..i] == before;
      assert Rows(ingredients) == after;
      assert Parents(ingredients) == parents;
    }

    /** Spring Data `save` (upsert): a recipe whose id is stored replaces that entry;
        any other recipe is inserted under a newly generated id. The ingredients are
        persisted with it and receive ids where they had none. */
    method Save(recipe: Recipe) returns (saved: Recipe)
      requires Valid() && recipe.Valid()
      modifies this`recipes, this`nextRecipeId, ingredientIds`next, recipe`id, recipe.ingredients`id
      ensures Valid()
      ensures saved == recipe
      ensures recipe.ingredients == old(recipe.ingredients)
      ensures old(recipe.id).Some? && old(recipe.id).value in old(recipes) ==>
                recipe.id == old(recipe.id) && nextRecipeId == old(nextRecipeId)
      ensures !(old(recipe.id).Some? && old(recipe.id).value in old(recipes)) ==>
                recipe.id == Some(old(nextRecipeId)) && old(nextRecipeId) !in old(recipes)
                && nextRecipeId == old(nextRecipeId) + 1
      ensures recipes == old(recipes)[recipe.id.value := recipe]
      ensures old(recipe.id).Some? && old(recipe.id).value in old(recipes) && old(recipes)[old(recipe.id).value] == recipe ==>
                recipes == old(recipes)
      ensures Rows(recipe.ingredients) == AssignIds(old(Rows(recipe.ingredients)), old(ingredientIds.next))
      ensures ingredientIds.next == old(ingredientIds.next) + MissingIds(old(Rows(recipe.ingredients)))
      ensures Parents(recipe.ingredients) == old(Parents(recipe.ingredients))
    {
      ghost var rows := Rows(recipe.ingredients);
      ghost var parents := Parents(recipe.ingredients);
      Store(recipe);
      assert Rows(recipe.ingredients) == rows && Parents(recipe.ingredients) == parents;
      Cascade(recipe);
      saved := recipe;
    }

    /** The cascade to the ingredients of a stored recipe: the store stays valid, since no
        stored recipe is one of the ingredients. */
    method Cascade(recipe: Recipe)
      requires Valid() && recipe.id.Some? && recipe.id.value in recipes && recipes[recipe.id.value] == recipe
      modifies ingredientIds`next, recipe.ingredients`id
      ensures Valid() && recipe.id == old(recipe.id)
      ensures Rows(recipe.ingredients) == AssignIds(old(Rows(recipe.ingredients)), old(ingredientIds.next))
      ensures ingredientIds.next == old(ingredientIds.next) + MissingIds(old(Rows(recipe.ingredients)))
      ensures Parents(recipe.ingredients) == old(Parents(recipe.ingredients))
    {
      var ingredients := recipe.ingredients;
      ghost var key := recipe.id.value;
      assert recipes[key].Valid();
      NotAnIngredient(recipe, ingredients);
      forall k | k in recipes ensures forall i :: 0 <= i < |ingredients| ==> ingredients[i] as object != recipes[k] {
        NotAnIngredient(recipes[k], ingredients);
      }
      PersistIngredients(ingredients);
    }

    /** The recipe row of an upsert: the entry is replaced or inserted under a new id. */
    method Store(recipe: Recipe)
      requires Valid() && recipe.Valid()
      modifies this`recipes, this`nextRecipeId, recipe`id
      ensures Valid()
      ensures old(recipe.id).Some? && old(recipe.id).value in old(recipes) ==>
                recipe.id == old(recipe.id) && nextRecipeId == old(nextRecipeId)
      ensures !(old(recipe.id).Some? && old(recipe.id).value in old(recipes)) ==>
                recipe.id == Some(old(nextRecipeId)) && old(nextRecipeId) !in old(recipes)
                && nextRecipeId == old(nextRecipeId) + 1
      ensures recipe.id.Some? && recipes == old(recipes)[recipe.id.value := recipe]
      ensures old(recipe.id).Some? && old(recipe.id).value in old(recipes) && old(recipes)[old(recipe.id).value] == recipe ==>
                recipes == old(recipes)
    {
      if !(recipe.id.Some? && recipe.id.value in recipes) {
        assert forall k :: k in recipes ==> recipes[k] != recipe;
        recipe.id := Some(nextRecipeId);
        nextRecipeId := nextRecipeId + 1;
      }
      if recipe.id.value in recipes && recipes[recipe.id.value] == recipe {
        assert recipes[recipe.id.value := recipe] == recipes;
      }
      recipes := recipes[recipe.id.value := recipe];
    }

    /** Spring Data `deleteById`: the entry goes, with the aggregate it holds. */
    method DeleteById(id: int)
      requires Valid()
      modifies this`recipes
      ensures Valid()
      ensures recipes == old(recipes) - {id}
      ensures nextRecipeId == old(nextRecipeId) && ingredientIds.next == old(ingredientIds.next)
    {
      recipes := recipes - {id};
    }
  }
}
