/** The recipe service: lookups, saves and deletes of whole recipes over the recipe store. */
module RecipeServices {
  import opened Domain
  import opened Commands
  import opened Repositories

  const RecipeNotFoundMessage := "Recipe Not Found. For ID value: "

  /** A value of a map is stored under some key. */
  lemma StoredUnderSomeKey(recipes: map<int, Recipe>, recipe: Recipe)
    requires recipe in recipes.Values
    ensures exists k :: k in recipes && recipes[k] == recipe
  {
    if forall k :: k in recipes ==> recipes[k] != recipe {
      assert false;
    }
  }

  /** A new recipe holding the given state, built the way the command converter fills a
      recipe in: the columns set, each ingredient created and added through `addIngredient`,
      and the notes attached through `setNotes`. Every object is new. */
  method BuildRecipe(state: RecipeState) returns (recipe: Recipe)
    ensures fresh(recipe) && recipe.Valid()
    ensures recipe.State() == state
    ensures forall i :: 0 <= i < |recipe.ingredients| ==> fresh(recipe.ingredients[i])
    ensures forall i :: 0 <= i < |recipe.ingredients| ==> recipe.ingredients[i].recipe == recipe
    ensures recipe.notes != null ==> fresh(recipe.notes) && recipe.notes.recipe == recipe
  {
    recipe := new Recipe();
    recipe.id := state.data.id;
    recipe.details := state.data.details;
    recipe.categories := state.data.categories;
    AddIngredients(recipe, state.ingredients);
    AttachNotes(recipe, state.notes);
    assert Rows(recipe.ingredients) == state.ingredients;
  }

  /** New notes holding the given values, attached to the recipe through `setNotes`; none
      when there are no notes. */
  method AttachNotes(recipe: Recipe, notes: Option<NotesRow>)
    requires recipe.notes == null
    modifies recipe`notes
    ensures notes.None? ==> recipe.notes == null
    ensures notes.Some? ==> recipe.notes != null && fresh(recipe.notes)
                            && recipe.notes.Row() == notes.value && recipe.notes.recipe == recipe
  {
    if notes.Some? {
      var created := new Notes();
      created.id := notes.value.id;
      created.recipeNotes := notes.value.recipeNotes;
      recipe.SetNotes(created);
    }
  }

  /** New ingredients holding the given rows, each added to the new recipe through
      `addIngredient`, in order. */
  method AddIngredients(recipe: Recipe, rows: seq<IngredientRow>)
    requires recipe.ingredients == []
    modifies recipe`ingredients
    ensures recipe.Valid()
    ensures Rows(recipe.ingredients) == rows
    ensures forall i :: 0 <= i < |recipe.ingredients| ==> fresh(recipe.ingredients[i])
    ensures forall i :: 0 <= i < |recipe.ingredients| ==> recipe.ingredients[i].recipe == recipe
  {
    var n := 0;
    while n < |rows|
      invariant 0 <= n <= |rows| && |recipe.ingredients| == n
      invariant recipe.Valid()
      invariant forall i :: 0 <= i < n ==> recipe.ingredients[i].Row() == rows[i]
      invariant forall i :: 0 <= i < n ==> fresh(recipe.ingredients[i])
      invariant forall i :: 0 <= i < n ==> recipe.ingredients[i].recipe == recipe
    {
      var ingredient := new Ingredient();
      ingredient.id := rows[n].id;
      ingredient.description := rows[n].description;
      ingredient.amount := rows[n].amount;
      ingredient.uom := rows[n].uom;
      var _ := recipe.AddIngredient(ingredient);
      n := n + 1;
    }
    RowsOf(recipe.ingredients, rows);
  }

  /** A recipe's state is known once its ingredients' rows and its notes' values are. */
  lemma StateOf(recipe: Recipe, rows: seq<IngredientRow>, notes: Option<NotesRow>)
    requires Rows(recipe.ingredients) == rows
    requires notes.None? <==> recipe.notes == null
    requires notes.Some? ==> recipe.notes.Row() == notes.value
    ensures recipe.State() == RecipeState(recipe.Data(), rows, notes)
  {
  }

  class RecipeService {
    const recipeRepository: RecipeRepository
    /** The command-to-entity recipe converter: the state of the recipe it builds. */
    const recipeCommandToRecipe: RecipeCommand -> RecipeState
    /** The entity-to-command recipe converter, applied to a recipe's state. */
    const recipeToRecipeCommand: RecipeState -> RecipeCommand

    constructor (recipeRepository: RecipeRepository,
                 recipeCommandToRecipe: RecipeCommand -> RecipeState,
                 recipeToRecipeCommand: RecipeState -> RecipeCommand)
      ensures this.recipeRepository == recipeRepository
      ensures this.recipeCommandToRecipe == recipeCommandToRecipe
      ensures this.recipeToRecipeCommand == recipeToRecipeCommand
    {
      this.recipeRepository := recipeRepository;
      this.recipeCommandToRecipe := recipeCommandToRecipe;
      this.recipeToRecipeCommand := recipeToRecipeCommand;
    }

    /** Every stored recipe, collected into a new set one by one. */
    method GetRecipes() returns (recipeSet: set<Recipe>)
      ensures recipeSet == recipeRepository.recipes.Values
      ensures forall l :: FindById(l).Success? ==> FindById(l).value in recipeSet
    {
      recipeSet := {};
      var remaining := recipeRepository.recipes.Values;
      while remaining != {}
        invariant remaining <= recipeRepository.recipes.Values
        invariant recipeSet == recipeRepository.recipes.Values - remaining
        decreases remaining
      {
        var recipe :| recipe in remaining;
        recipeSet := recipeSet + {recipe};
        remaining := remaining - {recipe};
      }
    }

    /** The stored recipe with the given id; an absent id is a NotFoundException naming it. */
    function FindById(l: int): (r: Result<Recipe>)
      reads recipeRepository
      ensures r.Success? <==> l in recipeRepository.recipes
      ensures r.Success? ==> r.value == recipeRepository.recipes[l]
      ensures r.Failure? ==> r.error == NotFound(RecipeNotFoundMessage, l)
    {
      var found := recipeRepository.FindById(Some(l));
      if found.Success? && found.value.Some? then Success(found.value.value)
      else Failure(NotFound(RecipeNotFoundMessage, l))
    }

    /** In a consistent store the listed recipes are exactly those found under their own id. */
    lemma ListedIffFound(recipe: Recipe)
      requires recipeRepository.Valid()
      ensures recipe in recipeRepository.recipes.Values <==>
                recipe.id.Some? && FindById(recipe.id.value) == Success(recipe)
    {
      var recipes := recipeRepository.recipes;
      if recipe in recipes.Values {
        StoredUnderSomeKey(recipes, recipe);
        var k :| k in recipes && recipes[k] == recipe;
        assert recipe.id == Some(k);
      }
    }

    /** The found recipe converted to a command; the lookup's failure otherwise. */
    function FindCommandById(l: int): (r: Result<RecipeCommand>)
      reads recipeRepository, recipeRepository.StoredRecipe(Some(l)), recipeRepository.StoredIngredients(Some(l))
      reads set recipe | recipe in recipeRepository.StoredRecipe(Some(l)) && recipe.notes != null :: recipe.notes
      ensures r.Failure? <==> l !in recipeRepository.recipes
      ensures r.Failure? ==> r.error == FindById(l).error
      ensures r.Success? ==> r.value == recipeToRecipeCommand(recipeRepository.recipes[l].State())
    {
      var recipe :- FindById(l);
      assert recipe in recipeRepository.StoredRecipe(Some(l));
      Success(recipeToRecipeCommand(recipe.State()))
    }

    /** Converts the command to a new detached recipe, upserts it and converts the saved
        recipe back. A command whose id is stored replaces that recipe; any other command
        is stored under a newly generated id. */
    method SaveRecipeCommand(command: RecipeCommand) returns (result: RecipeCommand)
      requires recipeRepository.Valid()
      modifies recipeRepository`recipes, recipeRepository`nextRecipeId, recipeRepository.ingredientIds`next
      ensures recipeRepository.Valid()
      ensures var state := recipeCommandToRecipe(command);
        var stored := state.data.id.Some? && state.data.id.value in old(recipeRepository.recipes);
        var key := if stored then state.data.id.value else old(recipeRepository.nextRecipeId);
        && recipeRepository.nextRecipeId == (if stored then old(recipeRepository.nextRecipeId) else key + 1)
        && recipeRepository.ingredientIds.next == old(recipeRepository.ingredientIds.next) + MissingIds(state.ingredients)
        && recipeRepository.recipes.Keys == old(recipeRepository.recipes.Keys) + {key}
        && (forall k :: k in old(recipeRepository.recipes) && k != key ==>
              recipeRepository.recipes[k] == old(recipeRepository.recipes)[k])
        && var saved := recipeRepository.recipes[key];
        && fresh(saved)
        && saved.State() == RecipeState(state.data.(id := Some(key)),
                                        AssignIds(state.ingredients, old(recipeRepository.ingredientIds.next)),
                                        state.notes)
        && (forall i :: 0 <= i < |saved.ingredients| ==> saved.ingredients[i].recipe == saved)
        && FindById(key) == Success(saved)
        && result == recipeToRecipeCommand(saved.State())
    {
      var state := recipeCommandToRecipe(command);
      ghost var next := recipeRepository.ingredientIds.next;
      var detachedRecipe := BuildRecipe(state);
      assert detachedRecipe.id == state.data.id;
      var savedRecipe := recipeRepository.Save(detachedRecipe);
      StateOf(savedRecipe, AssignIds(state.ingredients, next), state.notes);
      result := recipeToRecipeCommand(savedRecipe.State());
    }

    /** Removes the recipe stored under the id, if any; every other recipe stays. */
    method DeleteById(idToDelete: int)
      requires recipeRepository.Valid()
      modifies recipeRepository`recipes
      ensures recipeRepository.Valid()
      ensures recipeRepository.recipes == old(recipeRepository.recipes) - {idToDelete}
      ensures FindById(idToDelete) == Failure(NotFound(RecipeNotFoundMessage, idToDelete))
      ensures forall k :: k != idToDelete ==> FindById(k) == old(FindById(k))
    {
      recipeRepository.DeleteById(idToDelete);
    }
  }
}
