/** The transfer objects used at the presentation boundary. */
module Commands {
  import opened Domain

  datatype UnitOfMeasureCommand = UnitOfMeasureCommand(id: Option<int>, description: Option<string>)

  datatype CategoryCommand = CategoryCommand(id: Option<int>, description: Option<string>)

  datatype IngredientCommand = IngredientCommand(
    id: Option<int>,
    recipeId: Option<int>,
    description: Option<string>,
    amount: Option<int>,
    uom: Option<UnitOfMeasureCommand>)

  datatype NotesCommand = NotesCommand(id: Option<int>, recipeNotes: Option<string>)

  /** A recipe as submitted by the recipe form. */
  datatype RecipeCommand = RecipeCommand(
    id: Option<int>,
    details: RecipeDetails,
    ingredients: seq<IngredientCommand>,
    categories: set<CategoryCommand>,
    notes: Option<NotesCommand>)

  /** `new IngredientCommand()`: every field null. */
  const EmptyIngredientCommand := IngredientCommand(None, None, None, None, None)
}

/** Command-to-entity converters. */
module Converters {
  import opened Domain
  import opened Commands

  /** Null in, null out; otherwise a new category with the command's id and description. */
  function CategoryCommandToCategory(source: Option<CategoryCommand>): (r: Option<Category>)
    ensures r.None? <==> source.None?
    ensures r.Some? ==> r.value.id == source.value.id && r.value.description == source.value.description
  {
    match source
    case None => None
    case Some(command) => Some(Category(command.id, command.description))
  }

  /** The reverse mapping (the entity-to-command converter for categories). */
  function CategoryToCategoryCommand(source: Option<Category>): Option<CategoryCommand> {
    match source
    case None => None
    case Some(category) => Some(CategoryCommand(category.id, category.description))
  }

  /** Converting to an entity and back gives the command again, so no field is lost. */
  lemma {:induction false} CategoryRoundTrip(source: Option<CategoryCommand>)
    ensures CategoryToCategoryCommand(CategoryCommandToCategory(source)) == source
  {
    match source
    case None =>
    case Some(command) =>
      var category := CategoryCommandToCategory(source).value;
      assert category.id == command.id && category.description == command.description;
  }

  /** The field values a command gives a freshly converted ingredient. */
  function ConvertedRow(source: IngredientCommand,
                        uomConverter: Option<UnitOfMeasureCommand> -> Option<UnitOfMeasure>): IngredientRow
  {
    IngredientRow(source.id, source.description, source.amount, uomConverter(source.uom))
  }

  class IngredientCommandToIngredient {
    /** The unit-of-measure command converter this one delegates to. */
    const uomConverter: Option<UnitOfMeasureCommand> -> Option<UnitOfMeasure>

    constructor (uomConverter: Option<UnitOfMeasureCommand> -> Option<UnitOfMeasure>)
      ensures this.uomConverter == uomConverter
    {
      this.uomConverter := uomConverter;
    }

    /** Null in, null out. Otherwise a new ingredient carrying the command's fields; with a
        recipe id it also gets a new stub parent recipe, holding only that id, that lists it. */
    method Convert(source: Option<IngredientCommand>) returns (r: Ingredient?)
      ensures source.None? ==> r == null
      ensures source.Some? ==> r != null && fresh(r)
      ensures source.Some? ==> r.Row() == ConvertedRow(source.value, uomConverter)
      ensures source.Some? && source.value.recipeId.None? ==> r.recipe == null
      ensures source.Some? && source.value.recipeId.Some? ==>
                && r.recipe != null && fresh(r.recipe) && r.recipe.Valid()
                && r.recipe.id == source.value.recipeId
                && r.recipe.ingredients == [r]
                && r.recipe.details == NoDetails && r.recipe.notes == null && r.recipe.categories == {}
    {
      if source.None? {
        return null;
      }
      var command := source.value;
      var ingredient := new Ingredient();
      ingredient.id := command.id;
      if command.recipeId.Some? {
        var recipe := new Recipe();
        recipe.id := command.recipeId;
        ingredient.recipe := recipe;
        var _ := recipe.AddIngredient(ingredient);
      }
      ingredient.amount := command.amount;
      ingredient.description := command.description;
      ingredient.uom := uomConverter(command.uom);
      r := ingredient;
    }
  }
}
