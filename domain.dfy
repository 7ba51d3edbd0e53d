/** The entities of the recipe application and the Java conventions they rely on:
    nullable references (Option), thrown exceptions (Result) and boxed equality. */
module Domain {

  datatype Option<+T> = None | Some(value: T)

  /** The exceptions that can escape a service call. */
  datatype Exception =
    | NotFound(message: string, id: int)   // NotFoundException carrying the requested id
    | RuntimeError(message: string)        // a bare RuntimeException
    | NoSuchElement                        // Optional.get() on an empty Optional
    | NullPointer                          // a method called on a null reference
    | IllegalArgument                      // a repository lookup given a null id

  datatype Result<+T> = Success(value: T) | Failure(error: Exception) {
    predicate IsFailure() { Failure? }
    function PropagateFailure<U>(): Result<U> requires Failure? { Failure(error) }
    function Extract(): T requires Success? { value }
  }

  /** `receiver.equals(arg)` on a boxed Java value (Long, String, BigDecimal):
      calling it on null throws, and nothing equals a null argument. */
  function JavaEquals<T(==)>(receiver: Option<T>, arg: Option<T>): (r: Result<bool>)
    ensures r.Failure? <==> receiver.None?
    ensures r.Failure? ==> r.error == NullPointer
    ensures r.Success? ==> (r.value <==> arg.Some? && arg.value == receiver.value)
  {
    if receiver.None? then Failure(NullPointer) else Success(arg == receiver)
  }

  datatype Difficulty = Easy | Moderate | KindOfHard | Hard

  datatype UnitOfMeasure = UnitOfMeasure(id: Option<int>, description: Option<string>)

  datatype Category = Category(id: Option<int>, description: Option<string>)

  /** The scalar columns of a recipe. A BigDecimal or Integer is an exact `int`;
      the image is its byte array. */
  datatype RecipeDetails = RecipeDetails(
    description: Option<string>,
    prepTime: Option<int>,
    cookTime: Option<int>,
    servings: Option<int>,
    source: Option<string>,
    url: Option<string>,
    directions: Option<string>,
    image: Option<seq<bv8>>,
    difficulty: Option<Difficulty>)

  /** What `new Recipe()` leaves in the scalar columns: all null. */
  const NoDetails := RecipeDetails(None, None, None, None, None, None, None, None, None)

  /** The values an ingredient holds apart from its parent recipe. */
  datatype IngredientRow = IngredientRow(
    id: Option<int>,
    description: Option<string>,
    amount: Option<int>,
    uom: Option<UnitOfMeasure>)

  /** The columns of a recipe row: its id, its scalar columns and its category links. */
  datatype RecipeData = RecipeData(id: Option<int>, details: RecipeDetails, categories: set<Category>)

  /** The values a notes record holds apart from its recipe. */
  datatype NotesRow = NotesRow(id: Option<int>, recipeNotes: Option<string>)

  /** Everything of a recipe aggregate the recipe converters read and write: the recipe's
      columns, its ingredients' values in iteration order, and its notes' values. */
  datatype RecipeState = RecipeState(data: RecipeData, ingredients: seq<IngredientRow>, notes: Option<NotesRow>)

  ghost predicate NoDuplicates<T>(s: seq<T>) {
    forall i, j :: 0 <= i < j < |s| ==> s[i] != s[j]
  }

  /** Removing one element keeps the others distinct, and the removed one is gone. */
  lemma NoDuplicatesRemove<T>(s: seq<T>, k: nat)
    requires NoDuplicates(s) && k < |s|
    ensures NoDuplicates(s[..k] + s[k + 1..])
    ensures s[k] !in s[..k] + s[k + 1..]
  {
    var r := s[..k] + s[k + 1..];
    assert forall i :: 0 <= i < |r| ==> r[i] == s[if i < k then i else i + 1];
  }

  class Notes {
    var id: Option<int>
    var recipe: Recipe?
    var recipeNotes: Option<string>

    constructor ()
      ensures id == None && recipe == null && recipeNotes == None
    {
      id := None;
      recipe := null;
      recipeNotes := None;
    }

    function Row(): NotesRow
      reads this`id, this`recipeNotes
    {
      NotesRow(id, recipeNotes)
    }
  }

  class Ingredient {
    var id: Option<int>
    var description: Option<string>
    var amount: Option<int>
    var uom: Option<UnitOfMeasure>
    var recipe: Recipe?

    constructor ()
      ensures Row() == IngredientRow(None, None, None, None) && recipe == null
    {
      id := None;
      description := None;
      amount := None;
      uom := None;
      recipe := null;
    }

    function Row(): IngredientRow
      reads this`id, this`description, this`amount, this`uom
    {
      IngredientRow(id, description, amount, uom)
    }

    /** `getRecipe().getId()`, or null when there is no parent. */
    function ParentId(): Option<int>
      reads this`recipe, recipe
    {
      if recipe == null then None else recipe.id
    }
  }

  /** The rows of a sequence of ingredients, one per element. */
  function Rows(s: seq<Ingredient>): (rows: seq<IngredientRow>)
    reads s`id, s`description, s`amount, s`uom
    ensures |rows| == |s|
    ensures forall k :: 0 <= k < |s| ==> rows[k] == s[k].Row()
  {
    if s == [] then [] else [s[0].Row()] + Rows(s[1..])
  }

  /** The parent recipe of each of a sequence of ingredients. */
  function Parents(s: seq<Ingredient>): (parents: seq<Recipe?>)
    reads s`recipe
    ensures |parents| == |s|
    ensures forall k :: 0 <= k < |s| ==> parents[k] == s[k].recipe
  {
    if s == [] then [] else [s[0].recipe] + Parents(s[1..])
  }

  /** The rows of a sequence of ingredients are known once each ingredient's row is. */
  lemma RowsOf(s: seq<Ingredient>, rows: seq<IngredientRow>)
    requires |rows| == |s|
    requires forall j :: 0 <= j < |s| ==> s[j].Row() == rows[j]
    ensures Rows(s) == rows
  {
  }

  /** The parents of a sequence of ingredients are known once each ingredient's parent is. */
  lemma ParentsOf(s: seq<Ingredient>, parents: seq<Recipe?>)
    requires |parents| == |s|
    requires forall j :: 0 <= j < |s| ==> s[j].recipe == parents[j]
    ensures Parents(s) == parents
  {
  }

  /** Removing the k-th ingredient removes the k-th row and the k-th parent. */
  lemma {:induction false} RowsRemove(s: seq<Ingredient>, k: nat)
    requires k < |s|
    ensures Rows(s[..k] + s[k + 1..]) == Rows(s)[..k] + Rows(s)[k + 1..]
    ensures Parents(s[..k] + s[k + 1..]) == Parents(s)[..k] + Parents(s)[k + 1..]
  {
    var r := s[..k] + s[k + 1..];
    var rows, parents := Rows(s), Parents(s);
    forall i | 0 <= i < |r|
      ensures Rows(r)[i] == (rows[..k] + rows[k + 1..])[i]
      ensures Parents(r)[i] == (parents[..k] + parents[k + 1..])[i]
    {
      var j := if i < k then i else i + 1;
      assert r[i] == s[j];
    }
  }

  /** Appending an ingredient appends its row and its parent. */
  lemma {:induction false} RowsAppend(s: seq<Ingredient>, x: Ingredient)
    ensures Rows(s + [x]) == Rows(s) + [x.Row()]
    ensures Parents(s + [x]) == Parents(s) + [x.recipe]
  {
    var t := s + [x];
    var rows, parents := Rows(s), Parents(s);
    forall i | 0 <= i < |t|
      ensures Rows(t)[i] == (rows + [x.Row()])[i]
      ensures Parents(t)[i] == (parents + [x.recipe])[i]
    {
      assert t[i] == if i < |s| then s[i] else x;
    }
  }

  /** No recipe is one of a sequence of ingredients. */
  lemma NotAnIngredient(o: object, s: seq<Ingredient>)
    requires o is Recipe
    ensures forall i :: 0 <= i < |s| ==> s[i] as object != o
  {
  }

  class Recipe {
    var id: Option<int>
    var details: RecipeDetails
    /** The ingredient set, in its iteration order. */
    var ingredients: seq<Ingredient>
    var notes: Notes?
    var categories: set<Category>

    /** The ingredient collection is a set: no ingredient occurs twice. */
    ghost predicate Valid()
      reads this`ingredients
    {
      NoDuplicates(ingredients)
    }

    function Data(): RecipeData
      reads this`id, this`details, this`categories
    {
      RecipeData(id, details, categories)
    }

    /** The whole aggregate as values. */
    function State(): RecipeState
      reads this`id, this`details, this`categories, this`ingredients, this`notes
      reads ingredients`id, ingredients`description, ingredients`amount, ingredients`uom, notes
    {
      RecipeState(Data(), Rows(ingredients), if notes == null then None else Some(notes.Row()))
    }

    /** A new recipe: no id, null columns, no notes, empty ingredient and category sets. */
    constructor ()
      ensures Valid()
      ensures id == None && details == NoDetails && notes == null
      ensures ingredients == [] && categories == {}
    {
      id := None;
      details := NoDetails;
      ingredients := [];
      notes := null;
      categories := {};
    }

    /** Null notes are ignored; otherwise the notes are stored and point back here. */
    method SetNotes(newNotes: Notes?)
      modifies this`notes, if newNotes == null then {} else {newNotes}
      ensures newNotes == null ==> notes == old(notes)
      ensures newNotes != null ==> notes == newNotes && newNotes.recipe == this
      ensures newNotes != null ==> newNotes.Row() == old(newNotes.Row())
    {
      if newNotes != null {
        notes := newNotes;
        newNotes.recipe := this;
      }
    }

    /** Links the ingredient to this recipe both ways and returns this recipe. */
    method AddIngredient(ingredient: Ingredient) returns (self: Recipe)
      requires Valid()
      modifies this`ingredients, ingredient`recipe
      ensures Valid()
      ensures self == this
      ensures ingredient.recipe == this
      ensures ingredient in ingredients
      ensures ingredient in old(ingredients) ==> ingredients == old(ingredients)
      ensures ingredient !in old(ingredients) ==> ingredients == old(ingredients) + [ingredient]
    {
      ingredient.recipe := this;
      if ingredient !in ingredients {
        ingredients := ingredients + [ingredient];
      }
      self := this;
    }
  }
}
