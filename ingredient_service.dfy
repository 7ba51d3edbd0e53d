/** The ingredient service: look up, save (update or insert) and delete one ingredient
    inside its recipe's aggregate, over the recipe and unit-of-measure stores. */
module IngredientServices {
  import opened Domain
  import opened Commands
  import opened Converters
  import opened Repositories

  /** The filter a stream over a recipe's ingredients applies. */
  datatype Criterion =
    | ById(id: Option<int>)
    | ByFields(description: Option<string>, amount: Option<int>, uom: Option<UnitOfMeasureCommand>)

  /** The filter given by a command's description, amount and unit-of-measure id. */
  function FieldsOf(command: IngredientCommand): Criterion {
    ByFields(command.description, command.amount, command.uom)
  }

  /** One filter test. By id: `getId().equals(id)`. By fields: the description test, then
      the amount test, then `getUom().getId().equals(uom.getId())`, each reached only when the
      one before it passed; every call on a null throws. */
  function Test(c: Criterion, row: IngredientRow): (r: Result<bool>)
    ensures r.Failure? ==> r.error == NullPointer
    ensures c.ById? ==> (r.Failure? <==> row.id.None?)
    ensures c.ById? ==> (r == Success(true) <==> row.id.Some? && row.id == c.id)
    ensures c.ByFields? ==>
              (r == Success(true) <==>
                 && row.description.Some? && row.description == c.description
                 && row.amount.Some? && row.amount == c.amount
                 && row.uom.Some? && c.uom.Some? && row.uom.value.id.Some? && row.uom.value.id == c.uom.value.id)
    ensures c.ByFields? ==>
              (r.Failure? <==>
                 || row.description.None?
                 || (row.description == c.description
                     && (row.amount.None?
                         || (row.amount == c.amount
                             && (row.uom.None? || c.uom.None? || row.uom.value.id.None?)))))
  {
    match c
    case ById(id) => JavaEquals(row.id, id)
    case ByFields(description, amount, uom) =>
      var sameDescription :- JavaEquals(row.description, description);
      if !sameDescription then Success(false)
      else
        var sameAmount :- JavaEquals(row.amount, amount);
        if !sameAmount then Success(false)
        else if row.uom.None? || uom.None? then Failure(NullPointer)
        else JavaEquals(row.uom.value.id, uom.value.id)
  }

  /** `k` is the first row the filter accepts: every row before it was tested and rejected. */
  ghost predicate IsFirstMatch(rows: seq<IngredientRow>, c: Criterion, k: int) {
    && 0 <= k < |rows|
    && Test(c, rows[k]) == Success(true)
    && forall j :: 0 <= j < k ==> Test(c, rows[j]) == Success(false)
  }

  /** `stream().filter(c).findFirst()`: the lazily evaluated stream stops at the first row the
      filter accepts, or at the first test that throws. */
  function FindFirst(rows: seq<IngredientRow>, c: Criterion): (r: Result<Option<nat>>)
    ensures r.Success? && r.value.Some? ==> IsFirstMatch(rows, c, r.value.value)
    ensures r.Success? && r.value.None? ==> forall j :: 0 <= j < |rows| ==> Test(c, rows[j]) == Success(false)
    ensures r.Failure? ==>
              exists k :: 0 <= k < |rows| && Test(c, rows[k]) == Failure(r.error)
                          && forall j :: 0 <= j < k ==> Test(c, rows[j]) == Success(false)
  {
    if rows == [] then Success(None)
    else
      var head :- Test(c, rows[0]);
      if head then Success(Some(0))
      else
        var rest :- FindFirst(rows[1..], c);
        assert forall j :: 1 <= j < |rows| ==> rows[1..][j - 1] == rows[j];
        if rest.Some? then Success(Some(rest.value + 1)) else Success(None)
  }

  /** The search finds the first accepted row whenever there is one. */
  lemma {:induction false} FirstMatchIsFound(rows: seq<IngredientRow>, c: Criterion, k: int)
    requires IsFirstMatch(rows, c, k)
    ensures FindFirst(rows, c) == Success(Some(k))
  {
    if k > 0 {
      assert forall j :: 1 <= j < |rows| ==> rows[1..][j - 1] == rows[j];
      FirstMatchIsFound(rows[1..], c, k - 1);
    }
  }

  /** The search finds nothing, and throws nothing, when every test rejects. */
  lemma {:induction false} RejectedIsNotFound(rows: seq<IngredientRow>, c: Criterion)
    requires forall j :: 0 <= j < |rows| ==> Test(c, rows[j]) == Success(false)
    ensures FindFirst(rows, c) == Success(None)
  {
    if rows != [] {
      assert forall j :: 1 <= j < |rows| ==> rows[1..][j - 1] == rows[j];
      RejectedIsNotFound(rows[1..], c);
    }
  }

  const UomNotFoundMessage := "UOM NOT FOUND"

  /** `unitOfMeasureRepository.findById(uom.getId()).orElseThrow(...)`. */
  function ResolveUom(uom: Option<UnitOfMeasureCommand>, uoms: UnitOfMeasureRepository): (r: Result<UnitOfMeasure>)
    ensures r.Success? <==> uom.Some? && uom.value.id.Some? && uom.value.id.value in uoms.uoms
    ensures r.Success? ==> r.value == uoms.uoms[uom.value.id.value]
    ensures uom.None? ==> r == Failure(NullPointer)
    ensures uom.Some? && uom.value.id.None? ==> r == Failure(IllegalArgument)
    ensures r == Failure(RuntimeError(UomNotFoundMessage)) <==>
              uom.Some? && uom.value.id.Some? && uom.value.id.value !in uoms.uoms
  {
    if uom.None? then Failure(NullPointer)
    else
      var found :- uoms.FindById(uom.value.id);
      if found.None? then Failure(RuntimeError(UomNotFoundMessage)) else Success(found.value)
  }

  /** The re-location of the saved ingredient in the saved recipe: by the command's id, else
      the first by description, amount and unit-of-measure id; `Optional.get` fails when
      neither finds one. */
  function ReFind(rows: seq<IngredientRow>, command: IngredientCommand): (r: Result<nat>)
    ensures r.Success? ==> r.value < |rows|
  {
    var byId :- FindFirst(rows, ById(command.id));
    if byId.Some? then Success(byId.value)
    else
      var byFields :- FindFirst(rows, FieldsOf(command));
      if byFields.Some? then Success(byFields.value) else Failure(NoSuchElement)
  }

  /** What saving an ingredient command does to the rows of an existing recipe: the rows
      afterwards, whether the recipe was written back, the index of the row the result is
      converted from (or the exception), and the next generated ingredient id afterwards. */
  datatype SaveOutcome = SaveOutcome(rows: seq<IngredientRow>, saved: bool, found: Result<nat>, nextId: int)

  /** `converted` is what the command converter makes of the command; `next` is the store's
      next generated ingredient id. */
  function SaveEffect(before: seq<IngredientRow>, command: IngredientCommand, uoms: UnitOfMeasureRepository,
                      converted: IngredientRow, next: int): (r: SaveOutcome)
    ensures var located := FindFirst(before, ById(command.id));
      && (r.saved <==> located.Success? && (located.value.None? || ResolveUom(command.uom, uoms).Success?))
      && (!r.saved ==> r.found.Failure?)
      && (located.Failure? ==> r.rows == before && r.found == Failure(located.error))
      && (located.Success? && located.value.Some? ==> |r.rows| == |before|)
      && (located == Success(None) ==> |r.rows| == |before| + 1)
      && (r.found.Success? ==> r.found.value < |r.rows|)
      && (!r.saved ==> r.nextId == next)
      && (r.saved ==> r.nextId >= next)
  {
    match FindFirst(before, ById(command.id))
    case Failure(e) => SaveOutcome(before, false, Failure(e), next)
    case Success(None) =>
      var rows := AssignIds(before + [converted], next);
      SaveOutcome(rows, true, ReFind(rows, command), next + MissingIds(before + [converted]))
    case Success(Some(k)) =>
      var partial := before[k := before[k].(description := command.description, amount := command.amount)];
      (match ResolveUom(command.uom, uoms)
       case Failure(e) => SaveOutcome(partial, false, Failure(e), next)
       case Success(uom) =>
         var updated := partial[k := partial[k].(uom := Some(uom))];
         SaveOutcome(AssignIds(updated, next), true, ReFind(AssignIds(updated, next), command),
                     next + MissingIds(updated)))
  }

  /** The insert path of SaveEffect, written out. */
  lemma InsertEffect(before: seq<IngredientRow>, command: IngredientCommand, uoms: UnitOfMeasureRepository,
                     converted: IngredientRow, next: int)
    requires FindFirst(before, ById(command.id)) == Success(None)
    ensures var rows := AssignIds(before + [converted], next);
      SaveEffect(before, command, uoms, converted, next)
      == SaveOutcome(rows, true, ReFind(rows, command), next + MissingIds(before + [converted]))
  {
  }

  /** The update path of SaveEffect, written out. */
  lemma UpdateEffect(before: seq<IngredientRow>, command: IngredientCommand, uoms: UnitOfMeasureRepository,
                     converted: IngredientRow, next: int, k: nat)
    requires FindFirst(before, ById(command.id)) == Success(Some(k))
    ensures k < |before|
    ensures var partial := before[k := before[k].(description := command.description, amount := command.amount)];
      var uom := ResolveUom(command.uom, uoms);
      var updated := if uom.Failure? then partial else partial[k := partial[k].(uom := Some(uom.value))];
      SaveEffect(before, command, uoms, converted, next)
      == if uom.Failure? then SaveOutcome(partial, false, Failure(uom.error), next)
         else SaveOutcome(AssignIds(updated, next), true, ReFind(AssignIds(updated, next), command), next + MissingIds(updated))
  {
  }

  /** A save that writes the recipe back leaves every ingredient with an id: either the one
      it had, or one drawn from the store's sequence below the sequence's value afterwards. */
  lemma SaveDrawsIdsFromSequence(before: seq<IngredientRow>, command: IngredientCommand, uoms: UnitOfMeasureRepository,
                                 converted: IngredientRow, next: int)
    ensures var e := SaveEffect(before, command, uoms, converted, next);
      e.saved ==>
        forall j :: 0 <= j < |e.rows| ==>
          && e.rows[j].id.Some?
          && (|| next <= e.rows[j].id.value < e.nextId
              || (j < |before| && e.rows[j].id == before[j].id)
              || (j == |before| && e.rows[j].id == converted.id))
  {
    match FindFirst(before, ById(command.id))
    case Failure(_) =>
    case Success(None) =>
      var extended := before + [converted];
      AssignIdsSpec(extended, next);
      assert forall j :: 0 <= j < |extended| ==> extended[j] == if j < |before| then before[j] else converted;
    case Success(Some(k)) =>
      var uom := ResolveUom(command.uom, uoms);
      if uom.Success? {
        var partial := before[k := before[k].(description := command.description, amount := command.amount)];
        var updated := partial[k := partial[k].(uom := Some(uom.value))];
        AssignIdsSpec(updated, next);
        assert forall j :: 0 <= j < |updated| ==> updated[j].id == before[j].id;
      }
  }

  /** Update path: the matching ingredient gets the command's description, amount and unit
      of measure in place, the count is unchanged, the others keep their fields, and the
      result is converted from that same ingredient. */
  lemma SaveUpdatesInPlace(before: seq<IngredientRow>, command: IngredientCommand, uoms: UnitOfMeasureRepository,
                           converted: IngredientRow, next: int, k: nat)
    requires FindFirst(before, ById(command.id)) == Success(Some(k))
    requires ResolveUom(command.uom, uoms).Success?
    ensures var e := SaveEffect(before, command, uoms, converted, next);
      && e.saved
      && |e.rows| == |before|
      && e.rows[k] == IngredientRow(before[k].id, command.description, command.amount,
                                    Some(ResolveUom(command.uom, uoms).value))
      && (forall j :: 0 <= j < |before| && j != k ==> e.rows[j] == before[j].(id := e.rows[j].id))
      && (forall j :: 0 <= j < |before| && before[j].id.Some? ==> e.rows[j].id == before[j].id)
      && e.found == Success(k)
  {
    var uom := ResolveUom(command.uom, uoms).value;
    var partial := before[k := before[k].(description := command.description, amount := command.amount)];
    var updated := partial[k := partial[k].(uom := Some(uom))];
    var rows := AssignIds(updated, next);
    AssignIdsSpec(updated, next);
    assert before[k].id.Some?;
    forall j | 0 <= j < k ensures Test(ById(command.id), rows[j]) == Success(false) {
      assert Test(ById(command.id), before[j]) == Success(false);
    }
    assert IsFirstMatch(rows, ById(command.id), k);
    FirstMatchIsFound(rows, ById(command.id), k);
  }

  /** Update path with an unresolvable unit of measure: nothing is saved, the exception says
      why, and the description and amount have already been overwritten. */
  lemma SaveUpdateUomFails(before: seq<IngredientRow>, command: IngredientCommand, uoms: UnitOfMeasureRepository,
                           converted: IngredientRow, next: int, k: nat)
    requires FindFirst(before, ById(command.id)) == Success(Some(k))
    requires ResolveUom(command.uom, uoms).Failure?
    ensures var e := SaveEffect(before, command, uoms, converted, next);
      && !e.saved
      && e.found == Failure(ResolveUom(command.uom, uoms).error)
      && (command.uom.Some? && command.uom.value.id.Some? ==> e.found == Failure(RuntimeError(UomNotFoundMessage)))
      && |e.rows| == |before|
      && e.rows[k] == before[k].(description := command.description, amount := command.amount)
      && (forall j :: 0 <= j < |before| && j != k ==> e.rows[j] == before[j])
  {
  }

  /** Insert path: exactly one row is added, after the unchanged existing ones, holding the
      converted command with an id generated if it had none. */
  lemma SaveInsertsOne(before: seq<IngredientRow>, command: IngredientCommand, uoms: UnitOfMeasureRepository,
                       converted: IngredientRow, next: int)
    requires FindFirst(before, ById(command.id)) == Success(None)
    ensures var e := SaveEffect(before, command, uoms, converted, next);
      && e.saved
      && |e.rows| == |before| + 1
      && e.rows[..|before|] == before
      && e.rows[|before|] == converted.(id := e.rows[|before|].id)
      && e.rows[|before|].id.Some?
      && (converted.id.Some? ==> e.rows[|before|] == converted)
  {
    var extended := before + [converted];
    AssignIdsSpec(extended, next);
    forall j | 0 <= j < |before| ensures before[j].id.Some? {
      assert Test(ById(command.id), before[j]) == Success(false);
    }
    assert forall j :: 0 <= j < |before| ==> extended[j] == before[j];
  }

  /** Insert path with a command id: the re-location by id finds the new ingredient. */
  lemma SaveInsertFindsById(before: seq<IngredientRow>, command: IngredientCommand, uoms: UnitOfMeasureRepository,
                            converted: IngredientRow, next: int)
    requires FindFirst(before, ById(command.id)) == Success(None)
    requires command.id.Some? && converted.id == command.id
    ensures SaveEffect(before, command, uoms, converted, next).found == Success(|before|)
  {
    SaveInsertsOne(before, command, uoms, converted, next);
    var rows := SaveEffect(before, command, uoms, converted, next).rows;
    forall j | 0 <= j < |before| ensures Test(ById(command.id), rows[j]) == Success(false) {
      assert rows[j] == rows[..|before|][j];
    }
    FirstMatchIsFound(rows, ById(command.id), |before|);
  }

  /** Insert path without a command id: nothing matches by id, so the result comes from the
      first row, old or new, whose description, amount and unit-of-measure id equal the
      command's. When an older ingredient has the same three values that older one is
      returned, not the one just added. */
  lemma SaveInsertFallsBackToFields(before: seq<IngredientRow>, command: IngredientCommand,
                                    uoms: UnitOfMeasureRepository, converted: IngredientRow, next: int, j: nat)
    requires FindFirst(before, ById(command.id)) == Success(None)
    requires command.id.None?
    requires IsFirstMatch(before + [converted], FieldsOf(command), j)
    ensures SaveEffect(before, command, uoms, converted, next).found == Success(j)
  {
    var extended := before + [converted];
    var rows := AssignIds(extended, next);
    AssignIdsSpec(extended, next);
    forall i | 0 <= i < |rows| ensures Test(ById(None), rows[i]) == Success(false) {
    }
    RejectedIsNotFound(rows, ById(None));
    forall i | 0 <= i <= j ensures Test(FieldsOf(command), rows[i]) == Test(FieldsOf(command), extended[i]) {
      assert rows[i] == extended[i].(id := rows[i].id);
    }
    FirstMatchIsFound(rows, FieldsOf(command), j);
  }

  /** Insert path without a command id and without a description: the recipe is saved, and
      then the fallback search throws on the null description. */
  lemma SaveInsertWithoutDescriptionThrows(before: seq<IngredientRow>, command: IngredientCommand,
                                           uoms: UnitOfMeasureRepository, converted: IngredientRow, next: int)
    requires FindFirst(before, ById(command.id)) == Success(None)
    requires command.id.None? && command.description.None? && converted.description.None?
    ensures var e := SaveEffect(before, command, uoms, converted, next);
      e.saved && e.found == Failure(NullPointer)
  {
    var extended := before + [converted];
    var rows := AssignIds(extended, next);
    AssignIdsSpec(extended, next);
    RejectedIsNotFound(rows, ById(None));
    forall i | 0 <= i < |rows| ensures Test(FieldsOf(command), rows[i]) != Success(true) {
      assert rows[i].description == extended[i].description;
    }
    assert rows[|rows| - 1].description.None?;
    assert Test(FieldsOf(command), rows[|rows| - 1]) == Failure(NullPointer);
    var r := FindFirst(rows, FieldsOf(command));
    assert r.Failure?;
    var k :| 0 <= k < |rows| && Test(FieldsOf(command), rows[k]) == Failure(r.error);
    assert rows[k].description.None?;
  }

  /** Deleting the ingredient found by id removes exactly that row: the rows before it are
      unchanged, and the rows after it only gain ids where they had none. */
  lemma DeleteRemovesExactlyOne(before: seq<IngredientRow>, idToDelete: int, next: int, k: nat)
    requires FindFirst(before, ById(Some(idToDelete))) == Success(Some(k))
    ensures before[k].id == Some(idToDelete)
    ensures var after := AssignIds(before[..k] + before[k + 1..], next);
      && |after| == |before| - 1
      && after[..k] == before[..k]
      && (forall j :: k < j < |before| ==> after[j - 1] == before[j].(id := after[j - 1].id))
      && (forall j :: k < j < |before| && before[j].id.Some? ==> after[j - 1] == before[j])
  {
    var remaining := before[..k] + before[k + 1..];
    AssignIdsSpec(remaining, next);
    forall j | 0 <= j < k ensures before[j].id.Some? {
      assert Test(ById(Some(idToDelete)), before[j]) == Success(false);
    }
    assert forall j :: 0 <= j < k ==> remaining[j] == before[j];
    assert forall j :: k < j < |before| ==> remaining[j - 1] == before[j];
  }

  class IngredientService {
    /** The ingredient-to-command converter, applied to an ingredient's fields and its
        parent recipe's id. */
    const ingredientToIngredientCommand: (IngredientRow, Option<int>) -> IngredientCommand
    const ingredientCommandToIngredient: IngredientCommandToIngredient
    const recipeRepository: RecipeRepository
    const unitOfMeasureRepository: UnitOfMeasureRepository

    constructor (ingredientToIngredientCommand: (IngredientRow, Option<int>) -> IngredientCommand,
                 ingredientCommandToIngredient: IngredientCommandToIngredient,
                 recipeRepository: RecipeRepository, unitOfMeasureRepository: UnitOfMeasureRepository)
      ensures this.ingredientToIngredientCommand == ingredientToIngredientCommand
      ensures this.ingredientCommandToIngredient == ingredientCommandToIngredient
      ensures this.recipeRepository == recipeRepository
      ensures this.unitOfMeasureRepository == unitOfMeasureRepository
    {
      this.ingredientToIngredientCommand := ingredientToIngredientCommand;
      this.ingredientCommandToIngredient := ingredientCommandToIngredient;
      this.recipeRepository := recipeRepository;
      this.unitOfMeasureRepository := unitOfMeasureRepository;
    }

    /** The command for the recipe's first ingredient with the given id. A missing recipe or
        ingredient is logged and then `Optional.get` throws; an ingredient without an id met
        before the match throws in the filter. */
    method FindByRecipeIdAndIngredientId(recipeId: int, ingredientId: int) returns (result: Result<IngredientCommand>)
      ensures recipeId !in recipeRepository.recipes ==> result == Failure(NoSuchElement)
      ensures recipeId in recipeRepository.recipes ==>
        var ingredients := recipeRepository.recipes[recipeId].ingredients;
        var rows := Rows(ingredients);
        && (result.Success? <==> exists k :: IsFirstMatch(rows, ById(Some(ingredientId)), k))
        && (forall k :: IsFirstMatch(rows, ById(Some(ingredientId)), k) ==>
              result == Success(ingredientToIngredientCommand(rows[k], ingredients[k].ParentId())))
        && (result == Failure(NoSuchElement) <==>
              forall j :: 0 <= j < |rows| ==> rows[j].id.Some? && rows[j].id != Some(ingredientId))
        && (result.Failure? ==> result.error == NoSuchElement || result.error == NullPointer)
    {
      var lookup := recipeRepository.FindById(Some(recipeId));
      if lookup.Failure? || lookup.value.None? {
        return Failure(NoSuchElement);
      }
      var recipe := lookup.value.value;
      assert recipe == recipeRepository.recipes[recipeId];
      var rows := Rows(recipe.ingredients);
      var c := ById(Some(ingredientId));
      var found := FindFirst(rows, c);
      forall k | IsFirstMatch(rows, c, k) ensures found == Success(Some(k)) {
        FirstMatchIsFound(rows, c, k);
      }
      if (forall j :: 0 <= j < |rows| ==> rows[j].id.Some? && rows[j].id != Some(ingredientId)) {
        RejectedIsNotFound(rows, c);
      }
      if found.Failure? {
        assert !exists k :: IsFirstMatch(rows, c, k);
        return Failure(found.error);
      }
      if found.value.None? {
        assert !exists k :: IsFirstMatch(rows, c, k);
        return Failure(NoSuchElement);
      }
      var k := found.value.value;
      assert IsFirstMatch(Rows(recipeRepository.recipes[recipeId].ingredients), ById(Some(ingredientId)), k);
      result := Success(ingredientToIngredientCommand(rows[k], recipe.ingredients[k].ParentId()));
    }

    /** The command for the ingredient at the re-located index, converted with its parent
        recipe's id, or the exception that ended the search. */
    function Respond(ingredients: seq<Ingredient>, found: Result<nat>): (r: Result<IngredientCommand>)
      reads ingredients, set i | i in ingredients && i.recipe != null :: i.recipe
      ensures r.Failure? <==> found.Failure? || found.value >= |ingredients|
      ensures found.Failure? ==> r == Failure(found.error)
      ensures r.Success? ==>
                r.value == ingredientToIngredientCommand(ingredients[found.value].Row(), ingredients[found.value].ParentId())
    {
      if found.Failure? then Failure(found.error)
      else if found.value < |ingredients| then
        Success(ingredientToIngredientCommand(ingredients[found.value].Row(), ingredients[found.value].ParentId()))
      else Failure(NoSuchElement)
    }

    /** What saving `command` into the stored `recipe` did, between the old state and now:
        the rows are those of SaveEffect, the store keeps the same entries, a new ingredient
        is appended (with the stored recipe as parent) only when no ingredient had the
        command's id, nothing is written back when the search or the unit of measure
        failed, and the result is the command for the re-located ingredient. */
    twostate predicate SavedInto(recipe: Recipe, command: IngredientCommand, new result: Result<IngredientCommand>)
      reads recipeRepository, recipeRepository.ingredientIds, recipe, recipe.ingredients
      reads set i | i in recipe.ingredients && i.recipe != null :: i.recipe
    {
      var before := old(Rows(recipe.ingredients));
      var located := FindFirst(before, ById(command.id));
      var effect := old(SaveEffect(before, command, unitOfMeasureRepository,
                                   ConvertedRow(command, ingredientCommandToIngredient.uomConverter),
                                   recipeRepository.ingredientIds.next));
      && recipeRepository.recipes == old(recipeRepository.recipes)
      && recipeRepository.nextRecipeId == old(recipeRepository.nextRecipeId)
      && recipeRepository.ingredientIds.next == effect.nextId
      && (!effect.saved ==> unchanged(recipeRepository, recipeRepository.ingredientIds))
      && Rows(recipe.ingredients) == effect.rows
      && (located != Success(None) ==>
            recipe.ingredients == old(recipe.ingredients)
            && Parents(recipe.ingredients) == old(Parents(recipe.ingredients)))
      && (located == Success(None) ==>
            && |recipe.ingredients| == |before| + 1
            && recipe.ingredients[..|before|] == old(recipe.ingredients)
            && fresh(recipe.ingredients[|before|])
            && Parents(recipe.ingredients) == old(Parents(recipe.ingredients)) + [recipe])
      && result == Respond(recipe.ingredients, effect.found)
    }

    /** Saves the command into its recipe; see SavedInto and SaveEffect. A null recipe id is
        rejected by the store; an unknown one is logged and answered with an empty command,
        with nothing changed. */
    method SaveIngredientCommand(command: IngredientCommand) returns (result: Result<IngredientCommand>)
      requires recipeRepository.Valid()
      modifies recipeRepository`recipes, recipeRepository`nextRecipeId, recipeRepository.ingredientIds`next
      modifies recipeRepository.StoredRecipe(command.recipeId)`ingredients, recipeRepository.StoredRecipe(command.recipeId)`id
      modifies recipeRepository.StoredIngredients(command.recipeId)
      ensures recipeRepository.Valid()
      ensures command.recipeId.None? ==>
                result == Failure(IllegalArgument) && unchanged(recipeRepository, recipeRepository.ingredientIds)
      ensures command.recipeId.Some? && command.recipeId.value !in old(recipeRepository.recipes) ==>
                result == Success(EmptyIngredientCommand) && unchanged(recipeRepository, recipeRepository.ingredientIds)
      ensures command.recipeId.Some? && command.recipeId.value in old(recipeRepository.recipes) ==>
                SavedInto(old(recipeRepository.recipes[command.recipeId.value]), command, result)
    {
      var lookup := recipeRepository.FindById(command.recipeId);
      if lookup.Failure? {
        return Failure(lookup.error);
      }
      if lookup.value.None? {
        return Success(EmptyIngredientCommand);
      }
      var recipe := lookup.value.value;
      assert recipe in recipeRepository.StoredRecipe(command.recipeId);
      assert forall i :: i in recipe.ingredients ==> i in recipeRepository.StoredIngredients(command.recipeId);
      result := SaveInto(command.recipeId.value, recipe, command);
    }

    /** The save on a recipe found in the store under `key`. */
    method SaveInto(key: int, recipe: Recipe, command: IngredientCommand) returns (result: Result<IngredientCommand>)
      requires recipeRepository.Valid() && key in recipeRepository.recipes && recipeRepository.recipes[key] == recipe
      modifies recipeRepository`recipes, recipeRepository`nextRecipeId, recipeRepository.ingredientIds`next,
              recipe`ingredients, recipe`id, recipe.ingredients
      ensures recipeRepository.Valid()
      ensures SavedInto(recipe, command, result)
    {
      var located := FindFirst(Rows(recipe.ingredients), ById(command.id));
      if located.Failure? {
        return Failure(located.error);
      }
      if located.value.Some? {
        result := SaveOverFound(key, recipe, located.value.value, command);
      } else {
        result := SaveAsNew(key, recipe, command);
      }
    }

    /** The save when the `k`-th ingredient has the command's id; see SavedInto. */
    method SaveOverFound(key: int, recipe: Recipe, k: nat, command: IngredientCommand)
      returns (result: Result<IngredientCommand>)
      requires recipeRepository.Valid() && key in recipeRepository.recipes && recipeRepository.recipes[key] == recipe
      requires FindFirst(Rows(recipe.ingredients), ById(command.id)) == Success(Some(k))
      modifies recipeRepository`recipes, recipeRepository`nextRecipeId, recipeRepository.ingredientIds`next,
              recipe`ingredients, recipe`id, recipe.ingredients
      ensures recipeRepository.Valid()
      ensures SavedInto(recipe, command, result)
    {
      UpdateEffect(Rows(recipe.ingredients), command, unitOfMeasureRepository,
                   ConvertedRow(command, ingredientCommandToIngredient.uomConverter), recipeRepository.ingredientIds.next, k);
      result := UpdateAndSave(key, recipe, k, command);
    }

    /** The save when no ingredient has the command's id; see SavedInto. */
    method SaveAsNew(key: int, recipe: Recipe, command: IngredientCommand) returns (result: Result<IngredientCommand>)
      requires recipeRepository.Valid() && key in recipeRepository.recipes && recipeRepository.recipes[key] == recipe
      requires FindFirst(Rows(recipe.ingredients), ById(command.id)) == Success(None)
      modifies recipeRepository`recipes, recipeRepository`nextRecipeId, recipeRepository.ingredientIds`next,
              recipe`ingredients, recipe`id, recipe.ingredients
      ensures recipeRepository.Valid()
      ensures SavedInto(recipe, command, result)
    {
      InsertEffect(Rows(recipe.ingredients), command, unitOfMeasureRepository,
                   ConvertedRow(command, ingredientCommandToIngredient.uomConverter), recipeRepository.ingredientIds.next);
      result := InsertAndSave(key, recipe, command);
    }

    /** The update branch, then the save and the re-location. */
    method UpdateAndSave(key: int, recipe: Recipe, k: nat, command: IngredientCommand)
      returns (result: Result<IngredientCommand>)
      requires recipeRepository.Valid() && key in recipeRepository.recipes && recipeRepository.recipes[key] == recipe
      requires k < |recipe.ingredients|
      modifies recipeRepository`recipes, recipeRepository`nextRecipeId, recipeRepository.ingredientIds`next,
              recipe`ingredients, recipe`id, recipe.ingredients
      ensures recipeRepository.Valid()
      ensures recipeRepository.recipes == old(recipeRepository.recipes)
      ensures recipeRepository.nextRecipeId == old(recipeRepository.nextRecipeId)
      ensures recipe.ingredients == old(recipe.ingredients)
      ensures Parents(recipe.ingredients) == old(Parents(recipe.ingredients))
      ensures var before := old(Rows(recipe.ingredients));
        var partial := before[k := before[k].(description := command.description, amount := command.amount)];
        var uom := ResolveUom(command.uom, unitOfMeasureRepository);
        && (uom.Failure? ==>
              && unchanged(recipeRepository, recipeRepository.ingredientIds)
              && Rows(recipe.ingredients) == partial
              && result == Failure(uom.error))
        && (uom.Success? ==>
              var updated := partial[k := partial[k].(uom := Some(uom.value))];
              && Rows(recipe.ingredients) == AssignIds(updated, old(recipeRepository.ingredientIds.next))
              && recipeRepository.ingredientIds.next == old(recipeRepository.ingredientIds.next) + MissingIds(updated)
              && result == Respond(recipe.ingredients, ReFind(Rows(recipe.ingredients), command)))
    {
      ghost var before := Rows(recipe.ingredients);
      ghost var partial := before[k := before[k].(description := command.description, amount := command.amount)];
      assert recipe.Valid();
      var uom := UpdateIngredient(recipe, k, recipe.ingredients[k], command);
      if uom.Failure? {
        assert Rows(recipe.ingredients) == partial;
        return Failure(uom.error);
      }
      result := SaveAndRespond(key, recipe, command);
    }

    /** The insert branch, then the save and the re-location. */
    method InsertAndSave(key: int, recipe: Recipe, command: IngredientCommand)
      returns (result: Result<IngredientCommand>)
      requires recipeRepository.Valid() && key in recipeRepository.recipes && recipeRepository.recipes[key] == recipe
      modifies recipeRepository`recipes, recipeRepository`nextRecipeId, recipeRepository.ingredientIds`next,
              recipe`ingredients, recipe`id, recipe.ingredients
      ensures recipeRepository.Valid()
      ensures recipeRepository.recipes == old(recipeRepository.recipes)
      ensures recipeRepository.nextRecipeId == old(recipeRepository.nextRecipeId)
      ensures var extended := old(Rows(recipe.ingredients)) + [ConvertedRow(command, ingredientCommandToIngredient.uomConverter)];
        && Rows(recipe.ingredients) == AssignIds(extended, old(recipeRepository.ingredientIds.next))
        && recipeRepository.ingredientIds.next == old(recipeRepository.ingredientIds.next) + MissingIds(extended)
      ensures |recipe.ingredients| == |old(recipe.ingredients)| + 1
      ensures recipe.ingredients[..|old(recipe.ingredients)|] == old(recipe.ingredients)
      ensures fresh(recipe.ingredients[|old(recipe.ingredients)|])
      ensures Parents(recipe.ingredients) == old(Parents(recipe.ingredients)) + [recipe]
      ensures result == Respond(recipe.ingredients, ReFind(Rows(recipe.ingredients), command))
    {
      ghost var extended := Rows(recipe.ingredients) + [ConvertedRow(command, ingredientCommandToIngredient.uomConverter)];
      ghost var next := recipeRepository.ingredientIds.next;
      ghost var parents := Parents(recipe.ingredients);
      InsertIngredient(key, recipe, command);
      ghost var inserted := recipe.ingredients;
      assert Rows(inserted) == extended;
      assert Parents(inserted) == parents + [recipe];
      result := SaveAndRespond(key, recipe, command);
      assert recipe.ingredients == inserted;
    }

    /** `recipeRepository.save(recipe)`, then the re-location of the saved ingredient and
        its conversion. */
    method SaveAndRespond(key: int, recipe: Recipe, command: IngredientCommand)
      returns (result: Result<IngredientCommand>)
      requires recipeRepository.Valid() && key in recipeRepository.recipes && recipeRepository.recipes[key] == recipe
      requires recipe.Valid()
      modifies recipeRepository`recipes, recipeRepository`nextRecipeId, recipeRepository.ingredientIds`next, recipe`id, recipe.ingredients`id
      ensures recipeRepository.Valid()
      ensures recipeRepository.recipes == old(recipeRepository.recipes)
      ensures recipeRepository.nextRecipeId == old(recipeRepository.nextRecipeId)
      ensures recipe.ingredients == old(recipe.ingredients)
      ensures Rows(recipe.ingredients) == AssignIds(old(Rows(recipe.ingredients)), old(recipeRepository.ingredientIds.next))
      ensures recipeRepository.ingredientIds.next
              == old(recipeRepository.ingredientIds.next) + MissingIds(old(Rows(recipe.ingredients)))
      ensures Parents(recipe.ingredients) == old(Parents(recipe.ingredients))
      ensures result == Respond(recipe.ingredients, ReFind(Rows(recipe.ingredients), command))
    {
      SaveStored(key, recipe);
      result := Respond(recipe.ingredients, ReFind(Rows(recipe.ingredients), command));
    }

    /** `recipeRepository.save(recipe)` on the recipe stored under `key`: the entry stays,
        and the ingredients are persisted. */
    method SaveStored(key: int, recipe: Recipe)
      requires recipeRepository.Valid() && key in recipeRepository.recipes && recipeRepository.recipes[key] == recipe
      requires recipe.Valid()
      modifies recipeRepository`recipes, recipeRepository`nextRecipeId, recipeRepository.ingredientIds`next, recipe`id, recipe.ingredients`id
      ensures recipeRepository.Valid()
      ensures recipeRepository.recipes == old(recipeRepository.recipes)
      ensures recipeRepository.nextRecipeId == old(recipeRepository.nextRecipeId)
      ensures recipe.ingredients == old(recipe.ingredients)
      ensures Rows(recipe.ingredients) == AssignIds(old(Rows(recipe.ingredients)), old(recipeRepository.ingredientIds.next))
      ensures recipeRepository.ingredientIds.next
              == old(recipeRepository.ingredientIds.next) + MissingIds(old(Rows(recipe.ingredients)))
      ensures Parents(recipe.ingredients) == old(Parents(recipe.ingredients))
    {
      var _ := recipeRepository.Save(recipe);
    }

    /** The update branch: the found ingredient's setters, the unit of measure last. */
    method UpdateIngredient(recipe: Recipe, k: nat, found: Ingredient, command: IngredientCommand)
      returns (uom: Result<UnitOfMeasure>)
      requires recipe.Valid() && k < |recipe.ingredients| && found == recipe.ingredients[k]
      modifies found`description, found`amount, found`uom
      ensures uom == ResolveUom(command.uom, unitOfMeasureRepository)
      ensures Parents(recipe.ingredients) == old(Parents(recipe.ingredients))
      ensures var partial := old(Rows(recipe.ingredients)[k := found.Row().(description := command.description, amount := command.amount)]);
        Rows(recipe.ingredients) == if uom.Failure? then partial else partial[k := partial[k].(uom := Some(uom.value))]
    {
      var ingredients := recipe.ingredients;
      ghost var rows := Rows(ingredients);
      ghost var parents := Parents(ingredients);
      assert forall j :: 0 <= j < |ingredients| && j != k ==> ingredients[j] != found;
      found.description := command.description;
      found.amount := command.amount;
      uom := ResolveUom(command.uom, unitOfMeasureRepository);
      if uom.Success? {
        found.uom := Some(uom.value);
      }
      ghost var partial := rows[k := rows[k].(description := command.description, amount := command.amount)];
      ghost var updated := if uom.Failure? then partial else partial[k := partial[k].(uom := Some(uom.value))];
      forall j | 0 <= j < |ingredients|
        ensures ingredients[j].Row() == updated[j] && ingredients[j].recipe == parents[j]
      {
        if j == k {
          assert ingredients[j] == found;
        } else {
          assert ingredients[j] != found;
        }
      }
      RowsOf(ingredients, updated);
      ParentsOf(ingredients, parents);
    }

    /** The insert branch: convert the command, make the stored recipe its parent (not the
        converter's stub) and add it to the recipe. */
    method InsertIngredient(key: int, recipe: Recipe, command: IngredientCommand)
      requires recipeRepository.Valid() && key in recipeRepository.recipes && recipeRepository.recipes[key] == recipe
      modifies recipe`ingredients
      ensures recipeRepository.Valid() && recipe.Valid()
      ensures |recipe.ingredients| == |old(recipe.ingredients)| + 1
      ensures recipe.ingredients[..|old(recipe.ingredients)|] == old(recipe.ingredients)
      ensures fresh(recipe.ingredients[|old(recipe.ingredients)|])
      ensures Rows(recipe.ingredients) == old(Rows(recipe.ingredients)) + [ConvertedRow(command, ingredientCommandToIngredient.uomConverter)]
      ensures Parents(recipe.ingredients) == old(Parents(recipe.ingredients)) + [recipe]
    {
      assert recipe.Valid();
      var existing := recipe.ingredients;
      ghost var rows := Rows(existing);
      ghost var parents := Parents(existing);
      ghost var converted := ConvertedRow(command, ingredientCommandToIngredient.uomConverter);
      var ingredient := ingredientCommandToIngredient.Convert(Some(command));
      assert ingredient.Row() == converted;
      assert ingredient !in existing;
      ingredient.recipe := recipe;
      AddToStored(key, recipe, ingredient);
      assert ingredient.Row() == converted;
      forall j | 0 <= j < |existing| ensures existing[j].recipe == parents[j] && existing[j].Row() == rows[j] {
        assert existing[j] != ingredient;
      }
      RowsOf(existing, rows);
      ParentsOf(existing, parents);
      RowsAppend(existing, ingredient);
      assert converted == ConvertedRow(command, ingredientCommandToIngredient.uomConverter);
    }

    /** `recipe.addIngredient(ingredient)` on a stored recipe, for an ingredient it does not
        hold yet: the store stays valid. */
    method AddToStored(key: int, recipe: Recipe, ingredient: Ingredient)
      requires recipeRepository.Valid() && key in recipeRepository.recipes && recipeRepository.recipes[key] == recipe
      requires ingredient !in recipe.ingredients
      modifies recipe`ingredients, ingredient`recipe
      ensures recipeRepository.Valid() && recipe.Valid()
      ensures recipe.ingredients == old(recipe.ingredients) + [ingredient]
      ensures ingredient.recipe == recipe
    {
      assert recipe.Valid();
      var _ := recipe.AddIngredient(ingredient);
      forall k | k in recipeRepository.recipes ensures recipeRepository.recipes[k].Valid() {
        assert old(recipeRepository.recipes[k].Valid());
        assert k != key ==> recipeRepository.recipes[k] != recipe;
      }
    }

    /** What deleting `idToDelete` from the stored `recipe`, whose ingredients were
        `ingredients`, did between the old state and now: the store keeps the same entries;
        when the search finds the ingredient, exactly that one is removed and its parent
        link cleared, and the rest are persisted; otherwise nothing changes. */
    twostate predicate DeletedFrom(recipe: Recipe, ingredients: seq<Ingredient>, idToDelete: int, new result: Result<()>)
      reads recipeRepository, recipeRepository.ingredientIds, recipe, recipe.ingredients, ingredients
    {
      var before := old(Rows(ingredients));
      var located := FindFirst(before, ById(Some(idToDelete)));
      && ingredients == old(recipe.ingredients)
      && recipeRepository.recipes == old(recipeRepository.recipes)
      && recipeRepository.nextRecipeId == old(recipeRepository.nextRecipeId)
      && (located.Failure? ==> result == Failure(located.error))
      && (located.Success? ==> result == Success(()))
      && (located.Failure? || located == Success(None) ==>
            && unchanged(recipeRepository, recipeRepository.ingredientIds, recipe)
            && Rows(recipe.ingredients) == before
            && Parents(recipe.ingredients) == old(Parents(ingredients)))
      && (located.Success? && located.value.Some? ==>
            var k := located.value.value;
            && ingredients[k].recipe == null
            && ingredients[k].Row() == old(ingredients[k].Row())
            && recipeRepository.ingredientIds.next
               == old(recipeRepository.ingredientIds.next) + MissingIds(before[..k] + before[k + 1..])
            && recipe.ingredients == ingredients[..k] + ingredients[k + 1..]
            && Rows(recipe.ingredients)
               == AssignIds(before[..k] + before[k + 1..], old(recipeRepository.ingredientIds.next))
            && Parents(recipe.ingredients) == old(Parents(ingredients)[..k] + Parents(ingredients)[k + 1..]))
    }

    /** Unlinks and removes the recipe's first ingredient with the given id and saves the
        recipe; see DeletedFrom. A missing recipe or ingredient is logged and nothing changes. */
    method DeleteById(recipeId: int, idToDelete: int) returns (result: Result<()>)
      requires recipeRepository.Valid()
      modifies recipeRepository`recipes, recipeRepository`nextRecipeId, recipeRepository.ingredientIds`next
      modifies recipeRepository.StoredRecipe(Some(recipeId))`ingredients, recipeRepository.StoredRecipe(Some(recipeId))`id
      modifies recipeRepository.StoredIngredients(Some(recipeId))
      ensures recipeRepository.Valid()
      ensures recipeId !in old(recipeRepository.recipes) ==>
                result == Success(()) && unchanged(recipeRepository, recipeRepository.ingredientIds)
      ensures recipeId in old(recipeRepository.recipes) ==>
                DeletedFrom(old(recipeRepository.recipes[recipeId]), old(recipeRepository.recipes[recipeId].ingredients),
                            idToDelete, result)
    {
      var lookup := recipeRepository.FindById(Some(recipeId));
      if lookup.Failure? || lookup.value.None? {
        return Success(());
      }
      var recipe := lookup.value.value;
      assert recipe in recipeRepository.StoredRecipe(Some(recipeId));
      assert forall i :: i in recipe.ingredients ==> i in recipeRepository.StoredIngredients(Some(recipeId));
      result := DeleteFrom(recipeId, recipe, idToDelete);
    }

    /** The delete on a recipe found in the store under `key`. */
    method DeleteFrom(key: int, recipe: Recipe, idToDelete: int) returns (result: Result<()>)
      requires recipeRepository.Valid() && key in recipeRepository.recipes && recipeRepository.recipes[key] == recipe
      modifies recipeRepository`recipes, recipeRepository`nextRecipeId, recipeRepository.ingredientIds`next,
              recipe`ingredients, recipe`id, recipe.ingredients
      ensures recipeRepository.Valid()
      ensures DeletedFrom(recipe, old(recipe.ingredients), idToDelete, result)
    {
      var located := FindFirst(Rows(recipe.ingredients), ById(Some(idToDelete)));
      if located.Failure? {
        return Failure(located.error);
      }
      if located.value.Some? {
        RemoveAndSave(key, recipe, located.value.value);
      }
      result := Success(());
    }

    /** The removal of the found ingredient, then the save. */
    method RemoveAndSave(key: int, recipe: Recipe, k: nat)
      requires recipeRepository.Valid() && key in recipeRepository.recipes && recipeRepository.recipes[key] == recipe
      requires k < |recipe.ingredients|
      modifies recipeRepository`recipes, recipeRepository`nextRecipeId, recipeRepository.ingredientIds`next,
              recipe`ingredients, recipe`id, recipe.ingredients
      ensures recipeRepository.Valid()
      ensures recipeRepository.recipes == old(recipeRepository.recipes)
      ensures recipeRepository.nextRecipeId == old(recipeRepository.nextRecipeId)
      ensures old(recipe.ingredients[k]).recipe == null
      ensures old(recipe.ingredients[k]).Row() == old(recipe.ingredients[k].Row())
      ensures recipeRepository.ingredientIds.next
              == old(recipeRepository.ingredientIds.next + MissingIds(Rows(recipe.ingredients)[..k] + Rows(recipe.ingredients)[k + 1..]))
      ensures recipe.ingredients == old(recipe.ingredients[..k] + recipe.ingredients[k + 1..])
      ensures Rows(recipe.ingredients)
              == AssignIds(old(Rows(recipe.ingredients)[..k] + Rows(recipe.ingredients)[k + 1..]),
                           old(recipeRepository.ingredientIds.next))
      ensures Parents(recipe.ingredients) == old(Parents(recipe.ingredients)[..k] + Parents(recipe.ingredients)[k + 1..])
    {
      var removed := recipe.ingredients[k];
      ghost var before := Rows(recipe.ingredients);
      ghost var parents := Parents(recipe.ingredients);
      ghost var next := recipeRepository.ingredientIds.next;
      ghost var row := removed.Row();
      RemoveIngredient(key, recipe, k, removed);
      ghost var remaining := recipe.ingredients;
      ghost var remainingRows := Rows(remaining);
      ghost var remainingParents := Parents(remaining);
      assert remainingRows == before[..k] + before[k + 1..];
      assert remainingParents == parents[..k] + parents[k + 1..];
      assert removed !in remaining && removed.Row() == row;
      SaveStored(key, recipe);
      assert recipe.ingredients == remaining;
      assert Rows(recipe.ingredients) == AssignIds(remainingRows, next);
      assert Parents(recipe.ingredients) == remainingParents;
      assert recipeRepository.ingredientIds.next == next + MissingIds(remainingRows);
      assert removed.Row() == row;
    }

    /** `setRecipe(null)` on the ingredient, then its removal from the recipe's set. */
    method RemoveIngredient(key: int, recipe: Recipe, k: nat, ingredient: Ingredient)
      requires recipeRepository.Valid() && key in recipeRepository.recipes && recipeRepository.recipes[key] == recipe
      requires k < |recipe.ingredients| && ingredient == recipe.ingredients[k]
      modifies recipe`ingredients, ingredient`recipe
      ensures recipeRepository.Valid() && recipe.Valid()
      ensures recipe.ingredients == old(recipe.ingredients[..k] + recipe.ingredients[k + 1..])
      ensures forall i :: i in recipe.ingredients ==> i in old(recipe.ingredients)
      ensures ingredient.recipe == null && ingredient !in recipe.ingredients
      ensures Rows(recipe.ingredients) == old(Rows(recipe.ingredients)[..k] + Rows(recipe.ingredients)[k + 1..])
      ensures Parents(recipe.ingredients) == old(Parents(recipe.ingredients)[..k] + Parents(recipe.ingredients)[k + 1..])
    {
      assert recipe.Valid();
      var remaining := recipe.ingredients[..k] + recipe.ingredients[k + 1..];
      NoDuplicatesRemove(recipe.ingredients, k);
      RowsRemove(recipe.ingredients, k);
      ghost var rows := Rows(remaining);
      ghost var parents := Parents(remaining);
      ingredient.recipe := null;
      recipe.ingredients := remaining;
      assert Rows(remaining) == rows && Parents(remaining) == parents;
    }
  }
}
