# Recipe application core, modelled in Dafny

This project models the service layer of a Spring recipe application (package
`com.kokabmedia.recipe`) around the Recipe aggregate. A recipe owns a set of ingredients,
each with a description, an amount and a unit of measure, and optional notes. The
services load a recipe from the recipe store, change its ingredient set in place and
write it back.

- `domain.dfy` (module `Domain`) holds the entities and the Java conventions the services
  rely on:
  - `Recipe`, `Ingredient` and `Notes` are classes, because the source changes them through
    setters and back-references.
  - Units of measure, categories and the scalar recipe columns are values.
  - A null reference is an `Option`; a thrown exception is a `Result` failure.
  - A boxed `a.equals(b)` is `JavaEquals`: it throws on a null receiver and is false for a
    null argument.
  - `Recipe.addIngredient` and `Recipe.setNotes` keep the two-way links consistent.
- `converters.dfy` holds the command records and the command-to-entity converters:
  - `CategoryCommandToCategory` is a pure function with a round trip.
  - `IngredientCommandToIngredient.Convert` builds a new ingredient and, when the command
    names a recipe, a stub parent recipe that lists it.
- `repositories.dfy` holds the stores as maps:
  - The recipe store's `save` is an upsert. It cascades to the ingredients: each ingredient
    without an id gets the next generated id, in iteration order (`AssignIds`).
  - `deleteById` drops the entry.
  - The unit-of-measure store is read-only.
- `ingredient_service.dfy` holds the ingredient service:
  - `findByRecipeIdAndIngredientId` is a lazy stream search (`FindFirst`).
  - `saveIngredientCommand` is a search-update-or-insert followed by a save and a
    re-location of the saved ingredient, by id and else by description, amount and
    unit-of-measure id.
  - `deleteById` unlinks and removes one ingredient.

  Each imperative method is proved against a pure description of its effect: `SaveEffect`
  with the `Save…` lemmas, and `AssignIds` over the slice without the removed ingredient.
- `recipe_service.dfy` holds the recipe service: listing, lookup with a NotFound failure,
  conversion to a command, upsert of a converted command, and delete.

A Java `HashSet<Ingredient>` is a sequence without duplicates, in iteration order; an added
ingredient goes last. "The first match" is always relative to that order.

## Model

| member | source | states |
|---|---|---|
| Domain.JavaEquals | src/main/java/com/kokabmedia/recipe/services/IngredientServiceImpl.java:120 | `x.equals(y)` throws NullPointer exactly when the receiver is null; otherwise it is true exactly when the argument is non-null and equal |
| Domain.Notes.constructor | src/main/java/com/kokabmedia/recipe/domain/Notes.java:44-69 | new notes have no id, no recipe and no text |
| Domain.Ingredient.constructor | src/main/java/com/kokabmedia/recipe/converters/IngredientCommandToIngredient.java:46 | a new ingredient has every field null and no parent recipe |
| Domain.Recipe.constructor | src/main/java/com/kokabmedia/recipe/domain/Recipe.java:89-138 | a new recipe has no id, no notes, null columns, and empty ingredient and category sets |
| Domain.Recipe.SetNotes | src/main/java/com/kokabmedia/recipe/domain/Recipe.java:140-145 | null notes leave the notes unchanged; non-null notes are stored and point back to this recipe, and their own id and text are unchanged |
| Domain.Recipe.AddIngredient | src/main/java/com/kokabmedia/recipe/domain/Recipe.java:147-151 | the ingredient's parent becomes this recipe; it is in the set afterwards and every earlier member stays; a new one is added exactly once; the set keeps no duplicates; the same recipe is returned |
| Domain.RowsRemove | src/main/java/com/kokabmedia/recipe/services/IngredientServiceImpl.java:187 | removing the k-th ingredient removes exactly the k-th field row and the k-th parent |
| Domain.RowsAppend | src/main/java/com/kokabmedia/recipe/domain/Recipe.java:149 | appending an ingredient appends its fields and its parent, leaving the others |
| Converters.CategoryCommandToCategory | src/main/java/com/kokabmedia/recipe/converters/CategoryCommandToCategory.java:36-45 | null in, null out; otherwise a category carrying exactly the command's id and description |
| Converters.CategoryRoundTrip | src/main/java/com/kokabmedia/recipe/converters/CategoryCommandToCategory.java:41-44 | converting a category command to an entity and back gives the command again, so the converter loses no field |
| Converters.IngredientCommandToIngredient.constructor | src/main/java/com/kokabmedia/recipe/converters/IngredientCommandToIngredient.java:35-37 | the converter delegates unit-of-measure conversion to the given converter |
| Converters.IngredientCommandToIngredient.Convert | src/main/java/com/kokabmedia/recipe/converters/IngredientCommandToIngredient.java:41-60 | null in, null out. Otherwise a fresh ingredient with the command's id, description and amount, and the uom converter's result. With no recipe id it has no parent; with one, its parent is a fresh stub recipe with that id, null columns, and exactly this ingredient in its set |
| Repositories.AssignIds | src/main/java/com/kokabmedia/recipe/domain/Recipe.java:88-89 | the cascaded persist keeps the number of ingredients; what it does to each is stated by `AssignIdsSpec` and `AssignIdsAt` |
| Repositories.AssignIdsSpec | src/main/java/com/kokabmedia/recipe/domain/Recipe.java:88-89 | after the cascaded persist every ingredient has an id; one that had an id is unchanged; one that had none differs only by a newly generated id |
| Repositories.AssignIdsKeepsIdentified | src/main/java/com/kokabmedia/recipe/domain/Recipe.java:88-89 | persisting ingredients that all have ids changes none of them |
| Repositories.AssignIdsAt | src/main/java/com/kokabmedia/recipe/domain/Recipe.java:88-89 | generated ids follow iteration order: an id-less ingredient gets the next id plus the number of id-less ingredients before it |
| Repositories.GeneratedIdsDistinct | src/main/java/com/kokabmedia/recipe/domain/Recipe.java:88-89 | two successive cascades, the second starting where the first left the id sequence, never give two id-less ingredients the same id |
| Repositories.UnitOfMeasureRepository.constructor | src/main/java/com/kokabmedia/recipe/services/IngredientServiceImpl.java:127-128 | the store holds the given units of measure |
| Repositories.UnitOfMeasureRepository.FindById | src/main/java/com/kokabmedia/recipe/services/IngredientServiceImpl.java:127-128 | a null id is rejected; otherwise the Optional is present exactly when the id is stored, and then it holds the stored unit |
| Repositories.IdSequence.constructor | src/main/java/com/kokabmedia/recipe/domain/Recipe.java:88-89 | the id sequence starts at the given first id |
| Repositories.RecipeRepository.constructor | src/main/java/com/kokabmedia/recipe/repositories/RecipeRepository.java:12-13 | a new store is empty and consistent |
| Repositories.RecipeRepository.FindById | src/main/java/com/kokabmedia/recipe/repositories/RecipeRepository.java:12-13 | a null id is rejected; otherwise the Optional is present exactly when the id is stored, and then it holds that recipe |
| Repositories.RecipeRepository.PersistIngredient | src/main/java/com/kokabmedia/recipe/domain/Recipe.java:88-89 | one ingredient without an id gets the next id and the sequence advances by one; one with an id and every other ingredient are untouched, as are all parents |
| Repositories.RecipeRepository.PersistIngredients | src/main/java/com/kokabmedia/recipe/domain/Recipe.java:88-89 | the ingredients' fields afterwards are `AssignIds` of the fields before; the id sequence advances by exactly the number of id-less ingredients; no parent link changes |
| Repositories.RecipeRepository.Store | src/main/java/com/kokabmedia/recipe/repositories/RecipeRepository.java:12-13 | a recipe whose id is stored replaces that entry and keeps its id, and the recipe id generator stays; any other recipe gets the generator's value, which was not stored, is inserted under it, and the generator advances by one; saving the stored object itself leaves the map as it was |
| Repositories.RecipeRepository.Save | src/main/java/com/kokabmedia/recipe/repositories/RecipeRepository.java:12-13 | upsert as in Store (ids and recipe id generator included), with the cascade: the same object is returned; its ingredient set stays the same; the ingredients' fields become `AssignIds` of the old ones; the ingredient id sequence advances by the number of id-less ingredients; parents are unchanged; the store stays consistent |
| Repositories.RecipeRepository.Cascade | src/main/java/com/kokabmedia/recipe/domain/Recipe.java:88-89 | the cascade on a stored recipe gives its ingredients ids as `AssignIds` says and advances the sequence by the number of id-less ones; the recipe keeps its id and the store stays consistent |
| Repositories.RecipeRepository.DeleteById | src/main/java/com/kokabmedia/recipe/repositories/RecipeRepository.java:12-13 | the id leaves the store, every other entry stays, and the id generators do not move |
| IngredientServices.Test | src/main/java/com/kokabmedia/recipe/services/IngredientServiceImpl.java:120-155 | the filter by id (as at line 120) throws NullPointer exactly when the ingredient has no id, and accepts exactly when its id equals the wanted one. The filter by fields (lines 153-155) accepts exactly when description, amount and uom id are all non-null and equal to the command's. It throws NullPointer exactly when the first null among the ingredient's description, amount, uom, the command's uom or the uom's id is reached with every earlier test passing |
| IngredientServices.FindFirst | src/main/java/com/kokabmedia/recipe/services/IngredientServiceImpl.java:117-121 | the stream search returns the first index the filter accepts, with every earlier one rejected; or nothing when all are rejected; or the exception of the first test that throws, all earlier ones rejected |
| IngredientServices.FirstMatchIsFound | src/main/java/com/kokabmedia/recipe/services/IngredientServiceImpl.java:117-121 | whenever a first accepted index exists, the search returns exactly it (the converse of FindFirst's contract) |
| IngredientServices.RejectedIsNotFound | src/main/java/com/kokabmedia/recipe/services/IngredientServiceImpl.java:117-121 | when every test rejects, the search finds nothing and throws nothing |
| IngredientServices.ResolveUom | src/main/java/com/kokabmedia/recipe/services/IngredientServiceImpl.java:127-129 | it succeeds exactly when the command's uom id is stored, giving the stored unit; a null uom is a NullPointer; a null uom id is an IllegalArgument; it fails with "UOM NOT FOUND" exactly when the id is not stored |
| IngredientServices.ReFind | src/main/java/com/kokabmedia/recipe/services/IngredientServiceImpl.java:145-157 | a re-located ingredient is one of the saved recipe's ingredients |
| IngredientServices.SaveEffect | src/main/java/com/kokabmedia/recipe/services/IngredientServiceImpl.java:115-160 | the recipe is written back exactly when the id search succeeds and either nothing matched or the uom resolves; when it is not written back, the result is a failure and the id sequence does not move; a throwing search leaves the ingredients as they were and rethrows; the update path keeps the count and the insert path adds one; a re-located index is in range |
| IngredientServices.SaveDrawsIdsFromSequence | src/main/java/com/kokabmedia/recipe/services/IngredientServiceImpl.java:143 | when the recipe is written back every ingredient has an id: the one it had (the converted command's, for a new ingredient) or one drawn from the id sequence, below the sequence's value afterwards |
| IngredientServices.SaveUpdatesInPlace | src/main/java/com/kokabmedia/recipe/services/IngredientServiceImpl.java:117-147 | update path: the recipe is saved; the count is unchanged; the matching ingredient gets the command's description, amount and resolved unit, and keeps its id; other ingredients keep their fields; the result comes from that ingredient |
| IngredientServices.SaveUpdateUomFails | src/main/java/com/kokabmedia/recipe/services/IngredientServiceImpl.java:125-129 | update path with an unresolvable uom: nothing is saved; the uom error is thrown, "UOM NOT FOUND" when the uom id is unknown; description and amount are already overwritten and nothing else changes |
| IngredientServices.SaveInsertsOne | src/main/java/com/kokabmedia/recipe/services/IngredientServiceImpl.java:130-143 | insert path: exactly one ingredient is appended, holding the converted command with an id (generated if it had none); the existing ones are unchanged |
| IngredientServices.SaveInsertFindsById | src/main/java/com/kokabmedia/recipe/services/IngredientServiceImpl.java:145-147 | insert path with a command id: the re-location by id finds the new ingredient |
| IngredientServices.SaveInsertFallsBackToFields | src/main/java/com/kokabmedia/recipe/services/IngredientServiceImpl.java:149-157 | insert path without a command id: the result comes from the first ingredient, older or new, matching description, amount and uom id; an older twin wins over the new one |
| IngredientServices.SaveInsertWithoutDescriptionThrows | src/main/java/com/kokabmedia/recipe/services/IngredientServiceImpl.java:152-153 | insert path without id and description: the recipe is saved, then the fallback search throws NullPointer |
| IngredientServices.DeleteRemovesExactlyOne | src/main/java/com/kokabmedia/recipe/services/IngredientServiceImpl.java:177-188 | the found ingredient has the requested id; after removal and save the count drops by one, earlier ingredients are unchanged and later ones only gain ids they lacked |
| IngredientServices.IngredientService.constructor | src/main/java/com/kokabmedia/recipe/services/IngredientServiceImpl.java:43-49 | the service holds the given converters and stores |
| IngredientServices.IngredientService.FindByRecipeIdAndIngredientId | src/main/java/com/kokabmedia/recipe/services/IngredientServiceImpl.java:52-73 | a missing recipe is NoSuchElement (Optional.get). Otherwise it succeeds exactly when a first ingredient with the id exists, giving that ingredient's conversion. It is NoSuchElement exactly when every ingredient has a different non-null id. Any other failure is a NullPointer from an id-less ingredient |
| IngredientServices.IngredientService.Respond | src/main/java/com/kokabmedia/recipe/services/IngredientServiceImpl.java:160 | it fails exactly when the re-location failed (`Optional.get` or a filter exception, passed on unchanged) or the index is out of range; otherwise it is the conversion of the ingredient at that index with its parent's id |
| IngredientServices.IngredientService.SaveIngredientCommand | src/main/java/com/kokabmedia/recipe/services/IngredientServiceImpl.java:107-163 | only the stored recipe's ingredient set and its ingredients may change, never its columns, categories or notes. A null recipe id is rejected with nothing changed, the id sequence included. An unknown recipe id gives an empty command with nothing changed. Otherwise `SavedInto` holds: the store keeps its entries and its recipe id generator; the rows become those of `SaveEffect`, and the ingredient id sequence ends at `SaveEffect`'s next id; an ingredient is appended, parented by the stored recipe, only when none had the id; nothing is written back on failure; the result converts the re-located ingredient |
| IngredientServices.IngredientService.SaveInto | src/main/java/com/kokabmedia/recipe/services/IngredientServiceImpl.java:115-161 | the save on a found recipe establishes `SavedInto` and keeps the store consistent |
| IngredientServices.IngredientService.SaveOverFound | src/main/java/com/kokabmedia/recipe/services/IngredientServiceImpl.java:123-160 | when the search found the ingredient at the given index, the update and save establish `SavedInto` |
| IngredientServices.IngredientService.SaveAsNew | src/main/java/com/kokabmedia/recipe/services/IngredientServiceImpl.java:130-160 | when no ingredient has the command's id, the insert and save establish `SavedInto` |
| IngredientServices.IngredientService.UpdateAndSave | src/main/java/com/kokabmedia/recipe/services/IngredientServiceImpl.java:123-160 | the k-th ingredient gets the command's description and amount; if the uom does not resolve, that is all (store and id sequence untouched) and the uom error is the result; otherwise it gets the unit too, the recipe is saved (ids as `AssignIds` says, the sequence advancing by the id-less count) and the result converts the ingredient `ReFind` locates. The ingredient set, parents, store entries and recipe id generator stay |
| IngredientServices.IngredientService.InsertAndSave | src/main/java/com/kokabmedia/recipe/services/IngredientServiceImpl.java:130-160 | one fresh ingredient, parented by the recipe, is appended after the unchanged old ones; the rows become `AssignIds` of the old rows plus the converted command, the sequence advancing by their id-less count; the store entries and recipe id generator stay; the result converts the ingredient `ReFind` locates |
| IngredientServices.IngredientService.SaveStored | src/main/java/com/kokabmedia/recipe/services/IngredientServiceImpl.java:188 | saving a stored recipe keeps the store's entries, its recipe id generator and the ingredient set; the ingredients get ids as `AssignIds` says and the id sequence advances by the number of id-less ones; no parent link changes |
| IngredientServices.IngredientService.SaveAndRespond | src/main/java/com/kokabmedia/recipe/services/IngredientServiceImpl.java:143-160 | saving keeps the store's entries, its recipe id generator and the ingredient set; the ingredients get ids as `AssignIds` says and the id sequence advances by the number of id-less ones; the result converts the ingredient `ReFind` locates |
| IngredientServices.IngredientService.UpdateIngredient | src/main/java/com/kokabmedia/recipe/services/IngredientServiceImpl.java:124-129 | only the found ingredient changes: description and amount from the command, then the unit of measure only if it resolves; the result is that resolution |
| IngredientServices.IngredientService.InsertIngredient | src/main/java/com/kokabmedia/recipe/services/IngredientServiceImpl.java:132-134 | exactly one fresh ingredient is appended, with the converted command's fields and the stored recipe (not the converter's stub) as parent; the set keeps no duplicates and the store stays consistent |
| IngredientServices.IngredientService.AddToStored | src/main/java/com/kokabmedia/recipe/domain/Recipe.java:147-151 | adding an ingredient the stored recipe does not hold appends it, makes the recipe its parent and keeps the store consistent |
| IngredientServices.IngredientService.DeleteById | src/main/java/com/kokabmedia/recipe/services/IngredientServiceImpl.java:167-193 | only the stored recipe's ingredient set and its ingredients may change. A missing recipe is a silent no-op, the id sequence included. Otherwise `DeletedFrom` holds: the store keeps its entries and its recipe id generator; with no matching ingredient nothing changes; otherwise exactly that ingredient leaves the set, its parent link is cleared and its own fields are unchanged, and the rest are persisted, the id sequence advancing by their id-less count |
| IngredientServices.IngredientService.DeleteFrom | src/main/java/com/kokabmedia/recipe/services/IngredientServiceImpl.java:173-189 | the delete on a found recipe establishes `DeletedFrom` (the removed ingredient's parent cleared and its fields kept, the recipe id generator kept, the sequence advanced by the remaining id-less count) and keeps the store consistent |
| IngredientServices.IngredientService.RemoveAndSave | src/main/java/com/kokabmedia/recipe/services/IngredientServiceImpl.java:185-188 | the found ingredient's parent is cleared and its own fields are unchanged; it leaves the set; the remaining ingredients get ids as `AssignIds` says, the sequence advancing by their id-less count, and keep their parents; the store keeps its entries and recipe id generator |
| IngredientServices.IngredientService.RemoveIngredient | src/main/java/com/kokabmedia/recipe/services/IngredientServiceImpl.java:185-187 | the ingredient's parent is cleared and it is no longer in the set; the set loses exactly that element and stays duplicate-free; the other ingredients' fields and parents are unchanged |
| RecipeServices.RecipeService.constructor | src/main/java/com/kokabmedia/recipe/services/RecipeServiceImpl.java:45-50 | the service holds the given store and converters |
| RecipeServices.RecipeService.GetRecipes | src/main/java/com/kokabmedia/recipe/services/RecipeServiceImpl.java:52-59 | the collected set is exactly the set of stored recipes, and contains every recipe `FindById` returns |
| RecipeServices.RecipeService.FindById | src/main/java/com/kokabmedia/recipe/services/RecipeServiceImpl.java:61-71 | it succeeds exactly when the id is stored, returning that recipe; otherwise it throws NotFound naming the id |
| RecipeServices.RecipeService.ListedIffFound | src/main/java/com/kokabmedia/recipe/services/RecipeServiceImpl.java:52-71 | in a consistent store a recipe is listed by `GetRecipes` exactly when `FindById` of its own id returns it |
| RecipeServices.RecipeService.FindCommandById | src/main/java/com/kokabmedia/recipe/services/RecipeServiceImpl.java:111-114 | it fails exactly when `FindById` fails, with the same error; otherwise it is the conversion of the stored recipe's whole state: columns, ingredients and notes |
| RecipeServices.BuildRecipe | src/main/java/com/kokabmedia/recipe/services/RecipeServiceImpl.java:123 | the detached recipe is new and holds exactly the converted state; its ingredients are new and each points back to it; its notes, if any, are new and point back to it |
| RecipeServices.AddIngredients | src/main/java/com/kokabmedia/recipe/domain/Recipe.java:147-151 | adding new ingredients one by one through `addIngredient` gives a duplicate-free set holding exactly the given rows, in order, each pointing back to the recipe |
| RecipeServices.AttachNotes | src/main/java/com/kokabmedia/recipe/domain/Recipe.java:140-145 | absent notes leave the recipe without notes; otherwise new notes holding the given values are attached and point back to the recipe |
| RecipeServices.RecipeService.SaveRecipeCommand | src/main/java/com/kokabmedia/recipe/services/RecipeServiceImpl.java:116-135 | the converted recipe is stored under the converted state's id if that is stored (the recipe id generator then stays), else under the generator's value (which then advances by one). No other entry changes. The ingredient id sequence advances by the number of id-less converted ingredients. The stored recipe is fresh. It holds the converted columns with that id, the converted ingredients with ids generated by the cascade, and the converted notes. Each ingredient points back to it. `FindById` then returns it. The result is the conversion of what was saved |
| RecipeServices.RecipeService.DeleteById | src/main/java/com/kokabmedia/recipe/services/RecipeServiceImpl.java:137-141 | the id leaves the store; `FindById` of it now throws NotFound; every other id is found as before |

## Left out

- Transactions: `@Transactional` rollback is not modelled. When the unit of measure does not resolve on the update path, the description and amount stay overwritten in memory, as the source leaves them; the store map is not written.
- JPA merge, lazy loading and dirty checking: the store holds the saved object itself, so a save of a stored recipe replaces the entry with the same object.
- The cascade's id generation is modelled only as new consecutive ids for id-less ingredients, assigned in iteration order. An ingredient that arrives with an id keeps it. JPA `merge` would instead insert a copy with a generated id when that id is not in the table, so here a generated id may collide with a kept one (`GeneratedIdsDistinct` covers only generated ids). `SaveInsertFindsById` relies on the supplied id being kept.
- Hash ordering: a `HashSet` is a duplicate-free sequence in insertion order. The real iteration order depends on hash codes, so "first match" is relative to this order. `Ingredient.equals` is object identity, because Ingredient.java is not part of this model.
- Amounts: `BigDecimal` amounts are exact `int`s, compared only by equality.
- Unshown converters are function-typed parameters: the unit-of-measure converter, `IngredientToIngredientCommand` (applied to an ingredient's fields and its parent's id), and `RecipeCommandToRecipe`/`RecipeToRecipeCommand` (from a command to a recipe's whole state, and back).
- RecipeCommandToRecipe.java is not part of this model. `BuildRecipe` takes it to build the recipe through `addIngredient` and `setNotes`, so every converted ingredient and the notes point back to the new recipe.
- RecipeServices.RecipeService.SaveRecipeCommand: the notes' id is not generated by the save's cascade; the store model generates ids for recipes and ingredients only.
- Repositories.RecipeRepository.DeleteById: an absent id is a no-op, as in the Spring Data 3 contract. Spring Data JPA 2.x throws EmptyResultDataAccessException instead. The recipe service's `deleteById` inherits this.
- Logging, controllers, seed data, the image service, the category and unit-of-measure services are out of scope.
- Concurrency between requests is out of scope.
- UnitOfMeasureRepository.java is not part of this model; the store is a read-only map consulted by `findById`.
- Path ids (`recipeId`, `ingredientId`, `idToDelete`, `l`) are non-null integers. Command ids are nullable.
- IngredientServices.ReFind: its own contract states only that the index is in range. What it locates is stated by the `Save…` lemmas about `SaveEffect`.
- Behaviours of the code kept as written:
  - `findByRecipeIdAndIngredientId` signals a missing recipe and a missing ingredient the same way, as NoSuchElement from `Optional.get`.
  - The ingredient `deleteById` is a no-op for a missing ingredient only when every ingredient has an id. An id-less one makes the filter throw NullPointer.
  - `saveIngredientCommand` with a null recipe id is rejected by the store's `findById`, not answered with an empty command.
