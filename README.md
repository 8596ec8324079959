# Recipe book, modelled in Dafny

The recipe book is a single-page browser application. It keeps an ordered
collection of recipes in memory and mirrors it to browser-local storage. Each
recipe has five string fields: `id`, `title`, `ingredients`, `instructions` and
`cuisine`. One form serves both adding and editing. A hidden id field is empty
for a new recipe and holds the recipe's id while that recipe is being edited.

The model covers the logic behind it:

- **Validation.** A submission is refused when its trimmed title or its trimmed
  ingredients is empty.
- **Add.** A form without an id appends one new record. Its title, ingredients
  and instructions are trimmed, and its cuisine is stored as entered.
- **Update.** A form with an id overwrites the four editable fields of the first
  record with that id. When no record has that id, the collection stays as it is,
  but it is still saved.
- **Delete.** After a confirmation, every record with the given id is dropped.
- **Search and filter.** The displayed view keeps, in order, the records that
  match the search text and the cuisine filter. The text matches when it occurs
  in the title or the ingredients, ignoring case. The filter matches when it is
  empty, or when it equals a non-empty cuisine, ignoring case.
- **Persistence.** Every accepted submission and every confirmed delete writes
  the whole collection to storage.

Files, one module each:

- `wrappers.dfy` (`Wrappers`): the `Option` type.
- `text.dfy` (`Text`): the string builtins the code uses: `trim` (with the exact
  ECMAScript whitespace set), `toLowerCase` (ASCII) and `includes`.
- `lists.dfy` (`Lists`): the array builtins `filter` and `find` over sequences,
  and the subsequence relation.
- `recipes.dfy` (`Recipes`): the `Recipe` and `Form` datatypes, validation, the
  new record, the update, the delete, the search predicate, and the collection
  invariant `WellFormed`. `WellFormed` means unique ids, non-empty title and
  ingredients, and trimmed text fields. The file also holds the lemmas that
  the operations preserve it.
- `store.dfy` (`Store`): the class `RecipeStore`. Its field `recipes` is the
  in-memory collection. Its field `saved` is what storage holds, which is also
  what a fresh start would load. Its methods change both fields in place.
- `scenarios.dfy` (`Scenarios`): worked examples of validation, search, and an add
  followed by a fresh load from storage.

Inputs the program reads from its environment are parameters:

- The form's field values are a `Form` value.
- The answer to the delete confirmation is a `bool`.
- The id that `Date.now()` would produce is `newId`.
- The parsed content of storage at start-up is an `Option<seq<Recipe>>`.

Three places where one might expect more of the code than it does. The model
follows the code in each:

- One might expect an update or a delete of an id that no record has to fail with
  a not-found error and write nothing. The code has no such error. An update
  whose id matches no record, and a confirmed delete of an absent id, leave the
  collection unchanged and still save it.
- One might expect every record to get an id no other record has. The code takes
  the id from a millisecond timestamp, so two adds in the same millisecond share
  an id. The model therefore proves that ids stay unique only when `newId` is not
  already in use.
- One might expect add and update to hand back the stored record. The code
  returns nothing. The model's `AddOrUpdate` returns whether the submission was
  accepted. In the code that is whether the alert is not shown.

## Model

| member | source | states |
|---|---|---|
| `Text.IsWhitespace` | script.js:55-56 | the characters `trim` removes; among ASCII characters exactly tab to carriage return and the space, and never a letter or a digit |
| `Text.Trim` | script.js:55-56 | the trimmed string is the infix of the input between its leading and its trailing whitespace; it is empty exactly when the input has no non-whitespace character, and otherwise starts and ends with one |
| `Text.TrimIdempotent` | script.js:55-56 | trimming a trimmed string changes nothing, so stored titles, ingredients and instructions are fixed points of trim |
| `Text.LowerChar` | script.js:124-125 | lowering one character leaves no capital; a capital becomes the small letter at the same place in the alphabet, every other character stays |
| `Text.Lower` | script.js:124-125 | `toLowerCase` keeps the length and leaves no capital; where the input has a capital the result has the matching small letter, and every other character is kept |
| `Text.LowerIdempotent` | script.js:124-129 | lowering a lowered string changes nothing |
| `Text.Contains` | script.js:128 | `includes` holds exactly when the search text occurs at some index of the string |
| `Text.ContainsEmpty` | script.js:128 | every string includes the empty search text |
| `Lists.Filter` | script.js:109 | `filter` returns a subsequence of its input holding exactly the elements that pass, each as often as in the input |
| `Lists.FilterIdempotent` | script.js:109 | filtering twice with one predicate gives what filtering once gives |
| `Lists.FindFirst` | script.js:66 | `find` reports the first index whose element passes, and nothing exactly when no element passes |
| `Recipes.Accepts` | script.js:55-62 | a submission is accepted exactly when both its title and its ingredients contain a non-whitespace character; otherwise one of them trims to empty |
| `Recipes.NewRecipe` | script.js:75-81 | the new record carries the given id and the cuisine as entered, and the trimmed title, ingredients and instructions, which trimming again leaves alone; its title and ingredients are both non-empty exactly when the submission is accepted |
| `Recipes.Edited` | script.js:68-71 | an edited record keeps its id and otherwise holds what a new record from the same form would hold |
| `Recipes.FindById` | script.js:66 | the lookup returns the first index holding the id, and nothing exactly when no record has that id |
| `Recipes.Updated` | script.js:64-72 | the update edits only the first record with the form's id, keeping its id, and leaves every other record and the length unchanged; with no such record the collection is unchanged |
| `Recipes.WithoutId` | script.js:109 | the delete keeps, in their order, exactly the records whose id differs, each as often as before, and leaves no record with that id |
| `Recipes.Matches` | script.js:128-131 | with an empty text and an empty filter every record matches; a matching record has a title or ingredients at least as long as the text; with a non-empty filter a matching record has a non-empty cuisine of the filter's length that lowers to the lowered filter |
| `Recipes.SearchAndFilter` | script.js:123-132 | the view is an order-preserving subsequence of the collection; a record is in it exactly when its lowered title or ingredients contains the lowered text and the lowered filter is empty or equals the lowered non-empty cuisine |
| `Recipes.SearchEmptyShowsAll` | script.js:127-132 | an empty text with an empty filter shows the whole collection |
| `Recipes.SearchIdempotent` | script.js:127-132 | searching the shown view again with the same inputs shows the same view |
| `Recipes.SearchCaseInsensitive` | script.js:124-129 | lowering the text and the filter before the search changes no view |
| `Recipes.DeleteIdempotent` | script.js:109 | deleting an id twice leaves what deleting it once leaves |
| `Recipes.AcceptedIsTidy` | script.js:55-81 | an accepted submission yields records with non-empty, trimmed title and ingredients and trimmed instructions, both when added and when edited |
| `Recipes.AddKeepsWellFormed` | script.js:75-82 | appending an accepted submission under an unused id keeps ids unique and records tidy |
| `Recipes.UpdateKeepsWellFormed` | script.js:66-72 | an accepted update keeps ids unique and records tidy |
| `Recipes.SubsequenceKeepsUniqueIds` | script.js:109 | keeping a subsequence of a collection with unique ids keeps ids unique |
| `Recipes.DeleteKeepsWellFormed` | script.js:109 | deleting by id keeps ids unique and records tidy |
| `Store.RecipeStore.constructor` | script.js:14 | at start-up the collection is the stored array, or empty when storage holds none, and storage agrees with it |
| `Store.RecipeStore.SaveRecipes` | script.js:48-50 | storage then holds the whole collection, and nothing else changes |
| `Store.RecipeStore.AddOrUpdate` | script.js:53-88 | a rejected submission changes neither the collection nor storage; an accepted one without an id appends exactly the new record, one with an id applies `Updated`, and storage then equals the collection; the invariant is kept when the new id is unused |
| `Store.RecipeStore.Delete` | script.js:106-113 | without confirmation nothing changes; with it the collection becomes `WithoutId` of the old one, no record with that id remains, storage equals the collection, and the invariant is kept |
| `Scenarios.ValidationScenarios` | script.js:55-62 | an empty title and blank ingredients are rejected, " Cake " trims to "Cake", " flour, sugar " trims to "flour, sugar", and a form with those padded fields is accepted |
| `Scenarios.AddThenReload` | script.js:14-85 | adding " Cake " with " flour, sugar " to an empty book as id "1" and then starting again from what storage holds gives back exactly the one trimmed record |
| `Scenarios.SearchByText` | script.js:123-132 | searching "soup" over a tomato soup and a pho shows only the soup |
| `Scenarios.SearchByCuisine` | script.js:123-132 | filtering on "italian" shows only the recipe whose cuisine is "Italian" |
| `Scenarios.SearchByLetter` | script.js:123-132 | searching "o" shows both recipes, in their order |

## Left out

- Rendering is left out because it is presentation only. This covers `displayRecipes` and the card HTML (script.js:17-45), and the refresh after each change (script.js:86, script.js:111, script.js:134).
- `editRecipe` (script.js:91-103) and `resetForm` (script.js:116-120) are left out. They only copy values into form fields, change a button label and scroll the page.
- The event-listener wiring (script.js:138-144) and the `alert` and `confirm` dialogs are left out. The dialog answer is a `bool` parameter, and the alert corresponds to `AddOrUpdate` returning false.
- `localStorage` and JSON are left out; storage is only the `saved` field. The constructor takes the already-parsed content. `JSON.parse` throwing on malformed content is not modelled.
- Store.RecipeStore.SaveRecipes: `localStorage.setItem` can throw at script.js:49, for example when the storage quota is exceeded. That happens after the in-memory change at script.js:68-71, script.js:82 or script.js:109, so the collection would then be ahead of storage. The model's save always succeeds, and every accepted change ends with `saved == recipes`.
- Store.RecipeStore.constructor: stored JSON can parse to a truthy value that is not an array, such as `{}`. script.js:14 keeps it as the collection, and the first display at script.js:144 then throws, because `forEach` is not a function of it. The constructor's `Option<seq<Recipe>>` parameter leaves this case out.
- `Date.now()` is a clock call, so the new id is the parameter `newId`. Because the source does not make ids unique, the invariant is proved only for an unused `newId`.
- Text.Lower: lowers only the ASCII capitals A to Z. JavaScript's `toLowerCase` follows full Unicode case mapping.
- Strings are sequences of Unicode scalar values, not JavaScript's UTF-16 code units. Lengths and indices of text with surrogate pairs are not modelled.
- Records loaded from storage always have five string fields here. A stored object with a missing field (for example an undefined `cuisine`, which the cuisine test at script.js:129 guards against) is not modelled.
- Each `Recipe` is a value, and an update replaces the record at the found index. In the code the object returned by `find` is mutated in place. No other reference to it survives the call, so the two agree. Object identity is not modelled.
