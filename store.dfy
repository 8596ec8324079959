/**
  The recipe book's state: the in-memory collection and the copy of it that
  persistent storage holds, with the operations that change them.
 */
module Store {
  import opened Wrappers
  import opened Text
  import opened Recipes

  class RecipeStore {
    /** The collection, in insertion order. */
    var recipes: seq<Recipe>
    /** The collection storage holds, that is, what a fresh load would read back. */
    var saved: seq<Recipe>

    /**
      Start-up: the collection is the parsed stored array, or empty when storage
      holds nothing (`stored` is None) or holds a null.
     */
    constructor (stored: Option<seq<Recipe>>)
      ensures recipes == (if stored.Some? then stored.value else [])
      ensures saved == recipes
    {
      recipes := if stored.Some? then stored.value else [];
      saved := recipes;
    }

    /** `saveRecipes`: storage now holds the whole collection. */
    method SaveRecipes()
      modifies this`saved
      ensures saved == recipes
    {
      saved := recipes;
    }

    /**
      `addOrUpdateRecipe`. A submission whose trimmed title or trimmed ingredients
      is empty is rejected and changes nothing. Otherwise a form without an id
      appends a new record under `newId`, a form with an id edits the first record
      with that id (or nothing when there is none), and storage is rewritten.
     */
    method AddOrUpdate(form: Form, newId: string) returns (accepted: bool)
      modifies this
      ensures accepted == Accepts(form)
      ensures !accepted ==> recipes == old(recipes) && saved == old(saved)
      ensures accepted ==> saved == recipes
      ensures accepted && form.id == [] ==> recipes == old(recipes) + [NewRecipe(form, newId)]
      ensures accepted && form.id != [] ==> recipes == Updated(old(recipes), form)
      ensures old(WellFormed(recipes)) && (form.id == [] ==> !IdUsed(old(recipes), newId)) ==>
        WellFormed(recipes)
    {
      var title := Trim(form.title);
      var ingredients := Trim(form.ingredients);
      if title == [] || ingredients == [] {
        return false;
      }
      if form.id != [] {
        var found := FindById(recipes, form.id);
        if found.Some? {
          var k := found.value;
          var r := recipes[k];
          r := r.(title := title);
          r := r.(ingredients := ingredients);
          r := r.(instructions := Trim(form.instructions));
          r := r.(cuisine := form.cuisine);
          assert r == Edited(recipes[k], form);
          recipes := recipes[k := r];
        }
        if old(WellFormed(recipes)) {
          UpdateKeepsWellFormed(old(recipes), form);
        }
      } else {
        var r := Recipe(newId, title, ingredients, Trim(form.instructions), form.cuisine);
        recipes := recipes + [r];
        if old(WellFormed(recipes)) && !IdUsed(old(recipes), newId) {
          AddKeepsWellFormed(old(recipes), form, newId);
        }
      }
      SaveRecipes();
      accepted := true;
    }

    /**
      `deleteRecipe`, with the answer to the confirmation prompt as `confirmed`:
      when confirmed, every record with id `id` is dropped and storage is rewritten;
      otherwise nothing changes.
     */
    method Delete(id: string, confirmed: bool)
      modifies this
      ensures !confirmed ==> recipes == old(recipes) && saved == old(saved)
      ensures confirmed ==> recipes == WithoutId(old(recipes), id) && saved == recipes
      ensures confirmed ==> !IdUsed(recipes, id)
      ensures old(WellFormed(recipes)) ==> WellFormed(recipes)
    {
      if confirmed {
        if WellFormed(recipes) {
          DeleteKeepsWellFormed(recipes, id);
        }
        recipes := WithoutId(recipes, id);
        SaveRecipes();
      }
    }
  }
}
