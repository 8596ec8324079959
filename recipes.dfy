/**
  The recipe records and the pure part of the recipe book: validating the form,
  building a new record, overwriting the first record with a given id, removing
  every record with a given id, and the search-and-filter predicate.
 */
module Recipes {
  import opened Wrappers
  import opened Text
  import opened Lists

  /** One recipe, exactly the five string fields that are stored. */
  datatype Recipe = Recipe(id: string, title: string, ingredients: string, instructions: string, cuisine: string)

  /**
    The values of the recipe form when it is submitted: the hidden id field (empty
    for a new recipe) and the four text fields, untrimmed.
   */
  datatype Form = Form(id: string, title: string, ingredients: string, instructions: string, cuisine: string)

  /** A submission is accepted when its title and its ingredients keep a character after trimming. */
  function Accepts(form: Form): (ok: bool)
    ensures ok <==> HasVisible(form.title) && HasVisible(form.ingredients)
    ensures !ok ==> Trim(form.title) == [] || Trim(form.ingredients) == []
  {
    Trim(form.title) != [] && Trim(form.ingredients) != []
  }

  /**
    The record a new submission creates: it carries the given id, its title,
    ingredients and instructions are the form's trimmed (so trimming them again
    changes nothing), and its cuisine is the form's, untrimmed. Its title and
    ingredients are non-empty exactly when the form is accepted.
   */
  function NewRecipe(form: Form, id: string): (r: Recipe)
    ensures r.id == id && r.cuisine == form.cuisine
    ensures r.title == Trim(form.title) && r.ingredients == Trim(form.ingredients) &&
      r.instructions == Trim(form.instructions)
    ensures Trim(r.title) == r.title && Trim(r.ingredients) == r.ingredients &&
      Trim(r.instructions) == r.instructions
    ensures Accepts(form) <==> r.title != [] && r.ingredients != []
  {
    TrimIdempotent(form.title);
    TrimIdempotent(form.ingredients);
    TrimIdempotent(form.instructions);
    Recipe(id, Trim(form.title), Trim(form.ingredients), Trim(form.instructions), form.cuisine)
  }

  /**
    A record with its four editable fields overwritten from the form: its id is
    kept, and it is then the record a new submission of the same form would have
    created under that id.
   */
  function Edited(r: Recipe, form: Form): (u: Recipe)
    ensures u.id == r.id
    ensures u == NewRecipe(form, r.id)
  {
    r.(title := Trim(form.title), ingredients := Trim(form.ingredients),
       instructions := Trim(form.instructions), cuisine := form.cuisine)
  }

  /** Some record of `rs` has id `id`. */
  ghost predicate IdUsed(rs: seq<Recipe>, id: string)
  {
    exists i :: 0 <= i < |rs| && rs[i].id == id
  }

  /** Index `k` holds the first record of `rs` whose id is `id`. */
  ghost predicate IsFirstWithId(rs: seq<Recipe>, k: int, id: string)
  {
    0 <= k < |rs| && rs[k].id == id && forall j :: 0 <= j < k ==> rs[j].id != id
  }

  /** `recipes.find(r => r.id === id)`, as the index of the record it finds. */
  function FindById(rs: seq<Recipe>, id: string): (r: Option<nat>)
    ensures r.Some? ==> IsFirstWithId(rs, r.value, id)
    ensures r.None? <==> !IdUsed(rs, id)
  {
    FindFirst(rs, (x: Recipe) => x.id == id)
  }

  /**
    The collection after an update: the first record whose id is the form's id is
    edited, every other record, and the length, stay as they were.
   */
  function Updated(rs: seq<Recipe>, form: Form): (r: seq<Recipe>)
    ensures |r| == |rs|
    ensures forall i :: 0 <= i < |rs| ==>
      r[i] == if IsFirstWithId(rs, i, form.id) then Edited(rs[i], form) else rs[i]
    ensures !IdUsed(rs, form.id) ==> r == rs
  {
    match FindById(rs, form.id)
    case None => rs
    case Some(k) => rs[k := Edited(rs[k], form)]
  }

  /** `recipes.filter(r => r.id !== id)`. */
  function WithoutId(rs: seq<Recipe>, id: string): (r: seq<Recipe>)
    ensures IsSubsequence(r, rs)
    ensures forall x :: x in r <==> x in rs && x.id != id
    ensures forall x :: multiset(r)[x] == if x.id != id then multiset(rs)[x] else 0
    ensures !IdUsed(r, id)
  {
    var r := Filter(rs, (x: Recipe) => x.id != id);
    assert forall i :: 0 <= i < |r| ==> r[i] in r;
    r
  }

  /**
    The search predicate: the lowered search text occurs in the lowered title or in
    the lowered ingredients, and the lowered cuisine filter is empty or equals the
    lowered cuisine of a record whose cuisine is not empty. An empty text with an
    empty filter matches every record; a match is at most as long as the title or
    the ingredients; a non-empty filter matches only a cuisine of its length that
    lowers to what the filter lowers to.
   */
  function Matches(r: Recipe, text: string, filter: string): (b: bool)
    ensures text == [] && filter == [] ==> b
    ensures b ==> |text| <= |r.title| || |text| <= |r.ingredients|
    ensures b && filter != [] ==>
      r.cuisine != [] && |r.cuisine| == |filter| && Lower(r.cuisine) == Lower(filter)
  {
    ContainsEmpty(Lower(r.title));
    var t := Lower(text);
    var f := Lower(filter);
    (Contains(Lower(r.title), t) || Contains(Lower(r.ingredients), t)) &&
    (f == [] || (r.cuisine != [] && Lower(r.cuisine) == f))
  }

  /** The view `searchAndFilter` displays: the matching records of `rs`, in their order. */
  function SearchAndFilter(rs: seq<Recipe>, text: string, filter: string): (view: seq<Recipe>)
    ensures IsSubsequence(view, rs)
    ensures forall x :: x in view <==> x in rs && Matches(x, text, filter)
    ensures forall x :: multiset(view)[x] == if Matches(x, text, filter) then multiset(rs)[x] else 0
  {
    Filter(rs, (x: Recipe) => Matches(x, text, filter))
  }

  /** An empty search text with an empty cuisine filter shows the whole collection. */
  lemma SearchEmptyShowsAll(rs: seq<Recipe>)
    ensures SearchAndFilter(rs, [], []) == rs
  {
    forall x | x in rs ensures Matches(x, [], []) {
      ContainsEmpty(Lower(x.title));
    }
    FilterAllPass(rs, (x: Recipe) => Matches(x, [], []));
  }

  /** Searching the displayed view again with the same inputs shows the same view. */
  lemma SearchIdempotent(rs: seq<Recipe>, text: string, filter: string)
    ensures SearchAndFilter(SearchAndFilter(rs, text, filter), text, filter) == SearchAndFilter(rs, text, filter)
  {
    FilterIdempotent(rs, (x: Recipe) => Matches(x, text, filter));
  }

  /** Deleting the same id twice leaves what deleting it once leaves. */
  lemma DeleteIdempotent(rs: seq<Recipe>, id: string)
    ensures WithoutId(WithoutId(rs, id), id) == WithoutId(rs, id)
  {
    FilterIdempotent(rs, (x: Recipe) => x.id != id);
  }

  /** The search lowers its inputs itself: lowering them beforehand changes no view. */
  lemma SearchCaseInsensitive(rs: seq<Recipe>, text: string, filter: string)
    ensures SearchAndFilter(rs, Lower(text), Lower(filter)) == SearchAndFilter(rs, text, filter)
  {
    LowerIdempotent(text);
    LowerIdempotent(filter);
    FilterCongruent(rs, (x: Recipe) => Matches(x, Lower(text), Lower(filter)), (x: Recipe) => Matches(x, text, filter));
  }

  /** The shape every record made by the form has: non-empty title and ingredients, trimmed text fields. */
  ghost predicate Tidy(r: Recipe)
  {
    r.title != [] && r.ingredients != [] &&
    Trim(r.title) == r.title && Trim(r.ingredients) == r.ingredients &&
    Trim(r.instructions) == r.instructions
  }

  /** No two records share an id. */
  ghost predicate UniqueIds(rs: seq<Recipe>)
  {
    forall i, j :: 0 <= i < j < |rs| ==> rs[i].id != rs[j].id
  }

  /** The collection invariant: unique ids and tidy records. */
  ghost predicate WellFormed(rs: seq<Recipe>)
  {
    UniqueIds(rs) && forall i :: 0 <= i < |rs| ==> Tidy(rs[i])
  }

  /** An accepted submission makes a tidy record, and editing with it keeps a record tidy. */
  lemma AcceptedIsTidy(form: Form, id: string, r: Recipe)
    requires Accepts(form)
    ensures Tidy(NewRecipe(form, id)) && Tidy(Edited(r, form))
  {
    TrimIdempotent(form.title);
    TrimIdempotent(form.ingredients);
    TrimIdempotent(form.instructions);
  }

  /** Appending a tidy record under an unused id keeps the collection well-formed. */
  lemma AppendKeepsWellFormed(rs: seq<Recipe>, n: Recipe)
    requires WellFormed(rs) && Tidy(n) && !IdUsed(rs, n.id)
    ensures WellFormed(rs + [n])
  {
    var r := rs + [n];
    assert UniqueIds(r) by {
      forall i, j | 0 <= i < j < |r| ensures r[i].id != r[j].id {
        assert r[i] == rs[i];
        if j < |rs| {
          assert r[j] == rs[j];
        }
      }
    }
    forall i | 0 <= i < |r| ensures Tidy(r[i]) {
      if i < |rs| {
        assert r[i] == rs[i];
      }
    }
  }

  /** Appending an accepted submission under an unused id keeps the collection well-formed. */
  lemma AddKeepsWellFormed(rs: seq<Recipe>, form: Form, id: string)
    requires WellFormed(rs) && Accepts(form) && !IdUsed(rs, id)
    ensures WellFormed(rs + [NewRecipe(form, id)])
  {
    AcceptedIsTidy(form, id, NewRecipe(form, id));
    AppendKeepsWellFormed(rs, NewRecipe(form, id));
  }

  /** Replacing records by tidy ones with the same ids keeps the collection well-formed. */
  lemma ReplaceKeepsWellFormed(rs: seq<Recipe>, r: seq<Recipe>)
    requires WellFormed(rs) && |r| == |rs|
    requires forall i :: 0 <= i < |rs| ==> Tidy(r[i]) && r[i].id == rs[i].id
    ensures WellFormed(r)
  {
    assert UniqueIds(r) by {
      forall i, j | 0 <= i < j < |r| ensures r[i].id != r[j].id {
        assert rs[i].id != rs[j].id;
      }
    }
  }

  /** An accepted update keeps the collection well-formed. */
  lemma UpdateKeepsWellFormed(rs: seq<Recipe>, form: Form)
    requires WellFormed(rs) && Accepts(form)
    ensures WellFormed(Updated(rs, form))
  {
    var r := Updated(rs, form);
    forall i | 0 <= i < |rs| ensures Tidy(r[i]) && r[i].id == rs[i].id {
      if IsFirstWithId(rs, i, form.id) {
        AcceptedIsTidy(form, "", rs[i]);
        assert r[i] == Edited(rs[i], form);
      } else {
        assert r[i] == rs[i];
      }
    }
    ReplaceKeepsWellFormed(rs, r);
  }

  /** A subsequence of a collection with unique ids has unique ids. */
  lemma {:induction false} SubsequenceKeepsUniqueIds(a: seq<Recipe>, b: seq<Recipe>)
    requires IsSubsequence(a, b) && UniqueIds(b)
    ensures UniqueIds(a)
    decreases |b|
  {
    if a != [] {
      assert UniqueIds(b[1..]) by {
        forall i, j | 0 <= i < j < |b[1..]| ensures b[1..][i].id != b[1..][j].id {
          assert b[1..][i] == b[i + 1] && b[1..][j] == b[j + 1];
        }
      }
      if a[0] == b[0] && IsSubsequence(a[1..], b[1..]) {
        SubsequenceKeepsUniqueIds(a[1..], b[1..]);
        SubsequenceMembers(a[1..], b[1..]);
        forall i, j | 0 <= i < j < |a| ensures a[i].id != a[j].id {
          assert a[j] == a[1..][j - 1];
          assert a[j] in b[1..];
          if i == 0 {
            var k :| 0 <= k < |b[1..]| && b[1..][k] == a[j];
            assert b[k + 1] == a[j];
          } else {
            assert a[i] == a[1..][i - 1];
          }
        }
      } else {
        SubsequenceKeepsUniqueIds(a, b[1..]);
      }
    }
  }

  /** Deleting by id keeps the collection well-formed. */
  lemma DeleteKeepsWellFormed(rs: seq<Recipe>, id: string)
    requires WellFormed(rs)
    ensures WellFormed(WithoutId(rs, id))
  {
    var r := WithoutId(rs, id);
    SubsequenceKeepsUniqueIds(r, rs);
    forall i | 0 <= i < |r| ensures Tidy(r[i]) {
      assert r[i] in rs;
    }
  }
}
