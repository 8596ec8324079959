/**
  Worked examples of the recipe book: the validation of the form, the search over
  a two-record collection, and an add followed by a fresh load from storage.
 */
module Scenarios {
  import opened Wrappers
  import opened Text
  import opened Lists
  import opened Recipes
  import opened Store

  lemma TrimCake()
    ensures Trim(" Cake ") == "Cake"
  {
    var cake := " Cake ";
    assert SkipStart(cake, 0) == 1 by {
      assert IsWhitespace(cake[0]) && !IsWhitespace(cake[1]);
    }
    assert SkipEnd(cake, 1, 6) == 5 by {
      assert IsWhitespace(cake[5]) && !IsWhitespace(cake[4]);
    }
  }

  lemma TrimFlour()
    ensures Trim(" flour, sugar ") == "flour, sugar"
  {
    var flour := " flour, sugar ";
    assert SkipStart(flour, 0) == 1 by {
      assert IsWhitespace(flour[0]) && !IsWhitespace(flour[1]);
    }
    assert SkipEnd(flour, 1, 14) == 13 by {
      assert IsWhitespace(flour[13]) && !IsWhitespace(flour[12]);
    }
  }

  /** An empty title, or ingredients that are all blanks, are rejected; surrounding blanks are trimmed off. */
  lemma ValidationScenarios()
    ensures !Accepts(Form("", "", "flour", "", ""))
    ensures !Accepts(Form("", "Cake", "  ", "", ""))
    ensures Trim(" Cake ") == "Cake"
    ensures Trim(" flour, sugar ") == "flour, sugar"
    ensures Accepts(Form("", " Cake ", " flour, sugar ", "", ""))
  {
    assert !HasVisible("");
    var blanks := "  ";
    assert IsWhitespace(blanks[0]) && IsWhitespace(blanks[1]);
    TrimCake();
    TrimFlour();
  }

  function Soup(): Recipe
  {
    Recipe("1", "Tomato Soup", "tomatoes", "", "Italian")
  }

  function Pho(): Recipe
  {
    Recipe("2", "Pho", "noodles", "", "Vietnamese")
  }

  /** A string none of whose possible starting characters opens `t` does not include `t`. */
  lemma Absent(s: string, t: string)
    requires t != [] && forall i :: 0 <= i && i + |t| <= |s| ==> s[i] != t[0]
    ensures !Contains(s, t)
  {
  }

  lemma ContainsFacts()
    ensures Contains("tomato soup", "soup") && Contains("tomato soup", "o") && Contains("pho", "o")
    ensures !Contains("pho", "soup") && !Contains("noodles", "soup")
    ensures Contains("tomato soup", "") && Contains("pho", "")
  {
    assert OccursAt("tomato soup", "soup", 7);
    assert OccursAt("tomato soup", "o", 1);
    assert OccursAt("pho", "o", 2);
    Absent("pho", "soup");
    Absent("noodles", "soup");
    ContainsEmpty("tomato soup");
    ContainsEmpty("pho");
  }

  lemma LoweringFacts()
    ensures Lower("Tomato Soup") == "tomato soup" && Lower("Italian") == "italian"
    ensures Lower("Pho") == "pho" && Lower("Vietnamese") == "vietnamese"
    ensures Lower("tomatoes") == "tomatoes" && Lower("noodles") == "noodles"
    ensures Lower("soup") == "soup" && Lower("italian") == "italian" && Lower("o") == "o" && Lower("") == ""
  {
  }

  lemma SoupMatches()
    ensures Matches(Soup(), "soup", "") && Matches(Soup(), "", "italian") && Matches(Soup(), "o", "")
  {
    LoweringFacts();
    ContainsFacts();
  }

  lemma PhoMatches()
    ensures !Matches(Pho(), "soup", "") && !Matches(Pho(), "", "italian") && Matches(Pho(), "o", "")
  {
    LoweringFacts();
    ContainsFacts();
  }

  lemma FilterPair<T(!new)>(a: T, b: T, p: T -> bool)
    ensures Filter([a, b], p) == (if p(a) then [a] else []) + (if p(b) then [b] else [])
  {
    assert [a, b][1..] == [b];
  }

  /** Searching "soup" finds the soup only. */
  lemma SearchByText()
    ensures SearchAndFilter([Soup(), Pho()], "soup", "") == [Soup()]
  {
    SoupMatches();
    PhoMatches();
    FilterPair(Soup(), Pho(), (x: Recipe) => Matches(x, "soup", ""));
  }

  /** Filtering on "italian" matches the cuisine "Italian" regardless of case. */
  lemma SearchByCuisine()
    ensures SearchAndFilter([Soup(), Pho()], "", "italian") == [Soup()]
  {
    SoupMatches();
    PhoMatches();
    FilterPair(Soup(), Pho(), (x: Recipe) => Matches(x, "", "italian"));
  }

  /** Both titles contain "o", so searching "o" shows both, in their order. */
  lemma SearchByLetter()
    ensures SearchAndFilter([Soup(), Pho()], "o", "") == [Soup(), Pho()]
  {
    SoupMatches();
    PhoMatches();
    FilterPair(Soup(), Pho(), (x: Recipe) => Matches(x, "o", ""));
  }

  /**
    Adding " Cake " with " flour, sugar " to an empty book stores the trimmed record,
    and a fresh start from what storage then holds loads exactly that collection.
   */
  method AddThenReload() returns (reloaded: seq<Recipe>)
    ensures reloaded == [Recipe("1", "Cake", "flour, sugar", "", "")]
  {
    ValidationScenarios();
    var book := new RecipeStore(None);
    var accepted := book.AddOrUpdate(Form("", " Cake ", " flour, sugar ", "", ""), "1");
    assert accepted;
    var restarted := new RecipeStore(Some(book.saved));
    reloaded := restarted.recipes;
  }
}
