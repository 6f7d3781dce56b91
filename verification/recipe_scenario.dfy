/**
 * A worked comparison: a database holding "Red Velvet Strawberry Cake" and
 * "Blueberry Muffin Cake" against an edited version in which the cooking
 * time, four ingredients and the set of cakes change. The report is computed
 * pass by pass and then as a whole; it is the sample report recorded at
 * src/ex01/compareDB.go:252-260, in the same order. Only that report is in
 * the source: the two databases are reconstructed to produce it, and fields
 * the report does not show (Moonshine Muffin's time, Blueberry Muffin Cake's
 * ingredients) are chosen freely.
 */
module RecipeScenario {
  import opened Recipe
  import opened KeyedView
  import opened RecipeDiffSpec
  import opened RecipeDiffProps

  const RedVelvet := "Red Velvet Strawberry Cake"

  const Flour0 := Ingredient("Flour", "3", "cups")
  const Straw0 := Ingredient("Strawberries", "7", "")
  const Cinnamon0 := Ingredient("Cinnamon", "1", "pieces")
  const Vanilla0 := Ingredient("Vanilla extract", "1", "")
  const OldIngredients := [Flour0, Straw0, Cinnamon0, Vanilla0]
  const OldIngredientView := map["Flour" := Flour0, "Strawberries" := Straw0,
                                 "Cinnamon" := Cinnamon0, "Vanilla extract" := Vanilla0]

  const Flour1 := Ingredient("Flour", "2", "mugs")
  const Straw1 := Ingredient("Strawberries", "8", "")
  const Cinnamon1 := Ingredient("Cinnamon", "1", "")
  const Coffee1 := Ingredient("Coffee Beans", "1", "")
  const NewIngredients := [Flour1, Straw1, Cinnamon1, Coffee1]
  const NewIngredientView := map["Flour" := Flour1, "Strawberries" := Straw1,
                                 "Cinnamon" := Cinnamon1, "Coffee Beans" := Coffee1]

  const OldRedVelvet := Cake(RedVelvet, "40 min", OldIngredients)
  const NewRedVelvet := Cake(RedVelvet, "45 min", NewIngredients)
  const Blueberry := Cake("Blueberry Muffin Cake", "30 min", [])
  const Moonshine := Cake("Moonshine Muffin", "30 min", [])
  const OldDb := Recipes([OldRedVelvet, Blueberry])
  const NewDb := Recipes([NewRedVelvet, Moonshine])

  /** The ADDED ingredient record, the REMOVED one, and the count and unit records. */
  const AddedRun := [AddedIngredient(RedVelvet, "Coffee Beans")]
  const RemovedRun := [RemovedIngredient(RedVelvet, "Vanilla extract")]
  const SharedRun := [ChangedCount(RedVelvet, "Flour", "2", "3"),
                      ChangedUnit(RedVelvet, "Flour", "mugs", "cups"),
                      ChangedCount(RedVelvet, "Strawberries", "8", "7"),
                      RemovedUnit(RedVelvet, "Cinnamon", "pieces")]

  /** The whole expected report, in order. */
  const Expected := [AddedCake("Moonshine Muffin"),
                     RemovedCake("Blueberry Muffin Cake"),
                     ChangedTime(RedVelvet, "45 min", "40 min"),
                     AddedIngredient(RedVelvet, "Coffee Beans"),
                     RemovedIngredient(RedVelvet, "Vanilla extract"),
                     ChangedCount(RedVelvet, "Flour", "2", "3"),
                     ChangedUnit(RedVelvet, "Flour", "mugs", "cups"),
                     ChangedCount(RedVelvet, "Strawberries", "8", "7"),
                     RemovedUnit(RedVelvet, "Cinnamon", "pieces")]

  /** The old ingredient view and the order of the shared pass. */
  lemma OldIngredientKeys()
    ensures IngredientIndex(OldIngredients) == OldIngredientView
    ensures DistinctKeys(OldIngredients, IngredientName) == ["Flour", "Strawberries", "Cinnamon", "Vanilla extract"]
  {
    assert [Flour0][..0] == [];
    assert [Flour0, Straw0][..1] == [Flour0];
    assert [Flour0, Straw0, Cinnamon0][..2] == [Flour0, Straw0];
    assert OldIngredients[..3] == [Flour0, Straw0, Cinnamon0];
    assert IngredientIndex([Flour0]) == map["Flour" := Flour0];
    assert IngredientIndex([Flour0, Straw0]) == map["Flour" := Flour0, "Strawberries" := Straw0];
    assert IngredientIndex([Flour0, Straw0, Cinnamon0])
        == map["Flour" := Flour0, "Strawberries" := Straw0, "Cinnamon" := Cinnamon0];
    assert DistinctKeys([Flour0], IngredientName) == ["Flour"];
    assert DistinctKeys([Flour0, Straw0], IngredientName) == ["Flour", "Strawberries"];
    assert DistinctKeys([Flour0, Straw0, Cinnamon0], IngredientName) == ["Flour", "Strawberries", "Cinnamon"];
  }

  /** The REMOVED ingredient run. */
  lemma RemovedIngredientPass()
    ensures RemovedIngredients(RedVelvet, NewIngredientView, OldIngredients) == RemovedRun
  {
    assert [Flour0][..0] == [];
    assert [Flour0, Straw0][..1] == [Flour0];
    assert [Flour0, Straw0, Cinnamon0][..2] == [Flour0, Straw0];
    assert OldIngredients[..3] == [Flour0, Straw0, Cinnamon0];
    assert RemovedIngredients(RedVelvet, NewIngredientView, [Flour0]) == [];
    assert RemovedIngredients(RedVelvet, NewIngredientView, [Flour0, Straw0]) == [];
    assert RemovedIngredients(RedVelvet, NewIngredientView, [Flour0, Straw0, Cinnamon0]) == [];
  }

  /** The new ingredient view and the ADDED run. */
  lemma NewIngredientPass()
    ensures IngredientIndex(NewIngredients) == NewIngredientView
    ensures AddedIngredients(RedVelvet, OldIngredientView, NewIngredients) == AddedRun
  {
    assert [Flour1][..0] == [];
    assert [Flour1, Straw1][..1] == [Flour1];
    assert [Flour1, Straw1, Cinnamon1][..2] == [Flour1, Straw1];
    assert NewIngredients[..3] == [Flour1, Straw1, Cinnamon1];
    assert IngredientIndex([Flour1]) == map["Flour" := Flour1];
    assert IngredientIndex([Flour1, Straw1]) == map["Flour" := Flour1, "Strawberries" := Straw1];
    assert IngredientIndex([Flour1, Straw1, Cinnamon1])
        == map["Flour" := Flour1, "Strawberries" := Straw1, "Cinnamon" := Cinnamon1];
    assert AddedIngredients(RedVelvet, OldIngredientView, [Flour1]) == [];
    assert AddedIngredients(RedVelvet, OldIngredientView, [Flour1, Straw1]) == [];
    assert AddedIngredients(RedVelvet, OldIngredientView, [Flour1, Straw1, Cinnamon1]) == [];
  }

  /** The shared pass: Flour changes count and unit, Strawberries its count,
      Cinnamon loses its unit. */
  lemma SharedIngredientPass()
    ensures SharedIngredients(RedVelvet, OldIngredientView, NewIngredientView,
                              ["Flour", "Strawberries", "Cinnamon", "Vanilla extract"]) == SharedRun
  {
    var names := ["Flour", "Strawberries", "Cinnamon", "Vanilla extract"];
    assert names[..3] == ["Flour", "Strawberries", "Cinnamon"];
    assert names[..3][..2] == ["Flour", "Strawberries"];
    assert names[..3][..2][..1] == ["Flour"];
    assert names[..3][..2][..1][..0] == [];
    assert SharedIngredients(RedVelvet, OldIngredientView, NewIngredientView, ["Flour"])
        == [ChangedCount(RedVelvet, "Flour", "2", "3"), ChangedUnit(RedVelvet, "Flour", "mugs", "cups")];
    assert SharedIngredients(RedVelvet, OldIngredientView, NewIngredientView, ["Flour", "Strawberries"])
        == [ChangedCount(RedVelvet, "Flour", "2", "3"), ChangedUnit(RedVelvet, "Flour", "mugs", "cups"),
            ChangedCount(RedVelvet, "Strawberries", "8", "7")];
    assert SharedIngredients(RedVelvet, OldIngredientView, NewIngredientView, names[..3]) == SharedRun;
  }

  /** compareIngredients is its three passes, one after the other. */
  lemma IngredientDiffPasses(cake: string, olds: seq<Ingredient>, news: seq<Ingredient>)
    ensures IngredientDiff(cake, olds, news)
         == AddedIngredients(cake, IngredientIndex(olds), news)
            + RemovedIngredients(cake, IngredientIndex(news), olds)
            + SharedIngredients(cake, IngredientIndex(olds), IngredientIndex(news),
                                DistinctKeys(olds, IngredientName))
  {
  }

  /** The Red Velvet block's ingredient records. */
  lemma RedVelvetIngredients()
    ensures IngredientDiff(RedVelvet, OldIngredients, NewIngredients) == AddedRun + RemovedRun + SharedRun
  {
    OldIngredientKeys();
    RemovedIngredientPass();
    NewIngredientPass();
    SharedIngredientPass();
    IngredientDiffPasses(RedVelvet, OldIngredients, NewIngredients);
  }

  /** The two cake views. */
  lemma CakeViews()
    ensures CakeIndex(OldDb.cakes) == map[RedVelvet := OldRedVelvet, Blueberry.name := Blueberry]
    ensures CakeIndex(NewDb.cakes) == map[RedVelvet := NewRedVelvet, Moonshine.name := Moonshine]
  {
    assert [OldRedVelvet, Blueberry][..1] == [OldRedVelvet];
    assert [NewRedVelvet, Moonshine][..1] == [NewRedVelvet];
    assert [OldRedVelvet][..0] == [];
    assert [NewRedVelvet][..0] == [];
    assert CakeIndex([OldRedVelvet]) == map[RedVelvet := OldRedVelvet];
    assert CakeIndex([NewRedVelvet]) == map[RedVelvet := NewRedVelvet];
  }

  /** The ADDED and REMOVED cake runs. */
  lemma AddedAndRemovedCakes()
    ensures AddedCakes(CakeIndex(OldDb.cakes), NewDb.cakes) == [AddedCake("Moonshine Muffin")]
    ensures RemovedCakes(CakeIndex(NewDb.cakes), OldDb.cakes) == [RemovedCake("Blueberry Muffin Cake")]
  {
    CakeViews();
    assert [OldRedVelvet, Blueberry][..1] == [OldRedVelvet];
    assert [NewRedVelvet, Moonshine][..1] == [NewRedVelvet];
    assert [OldRedVelvet][..0] == [];
    assert [NewRedVelvet][..0] == [];
    assert AddedCakes(CakeIndex(OldDb.cakes), [NewRedVelvet]) == [];
    assert RemovedCakes(CakeIndex(NewDb.cakes), [OldRedVelvet]) == [];
  }

  /** The one shared cake's block. */
  lemma SharedCakeBlock()
    ensures SharedCakes(CakeIndex(NewDb.cakes), OldDb.cakes)
         == [ChangedTime(RedVelvet, "45 min", "40 min")] + IngredientDiff(RedVelvet, OldIngredients, NewIngredients)
  {
    CakeViews();
    var newView := CakeIndex(NewDb.cakes);
    assert [OldRedVelvet, Blueberry][..1] == [OldRedVelvet];
    assert [OldRedVelvet][..0] == [];
    assert SharedCakes(newView, [OldRedVelvet]) == CakeDiff(OldRedVelvet, NewRedVelvet);
    assert SharedCakes(newView, OldDb.cakes) == SharedCakes(newView, [OldRedVelvet]);
  }

  /** Six runs of records laid end to end. */
  lemma Concatenation(added: seq<Change>, removed: seq<Change>, shared: seq<Change>, report: seq<Change>)
    requires added == [AddedCake("Moonshine Muffin")]
    requires removed == [RemovedCake("Blueberry Muffin Cake")]
    requires shared == [ChangedTime(RedVelvet, "45 min", "40 min")] + (AddedRun + RemovedRun + SharedRun)
    requires report == added + removed + shared
    ensures report == Expected
  {
  }

  /** The whole report of the worked comparison, record by record. */
  lemma RedVelvetReport()
    ensures DatabaseDiff(OldDb, NewDb) == Expected
  {
    AddedAndRemovedCakes();
    SharedCakeBlock();
    RedVelvetIngredients();
    ReportPasses(OldDb, NewDb);
    Concatenation(AddedCakes(CakeIndex(OldDb.cakes), NewDb.cakes),
                  RemovedCakes(CakeIndex(NewDb.cakes), OldDb.cakes),
                  SharedCakes(CakeIndex(NewDb.cakes), OldDb.cakes),
                  DatabaseDiff(OldDb, NewDb));
  }
}
