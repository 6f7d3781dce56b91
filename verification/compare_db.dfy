/**
 * CompareDatabases and compareIngredients (src/ex01/compareDB.go:126-200) as
 * the loops the source runs: fill the keyed views, then emit the records of
 * each pass in turn. Printing a line is appending a record to the report;
 * each method is proved to produce exactly the report RecipeDiffSpec defines.
 */
module CompareDb {
  import opened Recipe
  import opened KeyedView
  import opened RecipeDiffSpec

  /** `for _, x := range xs { m[key(x)] = x }`. */
  method BuildIndex<T>(xs: seq<T>, key: T -> string) returns (m: map<string, T>)
    ensures m == Index(xs, key)
    ensures m.Keys == Keys(xs, key)
  {
    m := map[];
    var i := 0;
    while i < |xs|
      invariant 0 <= i <= |xs|
      invariant m == Index(xs[..i], key)
    {
      assert xs[..i + 1][..i] == xs[..i];
      m := m[key(xs[i]) := xs[i]];
      i := i + 1;
    }
    assert xs[..|xs|] == xs;
  }

  /** The ADDED ingredient loop (compareDB.go:171-175). */
  method EmitAddedIngredients(cake: string, oldView: IngredientView, news: seq<Ingredient>)
    returns (report: seq<Change>)
    ensures report == AddedIngredients(cake, oldView, news)
  {
    report := [];
    var i := 0;
    while i < |news|
      invariant 0 <= i <= |news|
      invariant report == AddedIngredients(cake, oldView, news[..i])
    {
      assert news[..i + 1][..i] == news[..i];
      if news[i].name !in oldView {
        report := report + [AddedIngredient(cake, news[i].name)];
      }
      i := i + 1;
    }
    assert news[..|news|] == news;
  }

  /** The REMOVED ingredient loop (compareDB.go:177-181). */
  method EmitRemovedIngredients(cake: string, newView: IngredientView, olds: seq<Ingredient>)
    returns (report: seq<Change>)
    ensures report == RemovedIngredients(cake, newView, olds)
  {
    report := [];
    var i := 0;
    while i < |olds|
      invariant 0 <= i <= |olds|
      invariant report == RemovedIngredients(cake, newView, olds[..i])
    {
      assert olds[..i + 1][..i] == olds[..i];
      if olds[i].name !in newView {
        report := report + [RemovedIngredient(cake, olds[i].name)];
      }
      i := i + 1;
    }
    assert olds[..|olds|] == olds;
  }

  /** The records for one shared ingredient (compareDB.go:184-197). */
  method EmitIngredientChanges(cake: string, name: string, o: Ingredient, n: Ingredient)
    returns (report: seq<Change>)
    ensures report == IngredientChanges(cake, name, o, n)
  {
    report := [];
    if o.count != n.count {
      report := report + [ChangedCount(cake, name, n.count, o.count)];
    }
    if o.unit != n.unit {
      if o.unit == "" {
        report := report + [AddedUnit(cake, name, n.unit)];
      } else if n.unit == "" {
        report := report + [RemovedUnit(cake, name, o.unit)];
      } else {
        report := report + [ChangedUnit(cake, name, n.unit, o.unit)];
      }
    }
  }

  /** The shared-ingredient loop (compareDB.go:182-199). It walks the old
      ingredients in order and handles each name the first time it is seen,
      which visits every key of oldIngredientMap exactly once; `visited`
      lists the names handled so far, in the order they were handled. */
  method EmitSharedIngredients(cake: string, olds: seq<Ingredient>, news: seq<Ingredient>,
                               oldView: IngredientView, newView: IngredientView)
    returns (report: seq<Change>)
    requires oldView == IngredientIndex(olds) && newView == IngredientIndex(news)
    ensures report == SharedPass(cake, olds, news)
  {
    report := [];
    var i := 0;
    var visited: seq<string> := [];
    while i < |olds|
      invariant 0 <= i <= |olds|
      invariant visited == DistinctKeys(olds[..i], IngredientName)
      invariant report == SharedIngredients(cake, oldView, newView, visited)
    {
      var name := olds[i].name;
      SharedPassStep(cake, olds, newView, i);
      if name !in visited {
        if name in newView {
          var changes := EmitIngredientChanges(cake, name, oldView[name], newView[name]);
          report := report + changes;
        }
        visited := visited + [name];
      }
      i := i + 1;
    }
    assert olds[..|olds|] == olds;
  }

  /** compareIngredients (compareDB.go:160-200): fill both views, then the
      ADDED, REMOVED and shared passes, in that order. */
  method CompareIngredients(cake: string, olds: seq<Ingredient>, news: seq<Ingredient>)
    returns (report: seq<Change>)
    ensures report == IngredientDiff(cake, olds, news)
  {
    var oldView := BuildIndex(olds, IngredientName);
    var newView := BuildIndex(news, IngredientName);
    var added := EmitAddedIngredients(cake, oldView, news);
    var removed := EmitRemovedIngredients(cake, newView, olds);
    var shared := EmitSharedIngredients(cake, olds, news, oldView, newView);
    report := added + removed + shared;
  }

  /** The ADDED cake loop (compareDB.go:138-142). */
  method EmitAddedCakes(oldView: CakeView, news: seq<Cake>) returns (report: seq<Change>)
    ensures report == AddedCakes(oldView, news)
  {
    report := [];
    var i := 0;
    while i < |news|
      invariant 0 <= i <= |news|
      invariant report == AddedCakes(oldView, news[..i])
    {
      assert news[..i + 1][..i] == news[..i];
      if news[i].name !in oldView {
        report := report + [AddedCake(news[i].name)];
      }
      i := i + 1;
    }
    assert news[..|news|] == news;
  }

  /** The REMOVED cake loop (compareDB.go:144-148). */
  method EmitRemovedCakes(newView: CakeView, olds: seq<Cake>) returns (report: seq<Change>)
    ensures report == RemovedCakes(newView, olds)
  {
    report := [];
    var i := 0;
    while i < |olds|
      invariant 0 <= i <= |olds|
      invariant report == RemovedCakes(newView, olds[..i])
    {
      assert olds[..i + 1][..i] == olds[..i];
      if olds[i].name !in newView {
        report := report + [RemovedCake(olds[i].name)];
      }
      i := i + 1;
    }
    assert olds[..|olds|] == olds;
  }

  /** The shared-cake loop (compareDB.go:150-157). */
  method EmitSharedCakes(newView: CakeView, olds: seq<Cake>) returns (report: seq<Change>)
    ensures report == SharedCakes(newView, olds)
  {
    report := [];
    var i := 0;
    while i < |olds|
      invariant 0 <= i <= |olds|
      invariant report == SharedCakes(newView, olds[..i])
    {
      assert olds[..i + 1][..i] == olds[..i];
      var oldCake := olds[i];
      if oldCake.name in newView {
        var newCake := newView[oldCake.name];
        var time := [];
        if oldCake.time != newCake.time {
          time := [ChangedTime(oldCake.name, newCake.time, oldCake.time)];
        }
        var ings := CompareIngredients(oldCake.name, oldCake.ingredients, newCake.ingredients);
        assert time + ings == CakeDiff(oldCake, newCake);
        report := report + (time + ings);
      }
      assert SharedCakes(newView, olds[..i + 1]) == SharedCakes(newView, olds[..i])
        + (if oldCake.name in newView then CakeDiff(oldCake, newView[oldCake.name]) else []);
      i := i + 1;
    }
    assert olds[..|olds|] == olds;
  }

  /** CompareDatabases (compareDB.go:126-158): fill both cake views, then the
      ADDED, REMOVED and shared passes, in that order. */
  method CompareDatabases(o: Recipes, n: Recipes) returns (report: seq<Change>)
    ensures report == DatabaseDiff(o, n)
  {
    var oldView := BuildIndex(o.cakes, CakeName);
    var newView := BuildIndex(n.cakes, CakeName);
    var added := EmitAddedCakes(oldView, n.cakes);
    var removed := EmitRemovedCakes(newView, o.cakes);
    var shared := EmitSharedCakes(newView, o.cakes);
    report := added + removed + shared;
  }
}
