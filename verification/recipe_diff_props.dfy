/**
 * What the recipe diff report means (src/ex01/compareDB.go:126-200): which
 * records it holds and how many times, stated against the two databases, and
 * the two whole-report facts: a database compared with itself gives an empty
 * report, and an empty report means the keyed views agree.
 */
module RecipeDiffProps {
  import opened Recipe
  import opened KeyedView
  import opened RecipeDiffSpec

  /** A record that only the first of three runs can hold is counted there. */
  lemma CountInFirstRun(a: seq<Change>, b: seq<Change>, c: seq<Change>, y: Change)
    requires y !in b && y !in c
    ensures multiset(a + b + c)[y] == multiset(a)[y]
    ensures y in a + b + c <==> y in a
  {
    assert multiset(a + b + c) == multiset(a) + multiset(b) + multiset(c);
  }

  /** A record that only the second of three runs can hold is counted there. */
  lemma CountInSecondRun(a: seq<Change>, b: seq<Change>, c: seq<Change>, y: Change)
    requires y !in a && y !in c
    ensures multiset(a + b + c)[y] == multiset(b)[y]
    ensures y in a + b + c <==> y in b
  {
    assert multiset(a + b + c) == multiset(a) + multiset(b) + multiset(c);
  }

  /** A record that only the third of three runs can hold is counted there. */
  lemma CountInThirdRun(a: seq<Change>, b: seq<Change>, c: seq<Change>, y: Change)
    requires y !in a && y !in b
    ensures multiset(a + b + c)[y] == multiset(c)[y]
    ensures y in a + b + c <==> y in c
  {
    assert multiset(a + b + c) == multiset(a) + multiset(b) + multiset(c);
  }

  // ---------------------------------------------------------- ADDED / REMOVED cakes

  /** The ADDED cake pass is a filter over the new cakes: it keeps their order. */
  lemma {:induction false} AddedCakesAppend(oldView: CakeView, a: seq<Cake>, b: seq<Cake>)
    ensures AddedCakes(oldView, a + b) == AddedCakes(oldView, a) + AddedCakes(oldView, b)
  {
    if b == [] {
      assert a + b == a;
    } else {
      var init := b[..|b| - 1];
      assert (a + b)[..|a + b| - 1] == a + init;
      AddedCakesAppend(oldView, a, init);
    }
  }

  /** One ADDED cake record per new cake whose name the old view lacks, so a
      name repeated in the new database is reported once per occurrence. */
  lemma {:induction false} AddedCakesCount(oldView: CakeView, news: seq<Cake>, x: string)
    ensures multiset(AddedCakes(oldView, news))[AddedCake(x)]
         == if x in oldView then 0 else Occurrences(news, CakeName, x)
  {
    if news != [] {
      AddedCakesCount(oldView, news[..|news| - 1], x);
    }
  }

  /** The REMOVED cake pass is a filter over the old cakes: it keeps their order. */
  lemma {:induction false} RemovedCakesAppend(newView: CakeView, a: seq<Cake>, b: seq<Cake>)
    ensures RemovedCakes(newView, a + b) == RemovedCakes(newView, a) + RemovedCakes(newView, b)
  {
    if b == [] {
      assert a + b == a;
    } else {
      var init := b[..|b| - 1];
      assert (a + b)[..|a + b| - 1] == a + init;
      RemovedCakesAppend(newView, a, init);
    }
  }

  /** One REMOVED cake record per old cake whose name the new view lacks. */
  lemma {:induction false} RemovedCakesCount(newView: CakeView, olds: seq<Cake>, x: string)
    ensures multiset(RemovedCakes(newView, olds))[RemovedCake(x)]
         == if x in newView then 0 else Occurrences(olds, CakeName, x)
  {
    if olds != [] {
      RemovedCakesCount(newView, olds[..|olds| - 1], x);
    }
  }

  /** ADDED cake records of the report all come from the ADDED cake pass. */
  lemma AddedCakesInReport(o: Recipes, n: Recipes, y: Change)
    requires y.AddedCake?
    ensures multiset(DatabaseDiff(o, n))[y] == multiset(AddedCakes(CakeIndex(o.cakes), n.cakes))[y]
  {
    var oldView, newView := CakeIndex(o.cakes), CakeIndex(n.cakes);
    var added := AddedCakes(oldView, n.cakes);
    var removed := RemovedCakes(newView, o.cakes);
    var shared := SharedCakes(newView, o.cakes);
    assert DatabaseDiff(o, n) == added + removed + shared;
    CountInFirstRun(added, removed, shared, y);
  }

  /** REMOVED cake records of the report all come from the REMOVED cake pass. */
  lemma RemovedCakesInReport(o: Recipes, n: Recipes, y: Change)
    requires y.RemovedCake?
    ensures multiset(DatabaseDiff(o, n))[y] == multiset(RemovedCakes(CakeIndex(n.cakes), o.cakes))[y]
  {
    var oldView, newView := CakeIndex(o.cakes), CakeIndex(n.cakes);
    var added := AddedCakes(oldView, n.cakes);
    var removed := RemovedCakes(newView, o.cakes);
    var shared := SharedCakes(newView, o.cakes);
    assert DatabaseDiff(o, n) == added + removed + shared;
    CountInSecondRun(added, removed, shared, y);
  }

  /** In the whole report: ADDED cake "x" appears once per cake named x in the
      new database when the old one has no cake named x, and never otherwise. */
  lemma AddedCakeRecords(o: Recipes, n: Recipes, x: string)
    ensures multiset(DatabaseDiff(o, n))[AddedCake(x)]
         == if x in Keys(o.cakes, CakeName) then 0 else Occurrences(n.cakes, CakeName, x)
    ensures AddedCake(x) in DatabaseDiff(o, n) <==>
      x in Keys(n.cakes, CakeName) && x !in Keys(o.cakes, CakeName)
  {
    AddedCakesInReport(o, n, AddedCake(x));
    AddedCakesCount(CakeIndex(o.cakes), n.cakes, x);
    OccurrencesPositive(n.cakes, CakeName, x);
  }

  /** In the whole report: REMOVED cake "x" appears once per cake named x in the
      old database when the new one has no cake named x, and never otherwise. */
  lemma RemovedCakeRecords(o: Recipes, n: Recipes, x: string)
    ensures multiset(DatabaseDiff(o, n))[RemovedCake(x)]
         == if x in Keys(n.cakes, CakeName) then 0 else Occurrences(o.cakes, CakeName, x)
    ensures RemovedCake(x) in DatabaseDiff(o, n) <==>
      x in Keys(o.cakes, CakeName) && x !in Keys(n.cakes, CakeName)
  {
    RemovedCakesInReport(o, n, RemovedCake(x));
    RemovedCakesCount(CakeIndex(n.cakes), o.cakes, x);
    OccurrencesPositive(o.cakes, CakeName, x);
  }

  // ---------------------------------------------------------- cooking time

  /** The only time record of a cake block is the one for differing times. */
  lemma CakeDiffTime(oc: Cake, nc: Cake, y: Change)
    requires y.ChangedTime?
    ensures y in CakeDiff(oc, nc) <==> y == ChangedTime(oc.name, nc.time, oc.time) && oc.time != nc.time
  {
    var time := if oc.time != nc.time then [ChangedTime(oc.name, nc.time, oc.time)] else [];
    var ings := IngredientDiff(oc.name, oc.ingredients, nc.ingredients);
    assert CakeDiff(oc, nc) == time + ings;
    assert y !in ings;
  }

  /** The shared-cake pass keeps the order of the old cakes: the blocks of a
      prefix come before the blocks of the rest. */
  lemma {:induction false} SharedCakesAppend(newView: CakeView, a: seq<Cake>, b: seq<Cake>)
    ensures SharedCakes(newView, a + b) == SharedCakes(newView, a) + SharedCakes(newView, b)
  {
    if b == [] {
      assert a + b == a;
    } else {
      var init, c := b[..|b| - 1], b[|b| - 1];
      var ab := a + b;
      assert ab[..|ab| - 1] == a + init && ab[|ab| - 1] == c;
      var block := if c.name in newView then CakeDiff(c, newView[c.name]) else [];
      assert SharedCakes(newView, ab) == SharedCakes(newView, a + init) + block;
      assert SharedCakes(newView, b) == SharedCakes(newView, init) + block;
      SharedCakesAppend(newView, a, init);
    }
  }

  /** A time record of the shared-cake pass comes from an old cake whose name
      the new view holds and whose time differs from the held cake's. */
  lemma {:induction false} SharedCakesTime(newView: CakeView, olds: seq<Cake>, y: Change)
    requires y.ChangedTime?
    ensures y in SharedCakes(newView, olds) <==>
      exists i :: 0 <= i < |olds| && olds[i].name in newView &&
                  y == ChangedTime(olds[i].name, newView[olds[i].name].time, olds[i].time) &&
                  olds[i].time != newView[olds[i].name].time
  {
    if olds != [] {
      var init, c := olds[..|olds| - 1], olds[|olds| - 1];
      SharedCakesTime(newView, init, y);
      var block := if c.name in newView then CakeDiff(c, newView[c.name]) else [];
      assert SharedCakes(newView, olds) == SharedCakes(newView, init) + block;
      if c.name in newView {
        CakeDiffTime(c, newView[c.name], y);
      }
      assert forall i :: 0 <= i < |init| ==> init[i] == olds[i];
    }
  }

  /** Time records of the report all come from the shared-cake pass. */
  lemma SharedCakesInReport(o: Recipes, n: Recipes, y: Change)
    requires IsCakeBlockRecord(y)
    ensures multiset(DatabaseDiff(o, n))[y] == multiset(SharedCakes(CakeIndex(n.cakes), o.cakes))[y]
    ensures y in DatabaseDiff(o, n) <==> y in SharedCakes(CakeIndex(n.cakes), o.cakes)
  {
    var oldView, newView := CakeIndex(o.cakes), CakeIndex(n.cakes);
    var added := AddedCakes(oldView, n.cakes);
    var removed := RemovedCakes(newView, o.cakes);
    var shared := SharedCakes(newView, o.cakes);
    assert DatabaseDiff(o, n) == added + removed + shared;
    CountInThirdRun(added, removed, shared, y);
  }

  /** A time record names an old cake and the last new cake of its name. */
  lemma TimeRecordWitness(olds: seq<Cake>, news: seq<Cake>, y: Change)
    requires y.ChangedTime? && y in SharedCakes(CakeIndex(news), olds)
    ensures exists i, j :: 0 <= i < |olds| && 0 <= j < |news| &&
                           olds[i].name == news[j].name && LastWithKey(news, CakeName, j) &&
                           y == ChangedTime(olds[i].name, news[j].time, olds[i].time) &&
                           olds[i].time != news[j].time
  {
    var newView := CakeIndex(news);
    SharedCakesTime(newView, olds, y);
    var i :| 0 <= i < |olds| && olds[i].name in newView &&
             y == ChangedTime(olds[i].name, newView[olds[i].name].time, olds[i].time) &&
             olds[i].time != newView[olds[i].name].time;
    IndexIsLast(news, CakeName, olds[i].name);
    var j :| 0 <= j < |news| && news[j] == newView[olds[i].name] &&
             CakeName(news[j]) == olds[i].name && LastWithKey(news, CakeName, j);
  }

  /** An old cake and the last new cake of its name with differing times
      give a time record. */
  lemma TimeRecordOfWitness(olds: seq<Cake>, news: seq<Cake>, i: nat, j: nat)
    requires i < |olds| && j < |news|
    requires olds[i].name == news[j].name && LastWithKey(news, CakeName, j)
    requires olds[i].time != news[j].time
    ensures ChangedTime(olds[i].name, news[j].time, olds[i].time) in SharedCakes(CakeIndex(news), olds)
  {
    IndexLastWins(news, CakeName, j);
    SharedCakesTime(CakeIndex(news), olds, ChangedTime(olds[i].name, news[j].time, olds[i].time));
  }

  /** Every such pair yields its time record. */
  lemma TimeRecordsOfWitnesses(olds: seq<Cake>, news: seq<Cake>)
    ensures forall i, j :: 0 <= i < |olds| && 0 <= j < |news| &&
                           olds[i].name == news[j].name && LastWithKey(news, CakeName, j) &&
                           olds[i].time != news[j].time ==>
                           ChangedTime(olds[i].name, news[j].time, olds[i].time)
                           in SharedCakes(CakeIndex(news), olds)
  {
    forall i, j | 0 <= i < |olds| && 0 <= j < |news| &&
                  olds[i].name == news[j].name && LastWithKey(news, CakeName, j) &&
                  olds[i].time != news[j].time
      ensures ChangedTime(olds[i].name, news[j].time, olds[i].time)
              in SharedCakes(CakeIndex(news), olds)
    {
      TimeRecordOfWitness(olds, news, i, j);
    }
  }

  /** CHANGED cooking time is reported for an old cake and the LAST new cake of
      the same name exactly when their time strings differ. */
  lemma ChangedTimeRecords(o: Recipes, n: Recipes, y: Change)
    requires y.ChangedTime?
    ensures y in DatabaseDiff(o, n) <==>
      exists i, j :: 0 <= i < |o.cakes| && 0 <= j < |n.cakes| &&
                     o.cakes[i].name == n.cakes[j].name && LastWithKey(n.cakes, CakeName, j) &&
                     y == ChangedTime(o.cakes[i].name, n.cakes[j].time, o.cakes[i].time) &&
                     o.cakes[i].time != n.cakes[j].time
  {
    SharedCakesInReport(o, n, y);
    if y in SharedCakes(CakeIndex(n.cakes), o.cakes) {
      TimeRecordWitness(o.cakes, n.cakes, y);
    } else {
      TimeRecordsOfWitnesses(o.cakes, n.cakes);
    }
  }

  // ---------------------------------------------------------- ingredients

  /** One ADDED ingredient record per new ingredient whose name the old view
      lacks, in the order of the new ingredients. */
  lemma {:induction false} AddedIngredientsCount(cake: string, oldView: IngredientView,
                                                 news: seq<Ingredient>, x: string)
    ensures multiset(AddedIngredients(cake, oldView, news))[AddedIngredient(cake, x)]
         == if x in oldView then 0 else Occurrences(news, IngredientName, x)
  {
    if news != [] {
      AddedIngredientsCount(cake, oldView, news[..|news| - 1], x);
    }
  }

  /** One REMOVED ingredient record per old ingredient whose name the new view
      lacks. */
  lemma {:induction false} RemovedIngredientsCount(cake: string, newView: IngredientView,
                                                   olds: seq<Ingredient>, x: string)
    ensures multiset(RemovedIngredients(cake, newView, olds))[RemovedIngredient(cake, x)]
         == if x in newView then 0 else Occurrences(olds, IngredientName, x)
  {
    if olds != [] {
      RemovedIngredientsCount(cake, newView, olds[..|olds| - 1], x);
    }
  }

  /** The records for one shared ingredient are exactly these, and none twice. */
  lemma IngredientChangesRecords(cake: string, name: string, o: Ingredient, n: Ingredient, c: Change)
    ensures c in IngredientChanges(cake, name, o, n) <==>
      (c == ChangedCount(cake, name, n.count, o.count) && o.count != n.count) ||
      (c == AddedUnit(cake, name, n.unit) && o.unit == "" && n.unit != "") ||
      (c == RemovedUnit(cake, name, o.unit) && o.unit != "" && n.unit == "") ||
      (c == ChangedUnit(cake, name, n.unit, o.unit) && o.unit != "" && n.unit != "" && o.unit != n.unit)
    ensures multiset(IngredientChanges(cake, name, o, n))[c] <= 1
  {
    var r := IngredientChanges(cake, name, o, n);
    if |r| == 2 {
      assert r == [r[0], r[1]] && r[0] != r[1];
    }
  }

  /** A count or unit record of the shared pass over `names` belongs to a name
      of the list that both views hold, and is one of that name's records. */
  lemma {:induction false} SharedIngredientsRecords(cake: string, oldView: IngredientView,
                                                    newView: IngredientView, names: seq<string>, c: Change)
    ensures c in SharedIngredients(cake, oldView, newView, names) <==>
      IsAttributeChange(c) && c.ingredient in names && c.ingredient in oldView && c.ingredient in newView &&
      c in IngredientChanges(cake, c.ingredient, oldView[c.ingredient], newView[c.ingredient])
  {
    if names != [] {
      var init, x := names[..|names| - 1], names[|names| - 1];
      SharedIngredientsRecords(cake, oldView, newView, init, c);
      assert names == init + [x];
    }
  }

  /** Walking a list of distinct names reports no record twice. */
  lemma {:induction false} SharedIngredientsOnce(cake: string, oldView: IngredientView,
                                                 newView: IngredientView, names: seq<string>, c: Change)
    requires forall i, j :: 0 <= i < j < |names| ==> names[i] != names[j]
    ensures multiset(SharedIngredients(cake, oldView, newView, names))[c] <= 1
  {
    if names != [] {
      var init, x := names[..|names| - 1], names[|names| - 1];
      SharedIngredientsOnce(cake, oldView, newView, init, c);
      var step := if x in oldView && x in newView then IngredientChanges(cake, x, oldView[x], newView[x]) else [];
      assert SharedIngredients(cake, oldView, newView, names) == SharedIngredients(cake, oldView, newView, init) + step;
      if c in step {
        IngredientChangesRecords(cake, x, oldView[x], newView[x], c);
        assert x !in init;
        SharedIngredientsRecords(cake, oldView, newView, init, c);
      }
    }
  }

  /** ADDED and REMOVED ingredient records and the count and unit records
      each come from their own pass of compareIngredients. */
  lemma IngredientPasses(cake: string, olds: seq<Ingredient>, news: seq<Ingredient>, y: Change)
    ensures y.AddedIngredient? ==>
              multiset(IngredientDiff(cake, olds, news))[y]
              == multiset(AddedIngredients(cake, IngredientIndex(olds), news))[y]
    ensures y.RemovedIngredient? ==>
              multiset(IngredientDiff(cake, olds, news))[y]
              == multiset(RemovedIngredients(cake, IngredientIndex(news), olds))[y]
    ensures IsAttributeChange(y) ==>
              multiset(IngredientDiff(cake, olds, news))[y] == multiset(SharedPass(cake, olds, news))[y]
  {
    var oldView, newView := IngredientIndex(olds), IngredientIndex(news);
    var added := AddedIngredients(cake, oldView, news);
    var removed := RemovedIngredients(cake, newView, olds);
    var shared := SharedPass(cake, olds, news);
    assert IngredientDiff(cake, olds, news) == added + removed + shared;
    if y.AddedIngredient? {
      CountInFirstRun(added, removed, shared, y);
    } else if y.RemovedIngredient? {
      CountInSecondRun(added, removed, shared, y);
    } else if IsAttributeChange(y) {
      CountInThirdRun(added, removed, shared, y);
    }
  }

  /** ADDED ingredient "x" appears once per new ingredient named x when the
      old cake has no ingredient named x, and never otherwise. */
  lemma AddedIngredientRecords(cake: string, olds: seq<Ingredient>, news: seq<Ingredient>, x: string)
    ensures multiset(IngredientDiff(cake, olds, news))[AddedIngredient(cake, x)]
         == if x in Keys(olds, IngredientName) then 0 else Occurrences(news, IngredientName, x)
    ensures AddedIngredient(cake, x) in IngredientDiff(cake, olds, news) <==>
      x in Keys(news, IngredientName) && x !in Keys(olds, IngredientName)
  {
    IngredientPasses(cake, olds, news, AddedIngredient(cake, x));
    AddedIngredientsCount(cake, IngredientIndex(olds), news, x);
    OccurrencesPositive(news, IngredientName, x);
  }

  /** REMOVED ingredient "x" appears once per old ingredient named x when the
      new cake has no ingredient named x, and never otherwise. */
  lemma RemovedIngredientRecords(cake: string, olds: seq<Ingredient>, news: seq<Ingredient>, x: string)
    ensures multiset(IngredientDiff(cake, olds, news))[RemovedIngredient(cake, x)]
         == if x in Keys(news, IngredientName) then 0 else Occurrences(olds, IngredientName, x)
    ensures RemovedIngredient(cake, x) in IngredientDiff(cake, olds, news) <==>
      x in Keys(olds, IngredientName) && x !in Keys(news, IngredientName)
  {
    IngredientPasses(cake, olds, news, RemovedIngredient(cake, x));
    RemovedIngredientsCount(cake, IngredientIndex(news), olds, x);
    OccurrencesPositive(olds, IngredientName, x);
  }

  /** A count or unit record is reported for an ingredient name both cakes
      have, comparing the ingredients the two keyed views hold under it; and
      it is reported at most once, even when the old cake repeats the name. */
  lemma AttributeRecords(cake: string, olds: seq<Ingredient>, news: seq<Ingredient>, c: Change)
    requires IsAttributeChange(c)
    ensures c in IngredientDiff(cake, olds, news) <==>
      c.ingredient in Keys(olds, IngredientName) && c.ingredient in Keys(news, IngredientName) &&
      c in IngredientChanges(cake, c.ingredient, IngredientIndex(olds)[c.ingredient],
                             IngredientIndex(news)[c.ingredient])
    ensures multiset(IngredientDiff(cake, olds, news))[c] <= 1
  {
    var oldView, newView := IngredientIndex(olds), IngredientIndex(news);
    var names := DistinctKeys(olds, IngredientName);
    IngredientPasses(cake, olds, news, c);
    assert SharedPass(cake, olds, news) == SharedIngredients(cake, oldView, newView, names);
    DistinctKeysSpan(olds, IngredientName);
    SharedIngredientsRecords(cake, oldView, newView, names, c);
    SharedIngredientsOnce(cake, oldView, newView, names, c);
  }

  /** Two walks over the same distinct names, in any orders, report the
      same multiset of records. */
  lemma SharedIngredientsAnyOrder(cake: string, oldView: IngredientView, newView: IngredientView,
                                  a: seq<string>, b: seq<string>)
    requires forall i, j :: 0 <= i < j < |a| ==> a[i] != a[j]
    requires forall i, j :: 0 <= i < j < |b| ==> b[i] != b[j]
    requires forall x :: x in a <==> x in b
    ensures multiset(SharedIngredients(cake, oldView, newView, a))
         == multiset(SharedIngredients(cake, oldView, newView, b))
  {
    var ra, rb := SharedIngredients(cake, oldView, newView, a), SharedIngredients(cake, oldView, newView, b);
    forall c ensures multiset(ra)[c] == multiset(rb)[c] {
      SharedIngredientsRecords(cake, oldView, newView, a, c);
      SharedIngredientsRecords(cake, oldView, newView, b, c);
      SharedIngredientsOnce(cake, oldView, newView, a, c);
      SharedIngredientsOnce(cake, oldView, newView, b, c);
    }
  }

  /** Whatever order the range over the old ingredient map takes, it reports
      the same multiset of count and unit records as the order the model
      fixes. */
  lemma AnyMapOrder(cake: string, olds: seq<Ingredient>, news: seq<Ingredient>, order: seq<string>)
    requires forall i, j :: 0 <= i < j < |order| ==> order[i] != order[j]
    requires forall x :: x in order <==> x in IngredientIndex(olds)
    ensures multiset(SharedIngredients(cake, IngredientIndex(olds), IngredientIndex(news), order))
         == multiset(SharedPass(cake, olds, news))
  {
    DistinctKeysSpan(olds, IngredientName);
    SharedIngredientsAnyOrder(cake, IngredientIndex(olds), IngredientIndex(news),
                              order, DistinctKeys(olds, IngredientName));
  }

  /** The ingredient records of a cake block are its ingredient diff. */
  lemma CakeDiffIngredients(oc: Cake, nc: Cake, y: Change)
    requires IsIngredientRecord(y)
    ensures y in CakeDiff(oc, nc) <==> y in IngredientDiff(oc.name, oc.ingredients, nc.ingredients)
  {
    var time := if oc.time != nc.time then [ChangedTime(oc.name, nc.time, oc.time)] else [];
    var ings := IngredientDiff(oc.name, oc.ingredients, nc.ingredients);
    assert CakeDiff(oc, nc) == time + ings;
    assert y !in time;
  }

  /** An ingredient record of the shared-cake pass comes from the ingredient
      diff of an old cake against the cake the new view holds under its name. */
  lemma {:induction false} SharedCakesIngredients(newView: CakeView, olds: seq<Cake>, y: Change)
    requires IsIngredientRecord(y)
    ensures y in SharedCakes(newView, olds) <==>
      exists i :: 0 <= i < |olds| && olds[i].name in newView &&
                  y in IngredientDiff(olds[i].name, olds[i].ingredients, newView[olds[i].name].ingredients)
  {
    if olds != [] {
      var init, c := olds[..|olds| - 1], olds[|olds| - 1];
      SharedCakesIngredients(newView, init, y);
      var block := if c.name in newView then CakeDiff(c, newView[c.name]) else [];
      assert SharedCakes(newView, olds) == SharedCakes(newView, init) + block;
      if c.name in newView {
        CakeDiffIngredients(c, newView[c.name], y);
      }
      assert forall i :: 0 <= i < |init| ==> init[i] == olds[i];
    }
  }

  /** In the whole report, ingredient, count and unit records are those of the
      ingredient diffs of the old cakes that the new database also has. */
  lemma IngredientRecordsInReport(o: Recipes, n: Recipes, y: Change)
    requires IsIngredientRecord(y)
    ensures y in DatabaseDiff(o, n) <==>
      exists i :: 0 <= i < |o.cakes| && o.cakes[i].name in CakeIndex(n.cakes) &&
                  y in IngredientDiff(o.cakes[i].name, o.cakes[i].ingredients,
                                      CakeIndex(n.cakes)[o.cakes[i].name].ingredients)
  {
    SharedCakesInReport(o, n, y);
    SharedCakesIngredients(CakeIndex(n.cakes), o.cakes, y);
  }

  // ---------------------------------------------------------- empty reports

  /** Comparing an ingredient list with itself reports nothing, even when it
      repeats a name. */
  lemma IngredientDiffSelf(cake: string, ings: seq<Ingredient>)
    ensures IngredientDiff(cake, ings, ings) == []
  {
    var r := IngredientDiff(cake, ings, ings);
    if r != [] {
      var y := r[0];
      if y.AddedIngredient? {
        AddedIngredientRecords(cake, ings, ings, y.ingredient);
      } else if y.RemovedIngredient? {
        RemovedIngredientRecords(cake, ings, ings, y.ingredient);
      } else {
        AttributeRecords(cake, ings, ings, y);
      }
    }
  }

  /** A cake compared with itself reports nothing. */
  lemma CakeDiffSelf(c: Cake)
    ensures CakeDiff(c, c) == []
  {
    IngredientDiffSelf(c.name, c.ingredients);
  }

  /** The shared-cake pass over cakes each held by the new view reports nothing. */
  lemma {:induction false} SharedCakesSelf(newView: CakeView, olds: seq<Cake>)
    requires forall i :: 0 <= i < |olds| ==> olds[i].name in newView && newView[olds[i].name] == olds[i]
    ensures SharedCakes(newView, olds) == []
  {
    if olds != [] {
      var init, c := olds[..|olds| - 1], olds[|olds| - 1];
      SharedCakesSelf(newView, init);
      CakeDiffSelf(c);
    }
  }

  /** Comparing a database whose cake names are unique with itself reports
      nothing. Ingredient names need not be unique. */
  lemma DiffSelfEmpty(r: Recipes)
    requires UniqueKeys(r.cakes, CakeName)
    ensures DatabaseDiff(r, r) == []
  {
    var view := CakeIndex(r.cakes);
    var added := AddedCakes(view, r.cakes);
    var removed := RemovedCakes(view, r.cakes);
    if added != [] {
      AddedCakeRecords(r, r, added[0].cake);
      AddedCakesInReport(r, r, added[0]);
    }
    if removed != [] {
      RemovedCakeRecords(r, r, removed[0].cake);
      RemovedCakesInReport(r, r, removed[0]);
    }
    IndexOfUnique(r.cakes, CakeName);
    SharedCakesSelf(view, r.cakes);
  }

  /** Without unique cake names the self-comparison is not empty: each old
      cake is compared with the cake the new view keeps under its name, so
      the first of two cakes named alike meets the second one's time. */
  lemma RepeatedCakeName()
    ensures ChangedTime("Sponge", "40 min", "30 min") in
            DatabaseDiff(Recipes([Cake("Sponge", "30 min", []), Cake("Sponge", "40 min", [])]),
                         Recipes([Cake("Sponge", "30 min", []), Cake("Sponge", "40 min", [])]))
  {
    var r := Recipes([Cake("Sponge", "30 min", []), Cake("Sponge", "40 min", [])]);
    assert LastWithKey(r.cakes, CakeName, 1);
    TimeRecordOfWitness(r.cakes, r.cakes, 0, 1);
    SharedCakesInReport(r, r, ChangedTime("Sponge", "40 min", "30 min"));
  }

  /** An empty ingredient diff means the two keyed ingredient views are equal:
      the same names, and under each name the same count and unit. */
  lemma IngredientDiffEmpty(cake: string, olds: seq<Ingredient>, news: seq<Ingredient>)
    requires IngredientDiff(cake, olds, news) == []
    ensures IngredientIndex(olds) == IngredientIndex(news)
  {
    var oldView, newView := IngredientIndex(olds), IngredientIndex(news);
    forall x | x in newView ensures x in oldView {
      AddedIngredientRecords(cake, olds, news, x);
    }
    forall x | x in oldView ensures x in newView && oldView[x] == newView[x] {
      RemovedIngredientRecords(cake, olds, news, x);
      var r := IngredientChanges(cake, x, oldView[x], newView[x]);
      if r != [] {
        AttributeRecords(cake, olds, news, r[0]);
      }
    }
  }

  /** The shared-cake pass is empty only if each of its blocks is. */
  lemma {:induction false} SharedCakesEmptyBlock(newView: CakeView, olds: seq<Cake>, i: nat)
    requires SharedCakes(newView, olds) == []
    requires i < |olds| && olds[i].name in newView
    ensures CakeDiff(olds[i], newView[olds[i].name]) == []
  {
    var init := olds[..|olds| - 1];
    if i < |olds| - 1 {
      assert init[i] == olds[i];
      SharedCakesEmptyBlock(newView, init, i);
    }
  }

  /** The report is its three passes, one after the other. */
  lemma ReportPasses(o: Recipes, n: Recipes)
    ensures DatabaseDiff(o, n) == AddedCakes(CakeIndex(o.cakes), n.cakes)
      + RemovedCakes(CakeIndex(n.cakes), o.cakes) + SharedCakes(CakeIndex(n.cakes), o.cakes)
  {
  }

  /** With an empty report, the cake the old view keeps under a shared name
      agrees with the one the new view keeps. */
  lemma KeptCakesAgree(o: Recipes, n: Recipes, x: string)
    requires SharedCakes(CakeIndex(n.cakes), o.cakes) == []
    requires x in CakeIndex(o.cakes) && x in CakeIndex(n.cakes)
    ensures CakeIndex(o.cakes)[x].time == CakeIndex(n.cakes)[x].time
    ensures IngredientIndex(CakeIndex(o.cakes)[x].ingredients)
         == IngredientIndex(CakeIndex(n.cakes)[x].ingredients)
  {
    var oldView, newView := CakeIndex(o.cakes), CakeIndex(n.cakes);
    IndexIsLast(o.cakes, CakeName, x);
    var i :| 0 <= i < |o.cakes| && o.cakes[i] == oldView[x] && CakeName(o.cakes[i]) == x &&
             LastWithKey(o.cakes, CakeName, i);
    SharedCakesEmptyBlock(newView, o.cakes, i);
    CakeDiffEmpty(oldView[x], newView[x]);
  }

  /** An empty report means the two databases have the same cake names and,
      under each name, the kept cakes have the same time and equal keyed
      ingredient views. */
  lemma DiffEmptySameViews(o: Recipes, n: Recipes)
    requires DatabaseDiff(o, n) == []
    ensures CakeIndex(o.cakes).Keys == CakeIndex(n.cakes).Keys
    ensures forall x :: x in CakeIndex(o.cakes) ==>
      CakeIndex(o.cakes)[x].time == CakeIndex(n.cakes)[x].time &&
      IngredientIndex(CakeIndex(o.cakes)[x].ingredients) == IngredientIndex(CakeIndex(n.cakes)[x].ingredients)
  {
    var oldView, newView := CakeIndex(o.cakes), CakeIndex(n.cakes);
    forall x | x in newView ensures x in oldView {
      AddedCakeRecords(o, n, x);
    }
    forall x | x in oldView ensures x in newView {
      RemovedCakeRecords(o, n, x);
    }
    ReportPasses(o, n);
    forall x | x in oldView
      ensures oldView[x].time == newView[x].time
      ensures IngredientIndex(oldView[x].ingredients) == IngredientIndex(newView[x].ingredients)
    {
      KeptCakesAgree(o, n, x);
    }
  }

  /** Conversely, two ingredient lists with equal keyed views, such as the
      same entries in another order, report nothing. */
  lemma IngredientDiffOfEqualViews(cake: string, olds: seq<Ingredient>, news: seq<Ingredient>)
    requires IngredientIndex(olds) == IngredientIndex(news)
    ensures IngredientDiff(cake, olds, news) == []
  {
    var r := IngredientDiff(cake, olds, news);
    if r != [] {
      var y := r[0];
      assert y in r;
      if y.AddedIngredient? {
        AddedIngredientRecords(cake, olds, news, y.ingredient);
      } else if y.RemovedIngredient? {
        RemovedIngredientRecords(cake, olds, news, y.ingredient);
      } else {
        AttributeRecords(cake, olds, news, y);
      }
      assert false;
    }
  }

  /** The two databases have the same cake names and, under each name, kept
      cakes with the same time and equal keyed ingredient views. */
  ghost predicate SameViews(o: Recipes, n: Recipes) {
    CakeIndex(o.cakes).Keys == CakeIndex(n.cakes).Keys &&
    forall x :: x in CakeIndex(o.cakes) ==>
      CakeIndex(o.cakes)[x].time == CakeIndex(n.cakes)[x].time &&
      IngredientIndex(CakeIndex(o.cakes)[x].ingredients) == IngredientIndex(CakeIndex(n.cakes)[x].ingredients)
  }

  /** With unique names, a cake is the one the keyed view keeps under its name. */
  lemma KeptOfUnique(cakes: seq<Cake>, i: nat)
    requires UniqueKeys(cakes, CakeName) && i < |cakes|
    ensures cakes[i].name in CakeIndex(cakes) && CakeIndex(cakes)[cakes[i].name] == cakes[i]
  {
    IndexLastWins(cakes, CakeName, i);
  }

  lemma NoTimeRecordOfSameViews(o: Recipes, n: Recipes, y: Change)
    requires UniqueKeys(o.cakes, CakeName) && SameViews(o, n)
    requires y.ChangedTime?
    ensures y !in DatabaseDiff(o, n)
  {
    if y in DatabaseDiff(o, n) {
      ChangedTimeRecords(o, n, y);
      var i, j :| 0 <= i < |o.cakes| && 0 <= j < |n.cakes| &&
                  o.cakes[i].name == n.cakes[j].name && LastWithKey(n.cakes, CakeName, j) &&
                  y == ChangedTime(o.cakes[i].name, n.cakes[j].time, o.cakes[i].time) &&
                  o.cakes[i].time != n.cakes[j].time;
      KeptOfUnique(o.cakes, i);
      IndexLastWins(n.cakes, CakeName, j);
      assert false;
    }
  }

  lemma NoIngredientRecordOfSameViews(o: Recipes, n: Recipes, y: Change)
    requires UniqueKeys(o.cakes, CakeName) && SameViews(o, n)
    requires IsIngredientRecord(y)
    ensures y !in DatabaseDiff(o, n)
  {
    var newView := CakeIndex(n.cakes);
    if y in DatabaseDiff(o, n) {
      IngredientRecordsInReport(o, n, y);
      var i :| 0 <= i < |o.cakes| && o.cakes[i].name in newView &&
               y in IngredientDiff(o.cakes[i].name, o.cakes[i].ingredients,
                                   newView[o.cakes[i].name].ingredients);
      var name := o.cakes[i].name;
      KeptOfUnique(o.cakes, i);
      IngredientDiffOfEqualViews(name, o.cakes[i].ingredients, newView[name].ingredients);
      assert false;
    }
  }

  /** Conversely, two databases with the same views report nothing when the
      old one names each cake once. */
  lemma DiffOfEqualViews(o: Recipes, n: Recipes)
    requires UniqueKeys(o.cakes, CakeName)
    requires SameViews(o, n)
    ensures DatabaseDiff(o, n) == []
  {
    var r := DatabaseDiff(o, n);
    if r != [] {
      var y := r[0];
      assert y in r;
      if y.AddedCake? {
        AddedCakeRecords(o, n, y.cake);
      } else if y.RemovedCake? {
        RemovedCakeRecords(o, n, y.cake);
      } else if y.ChangedTime? {
        NoTimeRecordOfSameViews(o, n, y);
      } else {
        NoIngredientRecordOfSameViews(o, n, y);
      }
      assert false;
    }
  }

  /** An empty cake block means equal times and an empty ingredient diff. */
  lemma CakeDiffEmpty(oc: Cake, nc: Cake)
    requires CakeDiff(oc, nc) == []
    ensures oc.time == nc.time
    ensures IngredientIndex(oc.ingredients) == IngredientIndex(nc.ingredients)
  {
    var time := if oc.time != nc.time then [ChangedTime(oc.name, nc.time, oc.time)] else [];
    var ings := IngredientDiff(oc.name, oc.ingredients, nc.ingredients);
    assert CakeDiff(oc, nc) == time + ings;
    IngredientDiffEmpty(oc.name, oc.ingredients, nc.ingredients);
  }
}
