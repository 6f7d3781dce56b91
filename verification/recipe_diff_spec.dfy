/**
 * What the recipe diff reports (src/ex01/compareDB.go:126-200), as functions
 * on the two parsed databases. Each function follows one loop of the source;
 * its contract says what the records it contributes mean.
 *
 * The shared-ingredient pass of the source walks a Go map, whose order is
 * unspecified. Here it walks the distinct old ingredient names in order of
 * first occurrence, which is one of the orders the source may produce and
 * visits every key of the old view exactly once (see DistinctKeys).
 */
module RecipeDiffSpec {
  import opened Recipe
  import opened KeyedView

  type CakeView = map<string, Cake>
  type IngredientView = map<string, Ingredient>

  /** oldCakesMap / newCakesMap (compareDB.go:127-136). */
  function CakeIndex(cakes: seq<Cake>): CakeView { Index(cakes, CakeName) }

  /** oldIngredientMap / newIngredientMap (compareDB.go:161-170). */
  function IngredientIndex(ings: seq<Ingredient>): IngredientView { Index(ings, IngredientName) }

  // ---------------------------------------------------------------- ordering

  /** Rank of a record in the whole report: ADDED cakes, REMOVED cakes, the rest. */
  function ReportRank(c: Change): nat {
    if c.AddedCake? then 0 else if c.RemovedCake? then 1 else 2
  }

  /** Rank of a record inside one shared cake's block: the time record, ADDED
      ingredients, REMOVED ingredients, the count and unit records. */
  function CakeBlockRank(c: Change): nat {
    if c.ChangedTime? then 0
    else if c.AddedIngredient? then 1
    else if c.RemovedIngredient? then 2
    else 3
  }

  /** The report never goes back to a lower ReportRank. */
  ghost predicate InReportOrder(r: seq<Change>) {
    forall i, j :: 0 <= i < j < |r| ==> ReportRank(r[i]) <= ReportRank(r[j])
  }

  /** A cake block never goes back to a lower CakeBlockRank. */
  ghost predicate InCakeBlockOrder(r: seq<Change>) {
    forall i, j :: 0 <= i < j < |r| ==> CakeBlockRank(r[i]) <= CakeBlockRank(r[j])
  }

  /** CHANGED unit count and the unit records: the per-shared-ingredient kinds. */
  predicate IsAttributeChange(c: Change) {
    c.ChangedCount? || IsUnitChange(c)
  }

  /** ADDED cakes, then REMOVED cakes, then cake blocks make a report in order. */
  lemma ReportOrderOfRuns(a: seq<Change>, b: seq<Change>, c: seq<Change>)
    requires forall k :: 0 <= k < |a| ==> a[k].AddedCake?
    requires forall k :: 0 <= k < |b| ==> b[k].RemovedCake?
    requires forall k :: 0 <= k < |c| ==> IsCakeBlockRecord(c[k])
    ensures InReportOrder(a + b + c)
  {
    var r := a + b + c;
    assert forall k :: 0 <= k < |r| ==>
      ReportRank(r[k]) == if k < |a| then 0 else if k < |a| + |b| then 1 else 2
    by {
      forall k | 0 <= k < |r|
        ensures ReportRank(r[k]) == if k < |a| then 0 else if k < |a| + |b| then 1 else 2
      {
        if k < |a| { assert r[k] == a[k]; }
        else if k < |a| + |b| { assert r[k] == b[k - |a|]; }
        else { assert r[k] == c[k - |a| - |b|]; }
      }
    }
  }

  /** Three runs of records of ranks 1, 2 and 3 make a cake block in order. */
  lemma CakeBlockOrderOfRuns(a: seq<Change>, b: seq<Change>, c: seq<Change>)
    requires forall k :: 0 <= k < |a| ==> CakeBlockRank(a[k]) == 1
    requires forall k :: 0 <= k < |b| ==> CakeBlockRank(b[k]) == 2
    requires forall k :: 0 <= k < |c| ==> CakeBlockRank(c[k]) == 3
    ensures InCakeBlockOrder(a + b + c)
  {
    var r := a + b + c;
    assert forall k :: 0 <= k < |r| ==>
      CakeBlockRank(r[k]) == if k < |a| then 1 else if k < |a| + |b| then 2 else 3
    by {
      forall k | 0 <= k < |r|
        ensures CakeBlockRank(r[k]) == if k < |a| then 1 else if k < |a| + |b| then 2 else 3
      {
        if k < |a| { assert r[k] == a[k]; }
        else if k < |a| + |b| { assert r[k] == b[k - |a|]; }
        else { assert r[k] == c[k - |a| - |b|]; }
      }
    }
  }

  /** The records compareIngredients emits. */
  predicate IsIngredientRecord(c: Change) {
    c.AddedIngredient? || c.RemovedIngredient? || IsAttributeChange(c)
  }

  /** The records of one shared cake's block. */
  predicate IsCakeBlockRecord(c: Change) {
    c.ChangedTime? || IsIngredientRecord(c)
  }

  lemma CakeBlockOrderAppend(a: seq<Change>, b: seq<Change>, m: nat)
    requires InCakeBlockOrder(a) && InCakeBlockOrder(b)
    requires forall k :: 0 <= k < |a| ==> CakeBlockRank(a[k]) <= m
    requires forall k :: 0 <= k < |b| ==> m <= CakeBlockRank(b[k])
    ensures InCakeBlockOrder(a + b)
  {
    var ab := a + b;
    forall i, j | 0 <= i < j < |ab| ensures CakeBlockRank(ab[i]) <= CakeBlockRank(ab[j]) {
      if j < |a| {
        assert ab[i] == a[i] && ab[j] == a[j];
      } else if i >= |a| {
        assert ab[i] == b[i - |a|] && ab[j] == b[j - |a|];
      } else {
        assert ab[i] == a[i] && ab[j] == b[j - |a|];
      }
    }
  }

  // ---------------------------------------------------------- cake level

  /** ADDED cake records (compareDB.go:138-142): one per cake of `news`, in
      order, whose name is not a key of the old view. */
  function AddedCakes(oldView: CakeView, news: seq<Cake>): (r: seq<Change>)
    ensures forall k :: 0 <= k < |r| ==> r[k].AddedCake? && r[k].cake !in oldView
  {
    if news == [] then []
    else
      var init, c := news[..|news| - 1], news[|news| - 1];
      AddedCakes(oldView, init) + (if c.name !in oldView then [AddedCake(c.name)] else [])
  }

  /** REMOVED cake records (compareDB.go:144-148): one per cake of `olds`, in
      order, whose name is not a key of the new view. */
  function RemovedCakes(newView: CakeView, olds: seq<Cake>): (r: seq<Change>)
    ensures forall k :: 0 <= k < |r| ==> r[k].RemovedCake? && r[k].cake !in newView
  {
    if olds == [] then []
    else
      var init, c := olds[..|olds| - 1], olds[|olds| - 1];
      RemovedCakes(newView, init) + (if c.name !in newView then [RemovedCake(c.name)] else [])
  }

  /** The blocks of the cakes present on both sides (compareDB.go:150-157):
      for each old cake, in old order, whose name is a key of the new view,
      the diff against the cake the new view holds under that name. */
  function SharedCakes(newView: CakeView, olds: seq<Cake>): (r: seq<Change>)
    ensures forall k :: 0 <= k < |r| ==> IsCakeBlockRecord(r[k]) && r[k].cake in newView
  {
    if olds == [] then []
    else
      var init, c := olds[..|olds| - 1], olds[|olds| - 1];
      SharedCakes(newView, init) + (if c.name in newView then CakeDiff(c, newView[c.name]) else [])
  }

  /** One shared cake's block (compareDB.go:151-155): the cooking-time record
      first, exactly when the time strings differ, then the ingredient diff. */
  function CakeDiff(oc: Cake, nc: Cake): (r: seq<Change>)
    ensures forall k :: 0 <= k < |r| ==> IsCakeBlockRecord(r[k]) && r[k].cake == oc.name
    ensures InCakeBlockOrder(r)
    ensures ChangedTime(oc.name, nc.time, oc.time) in r <==> oc.time != nc.time
    ensures forall k :: 0 < k < |r| ==> !r[k].ChangedTime?
  {
    var time := if oc.time != nc.time then [ChangedTime(oc.name, nc.time, oc.time)] else [];
    var ings := IngredientDiff(oc.name, oc.ingredients, nc.ingredients);
    CakeRuns(oc.name, time, ings);
    time + ings
  }

  /** What a time record followed by the ingredient diff adds up to. */
  lemma CakeRuns(cake: string, t: seq<Change>, ings: seq<Change>)
    requires |t| <= 1 && forall k :: 0 <= k < |t| ==> t[k].ChangedTime? && t[k].cake == cake
    requires forall k :: 0 <= k < |ings| ==> IsIngredientRecord(ings[k]) && ings[k].cake == cake
    requires InCakeBlockOrder(ings)
    ensures forall k :: 0 <= k < |t + ings| ==>
      IsCakeBlockRecord((t + ings)[k]) && (t + ings)[k].cake == cake
    ensures InCakeBlockOrder(t + ings)
    ensures forall x, y :: ChangedTime(cake, x, y) in t + ings <==> ChangedTime(cake, x, y) in t
    ensures forall k :: 0 < k < |t + ings| ==> !(t + ings)[k].ChangedTime?
  {
    CakeBlockOrderAppend(t, ings, 0);
    var r := t + ings;
    forall k | 0 <= k < |r| ensures IsCakeBlockRecord(r[k]) && r[k].cake == cake {
      if k >= |t| { assert r[k] == ings[k - |t|]; }
    }
  }

  // ---------------------------------------------------------- ingredient level

  /** ADDED ingredient records (compareDB.go:171-175). */
  function AddedIngredients(cake: string, oldView: IngredientView, news: seq<Ingredient>): (r: seq<Change>)
    ensures forall k :: 0 <= k < |r| ==>
      r[k].AddedIngredient? && r[k].cake == cake && r[k].ingredient !in oldView
  {
    if news == [] then []
    else
      var init, i := news[..|news| - 1], news[|news| - 1];
      AddedIngredients(cake, oldView, init)
      + (if i.name !in oldView then [AddedIngredient(cake, i.name)] else [])
  }

  /** REMOVED ingredient records (compareDB.go:177-181). */
  function RemovedIngredients(cake: string, newView: IngredientView, olds: seq<Ingredient>): (r: seq<Change>)
    ensures forall k :: 0 <= k < |r| ==>
      r[k].RemovedIngredient? && r[k].cake == cake && r[k].ingredient !in newView
  {
    if olds == [] then []
    else
      var init, i := olds[..|olds| - 1], olds[|olds| - 1];
      RemovedIngredients(cake, newView, init)
      + (if i.name !in newView then [RemovedIngredient(cake, i.name)] else [])
  }

  /** The records for one ingredient present on both sides (compareDB.go:184-197):
      CHANGED unit count when the count lexemes differ, then at most one unit
      record, chosen by which of the two units is empty. */
  function IngredientChanges(cake: string, name: string, o: Ingredient, n: Ingredient): (r: seq<Change>)
    ensures |r| <= 2
    ensures forall k :: 0 <= k < |r| ==>
      IsAttributeChange(r[k]) && r[k].cake == cake && r[k].ingredient == name
    ensures ChangedCount(cake, name, n.count, o.count) in r <==> o.count != n.count
    ensures AddedUnit(cake, name, n.unit) in r <==> o.unit == "" && n.unit != ""
    ensures RemovedUnit(cake, name, o.unit) in r <==> o.unit != "" && n.unit == ""
    ensures ChangedUnit(cake, name, n.unit, o.unit) in r <==>
      o.unit != "" && n.unit != "" && o.unit != n.unit
    ensures forall i, j :: 0 <= i < j < |r| ==> r[i].ChangedCount? && IsUnitChange(r[j])
    ensures r == [] <==> o.count == n.count && o.unit == n.unit
  {
    var count := if o.count != n.count then [ChangedCount(cake, name, n.count, o.count)] else [];
    var unit :=
      if o.unit == n.unit then []
      else if o.unit == "" then [AddedUnit(cake, name, n.unit)]
      else if n.unit == "" then [RemovedUnit(cake, name, o.unit)]
      else [ChangedUnit(cake, name, n.unit, o.unit)];
    count + unit
  }

  /** The shared-ingredient pass (compareDB.go:182-199), walking `names`: the
      records of every name that both views hold. */
  function SharedIngredients(cake: string, oldView: IngredientView, newView: IngredientView,
                             names: seq<string>): (r: seq<Change>)
    ensures forall k :: 0 <= k < |r| ==> IsAttributeChange(r[k]) && r[k].cake == cake
  {
    if names == [] then []
    else
      var init, x := names[..|names| - 1], names[|names| - 1];
      SharedIngredients(cake, oldView, newView, init)
      + (if x in oldView && x in newView then IngredientChanges(cake, x, oldView[x], newView[x]) else [])
  }

  /** The shared-ingredient pass over the distinct old names, in order of
      first occurrence, each name visited once (compareDB.go:182). */
  function SharedPass(cake: string, olds: seq<Ingredient>, news: seq<Ingredient>): (r: seq<Change>)
    ensures forall k :: 0 <= k < |r| ==> IsAttributeChange(r[k]) && r[k].cake == cake
  {
    SharedIngredients(cake, IngredientIndex(olds), IngredientIndex(news), DistinctKeys(olds, IngredientName))
  }

  /** One step of the shared pass: the i-th old ingredient contributes its
      records exactly when its name is met for the first time and the new
      view holds it too. */
  lemma SharedPassStep(cake: string, olds: seq<Ingredient>, newView: IngredientView, i: nat)
    requires i < |olds|
    ensures var name, seen := olds[i].name, DistinctKeys(olds[..i], IngredientName);
      var oldView := IngredientIndex(olds);
      name in oldView
      && DistinctKeys(olds[..i + 1], IngredientName) == (if name in seen then seen else seen + [name])
      && SharedIngredients(cake, oldView, newView, DistinctKeys(olds[..i + 1], IngredientName))
         == SharedIngredients(cake, oldView, newView, seen)
            + (if name !in seen && name in newView
               then IngredientChanges(cake, name, oldView[name], newView[name]) else [])
  {
    var name, seen := olds[i].name, DistinctKeys(olds[..i], IngredientName);
    IndexHasKey(olds, IngredientName, i);
    assert olds[..i + 1][..i] == olds[..i];
    if name !in seen {
      assert (seen + [name])[..|seen|] == seen;
    }
  }

  /** compareIngredients (compareDB.go:160-200): ADDED, then REMOVED, then the
      count and unit records of the shared ingredients. */
  function IngredientDiff(cake: string, olds: seq<Ingredient>, news: seq<Ingredient>): (r: seq<Change>)
    ensures forall k :: 0 <= k < |r| ==> IsIngredientRecord(r[k]) && r[k].cake == cake
    ensures InCakeBlockOrder(r)
  {
    var oldView, newView := IngredientIndex(olds), IngredientIndex(news);
    var added := AddedIngredients(cake, oldView, news);
    var removed := RemovedIngredients(cake, newView, olds);
    var shared := SharedPass(cake, olds, news);
    IngredientRuns(cake, added, removed, shared);
    added + removed + shared
  }

  /** What the three runs of compareIngredients add up to. */
  lemma IngredientRuns(cake: string, a: seq<Change>, b: seq<Change>, c: seq<Change>)
    requires forall k :: 0 <= k < |a| ==> a[k].AddedIngredient? && a[k].cake == cake
    requires forall k :: 0 <= k < |b| ==> b[k].RemovedIngredient? && b[k].cake == cake
    requires forall k :: 0 <= k < |c| ==> IsAttributeChange(c[k]) && c[k].cake == cake
    ensures forall k :: 0 <= k < |a + b + c| ==>
      IsIngredientRecord((a + b + c)[k]) && (a + b + c)[k].cake == cake
    ensures InCakeBlockOrder(a + b + c)
    ensures forall x :: AddedIngredient(cake, x) in a + b + c <==> AddedIngredient(cake, x) in a
    ensures forall x :: RemovedIngredient(cake, x) in a + b + c <==> RemovedIngredient(cake, x) in b
  {
    CakeBlockOrderOfRuns(a, b, c);
    var r := a + b + c;
    forall k | 0 <= k < |r| ensures IsIngredientRecord(r[k]) && r[k].cake == cake {
      if k < |a| { assert r[k] == a[k]; }
      else if k < |a| + |b| { assert r[k] == b[k - |a|]; }
      else { assert r[k] == c[k - |a| - |b|]; }
    }
  }

  // ---------------------------------------------------------- the whole report

  /** CompareDatabases (compareDB.go:126-158): ADDED cakes, REMOVED cakes,
      then the block of every old cake that the new database also has. */
  function DatabaseDiff(o: Recipes, n: Recipes): (r: seq<Change>)
    ensures InReportOrder(r)
  {
    var oldView, newView := CakeIndex(o.cakes), CakeIndex(n.cakes);
    var added := AddedCakes(oldView, n.cakes);
    var removed := RemovedCakes(newView, o.cakes);
    var shared := SharedCakes(newView, o.cakes);
    ReportOrderOfRuns(added, removed, shared);
    added + removed + shared
  }
}
