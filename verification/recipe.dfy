/**
 * The recipe database entities (src/ex01/compareDB.go:15-29, repeated in
 * src/ex00/readDB.go:16-30) and the change records that the recipe diff
 * emits, one per report line.
 */
module Recipe {

  /** One ingredient line of a cake. `count` keeps the numeric literal exactly
      as it was written (a JSON number lexeme), so "2" and "2.0" differ;
      `unit` is "" when the document gives no unit. */
  datatype Ingredient = Ingredient(name: string, count: string, unit: string)

  datatype Cake = Cake(name: string, time: string, ingredients: seq<Ingredient>)

  /** A recipe database: its cakes in document order. */
  datatype Recipes = Recipes(cakes: seq<Cake>)

  /** The keys the diff uses for its keyed views. */
  function CakeName(c: Cake): string { c.name }
  function IngredientName(i: Ingredient): string { i.name }

  /** One line of the diff report. Every record names the cake it is about. */
  datatype Change =
    | AddedCake(cake: string)
    | RemovedCake(cake: string)
    | ChangedTime(cake: string, newTime: string, oldTime: string)
    | AddedIngredient(cake: string, ingredient: string)
    | RemovedIngredient(cake: string, ingredient: string)
    | ChangedCount(cake: string, ingredient: string, newCount: string, oldCount: string)
    | AddedUnit(cake: string, ingredient: string, newUnit: string)
    | RemovedUnit(cake: string, ingredient: string, oldUnit: string)
    | ChangedUnit(cake: string, ingredient: string, newUnit: string, oldUnit: string)

  /** The unit records, of which at most one is emitted per shared ingredient. */
  predicate IsUnitChange(c: Change) {
    c.AddedUnit? || c.RemovedUnit? || c.ChangedUnit?
  }

  function Quoted(s: string): string { "\"" + s + "\"" }

  /** The text line printed for a record (without its trailing newline). */
  function Render(c: Change): string {
    match c
    case AddedCake(cake) => "ADDED cake " + Quoted(cake)
    case RemovedCake(cake) => "REMOVED cake " + Quoted(cake)
    case ChangedTime(cake, n, o) =>
      "CHANGED cooking time for cake " + Quoted(cake) + " - " + Quoted(n) + " instead of " + Quoted(o)
    case AddedIngredient(cake, ing) =>
      "ADDED ingredient " + Quoted(ing) + " for cake " + Quoted(cake)
    case RemovedIngredient(cake, ing) =>
      "REMOVED ingredient " + Quoted(ing) + " for cake " + Quoted(cake)
    case ChangedCount(cake, ing, n, o) =>
      "CHANGED unit count for ingredient " + Quoted(ing) + " for cake " + Quoted(cake)
      + " - " + Quoted(n) + " instead of " + Quoted(o)
    case AddedUnit(cake, ing, n) =>
      "ADDED unit " + Quoted(n) + " for ingredient " + Quoted(ing) + " for cake " + Quoted(cake)
    case RemovedUnit(cake, ing, o) =>
      "REMOVED unit " + Quoted(o) + " for ingredient " + Quoted(ing) + " for cake " + Quoted(cake)
    case ChangedUnit(cake, ing, n, o) =>
      "CHANGED unit for ingredient " + Quoted(ing) + " for cake " + Quoted(cake)
      + " - " + Quoted(n) + " instead of " + Quoted(o)
  }
}
