# Recipe database tools, modelled in Dafny

The repository holds three small command-line tools for recipe databases:

- `readDB` reads a database as JSON or XML and prints it in the other format.
- `compareDB` reports how a new database differs from an old one: which cakes
  were added or removed, and for the cakes in both, changed cooking times,
  added or removed ingredients, and changed ingredient counts and units.
- `compareFS` compares two snapshots of a file listing, one path per line.

This project models the logic of these tools and proves what it does:

- **`Recipe`** (`recipe.dfy`) holds the database entities `Ingredient`, `Cake`
  and `Recipes`. It also holds `Change`, one record per line of the diff
  report, with the text line each record is printed as.
- **`KeyedView`** (`keyed_view.dfy`) models a Go map filled from a slice, with
  later entries overwriting earlier ones (`Index`). It also gives the list of
  distinct keys in first-occurrence order (`DistinctKeys`).
- **`RecipeDiffSpec`** (`recipe_diff_spec.dfy`) defines, as functions, the
  report that `CompareDatabases` and `compareIngredients` print. There is one
  function per loop of the source, and each carries the shape of its records.
- **`CompareDb`** (`compare_db.dfy`) holds the two Go functions as loops that
  append records. Each method is proved to produce exactly the report that
  `RecipeDiffSpec` defines.
- **`RecipeDiffProps`** (`recipe_diff_props.dfy`) proves what each kind of
  record in the whole report means:
  - how many times an ADDED or REMOVED cake or ingredient record appears;
  - when a CHANGED cooking time is reported, against the last new cake of
    that name;
  - that each shared ingredient gets its count and unit records exactly once;
  - that comparing a database with itself reports nothing when the database
    names each cake once, and that a repeated cake name can report a CHANGED
    time against itself;
  - that an empty report means the two keyed views agree, and conversely
    that agreeing views (the same entries in any order) report nothing when
    the old database names each cake once.
- **`RecipeScenario`** (`recipe_scenario.dfy`) computes the report for the
  two databases that produce the sample output kept in the source; the input
  databases themselves are not in the source, so they are reconstructed from
  that output. The report is derived record by record.
- **`CommentStrip`** (`comment_strip.dfy`) models `removeJSONComments`, the
  byte scanner that drops `//` comments before JSON decoding. It is a method
  proved equal to a recursive specification. The lemmas cover:
  - input without comments and idempotence;
  - which bytes survive: a subsequence of the input, and every line break kept;
  - how a comment ends;
  - the fact that the scanner does not know about string literals.
- **`FileExt`** (`file_ext.dfy`) models the file-extension dispatch:
  - `filepath.Ext`;
  - `getReader`, which is case-sensitive;
  - the converter's choice of output format, which is case-insensitive.
- **`PathListDiff`** (`path_diff.dfy`) models the set logic of
  `CompareFileSystems` as a method with its three loops. Its lemmas count the
  ADDED lines and characterise the REMOVED ones.

Three behaviours of the code are easy to mistake for something else:

- **Comment stripping.** One might expect a comment to be removed together
  with the line break that ends it. The scanner clears its comment flag
  *before* deciding whether to write, so the break is written (`CommentLine`,
  `StripKeepsBreaks`).
- **File-listing diff.** It is not a symmetric difference. The code deletes a
  line from its set when it first meets it in the new file, so an old line
  that appears twice in the new file is reported ADDED on its second
  occurrence (`RepeatedLine`, `AddedCount`).
- **Order of count and unit records.** The code walks a Go map, whose order
  is not fixed, where one might expect the order of the old ingredient list.
  The model fixes it to first-occurrence order of the old ingredient names.
  It proves that this order visits every shared name exactly once
  (`AttributeRecords`), and that any other order over the same names yields
  the same multiset of records (`AnyMapOrder`).

## Model

| member | source | states |
|---|---|---|
| KeyedView.Index | src/ex01/compareDB.go:127-136 | the map built by overwriting holds exactly the keys of the slice, and each key maps to an element carrying that key |
| KeyedView.IndexLastWins | src/ex01/compareDB.go:130-132 | an element that no later element shares a key with is the one the map keeps |
| KeyedView.IndexIsLast | src/ex01/compareDB.go:130-132 | the element kept under a key is one with that key and no later element has that key |
| KeyedView.IndexOfUnique | src/ex01/compareDB.go:130-132 | with unique keys, every element is found under its own key |
| KeyedView.DistinctKeys | src/ex01/compareDB.go:182 | the fixed order for visiting the old ingredient map lists no name twice |
| KeyedView.DistinctKeysSpan | src/ex01/compareDB.go:182 | that order lists exactly the keys of the map, so every key is visited once |
| RecipeDiffSpec.AddedCakes | src/ex01/compareDB.go:138-142 | every record of the ADDED cake pass is an ADDED cake whose name the old map lacks |
| RecipeDiffSpec.RemovedCakes | src/ex01/compareDB.go:144-148 | every record of the REMOVED cake pass is a REMOVED cake whose name the new map lacks |
| RecipeDiffSpec.SharedCakes | src/ex01/compareDB.go:150-157 | the shared-cake pass holds only time and ingredient records of cakes the new map holds |
| RecipeDiffSpec.CakeDiff | src/ex01/compareDB.go:151-156 | a cake block is about that cake, the time record comes first, and a CHANGED time is reported exactly when the times differ |
| RecipeDiffSpec.AddedIngredients | src/ex01/compareDB.go:171-175 | every record is an ADDED ingredient of this cake whose name the old map lacks |
| RecipeDiffSpec.RemovedIngredients | src/ex01/compareDB.go:177-181 | every record is a REMOVED ingredient of this cake whose name the new map lacks |
| RecipeDiffSpec.IngredientChanges | src/ex01/compareDB.go:184-197 | count record exactly when the counts differ; ADDED unit exactly when only the new unit is set, REMOVED unit when only the old one is, CHANGED unit when both are set and differ; count before unit, at most two records, none exactly when count and unit agree |
| RecipeDiffSpec.SharedIngredients | src/ex01/compareDB.go:182-199 | the shared-ingredient pass holds only count and unit records of this cake |
| RecipeDiffSpec.SharedPass | src/ex01/compareDB.go:182-199 | the shared pass over the old map's keys holds only count and unit records of this cake |
| RecipeDiffSpec.IngredientDiff | src/ex01/compareDB.go:160-200 | ingredient records of this cake only, ADDED before REMOVED before count and unit records |
| RecipeDiffSpec.DatabaseDiff | src/ex01/compareDB.go:126-158 | the report lists ADDED cakes, then REMOVED cakes, then the cake blocks |
| CompareDb.BuildIndex | src/ex01/compareDB.go:130-136 | the map-filling loop builds the overwrite map, holding exactly the slice's keys |
| CompareDb.EmitAddedCakes | src/ex01/compareDB.go:138-142 | the loop appends exactly the ADDED cake pass |
| CompareDb.EmitRemovedCakes | src/ex01/compareDB.go:144-148 | the loop appends exactly the REMOVED cake pass |
| CompareDb.EmitSharedCakes | src/ex01/compareDB.go:150-157 | the loop appends exactly the shared-cake pass |
| CompareDb.EmitAddedIngredients | src/ex01/compareDB.go:171-175 | the loop appends exactly the ADDED ingredient pass |
| CompareDb.EmitRemovedIngredients | src/ex01/compareDB.go:177-181 | the loop appends exactly the REMOVED ingredient pass |
| CompareDb.EmitIngredientChanges | src/ex01/compareDB.go:184-197 | the count and unit checks emit exactly the records for one shared ingredient |
| CompareDb.EmitSharedIngredients | src/ex01/compareDB.go:182-199 | the walk over the old map, skipping names already visited, appends exactly the shared pass |
| CompareDb.CompareIngredients | src/ex01/compareDB.go:160-200 | compareIngredients emits exactly the ingredient diff |
| CompareDb.CompareDatabases | src/ex01/compareDB.go:126-158 | CompareDatabases emits exactly the database diff |
| RecipeDiffProps.AddedCakesAppend | src/ex01/compareDB.go:138-142 | the ADDED cake pass keeps the order of the new cakes |
| RecipeDiffProps.AddedCakesCount | src/ex01/compareDB.go:138-142 | ADDED cake x is reported once per new cake named x, and never when the old map has x |
| RecipeDiffProps.RemovedCakesAppend | src/ex01/compareDB.go:144-148 | the REMOVED cake pass keeps the order of the old cakes |
| RecipeDiffProps.RemovedCakesCount | src/ex01/compareDB.go:144-148 | REMOVED cake x is reported once per old cake named x, and never when the new map has x |
| RecipeDiffProps.AddedCakesInReport | src/ex01/compareDB.go:126-158 | every ADDED cake record of the report comes from the ADDED cake pass |
| RecipeDiffProps.RemovedCakesInReport | src/ex01/compareDB.go:126-158 | every REMOVED cake record of the report comes from the REMOVED cake pass |
| RecipeDiffProps.AddedCakeRecords | src/ex01/compareDB.go:130-142 | in the report, ADDED cake x appears once per new cake named x when no old cake is named x, and it appears iff x is new |
| RecipeDiffProps.RemovedCakeRecords | src/ex01/compareDB.go:134-148 | in the report, REMOVED cake x appears once per old cake named x when no new cake is named x, and it appears iff x is gone |
| RecipeDiffProps.CakeDiffTime | src/ex01/compareDB.go:151-154 | the only time record of a cake block is the CHANGED time for differing times |
| RecipeDiffProps.SharedCakesAppend | src/ex01/compareDB.go:150-157 | the cake blocks follow the order of the old cakes |
| RecipeDiffProps.SharedCakesTime | src/ex01/compareDB.go:150-154 | a time record of the shared pass comes from an old cake whose name the new map holds, with differing times |
| RecipeDiffProps.SharedCakesInReport | src/ex01/compareDB.go:126-158 | every time or ingredient record of the report comes from the shared-cake pass |
| RecipeDiffProps.TimeRecordWitness | src/ex01/compareDB.go:150-154 | a time record names an old cake and the last new cake of that name, with differing times |
| RecipeDiffProps.TimeRecordOfWitness | src/ex01/compareDB.go:150-154 | an old cake and the last new cake of its name with differing times yield a time record |
| RecipeDiffProps.ChangedTimeRecords | src/ex01/compareDB.go:134-154 | a CHANGED cooking time is in the report iff some old cake and the last new cake of the same name have different times, and the record carries those two times |
| RecipeDiffProps.AddedIngredientsCount | src/ex01/compareDB.go:171-175 | ADDED ingredient x is reported once per new ingredient named x, and never when the old map has x |
| RecipeDiffProps.RemovedIngredientsCount | src/ex01/compareDB.go:177-181 | REMOVED ingredient x is reported once per old ingredient named x, and never when the new map has x |
| RecipeDiffProps.IngredientChangesRecords | src/ex01/compareDB.go:184-197 | the records for one shared ingredient are exactly the count record and the one unit record the values call for, none twice |
| RecipeDiffProps.SharedIngredientsRecords | src/ex01/compareDB.go:182-199 | a count or unit record of the shared pass belongs to a visited name held by both maps and is one of that name's records, and every such record is there |
| RecipeDiffProps.SharedIngredientsOnce | src/ex01/compareDB.go:182 | walking distinct names reports no record twice |
| RecipeDiffProps.IngredientPasses | src/ex01/compareDB.go:160-200 | each kind of ingredient record of the diff comes from its own pass |
| RecipeDiffProps.AddedIngredientRecords | src/ex01/compareDB.go:164-175 | ADDED ingredient x appears once per new ingredient named x when the old list lacks x, and it appears iff x is new |
| RecipeDiffProps.RemovedIngredientRecords | src/ex01/compareDB.go:168-181 | REMOVED ingredient x appears once per old ingredient named x when the new list lacks x, and it appears iff x is gone |
| RecipeDiffProps.SharedIngredientsAnyOrder | src/ex01/compareDB.go:182-199 | two walks over the same distinct names, in any orders, report the same multiset of records |
| RecipeDiffProps.AnyMapOrder | src/ex01/compareDB.go:182-199 | any order that visits each key of the old ingredient map once reports the same multiset of count and unit records as the model's fixed order |
| RecipeDiffProps.AttributeRecords | src/ex01/compareDB.go:164-199 | a count or unit record is in the diff iff its name is in both lists and the last entries of that name call for it, and it appears at most once |
| RecipeDiffProps.CakeDiffIngredients | src/ex01/compareDB.go:151-156 | the ingredient records of a cake block are its ingredient diff |
| RecipeDiffProps.SharedCakesIngredients | src/ex01/compareDB.go:150-156 | an ingredient record of the shared pass comes from the ingredient diff of an old cake against the new cake of its name |
| RecipeDiffProps.IngredientRecordsInReport | src/ex01/compareDB.go:150-156 | ingredient, count and unit records of the report are exactly those of the ingredient diffs of old cakes against the kept new cake of the same name |
| RecipeDiffProps.IngredientDiffSelf | src/ex01/compareDB.go:160-200 | an ingredient list compared with itself reports nothing, even with repeated names |
| RecipeDiffProps.CakeDiffSelf | src/ex01/compareDB.go:151-156 | a cake compared with itself reports nothing |
| RecipeDiffProps.SharedCakesSelf | src/ex01/compareDB.go:150-157 | cakes that each equal the new map's cake of their name report nothing |
| RecipeDiffProps.RepeatedCakeName | src/ex01/compareDB.go:130-157 | a database naming a cake twice, with different times, reports a CHANGED time against itself: the first cake is compared with the kept second one |
| RecipeDiffProps.DiffSelfEmpty | src/ex01/compareDB.go:126-158 | a database with unique cake names compared with itself reports nothing |
| RecipeDiffProps.IngredientDiffEmpty | src/ex01/compareDB.go:160-200 | an empty ingredient diff means equal ingredient maps |
| RecipeDiffProps.IngredientDiffOfEqualViews | src/ex01/compareDB.go:160-200 | conversely, ingredient lists with equal maps, such as the same entries in another order, report nothing |
| RecipeDiffProps.SharedCakesEmptyBlock | src/ex01/compareDB.go:150-157 | an empty shared pass means every block is empty |
| RecipeDiffProps.KeptCakesAgree | src/ex01/compareDB.go:150-157 | with an empty shared pass, the old and new cake kept under a shared name have equal times and ingredient maps |
| RecipeDiffProps.DiffEmptySameViews | src/ex01/compareDB.go:126-200 | an empty report means the same cake names on both sides and, for each, equal times and equal ingredient maps |
| RecipeDiffProps.DiffOfEqualViews | src/ex01/compareDB.go:126-200 | conversely, when the old database names each cake once, the same cake names with equal times and equal ingredient maps give an empty report |
| RecipeDiffProps.CakeDiffEmpty | src/ex01/compareDB.go:151-156 | an empty cake block means equal times and equal ingredient maps |
| RecipeScenario.RedVelvetReport | src/ex01/compareDB.go:252-260 | databases reconstructed to produce the sample output give exactly the nine records of the recorded report, in that order |
| CommentStrip.RemoveJsonComments | src/ex00/readDB.go:75-96 | the scanner loop writes exactly the stripped bytes, a subsequence of its input with every line break kept |
| CommentStrip.StripSubsequence | src/ex00/readDB.go:79-93 | only input bytes are written, in input order, never more than the input holds |
| CommentStrip.StripKeepsBreaks | src/ex00/readDB.go:86-92 | every line break of the input is written, in order, and no other break |
| CommentStrip.NoPairUnchanged | src/ex00/readDB.go:79-93 | without `//` the scanner never enters a comment and writes every byte |
| CommentStrip.StripWithoutComments | src/ex00/readDB.go:75-96 | input with no `//` comes out unchanged |
| CommentStrip.WritesPlainByte | src/ex00/readDB.go:80-92 | outside a comment, a byte other than a slash is written |
| CommentStrip.StripNoPair | src/ex00/readDB.go:79-93 | the output never holds two slashes in a row |
| CommentStrip.StripIdempotent | src/ex00/readDB.go:75-96 | stripping twice equals stripping once |
| CommentStrip.StripShift | src/ex00/readDB.go:79-93 | what the scanner writes from a position on does not depend on the bytes before it |
| CommentStrip.CommentRunsToBreak | src/ex00/readDB.go:86-92 | inside a comment, bytes up to the next line break are dropped and the break is written and ends the comment |
| CommentStrip.CommentRunsToEnd | src/ex00/readDB.go:86-92 | a comment with no line break after it drops the rest of the input |
| CommentStrip.PlainPrefix | src/ex00/readDB.go:79-93 | a prefix without `//` that does not end in a slash is written unchanged and leaves the scanner outside a comment |
| CommentStrip.CommentLine | src/ex00/readDB.go:79-93 | a `//` comment is removed up to, but not including, the line break that ends it |
| CommentStrip.CommentAtEnd | src/ex00/readDB.go:79-93 | a `//` comment at the end of the input is removed entirely |
| CommentStrip.TrailingSlashKept | src/ex00/readDB.go:80 | a single slash as the last byte opens no comment and is written |
| CommentStrip.QuotedSlashesStartComment | src/ex00/readDB.go:80-84 | the bytes of `"http://x"` are cut after `http:`, because the scanner ignores string literals |
| FileExt.Ext | src/ex00/readDB.go:116 | the extension is "" or a suffix starting with the final dot, with no dot or separator after it; it is "" only when the last path element has no dot |
| FileExt.ExtAfterDot | src/ex00/readDB.go:116 | the extension is everything from the final dot of the last path element |
| FileExt.ExtAfterSeparator | src/ex00/readDB.go:116 | a last path element without a dot has no extension |
| FileExt.GetReader | src/ex00/readDB.go:115-125 | the JSON reader exactly for ".json", the XML reader exactly for ".xml", otherwise the error naming the extension |
| FileExt.UpperCaseRejected | src/ex00/readDB.go:115-125 | getReader refuses "recipes.JSON", naming ".JSON" in its error |
| FileExt.DotInDirectory | src/ex00/readDB.go:115-125 | a dot in a directory name is not an extension, so the file is refused |
| FileExt.ToLower | src/ex00/readDB.go:163 | lower-casing keeps the length and maps each character to its lower-case form |
| FileExt.OutputFormat | src/ex00/readDB.go:162-168 | XML output exactly for a ".json" extension in any case, JSON output exactly for ".xml" |
| FileExt.ConvertsToOpposite | src/ex00/readDB.go:156-169 | whenever getReader accepts a file, the output format is the other one |
| FileExt.UpperCaseConverted | src/ex00/readDB.go:162-168 | the output-format choice alone would accept "recipes.JSON" and pick XML |
| PathListDiff.AddedLines | src/ex02/compareFS.go:41-45 | the ADDED lines are lines of the new file, no more than it holds |
| PathListDiff.CompareFileSystems | src/ex02/compareFS.go:17-56 | the three loops print exactly the ADDED lines in new-file order; the REMOVED lines, each printed once, are exactly the old lines that occur nowhere in the new file |
| PathListDiff.AddedCount | src/ex02/compareFS.go:41-47 | a line is reported ADDED once per occurrence in the new file, minus its first occurrence when it was an old line |
| PathListDiff.AddedIff | src/ex02/compareFS.go:41-47 | a line is reported ADDED iff it is in the new file and either is not an old line or occurs there at least twice |
| PathListDiff.AddedNotRemoved | src/ex02/compareFS.go:41-54 | no line is reported both ADDED and REMOVED |
| PathListDiff.SameSnapshot | src/ex02/compareFS.go:41-54 | two identical listings without repeated lines report nothing |
| PathListDiff.RepeatedLine | src/ex02/compareFS.go:43-46 | an old line written twice in the new listing is reported ADDED once, so the result is not a symmetric difference |
| PathListDiff.OneInOneOut | src/ex02/compareFS.go:41-54 | listings a,b,c and b,c,d report ADDED d and REMOVED a |

## Left out

- Reading files, `bufio.Scanner` line splitting and its 64 KiB token limit, and every I/O error path: the file contents are given as sequences of bytes or lines.
- The JSON and XML decoders and encoders (`JSONReader.Read`, `XMLReader.Read`, `printDB`): they are library code, so a database is given as parsed values.
- `json.Number` counts: a count is kept as the literal text of the number, so "2" and "2.0" differ, just as the source compares them.
- Command-line parsing, usage messages, `HandleError`'s exit, and the printing of the empty format when `readDB` meets an unknown extension after a successful read (unreachable, since `getReader` has refused such a file already): `OutputFormat` returns `None` there.
- Recipe.Render: the printf text of each record is written out, but no property of it is proved; the records themselves are what the diff lemmas are about.
- RecipeDiffSpec.SharedPass: Go map iteration order is not modelled. The model fixes it to first-occurrence order of the old ingredient names, which is one of the orders Go may produce; AnyMapOrder shows every other order gives the same records as a multiset, but the printed order is only that of the fixed order.
- PathListDiff.CompareFileSystems: the REMOVED lines come out in an arbitrary order, chosen by the method. Only their set and the absence of repeats are specified, because the Go map gives no order.
- FileExt.Ext: only '/' is a path separator. Windows volume names and '\\' separators are not modelled.
- FileExt.ToLower: only ASCII letters are lower-cased, whereas `strings.ToLower` also maps other Unicode letters.
- The duplicated `removeJSONComments` and `getReader` in `src/ex01/compareDB.go:75-95` and `:114-124` are modelled once. They are the same code as in `src/ex00/readDB.go`.
