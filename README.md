# Dari SQL query compiler, modelled in Dafny

This project models the query compiler of Dari's SQL back end, the class
`SqlQuery`. It turns a Dari query into the parts of an SQL statement that
reads the record table through side index tables. A Dari query is a
predicate tree of AND, OR and NOT compounds over comparisons, plus sorters
and string options.

The model covers these parts of the compiler:

- **Index selection** (`selectIndex`): the greedy overlap count, with the
  single-field tie-break.
- **Predicate compilation** (`createWhereCondition`):
  - compounds and comparisons;
  - the choice of join for each comparison (shared with an OR sibling, bound
    to the OR node, private to a collection, or found or created);
  - the per-value conditions, with the missing-value and exclusion rules and
    the post-processing guards;
  - inlined and joined sub-queries.
- **`findSimilarComparison`**: the search that decides between inlining a
  sub-query and joining it.
- **`initializeClauses`**:
  - the `${key}` substitution in the extra-joins option;
  - the WHERE clause;
  - the sorter dispatch;
  - the FROM builder, with its join emission rules and the version
    thresholds that disable the record table's `IGNORE INDEX (PRIMARY)` hint;
  - the HAVING text.
- **The cache of nested compilers** (`getOrCreateSubSqlQuery`).
- **The statement forms**: count, delete, group, last update, select (with
  the DISTINCT wrap and re-join) and the bare-id sub-query.

Conditions are abstract trees (`Conditions.Cond`) with a two-valued meaning,
`Holds`, under any valuation of the atomic tests. They are not SQL text.

The model has two layers:

- **Specification functions.** The modules `CompilerSpec` and `Statements`
  state what each operation does, as functions from a compiler state
  (`QueryState.CompilerState`) to a result and a new state.
- **The compiler class.** `Compiler.SqlQuery` is a class whose fields are
  that state. Its methods change the fields in place, step by step, as the
  source does:
  - loops over children, values, sorters, joins and group keys;
  - field updates such as setting `needsDistinct` or turning a join
    LEFT OUTER;
  - the map put on the sub-query registry;
  - the cache insertion.

  Each method is proved to return exactly the result, and leave exactly the
  state, that its specification function gives for the state it started from.

The properties are lemmas about the specification functions. Most are in
`CompilerProperties`. They therefore hold of the object too.

The environment is a parameter (`DariQuery.Env`). It covers key resolution,
value resolution, index tables and vendor geospatial support.

Every operation preserves `QueryState.Wf`: every registered correlated
sub-query has a cached nested compiler. Every operation also satisfies
`QueryState.Grows`:

- flags are only ever set;
- joins are only appended, widened, rebound or turned LEFT OUTER;
- keys are only added;
- ORDER BY is only appended to;
- cached nested compilers are never replaced.

Together these are the monotonicity of `needsDistinct` and of join kinds that
the source relies on.

## Model

| member | source | states |
|---|---|---|
| `IndexSelection.CountMatches` | db/src/main/java/com/psddev/dari/db/SqlQuery.java:103-111 | the inner loop counts exactly the mapped keys whose field the candidate index contains |
| `IndexSelection.BestOverlap` | db/src/main/java/com/psddev/dari/db/SqlQuery.java:99-117 | the first loop returns the greatest overlap count and the position of the first candidate that reaches it (no position when every count is 0) |
| `IndexSelection.ChooseIndex` | db/src/main/java/com/psddev/dari/db/SqlQuery.java:98-131 | selectIndex's two loops compute the selection `SelectedIndex` defines |
| `IndexSelection.MaxCountAttained` | db/src/main/java/com/psddev/dari/db/SqlQuery.java:113-116 | a positive greatest count is the count of some candidate, and no candidate exceeds it |
| `IndexSelection.SelectedNoneIff` | db/src/main/java/com/psddev/dari/db/SqlQuery.java:119-130 | nothing is recorded exactly when no candidate contains a field of the query's keys (or there is no candidate) |
| `IndexSelection.SelectedIsFirstBest` | db/src/main/java/com/psddev/dari/db/SqlQuery.java:113-116 | outside the tie-break, the selection is the first candidate with the strictly greatest overlap: none has more, every earlier one has less |
| `IndexSelection.SelectedTieBreak` | db/src/main/java/com/psddev/dari/db/SqlQuery.java:120-127 | when the best overlap is exactly one, the first single-field candidate replaces the greedy choice when there is one |
| `IndexSelection.SelectionCoversOwnField` | db/src/main/java/com/psddev/dari/db/SqlQuery.java:98-131 | a key whose candidates all contain its own field always gets an index that contains that field |
| `QueryState.AddKey` | db/src/main/java/com/psddev/dari/db/SqlQuery.java:166-168 | a key resolved late is mapped to its metadata, its index is selected, and nothing else changes |
| `QueryState.FindOrCreateSpec` | db/src/main/java/com/psddev/dari/db/SqlQuery.java:169 | under the reuse rule this model assumes for SqlQueryJoin.findOrCreate (whose source is not part of the model): the first join findOrCreate itself created for the key is returned and nothing changes; a join made by create is never reused; with none, one new INNER join for the key is appended, shared (not private), whose symbol filter holds the key exactly when the environment's `indexKeyOf` gives the key a symbol, and nothing else changes |
| `QueryState.CreateSpec` | db/src/main/java/com/psddev/dari/db/SqlQuery.java:424 | under the rule this model assumes for SqlQueryJoin.create: one new join for the key, private to the comparison, is appended and nothing else changes |
| `QueryState.PutEntry` | db/src/main/java/com/psddev/dari/db/SqlQuery.java:463 | a put on the insertion-ordered sub-query map keeps every existing key at its position, replaces only the entry of the child put (its correlation), leaves every other entry unchanged, appends a new child last, and keeps the children distinct |
| `QueryState.PutFinds` | db/src/main/java/com/psddev/dari/db/SqlQuery.java:463 | after a put, the child is found with the correlation just put |
| `Compiler.SqlQuery.constructor` | db/src/main/java/com/psddev/dari/db/SqlQuery.java:71-96 | a new compiler has the query's mapped keys, an index selected for each, no joins, no sub-queries, and no flag set |
| `Compiler.SqlQuery.SelectIndex` | db/src/main/java/com/psddev/dari/db/SqlQuery.java:98-131 | the method records under the key the index `IndexSelection.SelectedIndex` chooses against the mapped keys, or leaves the recorded indexes unchanged when none is chosen, and changes nothing else (`QueryState.SelectIndexSpec`) |
| `Compiler.SqlQuery.FindOrCreate` | db/src/main/java/com/psddev/dari/db/SqlQuery.java:169 | the method returns the join and leaves the state `QueryState.FindOrCreateSpec` gives, that is, the assumed findOrCreate reuse rule and the first symbol filter taken from `indexKeyOf` |
| `Compiler.SqlQuery.Create` | db/src/main/java/com/psddev/dari/db/SqlQuery.java:424 | the method returns the join and leaves the state `CreateSpec` gives |
| `CompilerSpec.ChooseJoin` | db/src/main/java/com/psddev/dari/db/SqlQuery.java:400-428 | the join chosen for a comparison exists; only the joins and the distinct flag change, and only as growth allows |
| `CompilerSpec.PrepareJoin` | db/src/main/java/com/psddev/dari/db/SqlQuery.java:400-439 | the comparison's join is LEFT OUTER whenever a compound above asks for it; only joins and the distinct flag change |
| `Compiler.SqlQuery.ChooseJoin` | db/src/main/java/com/psddev/dari/db/SqlQuery.java:400-428 | the method returns the join and leaves the state `CompilerSpec.ChooseJoin` gives |
| `Compiler.SqlQuery.PrepareJoin` | db/src/main/java/com/psddev/dari/db/SqlQuery.java:400-439 | the method returns the join and leaves the state `CompilerSpec.PrepareJoin` gives |
| `CompilerProperties.OrSiblingsShareJoin` | db/src/main/java/com/psddev/dari/db/SqlQuery.java:402-416 | under an OR node, a field whose table family already has a join bound to that node shares the first such join: no join is added, the join also filters on the key, duplicates become possible |
| `CompilerProperties.OrFieldsBindJoin` | db/src/main/java/com/psddev/dari/db/SqlQuery.java:402-421 | a field under an OR node always ends up with a join bound to that node |
| `CompilerProperties.CollectionsGetOwnJoin` | db/src/main/java/com/psddev/dari/db/SqlQuery.java:423-424 | outside an OR node, a collection always gets a new private join for its key |
| `CompilerProperties.PlainKeysReuseJoin` | db/src/main/java/com/psddev/dari/db/SqlQuery.java:426-428 | any other comparison (not a collection, not a field under an OR node) reuses the first join findOrCreate created for its key, under the assumed rule that joins made by create are never reused, and changes nothing |
| `CompilerSpec.Compile` | db/src/main/java/com/psddev/dari/db/SqlQuery.java:339-597 | compiling any predicate keeps the state well formed, only grows it, and leaves ORDER BY alone |
| `CompilerSpec.CompileChildren` | db/src/main/java/com/psddev/dari/db/SqlQuery.java:364-372 | the compound loop yields one result per child compiled |
| `Compiler.SqlQuery.CreateWhereCondition` | db/src/main/java/com/psddev/dari/db/SqlQuery.java:339-597 | the method returns the condition and leaves the state `CompilerSpec.Compile` gives |
| `Compiler.SqlQuery.CompileChildren` | db/src/main/java/com/psddev/dari/db/SqlQuery.java:364-390 | the loop over the children returns the results and leaves the state `CompilerSpec.CompileChildren` gives |
| `CompilerProperties.ChildInOrder` | db/src/main/java/com/psddev/dari/db/SqlQuery.java:364-372 | child i is compiled from the state the children before it left, and its result is the loop's i-th result |
| `CompilerProperties.ManyChildrenNeedDistinct` | db/src/main/java/com/psddev/dari/db/SqlQuery.java:354-356 | OR and NOT with more than one child set `needsDistinct`, whether or not compilation succeeds |
| `CompilerProperties.OrCompound` | db/src/main/java/com/psddev/dari/db/SqlQuery.java:350-376 | children are compiled bound to the OR node, LEFT OUTER exactly when there are several; the result is absent exactly when every child's is; otherwise it holds exactly when some present child condition holds |
| `CompilerProperties.NotCompound` | db/src/main/java/com/psddev/dari/db/SqlQuery.java:350-376 | children are always compiled LEFT OUTER; the result is absent exactly when every child's is; otherwise it holds exactly when no present child condition holds |
| `CompilerProperties.AndCompound` | db/src/main/java/com/psddev/dari/db/SqlQuery.java:379-392 | children inherit LEFT OUTER from above; the result is absent exactly when every child's is; otherwise it holds exactly when every present child condition holds |
| `CompilerProperties.UnsupportedPredicates` | db/src/main/java/com/psddev/dari/db/SqlQuery.java:596 | any other compound operator, and any other predicate kind, fails and changes nothing |
| `CompilerProperties.UnmappedComparison` | db/src/main/java/com/psddev/dari/db/SqlQuery.java:398-399 | a comparison on a key that is not mapped fails and changes nothing |
| `Conditions.CombineAbsent` | db/src/main/java/com/psddev/dari/db/SqlQuery.java:362-372 | combining child results skips absent ones; the result is absent exactly when all are |
| `Conditions.CombineOrHolds` | db/src/main/java/com/psddev/dari/db/SqlQuery.java:364-371 | an OR combination holds exactly when some present child condition holds |
| `Conditions.CombineAndHolds` | db/src/main/java/com/psddev/dari/db/SqlQuery.java:382-390 | an AND combination holds exactly when every present child condition holds |
| `Conditions.CombineReorder` | db/src/main/java/com/psddev/dari/db/SqlQuery.java:364-390 | reordering a compound's children changes neither whether it has a condition nor what it means |
| `Conditions.CombineValuesHolds` | db/src/main/java/com/psddev/dari/db/SqlQuery.java:568-574 | per-value conditions combine by AND for NOT_EQUALS_ALL and by OR otherwise; an empty list gives TRUE and FALSE respectively |
| `ValueConditions.CollectValueConditions` | db/src/main/java/com/psddev/dari/db/SqlQuery.java:468-566 | the value loop computes the outcome `CollectValues` defines, and stops at the first failure |
| `ValueConditions.ValueStep` | db/src/main/java/com/psddev/dari/db/SqlQuery.java:471-564 | one value fails exactly when it needs geospatial support the vendor lacks, with UnsupportedIndex for the key; otherwise the earlier conditions are kept and at most one is added |
| `ValueConditions.CollectValues` | db/src/main/java/com/psddev/dari/db/SqlQuery.java:471-566 | the loop over the first n values yields at most n conditions, and fails only with UnsupportedIndex for the key |
| `ValueConditions.Reached` | db/src/main/java/com/psddev/dari/db/SqlQuery.java:471-566 | the outcome the loop has built when it stops: the loop's own outcome when no value fails |
| `ValueConditions.ReachedOuter` | db/src/main/java/com/psddev/dari/db/SqlQuery.java:471-566 | the join is forced LEFT OUTER exactly when some value the loop got through asks for it |
| `ValueConditions.ReachedDistinct` | db/src/main/java/com/psddev/dari/db/SqlQuery.java:471-566 | duplicates are noted exactly when some value the loop got through asks for it |
| `ValueConditions.ReachedStep` | db/src/main/java/com/psddev/dari/db/SqlQuery.java:471-566 | one more value the loop gets through adds its flags to the earlier ones; a value it does not get through changes nothing |
| `ValueConditions.ValueStepEffect` | db/src/main/java/com/psddev/dari/db/SqlQuery.java:471-564 | one value raises exactly the flags its kind asks for and appends one condition unless it is silent |
| `ValueConditions.CollectValuesFlags` | db/src/main/java/com/psddev/dari/db/SqlQuery.java:471-564 | the comparison has a missing-value test, forces LEFT OUTER, or forces DISTINCT exactly when some value does; the number of conditions is the number of values that are not silent |
| `ValueConditions.CollectValuesFails` | db/src/main/java/com/psddev/dari/db/SqlQuery.java:496-511 | the loop fails, with UnsupportedIndex for the key, exactly when a region or location value needs geospatial support the vendor lacks |
| `ValueConditions.UnrecognizedCollectsNothing` | db/src/main/java/com/psddev/dari/db/SqlQuery.java:533-536 | with an operator that no comparison recognizes, the values are ignored |
| `ValueConditions.ValueConditionPresent` | db/src/main/java/com/psddev/dari/db/SqlQuery.java:473-528 | null contributes FALSE; MISSING contributes IS NOT NULL under NOT_EQUALS_ALL and IS NULL otherwise; a plain value under NOT_EQUALS_ALL contributes IS NULL OR != v |
| `CompilerProperties.ComparisonValues` | db/src/main/java/com/psddev/dari/db/SqlQuery.java:568-591 | no condition gives TRUE (NOT_EQUALS_ALL) or FALSE; with a missing-value test, the combined conditions are returned as they are; otherwise the guards only narrow them and more than one condition sets DISTINCT; the join is LEFT OUTER when a value forced it |
| `CompilerProperties.ComparisonValuesFailure` | db/src/main/java/com/psddev/dari/db/SqlQuery.java:471-566 | a value the vendor cannot compare fails the comparison with UnsupportedIndex for its key; the join is LEFT OUTER and DISTINCT is set when a value before it asked (`ValueConditions.ReachedOuter`, `ValueConditions.ReachedDistinct`) |
| `CompilerProperties.GuardsNarrow` | db/src/main/java/com/psddev/dari/db/SqlQuery.java:576-587 | the index-key and IS NOT NULL guards only narrow a condition, and a join without a table adds none |
| `CompilerSpec.CompileValues` | db/src/main/java/com/psddev/dari/db/SqlQuery.java:468-593 | a comparison without a sub-query changes only joins and the distinct flag, and only as growth allows; the LEFT OUTER and DISTINCT flags the values ask for are set before a failing value is met, so a failure keeps the ones the loop got through |
| `Compiler.SqlQuery.CompileValues` | db/src/main/java/com/psddev/dari/db/SqlQuery.java:468-593 | the method returns the condition and leaves the state `CompilerSpec.CompileValues` gives, flags from the values before a failing one included |
| `Compiler.SqlQuery.CompileComparison` | db/src/main/java/com/psddev/dari/db/SqlQuery.java:395-594 | the method returns the condition and leaves the state `CompilerSpec.CompileComparison` gives |
| `CompilerSpec.CompileComparison` | db/src/main/java/com/psddev/dari/db/SqlQuery.java:395-594 | an unmapped key fails and changes nothing; the comparison's join is LEFT OUTER when a compound above asks for it; ORDER BY is left alone |
| `CompilerSpec.CompileSubQueryComparison` | db/src/main/java/com/psddev/dari/db/SqlQuery.java:447-466 | a sub-query comparison notes duplicates for NOT_EQUALS_ALL and for a collection field, adds no join and leaves ORDER BY alone |
| `CompilerSpec.InlineSubQuery` | db/src/main/java/com/psddev/dari/db/SqlQuery.java:452-458 | an inlined sub-query changes nothing in this compiler; it fails exactly when the fresh compiler's sub-query statement fails, else it tests the field IN (NOT IN for NOT_EQUALS_ALL) that statement |
| `CompilerSpec.JoinSubQuery` | db/src/main/java/com/psddev/dari/db/SqlQuery.java:460-465 | a joined sub-query fails exactly when its nested compiler cannot be built; otherwise the nested compiler is cached, registered with the correlation on the field (and the NOT_EQUALS_ALL flag), and its WHERE is the condition; no join is added |
| `Compiler.SqlQuery.CompileSubQueryComparison` | db/src/main/java/com/psddev/dari/db/SqlQuery.java:447-466 | the method returns the condition and leaves the state `CompilerSpec.CompileSubQueryComparison` gives |
| `Compiler.SqlQuery.InlineSubQuery` | db/src/main/java/com/psddev/dari/db/SqlQuery.java:452-458 | an inlined sub-query is compiled by a fresh compiler, and this compiler's state is unchanged |
| `Compiler.SqlQuery.JoinSubQuery` | db/src/main/java/com/psddev/dari/db/SqlQuery.java:460-465 | the method returns the nested compiler's WHERE and leaves the state `CompilerSpec.JoinSubQuery` gives |
| `Similar.FindSimilarIff` | db/src/main/java/com/psddev/dari/db/SqlQuery.java:599-620 | on a tree whose keys are mapped, the search answers yes exactly when the field is present and some comparison in the tree compares that field without a sub-query |
| `Similar.FindSimilarAmongIff` | db/src/main/java/com/psddev/dari/db/SqlQuery.java:601-606 | the loop over a compound's first n children answers yes exactly when one of them contains such a comparison |
| `Similar.NoFieldNoSimilar` | db/src/main/java/com/psddev/dari/db/SqlQuery.java:600 | without a field the answer is no |
| `CompilerSpec.GetOrCreate` | db/src/main/java/com/psddev/dari/db/SqlQuery.java:141-150 | the returned nested compiler is the one cached for the query, and only the cache changes |
| `Compiler.SqlQuery.GetOrCreateSubSqlQuery` | db/src/main/java/com/psddev/dari/db/SqlQuery.java:141-150 | the method returns the nested compiler and leaves the state `CompilerSpec.GetOrCreate` gives |
| `CompilerProperties.SubCompilerCached` | db/src/main/java/com/psddev/dari/db/SqlQuery.java:142-149 | once cached, a nested compiler is returned unchanged, whatever forceLeftJoins is asked for later |
| `CompilerProperties.NewSubCompiler` | db/src/main/java/com/psddev/dari/db/SqlQuery.java:143-147 | a new nested compiler is named after the prefix, "s" and the cache size; it keeps its forceLeftJoins and is cached as one more entry |
| `Placeholders.CloseAtIsFirst` | db/src/main/java/com/psddev/dari/db/SqlQuery.java:157 | the closing brace found is the first one |
| `Placeholders.NextMatchIsFirst` | db/src/main/java/com/psddev/dari/db/SqlQuery.java:161 | no placeholder starts before the match found |
| `Placeholders.TokenizeRoundTrip` | db/src/main/java/com/psddev/dari/db/SqlQuery.java:157-175 | cutting the option text into literal text and keys loses nothing and reorders nothing: the pieces render back to the text |
| `Placeholders.TokenizeShape` | db/src/main/java/com/psddev/dari/db/SqlQuery.java:157-175 | every key found is non-empty and has no '}'; literals and keys alternate |
| `Placeholders.NoPlaceholderUnchanged` | db/src/main/java/com/psddev/dari/db/SqlQuery.java:174 | text without a placeholder is one literal |
| `ExtraJoins.ExpandExtraJoins` | db/src/main/java/com/psddev/dari/db/SqlQuery.java:154-176 | there is substituted text exactly when the option is present, one fragment per piece; an absent option changes nothing; the substitution grows the state, registers no sub-query and leaves ORDER BY alone |
| `ExtraJoins.ExpandPiece` | db/src/main/java/com/psddev/dari/db/SqlQuery.java:161-172 | one piece becomes one fragment; no sub-query is registered and ORDER BY is left alone |
| `ExtraJoins.ExpandPieces` | db/src/main/java/com/psddev/dari/db/SqlQuery.java:161-172 | the loop turns n pieces into n fragments; no sub-query is registered and ORDER BY is left alone |
| `Compiler.SqlQuery.ExpandExtraJoins` | db/src/main/java/com/psddev/dari/db/SqlQuery.java:154-176 | the method returns the substituted text and leaves the state `ExtraJoins.ExpandExtraJoins` gives |
| `ExtraJoins.ExpandPiecesMirror` | db/src/main/java/com/psddev/dari/db/SqlQuery.java:161-172 | each literal is kept as it is; each placeholder becomes the value column of a join for its key, which is LEFT OUTER once the loop ends |
| `ExtraJoins.ExpandRoundTrip` | db/src/main/java/com/psddev/dari/db/SqlQuery.java:157-175 | writing each value column back as its `${key}` gives the option text back |
| `ExtraJoins.PlaceholderJoinsAreOuter` | db/src/main/java/com/psddev/dari/db/SqlQuery.java:169-170 | every placeholder's join is LEFT OUTER once the substitution is done |
| `ExtraJoins.NoPlaceholderNoChange` | db/src/main/java/com/psddev/dari/db/SqlQuery.java:157-175 | option text without placeholders is copied unchanged and changes no state |
| `CompilerSpec.BuildWhere` | db/src/main/java/com/psddev/dari/db/SqlQuery.java:179-197 | building WHERE only grows the state and leaves ORDER BY alone |
| `Compiler.SqlQuery.BuildWhere` | db/src/main/java/com/psddev/dari/db/SqlQuery.java:179-197 | the method returns the condition and leaves the state `CompilerSpec.BuildWhere` gives |
| `CompilerSpec.AddSorters` | db/src/main/java/com/psddev/dari/db/SqlQuery.java:200-251 | the sorter loop keeps the state well formed and only grows it |
| `Compiler.SqlQuery.AddSorters` | db/src/main/java/com/psddev/dari/db/SqlQuery.java:200-251 | the loop over the sorters leaves the state and returns the result `CompilerSpec.AddSorters` gives, stopping at the first failure |
| `Compiler.SqlQuery.AddSorter` | db/src/main/java/com/psddev/dari/db/SqlQuery.java:201-250 | one sorter leaves the state `CompilerSpec.AddSorter` gives |
| `Compiler.SqlQuery.SortBySubQuery` | db/src/main/java/com/psddev/dari/db/SqlQuery.java:216-222 | a sorter's sub-query is correlated and its ORDER BY taken over, as `CompilerSpec.SortBySubQuery` gives |
| `Compiler.SqlQuery.SortByValue` | db/src/main/java/com/psddev/dari/db/SqlQuery.java:224-249 | the value column ascending or descending, or the distance expression, is appended, as `CompilerSpec.SortByValue` gives |
| `CompilerSpec.SortBySubQuery` | db/src/main/java/com/psddev/dari/db/SqlQuery.java:216-222 | no join is added; on success the sorter's sub-query is cached, registered with the correlation on the key's value column, and ORDER BY becomes the old one followed by exactly the nested compiler's ORDER BY; on failure ORDER BY and the registry are unchanged |
| `CompilerSpec.SortByValue` | db/src/main/java/com/psddev/dari/db/SqlQuery.java:224-249 | fails, with UnsupportedIndex for the key and nothing changed, exactly when a closest or farthest sort meets a vendor without geospatial support; otherwise exactly one ORDER BY entry is appended and nothing else changes |
| `CompilerProperties.AddSorterEffect` | db/src/main/java/com/psddev/dari/db/SqlQuery.java:200-251 | an operator other than the four fails with UnsupportedSorter and changes nothing (the only way a sorter without a sub-query gets that error); an unmapped key fails; ascending and descending append the value column ASC and DESC; closest and farthest append the vendor's distance expression ASC and DESC, and fail with UnsupportedIndex exactly when the vendor lacks geospatial support; a sub-query sorter registers its correlation and appends exactly the nested ORDER BY |
| `CompilerProperties.PlainSortersAppend` | db/src/main/java/com/psddev/dari/db/SqlQuery.java:200-228 | over sorters without a sub-query, the loop appends exactly one ORDER BY field per sorter after the earlier ones |
| `CompilerProperties.PlainSorterAppends` | db/src/main/java/com/psddev/dari/db/SqlQuery.java:224-245 | one sorter without a sub-query appends exactly one ORDER BY field |
| `CompilerProperties.InitializeAppendsOrderBy` | db/src/main/java/com/psddev/dari/db/SqlQuery.java:200-251 | building the clauses appends one ORDER BY field per plain sorter to what was there, and never resets it |
| `CompilerProperties.SecondSelectRepeatsOrderBy` | db/src/main/java/com/psddev/dari/db/SqlQuery.java:721-722 | starting without ORDER BY, a second select on the same compiler has two ORDER BY entries per plain sorter, because the clauses are built again |
| `FromClause.EmitJoinsFails` | db/src/main/java/com/psddev/dari/db/SqlQuery.java:256-282 | the join part of FROM fails exactly when a join to be written reads a table version it has no table for |
| `FromClause.EmitJoinsSound` | db/src/main/java/com/psddev/dari/db/SqlQuery.java:256-302 | every item written is a JOIN for a join with a non-empty symbol filter, in join order; it is LEFT OUTER when all joins are forced outer and of its own kind otherwise; it has the IGNORE INDEX hint exactly for location tables of version 2 and up |
| `FromClause.EmitJoinsComplete` | db/src/main/java/com/psddev/dari/db/SqlQuery.java:256-282 | every join with a non-empty symbol filter is written; the primary-index hint is disabled exactly when one of them has a table below its version threshold |
| `FromClause.ForcedJoinsAreOuter` | db/src/main/java/com/psddev/dari/db/SqlQuery.java:263 | with forceLeftJoins every written JOIN is LEFT OUTER |
| `FromClause.EmptyFilterNeverWritten` | db/src/main/java/com/psddev/dari/db/SqlQuery.java:257-259 | a join with an empty symbol filter is never written |
| `FromClause.EmitJoin` | db/src/main/java/com/psddev/dari/db/SqlQuery.java:256-302 | a join is skipped exactly when its symbol filter is empty; it fails, with MissingIndexTable, exactly when it reads a table version it has no table for; otherwise it is written as a JOIN for that join, with its symbol filter, LEFT OUTER when all joins are forced outer and of its own kind otherwise, and it disables the hint exactly when its table is below the version threshold |
| `CompilerSpec.JoinSubQueries` | db/src/main/java/com/psddev/dari/db/SqlQuery.java:304-320 | item k is correlated sub-query k's nested FROM clause, aliased by the nested prefix and "r" and joined on its correlation, in registry order; duplicates become possible exactly when some nested compiler needs DISTINCT |
| `CompilerSpec.BuildFrom` | db/src/main/java/com/psddev/dari/db/SqlQuery.java:254-325 | building FROM changes only the two flags, and only sets them |
| `Compiler.SqlQuery.BuildFrom` | db/src/main/java/com/psddev/dari/db/SqlQuery.java:254-325 | the method returns the FROM items and leaves the state `CompilerSpec.BuildFrom` gives |
| `CompilerSpec.Initialize` | db/src/main/java/com/psddev/dari/db/SqlQuery.java:153-336 | building the clauses keeps the state well formed and only grows it |
| `CompilerSpec.FinishClauses` | db/src/main/java/com/psddev/dari/db/SqlQuery.java:200-336 | the sorters, FROM and HAVING keep the state well formed and only grow it |
| `Compiler.SqlQuery.InitializeClauses` | db/src/main/java/com/psddev/dari/db/SqlQuery.java:153-336 | the method leaves the state and returns the result `CompilerSpec.Initialize` gives |
| `Compiler.SqlQuery.FinishClauses` | db/src/main/java/com/psddev/dari/db/SqlQuery.java:200-336 | the method leaves the state and returns the result `CompilerSpec.FinishClauses` gives |
| `CompilerProperties.PlaceholderJoinOuter` | db/src/main/java/com/psddev/dari/db/SqlQuery.java:161-191 | a placeholder's value column names a join that is LEFT OUTER once WHERE is built and keeps every symbol it filtered on after the substitution |
| `CompilerProperties.OuterJoinInFrom` | db/src/main/java/com/psddev/dari/db/SqlQuery.java:256-263 | a LEFT OUTER join that filters on a key is written to FROM as an item that reads "left outer join" |
| `CompilerProperties.PlaceholderDisablesHint` | db/src/main/java/com/psddev/dari/db/SqlQuery.java:748-753 | a select of a query with a `${key}` placeholder whose join filters on some symbol never reads the record table IGNORE INDEX (PRIMARY) |
| `CompilerSpec.SubQueryStatement` | db/src/main/java/com/psddev/dari/db/SqlQuery.java:779-789 | the sub-query statement selects the record ids DISTINCT exactly when duplicates are possible, under the compiler's prefix |
| `Compiler.SqlQuery.SubQueryStatement` | db/src/main/java/com/psddev/dari/db/SqlQuery.java:779-789 | the method returns the statement and leaves the state `CompilerSpec.SubQueryStatement` gives |
| `Statements.Count` | db/src/main/java/com/psddev/dari/db/SqlQuery.java:626-633 | the count is DISTINCT exactly when duplicates are possible; it fails exactly when building the clauses fails |
| `Statements.Delete` | db/src/main/java/com/psddev/dari/db/SqlQuery.java:639-645 | the delete statement uses the WHERE clause just built |
| `Statements.LastUpdate` | db/src/main/java/com/psddev/dari/db/SqlQuery.java:706-715 | the last-update statement reads the update table under the compiler's record alias |
| `Compiler.SqlQuery.CountStatement` | db/src/main/java/com/psddev/dari/db/SqlQuery.java:626-633 | the method returns the statement and leaves the state `Statements.Count` gives |
| `Compiler.SqlQuery.DeleteStatement` | db/src/main/java/com/psddev/dari/db/SqlQuery.java:639-645 | the method returns the statement and leaves the state `Statements.Delete` gives |
| `Compiler.SqlQuery.LastUpdateStatement` | db/src/main/java/com/psddev/dari/db/SqlQuery.java:706-715 | the method returns the statement and leaves the state `Statements.LastUpdate` gives |
| `CompilerProperties.DistinctIffDuplicates` | db/src/main/java/com/psddev/dari/db/SqlQuery.java:630 | count and sub-query statements are DISTINCT exactly when duplicates are possible, and both leave the same state |
| `Statements.GroupKey` | db/src/main/java/com/psddev/dari/db/SqlQuery.java:661-679 | a group key ends up mapped to what the environment resolves for it; a key without a group-by sub-query contributes exactly one value column, under this compiler's prefix, of a join for that key; the state only grows |
| `Statements.GroupBySubQuery` | db/src/main/java/com/psddev/dari/db/SqlQuery.java:674-679 | no join or key is added; on success the nested compiler is cached, registered with the correlation on the key's value column, and its join value columns are the grouping columns; on failure the registry is unchanged |
| `Statements.Group` | db/src/main/java/com/psddev/dari/db/SqlQuery.java:655-700 | null and empty key lists are rejected before anything changes; the count is DISTINCT exactly when duplicates are possible |
| `Compiler.SqlQuery.AddGroupKey` | db/src/main/java/com/psddev/dari/db/SqlQuery.java:661-679 | the method returns the grouping columns and leaves the state `Statements.GroupKey` gives |
| `Compiler.SqlQuery.GroupBySubQuery` | db/src/main/java/com/psddev/dari/db/SqlQuery.java:674-679 | the loop over the nested compiler's joins returns one value column per join, as `Statements.GroupBySubQuery` gives |
| `Compiler.SqlQuery.GroupStatement` | db/src/main/java/com/psddev/dari/db/SqlQuery.java:655-700 | the method returns the statement and leaves the state `Statements.Group` gives |
| `CompilerProperties.PlainGroupKeys` | db/src/main/java/com/psddev/dari/db/SqlQuery.java:661-673 | group keys without a group-by sub-query give one column each, in key order, naming a join for that key under this compiler's prefix |
| `CompilerProperties.PlainGroupKey` | db/src/main/java/com/psddev/dari/db/SqlQuery.java:667-673 | such a key contributes one value column of a join for it |
| `CompilerProperties.GroupKeyThroughSubQuery` | db/src/main/java/com/psddev/dari/db/SqlQuery.java:674-679 | a key grouped through a sub-query groups by the value columns of all the cached nested compiler's joins, and registers the sub-query |
| `Statements.SelectFields` | db/src/main/java/com/psddev/dari/db/SqlQuery.java:724-744 | the select list starts with the record id and type id |
| `Statements.Select` | db/src/main/java/com/psddev/dari/db/SqlQuery.java:721-774 | the select is DISTINCT exactly when duplicates are possible |
| `Compiler.SqlQuery.SelectStatement` | db/src/main/java/com/psddev/dari/db/SqlQuery.java:721-774 | the method, with its loop over the requested fields, returns the statement and leaves the state `Statements.Select` gives |
| `CompilerProperties.SelectWrapIff` | db/src/main/java/com/psddev/dari/db/SqlQuery.java:755-771 | a select is wrapped and re-joined exactly when duplicates are possible and fields were asked for (not the empty list) or extra columns are given; the wrap uses the prefix plus "d"; a DISTINCT select lists only id and type id |
| `CompilerProperties.SelectReturnsSelectList` | db/src/main/java/com/psddev/dari/db/SqlQuery.java:755-771 | wrapped or not, the statement returns exactly the select list |
| `CompilerProperties.ExtraColumnsPresent` | db/src/main/java/com/psddev/dari/db/SqlQuery.java:738-744 | extra columns are added exactly when the option is present and not blank |
| `CompilerProperties.ExtraColumnsAreWords` | db/src/main/java/com/psddev/dari/db/SqlQuery.java:740-743 | each extra column taken from text with a non-empty trim is a non-empty name without spaces |
| `Text.SplitSpaces` | db/src/main/java/com/psddev/dari/db/SqlQuery.java:741 | the empty string gives one empty name; text that neither starts nor ends with `\s` gives its maximal runs of non-`\s` characters, in order: non-empty, free of `\s`, and joined by single spaces they are the text with each run of `\s` squeezed to one space |
| `Text.WordsSqueeze` | db/src/main/java/com/psddev/dari/db/SqlQuery.java:741 | from a word start, the words joined by single spaces are the rest of the text with each run of `\s` squeezed to one space |
| `Text.WordsAreWords` | db/src/main/java/com/psddev/dari/db/SqlQuery.java:741 | every word of trimmed text is non-empty and holds no space |
| `Text.Trim` | db/src/main/java/com/psddev/dari/db/SqlQuery.java:741 | the result is what is left once the longest leading and the longest trailing runs of characters at most ' ' are removed: an infix of the text, everything removed is at most ' ', and it neither starts nor ends with such a character |
| `Text.NatToString` | db/src/main/java/com/psddev/dari/db/SqlQuery.java:144 | the cache size in a nested prefix is written as Java prints it: decimal digits that stand for the number, with no leading zero except in "0" |
| `Text.NatToStringInjective` | db/src/main/java/com/psddev/dari/db/SqlQuery.java:144 | different cache sizes give different digits, so nested compilers created one after another get different prefixes |

## Notable behaviour

These facts about the code are easy to miss; the model keeps each of them.

- **Clauses rebuilt on every call.** Every statement method calls
  `initializeClauses` again (lines 627, 640, 682, 707, 722, 780). A second
  statement call re-creates no shared join, but appends ORDER BY again
  (`CompilerProperties.SecondSelectRepeatsOrderBy`), and it creates fresh
  private joins for collections.
- **OR siblings share one join.** A field under an OR node shares the first
  join already bound to that node on the same table family (lines 406-416).
- **NOT_EQUALS_ALL with a missing value.** MISSING under NOT_EQUALS_ALL only
  adds IS NOT NULL, plus DISTINCT on a collection (lines 479-484). A plain
  value next to it forces LEFT OUTER and DISTINCT (lines 517-520).
- **Multi-value EQUALS_ANY.** It sets DISTINCT even in a tree with no OR
  (lines 588-590).
- **Flags before a failure.** The value loop sets LEFT OUTER and DISTINCT
  as it goes, so a value the vendor cannot compare leaves the flags of the
  values before it in place (`CompilerProperties.ComparisonValuesFailure`).
- **Late keys.** A key resolved late (a `${key}` placeholder or a group key)
  has its own index selected against the grown key set (lines 167-168,
  664-665). Keys selected earlier are not re-selected.
- **Extra columns that trim to nothing.** The option is checked with
  `isBlank`, which accepts only whitespace, but `trim` also removes the
  control characters below U+0020 that are not whitespace. An option made
  only of such characters (for example U+0001) passes that check, trims to the
  empty string, and `split` then gives one empty column name
  (`Text.SplitSpaces`).

## Left out

**Other files and jOOQ**
- `Reference.java`: a lazy reference wrapper with no compiler logic. Reference.java is not part of this model.
- jOOQ rendering: SQL text, render contexts, `toSQL`. Conditions, joins, FROM items and statements are abstract trees.
- The `/*! USE INDEX (k_name_value) */` hint, and its removal in the count and group statements: `mysqlIndexHint` is never set in this file.

**Case-insensitive "left outer join" test**
- The test on the FROM text (line 749) is modelled per FROM item and per literal fragment of the extra joins.
- A phrase that spans two items is not detected.

**`SqlQueryJoin` internals and vendor calls**
- These are not part of this model:
  - value columns, `convertValue` (an opaque `Encoded` value), `convertIndexKey`;
  - the table chosen per index type, taken from `Env.tableFor`;
  - the vendor's geospatial expressions.
- A join with no table is taken to need neither the index-key filter nor IS NOT NULL.
- `findOrCreateForSort` is modelled as `findOrCreate`.
- Vendor geospatial calls fail with `UnsupportedIndex` exactly when the environment says the vendor lacks geospatial support. Location and region coordinates (floating point) are not modelled.

**Metadata lookups**
- Key mapping, value resolution, concrete type ids, the sub-query getters and `getIndexKey` are functions of the environment.
- Java's null-pointer exceptions on an unmapped key become an `UnmappedKey` failure. On a missing index table read by the FROM builder, they become a `MissingIndexTable` failure.
- On that FROM failure the model leaves the state unchanged. Java may already have set `mysqlIgnoreIndexPrimaryDisabled` for earlier joins.

**Identity and text**
- Java object identity:
  - a join's parent predicate is identified by the node's path in the tree;
  - nested compilers are cached as value snapshots (prefix and state), which the source never changes after `initializeClauses`.
- `ObjectUtils.isBlank` is modelled on ASCII whitespace only.
- The regular expressions `\$\{([^}]+)\}` and `\s+` are modelled by explicit scanning functions.

**Weaker contracts**
- `CompilerProperties.ComparisonValues`: without a missing-value test it states that the guards only narrow the combined condition. Their exact form is the definition of `CompilerSpec.Guarded`, which `CompilerProperties.GuardsNarrow` relates to it.

**Assumed behaviour of `SqlQueryJoin`**
- `QueryState.FindOrCreateSpec`, `QueryState.CreateSpec`, `CompilerProperties.PlainKeysReuseJoin`: the source of SqlQueryJoin is not part of this model. The model assumes that findOrCreate reuses only a join it created itself for the key and never one made by create, and that a new join starts as an INNER join whose symbol filter is the key exactly when `indexKeyOf` gives the key a symbol (the filter holds query keys, line 412).
- `CompilerProperties.PlaceholderDisablesHint` therefore requires that the placeholder's join filters on some symbol; a join with an empty filter is not written to FROM (line 257).

**Finite queries**
- Queries and predicates are finite inductive values, so a sub-query cannot refer back to a query that contains it. In the source such a cycle would make `getOrCreateSubSqlQuery` and the sub-query compilation (lines 141-150, 452) recurse without bound; the model cannot express that input.
