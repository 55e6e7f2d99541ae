# OpenYarnStash in Dafny

OpenYarnStash keeps a knitter's yarn stash: yarns, the projects they go into, the
patterns projects follow, and assignments (usages) saying how many grams of a yarn a
project takes. This project models the logic of the app and of its stash-migration
script, and proves what each operation promises.

The model follows the program's structure, one module per source file:

- `CheckJson` (`check_json.dfy`): the Python migration script `misc/check_json.py`. It
  checks the required lists, renames `usages` to `assignments`, gives every assignment
  without an `"id"` key a random 31-bit id that no earlier assignment uses, records
  repeated ids and warns about references that match other than exactly one entity. The
  document is a class whose list fields the script changes in place; the random source
  is a sequence of draws passed in.
- `DataManager` (`data_manager.dfy`): `JsonDataManager`, the imperative data layer —
  validation, the deleted-item filter on load, upsert by id, soft delete with cascade or
  unlink, `availableForYarn`, `setProjectAssignments` and random-id creation with retry.
- `Repository` (`repository.dfy`): `JsonRepository`, the functional data layer — list
  transforms over a cache, the `"yarnId,projectId"` key written on save and parsed on
  load, the clamped availability and `next*Id`.
- `ProjectStatus`, `ProjectForm`, `YarnForm`, `ProjectAssignments`, `ProjectList`,
  `PatternList`, `Statistics`, `DateInput`: the rules the screens compute — project
  status, change detection, temporary image ids, row counters, `normalizeIntInput`,
  assignment clamping, list filters and stable sorts, statistics buckets and totals,
  and the date picker's parse, format and emit rules.
- `ColorPalette`, `BackDispatcher`, `NativeZip`: the palette and `idToColor`, the desktop
  back-handler stack, and the iOS export archive (a count, then length-prefixed path and
  data per file, in 32-bit little-endian integers) with its writer and reader.
- `Wrappers`, `Text`, `Lists`, `Sorting`: `Option`/`Result`, the Kotlin string functions
  the app relies on (`trim`, `split`, `toIntOrNull`, `padStart`, `ifBlank`, `removePrefix`,
  `contains(ignoreCase = true)`), `filter`/`count`/`take`, and a stable sort proved
  ordered, a permutation and stable.

Kotlin `Int` and `Long` are modelled as unbounded integers with their 32-bit range stated
where the source depends on it (`toIntOrNull`, `toInt()`, the archive's integers). Kotlin's
`/` and `%` truncate toward zero and are written out as such. Clocks, random numbers,
file contents and string encodings are parameters.

## Model

| member | source | states |
|---|---|---|
| Repository.ParseKey | composeApp/src/commonMain/kotlin/org/example/project/JsonRepository.kt:151-157 | a key parses iff it splits on ',' into exactly two parts that both parse as `Int` after trimming; the result is `(yarnId, projectId)` |
| Repository.ParseUsageKey | composeApp/src/commonMain/kotlin/org/example/project/JsonRepository.kt:53 | round trip: the key `save` writes for a usage with `Int` ids parses back to `(yarnId, projectId)` |
| Repository.UsageKeyInjective | composeApp/src/commonMain/kotlin/org/example/project/JsonRepository.kt:53 | two usages with `Int` ids share a key only if they share both ids |
| Repository.Lookup | composeApp/src/commonMain/kotlin/org/example/project/JsonRepository.kt:51-55 | a key has no value exactly when no entry carries it |
| Repository.Put | composeApp/src/commonMain/kotlin/org/example/project/JsonRepository.kt:53 | `put` on an insertion-ordered map: the key then holds the new value, other keys keep theirs, a new key is appended, and an existing key keeps its place |
| Repository.LastAmountFound | composeApp/src/commonMain/kotlin/org/example/project/JsonRepository.kt:50-55 | a key has a last-written amount iff some usage has that key |
| Repository.FlatUsagesLastWins | composeApp/src/commonMain/kotlin/org/example/project/JsonRepository.kt:50-55 | `FlatUsages`, the object `save` writes: it holds, for each key, the amount of the LAST usage with that key (last write wins) |
| Repository.DecodeEntry | composeApp/src/commonMain/kotlin/org/example/project/JsonRepository.kt:35-39 | an entry decodes to one `Usage(projectId, yarnId, amount)` when its key parses, and to nothing otherwise |
| Repository.DecodeUsages | composeApp/src/commonMain/kotlin/org/example/project/JsonRepository.kt:35-39 | loading keeps exactly the entries whose key parses |
| Repository.DecodeUsagesConcat | composeApp/src/commonMain/kotlin/org/example/project/JsonRepository.kt:35-39 | decoding works entry by entry and keeps their order |
| Repository.LoadData | composeApp/src/commonMain/kotlin/org/example/project/JsonRepository.kt:28-45 | a blank file gives empty data; otherwise yarns and projects are read as stored and one usage per parseable key |
| Repository.LastKeyIsNew | composeApp/src/commonMain/kotlin/org/example/project/JsonRepository.kt:51-55 | with distinct pairs, the last usage's key is not already in the object built from the usages before it |
| Repository.LoadSaved | composeApp/src/commonMain/kotlin/org/example/project/JsonRepository.kt:35-39 | round trip: decoding the flat object that `save` builds gives back the usage list, in order, when the (yarnId, projectId) pairs are distinct |
| Repository.SaveThenLoad | composeApp/src/commonMain/kotlin/org/example/project/JsonRepository.kt:28-63 | `Encode` then `Load`: the whole cache survives a save followed by a load |
| Repository.FirstById | composeApp/src/commonMain/kotlin/org/example/project/JsonRepository.kt:82-83 | `firstOrNull { it.id == id }`: none iff no element has the id; otherwise the first element with it |
| Repository.AddOrUpdate | composeApp/src/commonMain/kotlin/org/example/project/JsonRepository.kt:68-74 | with the id present, the length is kept and every element with the id is replaced; otherwise the new element is appended |
| Repository.ReplaceById | composeApp/src/commonMain/kotlin/org/example/project/JsonRepository.kt:71 | `map { if (it.id == y.id) y else it }` (and its project twin at line 93): same length, every element with the new element's id becomes the new element, every other element stays in its place |
| Repository.AddOrUpdateFinds | composeApp/src/commonMain/kotlin/org/example/project/JsonRepository.kt:68-74 | after an add or update, a lookup of the id finds exactly the new element |
| Repository.AddOrUpdateKeepsOthers | composeApp/src/commonMain/kotlin/org/example/project/JsonRepository.kt:90-96 | elements with other ids keep their places |
| Repository.YarnDeleted | composeApp/src/commonMain/kotlin/org/example/project/JsonRepository.kt:76-80 | a yarn remains iff it was there and has another id, nothing is added or duplicated (sub-multiset), projects are untouched, and exactly the usages of other yarns remain |
| Repository.ProjectDeleted | composeApp/src/commonMain/kotlin/org/example/project/JsonRepository.kt:98-102 | a project remains iff it was there and has another id, nothing is added or duplicated (sub-multiset), yarns are untouched, and exactly the usages of other projects remain |
| Repository.GetYarnById | composeApp/src/commonMain/kotlin/org/example/project/JsonRepository.kt:82-83 | an error (the `NoSuchElementException`) iff no yarn has the id; otherwise a stored yarn with that id |
| Repository.GetProjectById | composeApp/src/commonMain/kotlin/org/example/project/JsonRepository.kt:104-105 | an error iff no project has the id; otherwise a stored project with that id |
| Repository.MaxId | composeApp/src/commonMain/kotlin/org/example/project/JsonRepository.kt:85 | `maxOfOrNull { it.id }` on a non-empty list: an upper bound that some element attains |
| Repository.NextId | composeApp/src/commonMain/kotlin/org/example/project/JsonRepository.kt:85 | 1 for an empty list; otherwise one more than some id and greater than every id, unless the maximum is `Int.MAX_VALUE`, where the `Int` addition wraps to `Int.MIN_VALUE` (the same rule serves `nextProjectId` at line 107) |
| Repository.NextIdFresh | composeApp/src/commonMain/kotlin/org/example/project/JsonRepository.kt:107 | below the wrap-around, the next id belongs to no existing element |
| Repository.NewUsages | composeApp/src/commonMain/kotlin/org/example/project/JsonRepository.kt:114-116 | the i-th new usage is the i-th map entry with a positive amount, as `Usage(projectId, yarnId, amount)`, and there is one per such entry |
| Repository.AssignmentsSet | composeApp/src/commonMain/kotlin/org/example/project/JsonRepository.kt:112-118 | the other projects' usages in their order, followed by the new ones; yarns and projects unchanged |
| Repository.SetAssignmentsOwnProject | composeApp/src/commonMain/kotlin/org/example/project/JsonRepository.kt:112-118 | afterwards the project's usages are exactly the new usages |
| Repository.SetAssignmentsOtherProject | composeApp/src/commonMain/kotlin/org/example/project/JsonRepository.kt:112-118 | every other project keeps exactly the usages it had |
| Repository.UsageUpserted | composeApp/src/commonMain/kotlin/org/example/project/JsonRepository.kt:120-123 | a usage is present afterwards iff it is the new one or an old one with another pair; exactly one usage with the pair remains and it is the last |
| Repository.UsageRemoved | composeApp/src/commonMain/kotlin/org/example/project/JsonRepository.kt:125-128 | the usages that remain are exactly those with another pair |
| Repository.UsagesForProject | composeApp/src/commonMain/kotlin/org/example/project/JsonRepository.kt:131-132 | exactly the usages of the project |
| Repository.UsagesForYarn | composeApp/src/commonMain/kotlin/org/example/project/JsonRepository.kt:134-135 | exactly the usages of the yarn |
| Repository.AssignedInProject | composeApp/src/commonMain/kotlin/org/example/project/JsonRepository.kt:140-141 | 0 when no usage has the pair, otherwise the amount of the first usage that does |
| Repository.AvailableForYarn | composeApp/src/commonMain/kotlin/org/example/project/JsonRepository.kt:143-148 | an error for an unknown yarn; otherwise never negative, and without a project it is `max(0, amount - assignedForYarn)` |
| Repository.Max0 | composeApp/src/commonMain/kotlin/org/example/project/JsonRepository.kt:147 | `coerceAtLeast(0)`: at least 0 and at least `x`, and either `x` or 0 |
| Repository.OfYarnCons | composeApp/src/commonMain/kotlin/org/example/project/JsonRepository.kt:137-138 | the yarn's total counts the first usage's amount exactly when that usage is of the yarn |
| Repository.ElsewhereCons | composeApp/src/commonMain/kotlin/org/example/project/JsonRepository.kt:143-148 | what other projects hold counts the first usage exactly when another project holds the yarn there |
| Repository.UniquePairsTail | composeApp/src/commonMain/kotlin/org/example/project/JsonRepository.kt:110 | the pairs stay distinct without the first usage, and no later usage repeats its pair |
| Repository.TotalSplitsByProject | composeApp/src/commonMain/kotlin/org/example/project/JsonRepository.kt:137-141 | with distinct pairs, the yarn's total is the project's own amount plus what the other projects hold |
| Repository.AvailableIgnoresOwnProject | composeApp/src/commonMain/kotlin/org/example/project/JsonRepository.kt:143-148 | with distinct pairs, availability for a project is `max(0, amount - what the OTHER projects hold)` |
| Repository.JsonRepository.constructor | composeApp/src/commonMain/kotlin/org/example/project/JsonRepository.kt:9-16 | the cache starts empty |
| Repository.JsonRepository.Load | composeApp/src/commonMain/kotlin/org/example/project/JsonRepository.kt:28-45 | the cache becomes the decoded file and is returned; the file is unchanged |
| Repository.JsonRepository.Save | composeApp/src/commonMain/kotlin/org/example/project/JsonRepository.kt:48-63 | the cache becomes the data; the file holds the yarns, the projects and the flat usage object built `put` by `put` |
| Repository.JsonRepository.AddOrUpdateYarn | composeApp/src/commonMain/kotlin/org/example/project/JsonRepository.kt:68-74 | the cache becomes the add-or-update of the yarn, and it is saved |
| Repository.JsonRepository.DeleteYarn | composeApp/src/commonMain/kotlin/org/example/project/JsonRepository.kt:76-80 | the cache loses the yarn and its usages, and it is saved |
| Repository.JsonRepository.AddOrUpdateProject | composeApp/src/commonMain/kotlin/org/example/project/JsonRepository.kt:90-96 | the cache becomes the add-or-update of the project, and it is saved |
| Repository.JsonRepository.DeleteProject | composeApp/src/commonMain/kotlin/org/example/project/JsonRepository.kt:98-102 | the cache loses the project and its usages, and it is saved |
| Repository.JsonRepository.SetProjectAssignments | composeApp/src/commonMain/kotlin/org/example/project/JsonRepository.kt:112-118 | the cache's usages are replaced as `AssignmentsSet` states, and it is saved |
| Repository.JsonRepository.UpsertUsage | composeApp/src/commonMain/kotlin/org/example/project/JsonRepository.kt:120-123 | the cache's usages are upserted as `UsageUpserted` states, and it is saved |
| Repository.JsonRepository.RemoveUsage | composeApp/src/commonMain/kotlin/org/example/project/JsonRepository.kt:125-128 | the pair's usages are removed from the cache, and it is saved |
| DataManager.Ids | composeApp/src/commonMain/kotlin/org/example/project/JsonDataManager.kt:107-109 | `map { it.id }.toSet()`: exactly the ids of the list's elements, deleted ones included |
| DataManager.FirstProblem | composeApp/src/commonMain/kotlin/org/example/project/JsonDataManager.kt:111-139 | a checking `for` loop passes iff every element passes; otherwise it reports the problem of some element |
| DataManager.ValidateData | composeApp/src/commonMain/kotlin/org/example/project/JsonDataManager.kt:106-140 | validation passes iff all names are non-blank, every non-null project `patternId` is a pattern id, and every assignment's yarn and project exist, with deleted entries counting as existing |
| DataManager.ValidBySteps | composeApp/src/commonMain/kotlin/org/example/project/JsonDataManager.kt:106-140 | the four loops, taken in order, pass exactly when the whole-list condition holds |
| DataManager.BlankYarnReportedFirst | composeApp/src/commonMain/kotlin/org/example/project/JsonDataManager.kt:111-115 | the yarn loop runs first: any blank yarn name is the error reported, whatever else is wrong |
| DataManager.LaterErrorsMeanNamesFilled | composeApp/src/commonMain/kotlin/org/example/project/JsonDataManager.kt:117-139 | a pattern-name or assignment error is reported only when every yarn and project name is filled in |
| DataManager.LiveOnly | composeApp/src/commonMain/kotlin/org/example/project/JsonDataManager.kt:28-34 | each list keeps exactly its entries with `deleted != true` |
| DataManager.LiveOnlyIdempotent | composeApp/src/commonMain/kotlin/org/example/project/JsonDataManager.kt:28-34 | filtering deleted entries a second time changes nothing |
| DataManager.LoadKeepsDanglingAssignment | composeApp/src/commonMain/kotlin/org/example/project/JsonDataManager.kt:26-34 | validation counts a deleted yarn as existing, so a live assignment of it passes and is loaded without its yarn |
| Lists.Find | composeApp/src/commonMain/kotlin/org/example/project/JsonDataManager.kt:143 | `firstOrNull { p(it) }`: none iff no element satisfies `p`; otherwise an element of the list that does |
| Lists.FindFirst | composeApp/src/commonMain/kotlin/org/example/project/StatisticsScreen.kt:285 | `find` returns the first element satisfying the predicate, never a later one |
| DataManager.GetYarnById | composeApp/src/commonMain/kotlin/org/example/project/JsonDataManager.kt:143 | a stored yarn with the id that is not deleted, and none exactly when there is no such yarn |
| DataManager.GetProjectById | composeApp/src/commonMain/kotlin/org/example/project/JsonDataManager.kt:200 | a stored project with the id that is not deleted, and none exactly when there is no such project |
| DataManager.GetPatternById | composeApp/src/commonMain/kotlin/org/example/project/JsonDataManager.kt:257 | a stored pattern with the id that is not deleted, and none exactly when there is no such pattern |
| DataManager.AvailableForYarn | composeApp/src/commonMain/kotlin/org/example/project/JsonDataManager.kt:320-326 | 0 for a missing or deleted yarn; the yarn's amount when nothing counts against it |
| DataManager.CountedCons | composeApp/src/commonMain/kotlin/org/example/project/JsonDataManager.kt:322-324 | the counted total takes the first assignment's amount exactly when that assignment is of the yarn and not of the excluded project |
| DataManager.InProjectCons | composeApp/src/commonMain/kotlin/org/example/project/JsonDataManager.kt:322-324 | a project's holding takes the first assignment's amount exactly when that assignment is of the yarn and the project |
| DataManager.CountedSplits | composeApp/src/commonMain/kotlin/org/example/project/JsonDataManager.kt:322-324 | the total over all projects is the total over the others plus what the excluded project holds, deleted assignments included |
| DataManager.AvailableForOwnProject | composeApp/src/commonMain/kotlin/org/example/project/JsonDataManager.kt:320-326 | for an existing yarn, what a project may take is the overall remainder plus what that project already holds |
| DataManager.AvailableCanBeNegative | composeApp/src/commonMain/kotlin/org/example/project/JsonDataManager.kt:325 | nothing clamps the result: 150 assigned of a 100-unit yarn gives -50 |
| DataManager.IndexOfId | composeApp/src/commonMain/kotlin/org/example/project/JsonDataManager.kt:164 | `indexOfFirst`: -1 iff no element has the id; otherwise the first index that does |
| DataManager.UpsertFirst | composeApp/src/commonMain/kotlin/org/example/project/JsonDataManager.kt:163-171 | the first element with the id is replaced in place with the length kept and every other place unchanged; with no such element the new one is appended |
| DataManager.UpsertFirstFinds | composeApp/src/commonMain/kotlin/org/example/project/JsonDataManager.kt:163-171 | after an add or update, looking up the id finds the new element |
| DataManager.UpsertFirstKeepsOthers | composeApp/src/commonMain/kotlin/org/example/project/JsonDataManager.kt:220-228 | a lookup of any other id finds the same element at the same index as before |
| DataManager.FreshDraw | composeApp/src/commonMain/kotlin/org/example/project/JsonDataManager.kt:148-150 | the draw the retry loop settles on is the first one from the cursor on that avoids the existing ids; there is none exactly when every remaining draw is taken |
| DataManager.DrawFresh | composeApp/src/commonMain/kotlin/org/example/project/JsonDataManager.kt:341-343 | the `do … while (existingIds.contains(newId))` loop returns the draw `FreshDraw` names |
| DataManager.OtherProjects | composeApp/src/commonMain/kotlin/org/example/project/JsonDataManager.kt:331 | `removeAll { it.projectId == projectId }` keeps exactly the assignments of other projects |
| DataManager.NewAssignmentsShape | composeApp/src/commonMain/kotlin/org/example/project/JsonDataManager.kt:336-355 | `NewAssignments`: every added assignment belongs to the project, is live, has a positive amount and an id that avoids the ids left after the removal; when the draws last there is one per positive entry |
| DataManager.NewAssignmentsFollowEntries | composeApp/src/commonMain/kotlin/org/example/project/JsonDataManager.kt:336-355 | `NewAssignments`: the i-th added assignment carries the yarn id and amount of the i-th entry with a positive amount |
| DataManager.NewAssignmentsStep | composeApp/src/commonMain/kotlin/org/example/project/JsonDataManager.kt:338-355 | one loop step: a non-positive entry adds nothing; a positive one takes the next fresh draw, or stops the loop when the draws run out |
| DataManager.DrawAssignments | composeApp/src/commonMain/kotlin/org/example/project/JsonDataManager.kt:336-355 | the loop over the entries builds exactly the assignments and the completeness flag that `NewAssignments` describes |
| DataManager.NewIdsMayRepeat | composeApp/src/commonMain/kotlin/org/example/project/JsonDataManager.kt:336-343 | ids drawn in one call are not checked against each other, so two new assignments can share an id |
| DataManager.JsonDataManager.constructor | composeApp/src/commonMain/kotlin/org/example/project/JsonDataManager.kt:13-15 | the data starts empty |
| DataManager.JsonDataManager.Load | composeApp/src/commonMain/kotlin/org/example/project/JsonDataManager.kt:21-52 | empty content gives empty data; content that fails to decode or validate is an error and leaves the data unchanged; valid content is loaded without its deleted entries |
| DataManager.JsonDataManager.CreateNewYarn | composeApp/src/commonMain/kotlin/org/example/project/JsonDataManager.kt:145-161 | the new yarn's id is in [0, 2,000,000,000) and avoids every yarn id, deleted ones included; its name is the default with the id substituted; the list is not changed |
| DataManager.JsonDataManager.CreateNewProject | composeApp/src/commonMain/kotlin/org/example/project/JsonDataManager.kt:202-218 | the same as for yarns, over the project ids |
| DataManager.JsonDataManager.CreateNewPattern | composeApp/src/commonMain/kotlin/org/example/project/JsonDataManager.kt:259-273 | the new pattern's id is in [1,000,000, 10,000,000) and avoids every pattern id; its name is `Pattern#<id>` |
| DataManager.JsonDataManager.AddOrUpdateYarn | composeApp/src/commonMain/kotlin/org/example/project/JsonDataManager.kt:163-173 | only the yarn list changes, by `UpsertFirst` |
| DataManager.JsonDataManager.AddOrUpdateProject | composeApp/src/commonMain/kotlin/org/example/project/JsonDataManager.kt:220-230 | only the project list changes, by `UpsertFirst` |
| DataManager.JsonDataManager.AddOrUpdatePattern | composeApp/src/commonMain/kotlin/org/example/project/JsonDataManager.kt:275-285 | only the pattern list changes, by `UpsertFirst` |
| DataManager.JsonDataManager.MarkAssignmentsDeleted | composeApp/src/commonMain/kotlin/org/example/project/JsonDataManager.kt:187-194 | each live assignment that refers to the entity is marked deleted; every other assignment keeps its place and value |
| DataManager.JsonDataManager.DeleteYarn | composeApp/src/commonMain/kotlin/org/example/project/JsonDataManager.kt:175-198 | an unknown id changes nothing; otherwise only the first yarn with the id is marked deleted, and so is every live assignment of that yarn, with nothing else changed |
| DataManager.JsonDataManager.DeleteProject | composeApp/src/commonMain/kotlin/org/example/project/JsonDataManager.kt:232-255 | an unknown id changes nothing; otherwise only the first project with the id is marked deleted, and so is every live assignment of that project, with nothing else changed |
| DataManager.JsonDataManager.DeletePattern | composeApp/src/commonMain/kotlin/org/example/project/JsonDataManager.kt:287-309 | an unknown id changes nothing; otherwise the pattern is marked deleted and every live project that uses it loses the reference; no project's deleted flag changes |
| DataManager.JsonDataManager.UpdatePatternPdfId | composeApp/src/commonMain/kotlin/org/example/project/JsonDataManager.kt:311-318 | only the first pattern with the id gets the new PDF id; an unknown id changes nothing |
| DataManager.JsonDataManager.SetProjectAssignments | composeApp/src/commonMain/kotlin/org/example/project/JsonDataManager.kt:328-358 | the assignments become those of the other projects, in order, followed by the new ones `NewAssignments` describes, drawn against the ids that remained |
| CheckJson.Canon | misc/check_json.py:74 | Python's `==` and hashing treat `True` as `1` and `False` as `0`; a canonical value is never a boolean and every other value is its own |
| CheckJson.Get | misc/check_json.py:59 | `e.get(k)`: `None` for an absent key, otherwise the key's value |
| CheckJson.MatchesNone | misc/check_json.py:58-59 | never more matches than entities, and none exactly when no entity's `"id"` equals the target (an absent `"id"` reads as `None`) |
| CheckJson.RefWarnings | misc/check_json.py:78-90 | an assignment draws no warning iff its project reference and its yarn reference each match exactly one entity |
| CheckJson.RefWarningsOrder | misc/check_json.py:78-90 | each warning names the assignment's id and a match count other than 1; a bad project reference is reported first and a bad yarn reference last |
| CheckJson.FirstUnused | misc/check_json.py:65-68 | the draw the retry loop settles on comes from the cursor on and is not in `used_ids` |
| CheckJson.FirstUnusedSkipsUsed | misc/check_json.py:65-68 | the retry loop skips only used draws, and finds none exactly when every remaining draw is used |
| CheckJson.IdsOf | misc/check_json.py:76 | the id of every processed assignment is among the ids collected |
| CheckJson.StepFacts | misc/check_json.py:63-76 | one pass of the loop body appends one migrated assignment and adds its id to `used_ids`; a generated id was not in `used_ids` |
| CheckJson.StepKeepsConsistent | misc/check_json.py:63-76 | one pass keeps `used_ids` holding the id of every processed assignment, and a generated id is fresh where it is placed |
| CheckJson.FreshAtPrefix | misc/check_json.py:62-70 | whether an id is fresh at a position depends only on the assignments up to that position |
| CheckJson.StepCounts | misc/check_json.py:72-76 | a pass either adds a new id to `used_ids` or appends one duplicate, never both |
| CheckJson.RunExtends | misc/check_json.py:62 | the loop keeps what was processed before and produces one output per assignment |
| CheckJson.AllMigratedCons | misc/check_json.py:62-70 | the assignments are migrated in order when the first one is and the rest are |
| CheckJson.RunMigratesEach | misc/check_json.py:62-70 | the loop keeps the number and order of the assignments; each then has an `"id"`; an id it had is kept; a missing one is added as a draw in [0, 2^31) and is the only change |
| CheckJson.RunUsedIds | misc/check_json.py:70-76 | `used_ids` grows by exactly the ids of the processed assignments |
| CheckJson.AllFreshCons | misc/check_json.py:64-70 | the assignments get fresh ids when the first does and the rest do |
| CheckJson.RunFreshIds | misc/check_json.py:65-69 | every generated id was not in `used_ids` and differs from the id of every EARLIER assignment, whether that id pre-existed or was generated |
| CheckJson.RunCountsNewIds | misc/check_json.py:64-71 | `new_id_count` grows by exactly the number of assignments that had no `"id"` key |
| CheckJson.RunIdsOrDuplicates | misc/check_json.py:72-76 | each assignment either adds a new id to `used_ids` or is recorded once as a duplicate, never both; earlier duplicates are kept |
| CheckJson.DuplicatesAreExtraOccurrences | misc/check_json.py:54-56 | from an empty state, the number of duplicates is the number of assignments less the number of distinct ids |
| CheckJson.RunWarnings | misc/check_json.py:78-90 | warnings only accumulate, and they grow iff some assignment has a reference that does not match exactly once |
| CheckJson.RerunIsIdentity | misc/check_json.py:64-76 | when every assignment already has an `"id"`, the loop changes none of them, generates no id and draws nothing |
| CheckJson.RepeatedIdReported | misc/check_json.py:72-76 | ids 5, 5, 7 give exactly one duplicate, 5 |
| CheckJson.TrueRepeatsOne | misc/check_json.py:74 | an id `true` after an id `1` is reported as a duplicate |
| CheckJson.ProcessAssignments | misc/check_json.py:61-90 | the `for` loop with its inner retry loop computes exactly the state that `Run` describes, starting from an empty `used_ids`, no duplicates and a zero count |
| CheckJson.Document.constructor | misc/check_json.py:26 | the document holds the given top-level lists |
| CheckJson.Process | misc/check_json.py:31-107 | a missing `yarns` aborts before a missing `projects`, and a missing `assignments`/`usages` aborts after them, each with the document unchanged; otherwise a legacy `usages` list moves to `assignments`, `yarns` and `projects` stay as they were, and the assignment list becomes the migrated one, with the count, duplicates and warnings reported |
| ProjectStatus.StatusOf | composeApp/src/commonMain/kotlin/org/example/project/Project.kt:27-31 | FINISHED iff the end date is present and non-blank; IN_PROGRESS iff it is not but the start date is; PLANNING iff neither is |
| ProjectStatus.BlankDatesAreAbsent | composeApp/src/commonMain/kotlin/org/example/project/Project.kt:28-30 | a whitespace-only date gives the same status as a null one |
| ProjectStatus.StatusNamesDistinct | composeApp/src/commonMain/kotlin/org/example/project/Project.kt:6-10 | the three status names are pairwise different |
| ProjectForm.EveryFieldListed | composeApp/src/commonMain/kotlin/org/example/project/ProjectFormScreen.kt:128-140 | the change list considers every compared field |
| ProjectForm.SomeFieldDiffers | composeApp/src/commonMain/kotlin/org/example/project/ProjectFormScreen.kt:128-140 | some compared field differs iff the form is not as it was opened, null texts comparing as "" |
| ProjectForm.ChangedFields | composeApp/src/commonMain/kotlin/org/example/project/ProjectFormScreen.kt:127-143 | the list holds exactly the differing fields, each once, in the declaration order of the form (by `Rank`), and is non-empty (`hasChanges`) iff the form changed |
| ProjectForm.Rank | composeApp/src/commonMain/kotlin/org/example/project/ProjectFormScreen.kt:128-140 | the position of a field in the order the checks are made |
| ProjectForm.RankOfOrder | composeApp/src/commonMain/kotlin/org/example/project/ProjectFormScreen.kt:128-140 | the i-th field of that order has rank i |
| ProjectForm.NonEmptyIffChanged | composeApp/src/commonMain/kotlin/org/example/project/ProjectFormScreen.kt:143 | a list of exactly the differing fields is non-empty iff the form changed |
| ProjectForm.FormStatusAsWrittenAlwaysDisagrees | composeApp/src/commonMain/kotlin/org/example/project/ProjectFormScreen.kt:288-292 | the on-screen status as written never equals the status the saved project gets: the three cases are permuted |
| ProjectForm.FormStatusAsWrittenEmptyForm | composeApp/src/commonMain/kotlin/org/example/project/ProjectFormScreen.kt:288-292 | a form with no dates shows FINISHED while the project is PLANNING |
| ProjectForm.FormStatus | composeApp/src/commonMain/kotlin/org/example/project/ProjectFormScreen.kt:288-292 | the corrected on-screen status: FINISHED iff the end date is non-blank, then IN_PROGRESS iff the start date is non-blank, else PLANNING |
| ProjectForm.FormStatusMatchesSaved | composeApp/src/commonMain/kotlin/org/example/project/ProjectFormScreen.kt:192-194 | the corrected on-screen status equals the status of the project that saving stores |
| ProjectForm.UIntInc | composeApp/src/commonMain/kotlin/org/example/project/ProjectFormScreen.kt:84 | `x + 1u` is `x + 1`, wrapping to 0 past the largest `UInt` |
| ProjectForm.MaxOrZero | composeApp/src/commonMain/kotlin/org/example/project/ProjectFormScreen.kt:84 | `maxOrNull() ?: 0u`: 0 for no ids, otherwise the largest id |
| ProjectForm.FirstTempId | composeApp/src/commonMain/kotlin/org/example/project/ProjectFormScreen.kt:84 | the first temporary id is 1 with no images and exceeds every initial id, unless the largest `UInt` is in use and the addition wraps to 0 |
| ProjectForm.ImageSession.constructor | composeApp/src/commonMain/kotlin/org/example/project/ProjectFormScreen.kt:79-84 | the images are the initial ones and the counter starts at the first temporary id |
| ProjectForm.ImageSession.AddImage | composeApp/src/commonMain/kotlin/org/example/project/ProjectFormScreen.kt:100-103 | `nextTempId++`: the image takes the current counter value, the counter is incremented, and the image is stored under that id |
| ProjectForm.ImageSession.AddImages | composeApp/src/commonMain/kotlin/org/example/project/ProjectFormScreen.kt:90-93 | until the counter wraps, picked image k gets id `nextTempId + k` and is stored under it, and the counter advances by their number; the keys afterwards are the old keys and the new ids; other images stay |
| ProjectForm.TempIdsExceedInitial | composeApp/src/commonMain/kotlin/org/example/project/ProjectFormScreen.kt:84-103 | while no wrap occurs, every id handed out after opening exceeds every initial id |
| ProjectForm.StepCounter | composeApp/src/commonMain/kotlin/org/example/project/ProjectFormScreen.kt:495-506 | only the counter at `index` changes, by exactly +1 or -1, with no lower bound; its name stays |
| ProjectForm.AddCounter | composeApp/src/commonMain/kotlin/org/example/project/ProjectFormScreen.kt:282 | a counter with value 0 is appended and the others stay; a blank dialog name falls back to the default name (the dialog rule at line 685) |
| ProjectForm.SavedProject | composeApp/src/commonMain/kotlin/org/example/project/ProjectFormScreen.kt:188-202 | each blank text field is saved as null and each other one verbatim; the name, counters and pattern are kept, and the image ids are exactly the keys of the image map, each once |
| ProjectForm.KeysListLength | composeApp/src/commonMain/kotlin/org/example/project/ProjectFormScreen.kt:189 | a list of distinct ids that are exactly the keys of the image map has one id per key |
| ProjectForm.DeleteClicked | composeApp/src/commonMain/kotlin/org/example/project/ProjectFormScreen.kt:650-655 | delete opens the restriction dialog iff the project has assignments |
| YarnForm.FilterDigits | composeApp/src/commonMain/kotlin/org/example/project/YarnFormScreen.kt:36 | `filter { it.isDigit() }`: what remains is all decimal digits (ASCII or any other Unicode digit block, as `Text.DigitOfBlocks` states) and is never longer than the input |
| YarnForm.FilterDigitsMembers | composeApp/src/commonMain/kotlin/org/example/project/YarnFormScreen.kt:36 | a character is in the filtered text exactly when it is in the input and is a digit |
| YarnForm.FilterDigitsConcat | composeApp/src/commonMain/kotlin/org/example/project/YarnFormScreen.kt:36 | the filter works piecewise, so the digits keep their input order |
| YarnForm.FilterDigitsKeepsDigits | composeApp/src/commonMain/kotlin/org/example/project/YarnFormScreen.kt:36 | a string of digits passes the filter unchanged |
| YarnForm.NormalizeIntInput | composeApp/src/commonMain/kotlin/org/example/project/YarnFormScreen.kt:35-42 | the output holds only digits and is no longer than the input; exactly one leading '0' is dropped when more digits follow it |
| YarnForm.NormalizeKeepsValue | composeApp/src/commonMain/kotlin/org/example/project/YarnFormScreen.kt:35-42 | dropping the leading zero never changes the number the digits denote |
| YarnForm.NormalizeExamples | composeApp/src/commonMain/kotlin/org/example/project/YarnFormScreen.kt:35-42 | "0" stays "0", "a1b2" gives "12", and "007" gives "07", which a second pass turns into "7", so the function is not idempotent |
| YarnForm.ArabicIndicInputKept | composeApp/src/commonMain/kotlin/org/example/project/YarnFormScreen.kt:35-42 | digits outside ASCII are kept: Arabic-Indic "12" (U+0661 U+0662) normalises to itself |
| YarnForm.SavedAmount | composeApp/src/commonMain/kotlin/org/example/project/YarnFormScreen.kt:156-157 | the saved amount is at least the used amount and at least the parsed entry (0 if it does not parse), and is one of the two |
| YarnForm.SavedAmountAsEntered | composeApp/src/commonMain/kotlin/org/example/project/YarnFormScreen.kt:156-157 | an entered `Int` that covers the usages is saved as entered |
| YarnForm.NewYarnHasChanges | composeApp/src/commonMain/kotlin/org/example/project/YarnFormScreen.kt:132-137 | for a new yarn, the form has changes iff some text field is non-empty or some image was added |
| ProjectAssignments.CoerceIn | composeApp/src/commonMain/kotlin/org/example/project/ProjectAssignmentsScreen.kt:166 | `coerceIn(0, max)` fails iff the range is empty; otherwise a value below the range becomes the minimum, one above it the maximum, and one inside it is kept |
| ProjectAssignments.EditMap | composeApp/src/commonMain/kotlin/org/example/project/ProjectAssignmentsScreen.kt:164-173 | a number is stored for the yarn as `coerceIn(number, 0, max)`; input that is not an `Int` removes the yarn's entry; `max < 0` with a number is the `coerceIn` error; every other yarn's entry is unchanged |
| ProjectAssignments.RetypingIsNoChange | composeApp/src/commonMain/kotlin/org/example/project/ProjectAssignmentsScreen.kt:164-173 | typing back a stored amount that the clamp keeps leaves the map unchanged |
| ProjectAssignments.SaveFilter | composeApp/src/commonMain/kotlin/org/example/project/ProjectAssignmentsScreen.kt:68 | the saved map holds exactly the entries with a positive amount, with their amounts |
| ProjectAssignments.SaveFilterIdempotent | composeApp/src/commonMain/kotlin/org/example/project/ProjectAssignmentsScreen.kt:68 | filtering a saved map again changes nothing |
| ProjectAssignments.AssignmentEditor.constructor | composeApp/src/commonMain/kotlin/org/example/project/ProjectAssignmentsScreen.kt:31 | the current map starts as a copy of the initial one |
| ProjectAssignments.AssignmentEditor.Edit | composeApp/src/commonMain/kotlin/org/example/project/ProjectAssignmentsScreen.kt:164-173 | the current map becomes the edited map, or stays as it was when `coerceIn` throws |
| ProjectAssignments.AssignmentEditor.Saved | composeApp/src/commonMain/kotlin/org/example/project/ProjectAssignmentsScreen.kt:67-70 | the map passed to `onSave` holds exactly the current entries with a positive amount |
| ProjectAssignments.AssignmentEditor.HasChanges | composeApp/src/commonMain/kotlin/org/example/project/ProjectAssignmentsScreen.kt:35-37 | there are changes iff some yarn is in only one of the current and initial maps or has different amounts in them |
| ProjectAssignments.InsertUnassigned | composeApp/src/commonMain/kotlin/org/example/project/ProjectAssignmentsScreen.kt:49-53 | inserting an unassigned yarn places it after every assigned yarn and before the other unassigned ones |
| ProjectAssignments.InsertAssigned | composeApp/src/commonMain/kotlin/org/example/project/ProjectAssignmentsScreen.kt:49-53 | an assigned yarn is inserted in front |
| ProjectAssignments.AssignedFirstSplits | composeApp/src/commonMain/kotlin/org/example/project/ProjectAssignmentsScreen.kt:49-53 | the ordered list is the initially assigned yarns in their original order, followed by all the others in their original order |
| ProjectAssignments.SplitsStep | composeApp/src/commonMain/kotlin/org/example/project/ProjectAssignmentsScreen.kt:49-53 | the split into assigned and unassigned yarns survives putting one more yarn in front |
| ProjectAssignments.StepAssigned | composeApp/src/commonMain/kotlin/org/example/project/ProjectAssignmentsScreen.kt:49-53 | a yarn with a positive initial amount goes in front of the split list |
| ProjectAssignments.StepUnassigned | composeApp/src/commonMain/kotlin/org/example/project/ProjectAssignmentsScreen.kt:49-53 | a yarn without a positive initial amount goes between the assigned and the unassigned yarns |
| ProjectList.InitialActive | composeApp/src/commonMain/kotlin/org/example/project/ProjectListScreen.kt:72-78 | a status is initially active iff its stored toggle is `true` or missing |
| ProjectList.TogglesOf | composeApp/src/commonMain/kotlin/org/example/project/ProjectListScreen.kt:146-148 | the toggles map has one entry per status name, equal to whether the status is active, and no other keys |
| ProjectList.ChipClicked | composeApp/src/commonMain/kotlin/org/example/project/ProjectListScreen.kt:140-149 | a click flips the membership of exactly that status, and the stored toggles mirror the new set |
| ProjectList.TogglesRoundTrip | composeApp/src/commonMain/kotlin/org/example/project/ProjectListScreen.kt:72-78 | reopening the screen with the stored toggles restores the statuses that were active |
| ProjectList.ModifiedDescendingIsPreorder | composeApp/src/commonMain/kotlin/org/example/project/ProjectListScreen.kt:90 | the order of `sortedByDescending { it.modified }` (null last) is total and transitive |
| ProjectList.ShownProjectsCorrect | composeApp/src/commonMain/kotlin/org/example/project/ProjectListScreen.kt:81-90 | `ShownProjects`: the screen shows exactly the projects whose status is active and whose name contains a non-blank filter, ignoring case, each as often as it occurs, most recently modified first and stable for equal stamps |
| ProjectList.EverythingListed | composeApp/src/commonMain/kotlin/org/example/project/ProjectListScreen.kt:81-89 | with every status active and a blank filter, every project is shown |
| ProjectList.ChipCountsAddUp | composeApp/src/commonMain/kotlin/org/example/project/ProjectListScreen.kt:135 | the chip counts are taken over all projects, so the three of them add up to the number of projects |
| ProjectList.FindYarn | composeApp/src/commonMain/kotlin/org/example/project/ProjectListScreen.kt:226 | `find { it.id == id }`: a stored yarn with the id, none exactly when there is no such yarn |
| ProjectList.FindYarnFirst | composeApp/src/commonMain/kotlin/org/example/project/ProjectListScreen.kt:226 | the yarn found is the first with the id |
| ProjectList.UsesYarnTail | composeApp/src/commonMain/kotlin/org/example/project/ProjectListScreen.kt:225-226 | a usage of the project further down still counts as a use |
| ProjectList.YarnsForProject | composeApp/src/commonMain/kotlin/org/example/project/ProjectListScreen.kt:224-227 | the preview holds at most one yarn per usage, each an existing yarn that some usage of the project refers to |
| ProjectList.YarnsForProjectSkips | composeApp/src/commonMain/kotlin/org/example/project/ProjectListScreen.kt:225-226 | usages of other projects, and usages whose yarn is missing, add nothing to the list |
| ProjectList.YarnsForProjectTakes | composeApp/src/commonMain/kotlin/org/example/project/ProjectListScreen.kt:225-226 | a usage of the project whose yarn exists puts that yarn at the front of the list |
| ProjectList.PreviewYarns | composeApp/src/commonMain/kotlin/org/example/project/ProjectListScreen.kt:231 | `take(5)`: the first five yarns of the list, or all of them when there are fewer |
| PatternList.ByNameIsPreorder | composeApp/src/commonMain/kotlin/org/example/project/PatternListScreen.kt:132 | the order of `sortedBy { it.name }` is total and transitive |
| PatternList.ShownPatternsCorrect | composeApp/src/commonMain/kotlin/org/example/project/PatternListScreen.kt:124-132 | `ShownPatterns`: the list holds each matching pattern as often as it occurs and nothing else, so it is a sub-multiset of the input; it is ascending by name and stable for equal names |
| PatternList.BlankFilterKeepsAll | composeApp/src/commonMain/kotlin/org/example/project/PatternListScreen.kt:124-130 | a blank filter shows every pattern |
| PatternList.NullFieldsNeverMatch | composeApp/src/commonMain/kotlin/org/example/project/PatternListScreen.kt:126-127 | a null creator or category never matches: such a pattern is found by its name only |
| Statistics.InsertDistinct | composeApp/src/commonMain/kotlin/org/example/project/StatisticsScreen.kt:59 | inserting a year into an increasing list keeps it increasing and adds exactly that year |
| Statistics.DistinctSorted | composeApp/src/commonMain/kotlin/org/example/project/StatisticsScreen.kt:59 | `distinct().sorted()`: strictly increasing, with exactly the years of the input |
| Statistics.DetectedYears | composeApp/src/commonMain/kotlin/org/example/project/StatisticsScreen.kt:47-60 | the detected years are strictly increasing, and are exactly the parsable first-four-character years of the yarns' `added` dates and the projects' start and end dates |
| Statistics.YarnYearDetected | composeApp/src/commonMain/kotlin/org/example/project/StatisticsScreen.kt:47-60 | a yarn whose `added` date starts with a parsable year contributes that year |
| Statistics.YarnYearListed | composeApp/src/commonMain/kotlin/org/example/project/StatisticsScreen.kt:48 | the yarn years list holds the year of every yarn whose date parses |
| Statistics.YearsDescending | composeApp/src/commonMain/kotlin/org/example/project/StatisticsScreen.kt:61 | the year options are the years as text, the latest first |
| Statistics.DropdownOptions | composeApp/src/commonMain/kotlin/org/example/project/StatisticsScreen.kt:63-68 | "overall" comes first, then the years, the latest first |
| Statistics.DropdownYearParses | composeApp/src/commonMain/kotlin/org/example/project/StatisticsScreen.kt:61-82 | selecting a year option gives back that year when it is parsed |
| Statistics.Categories | composeApp/src/commonMain/kotlin/org/example/project/StatisticsScreen.kt:74-89 | overall: every year from the first to the last detected one, or none; a year: the twelve `"Y-MM"` months; a selection that is not a number: none |
| Statistics.OverallCoversYears | composeApp/src/commonMain/kotlin/org/example/project/StatisticsScreen.kt:74-80 | every detected year has its category in the overall view |
| Statistics.MonthDigits | composeApp/src/commonMain/kotlin/org/example/project/StatisticsScreen.kt:85 | `padStart(2, '0')` gives the two digits "01" … "12" |
| Statistics.StrLeCommonPrefix | composeApp/src/commonMain/kotlin/org/example/project/StatisticsScreen.kt:104-107 | the string order is unchanged by a common prefix |
| Statistics.MonthCategoriesAscending | composeApp/src/commonMain/kotlin/org/example/project/StatisticsScreen.kt:84-86 | the month categories of a year are distinct and ascend in string order, the order start and end keys are compared in |
| Statistics.ActiveNeedsStart | composeApp/src/commonMain/kotlin/org/example/project/StatisticsScreen.kt:101-111 | `ActiveInCategory`: a PLANNING project is never active, and an active project has a start date |
| Statistics.InProgressStaysActive | composeApp/src/commonMain/kotlin/org/example/project/StatisticsScreen.kt:101-111 | an IN_PROGRESS project active in a category stays active in every later one |
| Statistics.FinishedStopsAtEnd | composeApp/src/commonMain/kotlin/org/example/project/StatisticsScreen.kt:101-111 | a FINISHED project is not active in any category at or after its end key |
| Statistics.InProgressCount | composeApp/src/commonMain/kotlin/org/example/project/StatisticsScreen.kt:113-117 | the in-progress count of a category never exceeds the number of projects, and is zero iff no project is active in the category |
| Statistics.Available | composeApp/src/commonMain/kotlin/org/example/project/StatisticsScreen.kt:151-152 | a yarn's available weight is `amount - used` clamped at 0: never negative |
| Statistics.TotalAvailableWeight | composeApp/src/commonMain/kotlin/org/example/project/StatisticsScreen.kt:150-153 | the total available weight is never negative and is at least each yarn's available weight |
| Statistics.KotlinDiv | composeApp/src/commonMain/kotlin/org/example/project/StatisticsScreen.kt:159 | Kotlin's `Int` division truncates toward zero |
| Statistics.KotlinDivBounds | composeApp/src/commonMain/kotlin/org/example/project/StatisticsScreen.kt:159 | the truncated quotient never overshoots in magnitude and is odd-symmetric |
| Statistics.DivBounds | composeApp/src/commonMain/kotlin/org/example/project/StatisticsScreen.kt:159 | for a non-negative dividend, the quotient times the divisor is at most the dividend, by less than one divisor |
| Statistics.MeterageTerm | composeApp/src/commonMain/kotlin/org/example/project/StatisticsScreen.kt:157-159 | 0 when the metreage or the weight is unknown or the weight is not positive; otherwise `grams * meterage / weight` rounded down |
| Statistics.TotalAvailableMeterage | composeApp/src/commonMain/kotlin/org/example/project/StatisticsScreen.kt:154-160 | with non-negative metreages, the total available metreage is never negative |
| Statistics.FinishedCount | composeApp/src/commonMain/kotlin/org/example/project/StatisticsScreen.kt:241 | the number of projects finished in a category never exceeds the number of projects, and is zero iff no project finished in it |
| Statistics.FinishedNotInProgress | composeApp/src/commonMain/kotlin/org/example/project/StatisticsScreen.kt:97-111 | a project finished in a category is not counted as in progress there |
| Statistics.FinishedAndInProgressWithinProjects | composeApp/src/commonMain/kotlin/org/example/project/StatisticsScreen.kt:240-243 | the two bars of the projects chart together never count more than the number of projects |
| Statistics.BoughtMeterage | composeApp/src/commonMain/kotlin/org/example/project/StatisticsScreen.kt:259-265 | the metres bought in a category are never negative when no yarn has a negative amount or length |
| Statistics.UsageMeterage | composeApp/src/commonMain/kotlin/org/example/project/StatisticsScreen.kt:284-290 | a usage whose yarn is gone adds no metres, and one with a non-negative amount adds none below zero |
| Statistics.ProjectUsedMeterage | composeApp/src/commonMain/kotlin/org/example/project/StatisticsScreen.kt:284-291 | the metres a project used are never negative for non-negative amounts and lengths |
| Statistics.SumMeterage | composeApp/src/commonMain/kotlin/org/example/project/StatisticsScreen.kt:284-291 | a sum of usage metres is never negative for non-negative amounts and lengths |
| Statistics.UsedMeterage | composeApp/src/commonMain/kotlin/org/example/project/StatisticsScreen.kt:283-292 | the metres used in a category are never negative for non-negative amounts and lengths |
| Statistics.BoughtAmountConcat | composeApp/src/commonMain/kotlin/org/example/project/StatisticsScreen.kt:259-260 | `BoughtAmount`: the grams bought add up over a split yarn list |
| Statistics.UsedAmountConcat | composeApp/src/commonMain/kotlin/org/example/project/StatisticsScreen.kt:279-282 | `UsedAmount`: the grams used add up over a split project list |
| Statistics.UndatedYarnBoughtNowhere | composeApp/src/commonMain/kotlin/org/example/project/StatisticsScreen.kt:259-265 | a yarn without a purchase date adds neither grams nor metres to any category |
| Statistics.UsedOnlyWhenFinishedThere | composeApp/src/commonMain/kotlin/org/example/project/StatisticsScreen.kt:279-292 | a project that did not finish in a category adds neither grams nor metres used to it |
| Statistics.ChartBars | composeApp/src/commonMain/kotlin/org/example/project/StatisticsScreen.kt:333-341 | the bars are the categories with some non-zero value, all of them, none twice more than in the input (sub-multiset) |
| Statistics.ChartBarsConcat | composeApp/src/commonMain/kotlin/org/example/project/StatisticsScreen.kt:333-341 | the bars of a split category list are the bars of each part, in order: `mapNotNull` keeps the category order |
| Statistics.AllZeroChartEmpty | composeApp/src/commonMain/kotlin/org/example/project/StatisticsScreen.kt:333-343 | when every value is zero there is no bar, so nothing is drawn |
| DateInput.ParseDate | composeApp/src/commonMain/kotlin/org/example/project/components/DateInput.kt:41-49 | no date, or a text that does not split into exactly three dash-separated parts, gives three unset selections; three parts give each part's `toIntOrNull` |
| DateInput.NoDash | composeApp/src/commonMain/kotlin/org/example/project/components/DateInput.kt:101 | a zero-padded non-negative number contains no dash, so it cannot disturb the split |
| DateInput.SplitDate | composeApp/src/commonMain/kotlin/org/example/project/components/DateInput.kt:42-43 | three dash-free parts joined by dashes split back into exactly those three parts |
| DateInput.FormatParseDate | composeApp/src/commonMain/kotlin/org/example/project/components/DateInput.kt:41-49 | round trip: a date formatted by `FormatDate` from a non-negative year, a month 1..12 and a day 1..31 parses back into those three selections |
| DateInput.Emission | composeApp/src/commonMain/kotlin/org/example/project/components/DateInput.kt:96-108 | a complete selection emits its text exactly when it differs from the current date; an incomplete one emits null exactly when a date is set |
| DateInput.EmissionSettles | composeApp/src/commonMain/kotlin/org/example/project/components/DateInput.kt:55-108 | after the owner passes an emitted date back, re-reading it gives the same selection, which emits nothing more |
| DateInput.ClearClicked | composeApp/src/commonMain/kotlin/org/example/project/components/DateInput.kt:238-242 | the clear button, present only while a date is set, emits null |
| DateInput.LengthOfMonth | composeApp/src/commonMain/kotlin/org/example/project/components/DateInput.kt:82 | `YearMonth.of(y, m).lengthOfMonth()`: throws (None) exactly for a month outside 1..12 or a year outside +-999999999; otherwise 29/28 for February by the Gregorian leap rule, 30 for April, June, September, November, 31 otherwise |
| DateInput.DaysInMonth | composeApp/src/commonMain/kotlin/org/example/project/components/DateInput.kt:79-89 | the number of days is the month's length when year and month are set and valid, 31 otherwise; always 28..31 |
| DateInput.DaysCoverMonth | composeApp/src/commonMain/kotlin/org/example/project/components/DateInput.kt:79-90 | every day of an existing month is offered by the day dropdown |
| DateInput.YearOptions | composeApp/src/commonMain/kotlin/org/example/project/components/DateInput.kt:75-76 | twenty-one consecutive years, from ten before to ten after the current year |
| DateInput.RangeFromOne | composeApp/src/commonMain/kotlin/org/example/project/components/DateInput.kt:90 | `(1..n).toList()`: the numbers 1 to n in order, empty for n below 1 |
| DateInput.DateSelection.constructor | composeApp/src/commonMain/kotlin/org/example/project/components/DateInput.kt:41-53 | the selections start as the parsed initial date |
| DateInput.DateSelection.DateChanged | composeApp/src/commonMain/kotlin/org/example/project/components/DateInput.kt:55-69 | a null date clears all three selections; a three-part text sets them; any other text leaves them unchanged |
| DateInput.DateSelection.ResetDay | composeApp/src/commonMain/kotlin/org/example/project/components/DateInput.kt:92-94 | a day beyond the month's length is unset, year and month stay, and afterwards the day never exceeds the month's length |
| DateInput.DateSelection.Select | composeApp/src/commonMain/kotlin/org/example/project/components/DateInput.kt:168-230 | choosing in a dropdown sets that selection and leaves the others |
| ColorPalette.HexDigitValue | composeApp/src/commonMain/kotlin/org/example/project/ColorPalette.kt:28 | a hex digit's value is below 16 |
| ColorPalette.Pow16 | composeApp/src/commonMain/kotlin/org/example/project/ColorPalette.kt:28 | powers of sixteen are positive |
| ColorPalette.HexValueBound | composeApp/src/commonMain/kotlin/org/example/project/ColorPalette.kt:28 | n hex digits have a value below 16^n |
| ColorPalette.ParseHex | composeApp/src/commonMain/kotlin/org/example/project/ColorPalette.kt:28 | `toLong(16)` succeeds exactly on an optional `+` or `-` followed by a non-empty run of hex digits whose signed value is a `Long`, and then gives that value |
| ColorPalette.OrAlpha | composeApp/src/commonMain/kotlin/org/example/project/ColorPalette.kt:28 | `or 0xE6000000L` on a `Long` gives a `Long` that is negative exactly when the operand is |
| ColorPalette.Pow2 | composeApp/src/commonMain/kotlin/org/example/project/ColorPalette.kt:28 | powers of two are positive |
| ColorPalette.DisjointBitOr | composeApp/src/commonMain/kotlin/org/example/project/ColorPalette.kt:28 | OR of numbers with disjoint bits is their sum |
| ColorPalette.BitOrBelow | composeApp/src/commonMain/kotlin/org/example/project/ColorPalette.kt:28 | OR of two numbers below 2^k stays below 2^k |
| ColorPalette.OrAlphaAdds | composeApp/src/commonMain/kotlin/org/example/project/ColorPalette.kt:28 | `or 0xE6000000L` on a 24-bit value adds the alpha byte |
| ColorPalette.ToInt32 | composeApp/src/commonMain/kotlin/org/example/project/ColorPalette.kt:28 | `toInt()` gives a signed 32-bit value congruent to its argument modulo 2^32 |
| ColorPalette.ColorOf | composeApp/src/commonMain/kotlin/org/example/project/ColorPalette.kt:28 | a palette text yields a colour exactly when its digits after "#" parse |
| ColorPalette.ColorsOf | composeApp/src/commonMain/kotlin/org/example/project/ColorPalette.kt:7-28 | the mapped palette exists exactly when every entry parses, has one colour per entry, in order |
| ColorPalette.RgbColor | composeApp/src/commonMain/kotlin/org/example/project/ColorPalette.kt:28 | a "#rrggbb" text gives the negative `Int` with alpha byte 0xE6 over exactly the RGB value the text encodes |
| ColorPalette.PaletteTexts0 | composeApp/src/commonMain/kotlin/org/example/project/ColorPalette.kt:8-12 | the first five palette texts are "#rrggbb" |
| ColorPalette.PaletteTexts1 | composeApp/src/commonMain/kotlin/org/example/project/ColorPalette.kt:13-17 | the next five palette texts are "#rrggbb" |
| ColorPalette.PaletteTexts2 | composeApp/src/commonMain/kotlin/org/example/project/ColorPalette.kt:18-22 | the next five palette texts are "#rrggbb" |
| ColorPalette.PaletteTexts3 | composeApp/src/commonMain/kotlin/org/example/project/ColorPalette.kt:23-27 | the last five palette texts are "#rrggbb" |
| ColorPalette.PaletteTexts | composeApp/src/commonMain/kotlin/org/example/project/ColorPalette.kt:7-27 | the palette has twenty "#rrggbb" texts |
| ColorPalette.RgbColors | composeApp/src/commonMain/kotlin/org/example/project/ColorPalette.kt:28 | a list of RGB texts maps to colours each with alpha 0xE6 over its own RGB value, none transparent |
| ColorPalette.PaletteColors | composeApp/src/commonMain/kotlin/org/example/project/ColorPalette.kt:7-28 | the palette is twenty colours, each 90% opaque over the RGB value of its text, none transparent |
| ColorPalette.KotlinRem | composeApp/src/commonMain/kotlin/org/example/project/ColorPalette.kt:34 | Kotlin's `%` takes the sign of the dividend and is smaller than the divisor in magnitude |
| ColorPalette.IdToColor | composeApp/src/commonMain/kotlin/org/example/project/ColorPalette.kt:30-36 | transparent for an empty palette; otherwise the colour at `id % size`, and an index-out-of-bounds failure when that remainder is negative |
| ColorPalette.NonNegativeIdColor | composeApp/src/commonMain/kotlin/org/example/project/ColorPalette.kt:34-35 | a non-negative id gets the palette colour at `id mod size` |
| ColorPalette.CongruentIdsShareColor | composeApp/src/commonMain/kotlin/org/example/project/ColorPalette.kt:34-35 | non-negative ids congruent modulo the palette size get the same colour |
| ColorPalette.NegativeIdColor | composeApp/src/commonMain/kotlin/org/example/project/ColorPalette.kt:34-35 | a negative id fails unless it is a multiple of the palette size, which gets the first colour |
| ColorPalette.TransparentOnlyWhenEmpty | composeApp/src/commonMain/kotlin/org/example/project/ColorPalette.kt:30-36 | with a palette of non-transparent colours, transparency comes exactly from an empty palette |
| BackDispatcher.RemoveFirst | composeApp/src/jvmMain/kotlin/org/example/project/DesktopBackDispatcher.kt:12-14 | `remove(h)` on an absent handler leaves the list unchanged and otherwise shortens it by one |
| BackDispatcher.FirstIndex | composeApp/src/jvmMain/kotlin/org/example/project/DesktopBackDispatcher.kt:13 | the position of the first handler equal to `h` |
| BackDispatcher.RemoveFirstCuts | composeApp/src/jvmMain/kotlin/org/example/project/DesktopBackDispatcher.kt:13 | removal deletes exactly the first equal handler and keeps the others in order |
| BackDispatcher.Top | composeApp/src/jvmMain/kotlin/org/example/project/DesktopBackDispatcher.kt:17-18 | the handler reached is the last registered one, none exactly when the list is empty |
| BackDispatcher.RegisterUnregister | composeApp/src/jvmMain/kotlin/org/example/project/DesktopBackDispatcher.kt:8-14 | registering then unregistering a new handler restores the stack |
| BackDispatcher.DuplicateKeepsLater | composeApp/src/jvmMain/kotlin/org/example/project/DesktopBackDispatcher.kt:8-18 | a handler registered twice and unregistered once keeps its later place on top |
| BackDispatcher.Dispatcher.constructor | composeApp/src/jvmMain/kotlin/org/example/project/DesktopBackDispatcher.kt:6 | a dispatcher starts with no handlers |
| BackDispatcher.Dispatcher.Register | composeApp/src/jvmMain/kotlin/org/example/project/DesktopBackDispatcher.kt:8-10 | the handler is appended and becomes the top |
| BackDispatcher.Dispatcher.Unregister | composeApp/src/jvmMain/kotlin/org/example/project/DesktopBackDispatcher.kt:12-14 | the first equal handler is removed; an absent one changes nothing |
| BackDispatcher.Dispatcher.Dispatch | composeApp/src/jvmMain/kotlin/org/example/project/DesktopBackDispatcher.kt:16-22 | handled exactly when a handler is registered; only the last one is invoked; the stack is unchanged |
| BackDispatcher.RegisterThenDispatch | composeApp/src/jvmMain/kotlin/org/example/project/DesktopBackDispatcher.kt:8-22 | last in, first out: a back press right after registering `h` invokes `h` |
| NativeZip.LE32 | composeApp/src/iosMain/kotlin/org/example/project/NativeZipSupport.kt:68-71 | an `Int` written as raw memory takes four bytes |
| NativeZip.Unsigned | composeApp/src/iosMain/kotlin/org/example/project/NativeZipSupport.kt:128-132 | four bytes read as a number lie in 0..2^32-1 |
| NativeZip.ReadLE32 | composeApp/src/iosMain/kotlin/org/example/project/NativeZipSupport.kt:128-132 | four bytes read into an `Int` give a signed 32-bit value |
| NativeZip.LE32Unsigned | composeApp/src/iosMain/kotlin/org/example/project/NativeZipSupport.kt:68-71 | the bytes written hold the number modulo 2^32 |
| NativeZip.LE32RoundTrip | composeApp/src/iosMain/kotlin/org/example/project/NativeZipSupport.kt:68-71 | reading back the four bytes written gives the same `Int`, and any larger number modulo 2^32 |
| NativeZip.EntryOf | composeApp/src/iosMain/kotlin/org/example/project/NativeZipSupport.kt:43-54 | an item contributes nothing when it is a directory or its path or contents are unavailable, otherwise one entry at its path with the source directory prefix removed |
| NativeZip.CollectedConcat | composeApp/src/iosMain/kotlin/org/example/project/NativeZipSupport.kt:40-55 | the entries of a split enumeration are the entries of each part, in order |
| NativeZip.CollectedLength | composeApp/src/iosMain/kotlin/org/example/project/NativeZipSupport.kt:40-55 | at most one entry per enumerated item, and none when every item is a directory |
| NativeZip.CollectFiles | composeApp/src/iosMain/kotlin/org/example/project/NativeZipSupport.kt:40-55 | the enumeration loop collects exactly the entries of the readable files, in enumeration order |
| NativeZip.RecordsFront | composeApp/src/iosMain/kotlin/org/example/project/NativeZipSupport.kt:75-96 | the records of a list start with the first file's record |
| NativeZip.FirstUnencodable | composeApp/src/iosMain/kotlin/org/example/project/NativeZipSupport.kt:75-77 | the index of the first path without a UTF-8 form: every path before it has one, the one at it has none, and it is the list length iff all have one |
| NativeZip.WriteRecord | composeApp/src/iosMain/kotlin/org/example/project/NativeZipSupport.kt:76-95 | the four writes of one file append its path length, path, data length and data, in that order |
| NativeZip.WriteArchive | composeApp/src/iosMain/kotlin/org/example/project/NativeZipSupport.kt:66-96 | the stream receives the file count, then each file's length-prefixed path and data in list order, up to the first path without a UTF-8 form; the result is true iff every path has one, and then the bytes are the whole archive |
| NativeZip.CreateArchive | composeApp/src/iosMain/kotlin/org/example/project/NativeZipSupport.kt:18-106 | false when the source does not exist, the output cannot be opened, or a path has no UTF-8 form; once the output opened it holds the count and the records before the first such path; true exactly when all three succeed, and then the output is the archive of the collected files |
| NativeZip.ReadInt | composeApp/src/iosMain/kotlin/org/example/project/NativeZipSupport.kt:128-132 | a 4-byte read succeeds exactly when four bytes remain, giving their signed value and the rest |
| NativeZip.ZeroBytes | composeApp/src/iosMain/kotlin/org/example/project/NativeZipSupport.kt:144 | a fresh byte array of length n holds n bytes |
| NativeZip.ReadBytes | composeApp/src/iosMain/kotlin/org/example/project/NativeZipSupport.kt:144-147 | reading n bytes gives exactly n bytes: those available, padded with the array's zeros when the stream ends early |
| NativeZip.ReadField | composeApp/src/iosMain/kotlin/org/example/project/NativeZipSupport.kt:137-147 | the intended field read: a length-prefixed field always consumes input |
| NativeZip.ReadFieldAsWritten | composeApp/src/iosMain/kotlin/org/example/project/NativeZipSupport.kt:137-147 | the field read as written fails exactly where the intended read fails or reads an empty field (pinning an empty array for `addressOf(0)` throws), and agrees with it otherwise |
| NativeZip.ReadRecord | composeApp/src/iosMain/kotlin/org/example/project/NativeZipSupport.kt:137-162 | the intended record read always consumes input |
| NativeZip.ReadRecordAsWritten | composeApp/src/iosMain/kotlin/org/example/project/NativeZipSupport.kt:137-162 | whatever the record read as written reads, the intended read reads too, and its file data is never empty |
| NativeZip.DecodeFrom | composeApp/src/iosMain/kotlin/org/example/project/NativeZipSupport.kt:135-175 | at most k files are written, and exactly k when every record reads |
| NativeZip.DecodeAdvance | composeApp/src/iosMain/kotlin/org/example/project/NativeZipSupport.kt:135-175 | reading one record carries the extraction loop's invariant to the next iteration |
| NativeZip.Extracted | composeApp/src/iosMain/kotlin/org/example/project/NativeZipSupport.kt:128-177 | for any record reader, a count of zero or below extracts nothing and succeeds; a missing count fails |
| NativeZip.ReadRecords | composeApp/src/iosMain/kotlin/org/example/project/NativeZipSupport.kt:135-177 | the counted loop writes the files of the first records, in order, and reports whether all were read |
| NativeZip.Extract | composeApp/src/iosMain/kotlin/org/example/project/NativeZipSupport.kt:123-177 | extraction writes the files the given record reader decodes from the archive, in order |
| NativeZip.ReadWrittenField | composeApp/src/iosMain/kotlin/org/example/project/NativeZipSupport.kt:78-95 | a written length-prefixed field reads back as its bytes with the intended field read, leaving what followed |
| NativeZip.ReadWrittenRecord | composeApp/src/iosMain/kotlin/org/example/project/NativeZipSupport.kt:75-96 | a written record of a storable file reads back as the file with the intended record read, leaving what followed |
| NativeZip.ReadWrittenRecordAsWritten | composeApp/src/iosMain/kotlin/org/example/project/NativeZipSupport.kt:137-162 | as written, a record with a non-empty path and non-empty data reads back as its file, leaving what followed |
| NativeZip.ReadWrittenRecords | composeApp/src/iosMain/kotlin/org/example/project/NativeZipSupport.kt:75-96 | the records of files that a reader reads back are read back as those files, in order |
| NativeZip.ExtractReadsBack | composeApp/src/iosMain/kotlin/org/example/project/NativeZipSupport.kt:123-177 | an archive whose records a reader reads back extracts as its files, in order, and succeeds |
| NativeZip.ExtractArchive | composeApp/src/iosMain/kotlin/org/example/project/NativeZipSupport.kt:18-177 | round trip with the intended reader: extracting an archive of storable files gives back exactly those files, in order, and succeeds |
| NativeZip.ExtractArchiveAsWritten | composeApp/src/iosMain/kotlin/org/example/project/NativeZipSupport.kt:18-177 | round trip as written: it holds for storable files whose path and data are both non-empty |
| NativeZip.EmptyFileFailsAsWritten | composeApp/src/iosMain/kotlin/org/example/project/NativeZipSupport.kt:158-162 | as written, an archive of one file with empty data extracts nothing and fails; the intended reader extracts the file and succeeds |
| Text.BlankToNull | composeApp/src/commonMain/kotlin/org/example/project/ProjectFormScreen.kt:192-199 | `ifBlank { null }`: null exactly for a blank text, otherwise the text verbatim |
| Text.Trim | composeApp/src/commonMain/kotlin/org/example/project/JsonRepository.kt:152 | `trim()` neither grows the text nor leaves whitespace at either end, and leaves a text without edge whitespace as it is |
| Text.TrimStart | composeApp/src/commonMain/kotlin/org/example/project/JsonRepository.kt:152 | dropping leading whitespace keeps a suffix that does not start with whitespace |
| Text.TrimEnd | composeApp/src/commonMain/kotlin/org/example/project/JsonRepository.kt:152 | dropping trailing whitespace keeps a prefix that does not end with whitespace |
| Text.Split | composeApp/src/commonMain/kotlin/org/example/project/JsonRepository.kt:152 | `split(sep)` always yields at least one part |
| Text.SplitNoSep | composeApp/src/commonMain/kotlin/org/example/project/JsonRepository.kt:152 | a text without the delimiter is a single part |
| Text.SplitAtFirst | composeApp/src/commonMain/kotlin/org/example/project/JsonRepository.kt:152 | the first delimiter ends the first part and the rest splits on its own |
| Text.Take | composeApp/src/commonMain/kotlin/org/example/project/StatisticsScreen.kt:48 | `take(n)` is the prefix of length n, or the whole text when shorter |
| Text.RemovePrefix | composeApp/src/commonMain/kotlin/org/example/project/ColorPalette.kt:28 | `removePrefix` drops the prefix exactly when the text starts with it, otherwise returns the text |
| Text.ReplaceAllAbsent | composeApp/src/commonMain/kotlin/org/example/project/JsonDataManager.kt:151 | replacing a pattern that does not occur changes nothing |
| Text.DigitOf | composeApp/src/commonMain/kotlin/org/example/project/JsonRepository.kt:154-155 | `Character.digit(c, 10)`, used by `toIntOrNull()` and `isDigit()`: a value from -1 to 9, and an ASCII digit has its usual value |
| Text.DigitInBlocks | composeApp/src/commonMain/kotlin/org/example/project/JsonRepository.kt:154-155 | a table lookup finds a character exactly when some block of the table holds it, and gives its offset from that block's zero |
| Text.DigitOfBlocks | composeApp/src/commonMain/kotlin/org/example/project/YarnFormScreen.kt:36 | a character is a digit exactly when one of the Unicode decimal-digit blocks holds it, and its value is its offset from that block's zero |
| Text.NoDigitBelowZero | composeApp/src/commonMain/kotlin/org/example/project/JsonRepository.kt:154-155 | no digit lies below ASCII '0', so the sign test of `toIntOrNull()` never takes a digit for a sign |
| Text.BelowArabicIndic | composeApp/src/commonMain/kotlin/org/example/project/YarnFormScreen.kt:36 | below U+0660 the digits are exactly the ASCII digits |
| Text.ArabicIndicDigit | composeApp/src/commonMain/kotlin/org/example/project/YarnFormScreen.kt:36 | U+0660 to U+0669 are the digits 0 to 9 |
| Text.ArabicIndicParse | composeApp/src/commonMain/kotlin/org/example/project/JsonRepository.kt:154-155 | `toIntOrNull()` reads the Arabic-Indic text U+0661 U+0662 as 12 |
| Text.ParseInt | composeApp/src/commonMain/kotlin/org/example/project/JsonRepository.kt:154-155 | `toIntOrNull()`: a digit run, or a digit run after '+' or '-', gives its signed value when that fits in an `Int`; every other text, and every value outside `Int`, gives null |
| Text.SignedValue | composeApp/src/commonMain/kotlin/org/example/project/JsonRepository.kt:154-155 | a signed digit run gives its signed value exactly when that lies within the 32-bit range, and null otherwise or when a character is not a digit |
| Text.NatToString | composeApp/src/commonMain/kotlin/org/example/project/JsonRepository.kt:53 | a non-negative number's text is a non-empty run of ASCII digits |
| Text.FormatInt | composeApp/src/commonMain/kotlin/org/example/project/JsonRepository.kt:53 | `toString()` of an `Int` is never empty |
| Text.NatToStringValue | composeApp/src/commonMain/kotlin/org/example/project/JsonRepository.kt:53 | the digits written for a number have that number's value |
| Text.FormatParse | composeApp/src/commonMain/kotlin/org/example/project/JsonRepository.kt:53-55 | round trip: `toIntOrNull()` of an `Int`'s text gives the `Int` back |
| Text.LeadingZeroValue | composeApp/src/commonMain/kotlin/org/example/project/StatisticsScreen.kt:85 | a leading zero does not change a digit run's value |
| Text.ZerosValue | composeApp/src/commonMain/kotlin/org/example/project/StatisticsScreen.kt:85 | leading zeros do not change a digit run's value |
| Text.PadZerosParse | composeApp/src/commonMain/kotlin/org/example/project/StatisticsScreen.kt:85 | a zero-padded non-negative `Int` parses back to itself |
| Text.FormatIntChars | composeApp/src/commonMain/kotlin/org/example/project/JsonRepository.kt:53 | an `Int`'s text holds only digits and a minus sign, never a comma |
| Text.Zeros | composeApp/src/commonMain/kotlin/org/example/project/StatisticsScreen.kt:85 | k zero characters |
| Text.PadZeros | composeApp/src/commonMain/kotlin/org/example/project/StatisticsScreen.kt:85 | `padStart(n, '0')` prefixes zeros up to length n and leaves a text of that length or more unchanged |
| Text.ContainsEmpty | composeApp/src/commonMain/kotlin/org/example/project/ProjectListScreen.kt:84 | every text contains the empty filter |
| Text.StrLeTotal | composeApp/src/commonMain/kotlin/org/example/project/StatisticsScreen.kt:104-107 | string comparison is total |
| Text.StrLeTrans | composeApp/src/commonMain/kotlin/org/example/project/StatisticsScreen.kt:104-107 | string comparison is transitive |
| Text.StrLeAntisym | composeApp/src/commonMain/kotlin/org/example/project/StatisticsScreen.kt:104-107 | string comparison is antisymmetric |
| Lists.Filter | composeApp/src/commonMain/kotlin/org/example/project/JsonRepository.kt:131-132 | `filter` keeps only elements of the list that satisfy the predicate, and every element that does; never more elements than the list |
| Lists.FilterConcat | composeApp/src/commonMain/kotlin/org/example/project/JsonRepository.kt:131-132 | filtering distributes over concatenation |
| Lists.FilterSubMultiset | composeApp/src/commonMain/kotlin/org/example/project/JsonRepository.kt:131-132 | a filtered list is a sub-multiset of its input |
| Lists.FilterAll | composeApp/src/commonMain/kotlin/org/example/project/JsonRepository.kt:131-132 | filtering with a predicate every element meets changes nothing |
| Lists.FilterNone | composeApp/src/commonMain/kotlin/org/example/project/JsonRepository.kt:131-132 | filtering with a predicate no element meets gives the empty list |
| Lists.FilterOfFilter | composeApp/src/commonMain/kotlin/org/example/project/JsonRepository.kt:131-132 | filtering by a predicate that implies the first filter's is the same as filtering once |
| Lists.Count | composeApp/src/commonMain/kotlin/org/example/project/ProjectListScreen.kt:135 | a count never exceeds the length of the list |
| Lists.CountDisjoint | composeApp/src/commonMain/kotlin/org/example/project/StatisticsScreen.kt:240-243 | the counts of two predicates that never hold together add up to at most the length of the list |
| Lists.MapReversed | composeApp/src/commonMain/kotlin/org/example/project/StatisticsScreen.kt:61 | `asReversed().map(f)`: one image per element, the last element's image first |
| Lists.TakeList | composeApp/src/commonMain/kotlin/org/example/project/ProjectListScreen.kt:234 | `take(n)` is the first n elements, or the whole list when shorter |
| Sorting.InsertPerm | composeApp/src/commonMain/kotlin/org/example/project/PatternListScreen.kt:132 | inserting adds exactly the element |
| Sorting.InsertSorted | composeApp/src/commonMain/kotlin/org/example/project/PatternListScreen.kt:132 | inserting into a sorted list keeps it sorted |
| Sorting.InsertRun | composeApp/src/commonMain/kotlin/org/example/project/PatternListScreen.kt:132 | inserting keeps the relative order of equal-keyed elements, the new one first |
| Sorting.StableSortCorrect | composeApp/src/commonMain/kotlin/org/example/project/PatternListScreen.kt:132 | `StableSort` (`sortedBy`) is ordered, a permutation of its input, and stable: equal keys keep their input order |
| Sorting.StableSortLength | composeApp/src/commonMain/kotlin/org/example/project/ProjectListScreen.kt:90 | sorting keeps the length |

## Left out

- JSON encoding and decoding, file handlers, the backup rename, `json.load`/`json.dump`, argparse and the wording of printed messages: the stash file is held as its decoded structure, and saving or loading is modelled on that structure.
- `importData`, `getRawJson` and the backup helpers of `JsonDataManager`: they are file I/O around `load`.
- `Logger.log` and `GlobalScope.launch`: logging side effects and concurrency.
- Timestamps (`modified`, `lastModified`, `getCurrentTimestamp`, `LocalDate.now()`): the current time and the current year are parameters.
- Random numbers (`random.getrandbits`, `Random.nextInt`): a sequence of draws is passed in. When the draws run out the model stops with an explicit outcome (`CheckJson.DrawsExhausted`, `None` from `DataManager.JsonDataManager.CreateNewYarn` and its siblings, `complete == false` from `DataManager.JsonDataManager.SetProjectAssignments`), where the source would keep drawing.
- 32-bit overflow of sums and differences of amounts (`sumOf`, `amount - assigned`, meterage products): the model uses unbounded integers there.
- Text.DigitOf: the digit table holds the decimal-digit blocks of the Basic Multilingual Plane only. A Kotlin `Char` is one UTF-16 unit, so a digit beyond that plane reaches `isDigit` as two surrogate halves, neither of them a digit; the model sees one character that the table also rejects, so both give the same results.
- `contains(filter, ignoreCase = true)` folds only ASCII letters; the full Unicode case folding of the JVM is not modelled.
- String comparison is by code point of `seq<char>`, not by UTF-16 unit; the two differ only for characters outside the Basic Multilingual Plane.
- The JSON-text search filters (`Json.encodeToString(...).contains`) in `ProjectAssignmentsScreen.kt` and `YarnListScreen.kt`: they search a serialisation the model does not have.
- `YarnListScreen.kt`: it relies on yarn fields that no shown model class defines.
- Floating-point code: the chart's `Float` values are modelled as integers, and the skeins/grams conversions, unit conversion and size formatting are not modelled.
- Kotlin `Map` iteration order: the entries passed to `setProjectAssignments` and stored in the flat usage object are a sequence in iteration order.
- Python specifics in `CheckJson`: ids are JSON scalars (`null`, booleans, integers, strings) with `True == 1`; floats, unhashable ids and entities that are not objects are not modelled, nor is the key order of the dumped document.
- `NativeZip`: UTF-8 encoding and decoding of paths are parameters, the encoding failing for a path without a UTF-8 form; an output path that is null counts as an output that does not open; write errors the stream reports without throwing are not modelled; a field cut short by the end of the stream keeps the zeros its fresh byte array was allocated with, and a 4-byte integer read that comes up short is a failure rather than a partly filled value; creating directories and writing the extracted files are the list of entries produced.
- `ColorPalette.ParseHex` accepts only ASCII hex digits after the optional sign, where `toLong(16)` also accepts other Unicode digits; the palette uses ASCII only.
- `BackDispatcher.Dispatcher.Dispatch` returns the handler it invokes instead of running it: handlers are opaque values.
- `DataManager.AvailableForYarn`: its own contract states only the missing-yarn and nothing-counted cases; the general value is stated by the lemmas `DataManager.AvailableForOwnProject` and `DataManager.AvailableCanBeNegative`.
- Compose layout, dialogs and `remember`/`LaunchedEffect` plumbing: only the state each screen computes is modelled.

## Findings

| source | as written | input that shows it | evidently intended | confidence | as-written member | corrected member |
|---|---|---|---|---|---|---|
| composeApp/src/commonMain/kotlin/org/example/project/ProjectFormScreen.kt:288-292 | the on-screen status is FINISHED when the end date is blank, IN_PROGRESS when the start date is blank, PLANNING otherwise: the three cases of `Project.status` permuted | start date "" and end date "" shows FINISHED, while the saved project's status is PLANNING | the status `Project.kt:27-31` gives the saved project | not executed | ProjectForm.FormStatusAsWritten with ProjectForm.FormStatusAsWrittenEmptyForm and ProjectForm.FormStatusAsWrittenAlwaysDisagrees | ProjectForm.FormStatus with ProjectForm.FormStatusMatchesSaved |
| composeApp/src/iosMain/kotlin/org/example/project/NativeZipSupport.kt:158-162 | a data field of length 0 is read into `ByteArray(0)`, whose `addressOf(0)` throws; the catch returns false before the file is written, and so does an empty path field at lines 144-147 | an archive holding one file with empty contents | empty files extract as empty files, as they were archived | not executed | NativeZip.ReadFieldAsWritten with NativeZip.EmptyFileFailsAsWritten | NativeZip.ReadField with NativeZip.ExtractArchive |
