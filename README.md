# Skills Manager — a verified model of its category and enable-state engine

Skills Manager is a desktop app (Tauri: a Rust backend and a React frontend). It manages the
"skills" of a project: folders holding a `SKILL.md`, kept under `.claude/skills` when enabled
and under `.claude/disabled-skills` when disabled. Skills are grouped into user-defined
categories. The backend stores them in `.claude/skill-manager-config.json` as a record from
each category name to the names of its skills, and nothing else. The frontend also keeps a
display order of the categories, which the backend does not store (see "Findings").

The model covers four parts of the app:
- The frontend engine (`useSkills`). It reconciles a freshly loaded configuration with the
  loaded skills. It keeps the state of the screens (skills, configuration, selected category,
  selected skill) and applies every category and enable-state operation. It derives the views
  the screens show.
- The pure decisions of the Rust backend. These are the description parser, the file-list
  order, how skills are loaded, which directory a toggle moves between, and the default
  configuration.
- The guards and reorders of the two category screens (the tab bar and the editor dialog).
  These decide which calls reach the engine.
- The search filter and the header statistics of the main window.

A JavaScript `Record<string, string[]>` is modelled as `Types.Categories`: a key sequence in
insertion order plus a map. JavaScript key order matters to `renameCategory` and to the
derived views. Strings are `seq<char>`. Trimming and lowercasing are ASCII only.

Modules, one per file:
- `wrappers`: Option, Result, Outcome.
- `seqs`: filter, sub-sequence, dedup, replace, and lemmas about them.
- `strings`: trim, find, first-replace, lines.
- `sorting`: in-place insertion sort on an `array`.
- `types`: the data types.
- `normalize`: `normalizeConfig`.
- `views`: the derived views.
- `skillpaths`: `updateSkillPaths`.
- `catops`: the category operations on values.
- `engine`: the `useSkills` state as a class.
- `backend`: the `lib.rs` decisions.
- `guards`, `tabs` and `editor`: the category screens.
- `search`: the `App.tsx` filter and statistics.

Loops that build a result step by step are methods with loop invariants: the loops of
`normalizeConfig`, the per-category loops of `moveSkillToCategory`, `deleteSkill`,
`removeCategory` and `renameCategory`, the file and skill loops of `lib.rs`, and the sort.
Each is proved equal to a specification function, and the lemmas are about those functions.
There are two exceptions:
- The `for…of` count loops of `skillCounts` and `enabledCounts` (src/hooks/useSkills.ts:126-128
  and 135-137) are map comprehensions, because each entry is a count that does not depend on
  the others.
- The early-return line searches of `parse_skill_description` (src-tauri/src/lib.rs:100-110)
  are a recursive first-index function.

Handler state that the source updates step by step is a class with `modifies` clauses.

## Model

| member | source | states |
|---|---|---|
| Normalize.NormalizeConfig | src/hooks/useSkills.ts:5-46 | The loops compute `Normalized`. The keys keep their order, the result always has an order, and that order holds exactly the keys. |
| Normalize.RepairOrder | src/hooks/useSkills.ts:12-24 | The order loop computes the repaired order: the stored order (or the keys when it is missing or empty), then the missing keys, then only entries that are keys. |
| Normalize.CollectCategorized | src/hooks/useSkills.ts:26-31 | The nested loop collects exactly the names that some category lists. |
| Normalize.AppendMissing | src/hooks/useSkills.ts:17-21 | The order keeps its prefix and gains exactly the keys it lacked. |
| Normalize.RepairedOrder | src/hooks/useSkills.ts:12-24 | The repaired order holds exactly the category keys. |
| Normalize.AppendMissingLayout | src/hooks/useSkills.ts:17-21 | With distinct keys, the missing keys follow the seed in key order. |
| Normalize.RepairedOrderLayout | src/hooks/useSkills.ts:12-24 | Seed entries that are keys keep their relative order, and the missing keys follow in key order. |
| Normalize.RepairedOrderDistinct | src/hooks/useSkills.ts:12-24 | A duplicate-free stored order gives a duplicate-free repaired order. |
| Normalize.NormalizedConsistent | src/hooks/useSkills.ts:5-46 | With a duplicate-free stored order, the result's order lists every key exactly once. |
| Normalize.RepairKeepsConsistentOrder | src/hooks/useSkills.ts:12-24 | An order that is already complete and duplicate free is returned unchanged. |
| Normalize.Orphans | src/hooks/useSkills.ts:33-35 | An orphan is exactly a loaded skill name that no list holds. |
| Normalize.NormalizedLists | src/hooks/useSkills.ts:33-45 | The keys are unchanged and every list other than the first category's is copied verbatim. The first category's list gains the orphans, in load order, after its own entries. With no categories the record is unchanged, so orphans are dropped. |
| Normalize.WithOrphansLists | src/hooks/useSkills.ts:37-43 | Orphan assignment alone: only the first key of the order changes, and it gets the orphans appended. |
| Normalize.WithOrphansKeys | src/hooks/useSkills.ts:37-43 | Orphan assignment keeps the record's keys. |
| Normalize.ListedInMembers | src/hooks/useSkills.ts:26-31 | The names collected over some keys are exactly those listed under one of them. |
| Normalize.ListedInAll | src/hooks/useSkills.ts:26-31 | Collecting over all keys gives every categorised name. |
| Normalize.NonEmptyOrder | src/hooks/useSkills.ts:37-38 | An order holding exactly the keys of a non-empty record is non-empty, so the first category exists. |
| Normalize.NormalizedCoversSkills | src/hooks/useSkills.ts:33-45 | With at least one category, every loaded skill ends up listed. |
| Normalize.RepairTwice | src/hooks/useSkills.ts:12-24 | A second order repair gives the same order. |
| Normalize.NormalizeIdempotent | src/hooks/useSkills.ts:5-46 | Normalising the output again with the same skills changes nothing. |
| Normalize.NormalizedListsOnce | src/hooks/useSkills.ts:26-45 | If no name was listed under two categories, none is afterwards either, and every loaded skill is listed. |
| Normalize.ListedOnceAfter | src/hooks/useSkills.ts:37-43 | The orphans go to one list only, so two lists that hold the same name after reconciliation are the same list. |
| Views.CategoriesViewShowsKeys | src/hooks/useSkills.ts:113-115 | With a consistent order, the tabs are the categories, each once. An empty order array is shown empty, because `\|\|` keeps it. A missing order falls back to key order. |
| Views.SkillsInCategory | src/hooks/useSkills.ts:117-120 | An order-preserving sub-list of the skills. A skill is in it exactly when its name is in the selected category's list. |
| Views.SkillCount | src/hooks/useSkills.ts:123-130 | At most the list's length. It is the full length when every entry names an existing skill, and zero when none does. |
| Views.ExistingFilterBounds | src/hooks/useSkills.ts:127-128 | Filtering a list by existing names keeps it whole when all its entries exist, and empties it when none do. |
| Views.EnabledCount | src/hooks/useSkills.ts:133-139 | Counts the skills that are listed and enabled: it equals the number of skills exactly when every skill is listed and enabled, and it is zero exactly when none is. It is at most the number of skills. |
| Views.SkillCounts | src/hooks/useSkills.ts:123-130 | There is one entry per category key, and it is that list's `SkillCount`, so at most the list's length. |
| Views.EnabledCounts | src/hooks/useSkills.ts:133-139 | There is one entry per category key, and it is that list's `EnabledCount`, so at most the number of skills. |
| Views.EnabledCountsAtMostSkillCounts | src/hooks/useSkills.ts:123-139 | With unique skill names, every tab's enabled count is at most its skill count, entry by entry of the two maps. |
| Views.EnabledAtMostListed | src/hooks/useSkills.ts:133-139 | With unique skill names, the enabled count is at most the number of distinct existing names listed. |
| Views.EnabledAtMostCount | src/hooks/useSkills.ts:123-139 | With unique skill names, a category's enabled count never exceeds its skill count. |
| SkillPaths.UpdateSkillPaths | src/hooks/useSkills.ts:141-162 | Sets the flag and rewrites the skill path and each file path. Keeps the name, description and content, the number of files, and each file's name and kind. |
| SkillPaths.ReplaceBack | src/hooks/useSkills.ts:143-150 | Replacing the first segment and then replacing it back restores a string that did not hold the replacement segment. |
| SkillPaths.NoEarlierOccurrence | src/hooks/useSkills.ts:143-150 | A segment-delimited replacement creates no occurrence before the replaced position. |
| SkillPaths.SpliceFound | src/hooks/useSkills.ts:143-150 | After the splice, the first occurrence of the new segment is the one spliced in. |
| SkillPaths.SpliceBack | src/hooks/useSkills.ts:143-150 | Splicing the old segment back where the new one went gives the original string. |
| SkillPaths.DisableEnablePath | src/hooks/useSkills.ts:143-150 | Disabling and then enabling is the identity on a path without `/disabled-skills/`. |
| SkillPaths.EnableDisablePath | src/hooks/useSkills.ts:143-150 | Enabling and then disabling is the identity on a path without `/skills/`. |
| SkillPaths.DisableEnableSkill | src/hooks/useSkills.ts:141-162 | Disabling and re-enabling an enabled skill gives it back, paths included, when none of its paths holds `/disabled-skills/`. |
| SkillPaths.EnableDisableSkill | src/hooks/useSkills.ts:141-162 | Enabling and re-disabling a disabled skill gives it back, when none of its paths holds `/skills/`. |
| Engine.SetEnabled | src/hooks/useSkills.ts:164-171 | The length and names are kept. Exactly the skills whose names are listed get the new state, with paths rewritten. Every other skill is unchanged. |
| Engine.SetEnabledRoundTrip | src/hooks/useSkills.ts:164-171 | Disabling listed enabled skills and enabling them again restores the list, when their paths do not already hold `/disabled-skills/`. |
| Engine.FindSkill | src/hooks/useSkills.ts:174 | `None` exactly when no skill has the name. Otherwise it is the first skill with that name. |
| Engine.FindSkillStep | src/hooks/useSkills.ts:174 | The search past a first skill of another name gives the first match of the whole list. |
| Engine.Failures | src/hooks/useSkills.ts:190-198 | Every rejected request is reported, and only rejected requests are: one entry per rejected outcome, in request order. |
| Engine.ReloadSelection | src/hooks/useSkills.ts:74-77 | A selection that is a category stays. Otherwise, when there are categories, it moves to a category. With no categories it stays. |
| Engine.RemoveSelectionStays | src/hooks/useSkills.ts:270-273 | After a removal, a selected category is still a category. A selection other than the removed one is kept. |
| Engine.RemoveCategoryConsistent | src/hooks/useSkills.ts:250-274 | Removal keeps a consistent order consistent and the selection valid. |
| Engine.SkillsEngine.constructor | src/hooks/useSkills.ts:49-54 | The initial state: no skills, an empty record with an empty order, and no selection. |
| Engine.SkillsEngine.Reload | src/hooks/useSkills.ts:57-84 | Nothing happens before the app is ready. A failed load keeps the data and records the error. A successful load stores the skills and the reconciled configuration, and applies the selection rule. |
| Engine.SkillsEngine.SelectCategory | src/hooks/useSkills.ts:51 | Only the selected category changes. |
| Engine.SkillsEngine.SelectSkill | src/hooks/useSkills.ts:52 | Only the selected skill changes. |
| Engine.SkillsEngine.SetEnabledForSkillNames | src/hooks/useSkills.ts:164-171 | The listed skills, and the selected skill when it is one of them, take the new state. Nothing else changes. |
| Engine.SkillsEngine.ToggleSkill | src/hooks/useSkills.ts:173-185 | An unknown name sends nothing and changes nothing. Otherwise the flipped state is requested and applied only when the move succeeds. |
| Engine.SkillsEngine.SetEnabledForCategory | src/hooks/useSkills.ts:187-201 | Sends one request per listed name and reports every rejection. Every listed skill takes the target state whatever the outcomes. |
| Engine.SkillsEngine.EnableAllInCategory | src/hooks/useSkills.ts:203-205 | One enable request per listed name, every rejection reported. Every listed skill, and the selected skill when listed, is enabled locally. Nothing else changes. |
| Engine.SkillsEngine.DisableAllInCategory | src/hooks/useSkills.ts:207-209 | One disable request per listed name, every rejection reported. Every listed skill, and the selected skill when listed, is disabled locally. Nothing else changes. |
| Engine.SkillsEngine.MoveSkillToCategory | src/hooks/useSkills.ts:211-227 | Only the record changes. A consistent order stays consistent. The configuration is saved. |
| Engine.SkillsEngine.DeleteSkill | src/hooks/useSkills.ts:229-241 | The skill leaves the list of skills and every category list. A selection of it is cleared. |
| Engine.SkillsEngine.AddCategory | src/hooks/useSkills.ts:243-248 | The record gains the name and the order ends with it. A fresh name keeps the order consistent. |
| Engine.SkillsEngine.RemoveCategory | src/hooks/useSkills.ts:250-274 | Refused with at most one category (no save). Otherwise the category is removed, and a selection of it moves to the new first category or to `''`. |
| Engine.SkillsEngine.RenameCategory | src/hooks/useSkills.ts:276-297 | A no-op for an empty or unchanged name. Otherwise the key and order entries are renamed in place and the selection follows. A fresh name keeps the order consistent. |
| Engine.SkillsEngine.ReorderCategories | src/hooks/useSkills.ts:299-304 | Only the order changes. A permutation keeps it consistent. |
| CategoryOps.WithoutName | src/hooks/useSkills.ts:216-220 | Keeps the keys. The name is in no list, and every other name is exactly where it was. |
| CategoryOps.RemoveFromLists | src/hooks/useSkills.ts:216-220 | The key loop computes `WithoutName`. |
| CategoryOps.RemovedStep | src/hooks/useSkills.ts:216-220 | One step of the key loop keeps the record valid and drops the name from one more list. |
| CategoryOps.RemovedAll | src/hooks/useSkills.ts:216-220 | Once every key is visited, the name is gone from every list. |
| CategoryOps.MovedEffect | src/hooks/useSkills.ts:211-227 | Keys and order are kept. The name is in no list but the target's, where it occurs once, at the end. No other name moves. |
| CategoryOps.AppendedOnce | src/hooks/useSkills.ts:221-223 | Appending a name no list holds puts it exactly once at the end of the target's list. Nothing else moves. |
| CategoryOps.MoveSkill | src/hooks/useSkills.ts:213-225 | The loop computes `Moved`. |
| CategoryOps.RenameKeys | src/hooks/useSkills.ts:279-287 | The entry loop computes `Renamed`. |
| CategoryOps.RenamedValid | src/hooks/useSkills.ts:279-287 | The renamed record has unique keys that match its map. |
| CategoryOps.LastOfSnoc | src/hooks/useSkills.ts:281-286 | The later of the two colliding entries wins, one key at a time. |
| CategoryOps.RenamedKeysSnoc | src/hooks/useSkills.ts:281-286 | The renamed keys are built one entry at a time. |
| CategoryOps.RenamedListsSnoc | src/hooks/useSkills.ts:281-286 | The renamed lists are built one entry at a time. |
| CategoryOps.RenamedListsSnocHas | src/hooks/useSkills.ts:281-286 | One entry adds its renamed key to the domain. |
| CategoryOps.RenameStep | src/hooks/useSkills.ts:281-286 | One iteration of the rename loop matches `Renamed` of the keys visited so far. |
| CategoryOps.LastOfOnly | src/hooks/useSkills.ts:281-286 | When only one of the two names is a key, the last occurrence is that one. |
| CategoryOps.RenamedFresh | src/hooks/useSkills.ts:276-297 | Renaming to a fresh name replaces the key in place and keeps its list under the new name. |
| CategoryOps.RenamedListsFresh | src/hooks/useSkills.ts:279-287 | With a fresh name, the old list moves to the new key and every other list stays. |
| CategoryOps.RenamedUnknown | src/hooks/useSkills.ts:279-287 | Renaming a name that is not a key leaves the record unchanged. |
| CategoryOps.RenamedListsUnknown | src/hooks/useSkills.ts:279-287 | Renaming an unknown key keeps every list. |
| CategoryOps.ReplaceAbsent | src/hooks/useSkills.ts:289 | Replacing a value that does not occur changes nothing. |
| CategoryOps.AddedCategory | src/hooks/useSkills.ts:243-248 | The name gets an empty list, and the order gains it at the end. |
| CategoryOps.RemovedCategory | src/hooks/useSkills.ts:255-269 | The key leaves the record and the order. Its list is appended to the new first category. Every other list is kept. |
| CategoryOps.AddKeepsConsistent | src/hooks/useSkills.ts:243-248 | Adding a fresh name keeps the order consistent and puts the name last. |
| CategoryOps.RemoveKeepsConsistent | src/hooks/useSkills.ts:255-269 | Removing a category keeps the order consistent. |
| CategoryOps.RenameKeepsConsistent | src/hooks/useSkills.ts:276-297 | Renaming to a fresh name keeps the order consistent. |
| CategoryOps.MoveKeepsConsistent | src/hooks/useSkills.ts:211-241 | Moving or deleting a skill keeps the order consistent. |
| CategoryOps.ReorderKeepsConsistent | src/hooks/useSkills.ts:299-304 | Reordering by a permutation keeps the order consistent. |
| Backend.FirstIndex | src-tauri/src/lib.rs:100-110 | `None` exactly when no line qualifies. Otherwise it is the first qualifying line. |
| Backend.FirstWithUnique | src-tauri/src/lib.rs:100-110 | The first qualifying line is unique. |
| Backend.ParseSkillDescription | src-tauri/src/lib.rs:98-116 | The first `description:` line wins, with its value trimmed and unquoted. Failing that, the first text line, truncated to 100 characters. Failing that, "No description". |
| Backend.NameLeTotal | src-tauri/src/lib.rs:143-150 | The name order compares every pair. |
| Backend.NameLeTrans | src-tauri/src/lib.rs:143-150 | The name order is transitive. |
| Backend.FileLeTotalPreorder | src-tauri/src/lib.rs:143-150 | The file comparator is a total preorder, so sorting with it is well defined. |
| Backend.SkillLeTotalPreorder | src-tauri/src/lib.rs:190-196 | The skill comparator is a total preorder. |
| Backend.SortFiles | src-tauri/src/lib.rs:143-150 | A permutation with directories before files and names in order within each kind. |
| Backend.GetSkillFiles | src-tauri/src/lib.rs:126-152 | A permutation of the directory's entries without SKILL.md, sorted. SKILL.md never appears in it. |
| Backend.SameElements | src-tauri/src/lib.rs:126-152 | Lists with the same multiset hold the same entries. |
| Backend.ListDirectory | src-tauri/src/lib.rs:273-299 | Refuses anything that is not a directory. Otherwise returns every entry, sorted directories first. |
| Backend.LoadFromDir | src-tauri/src/lib.rs:155-187 | One skill per SKILL.md found, in walk order, with the root's state, its folder name, its content, description and files. |
| Backend.BuildSkill | src-tauri/src/lib.rs:161-184 | Builds one skill from one found SKILL.md. |
| Backend.BuiltSnoc | src-tauri/src/lib.rs:155-187 | The walk's list extended by one skill built from the next SKILL.md is still built in order. |
| Backend.LoadSkills | src-tauri/src/lib.rs:119-199 | Refused without a project. Otherwise a name-sorted permutation of the enabled root's skills (`enabled`) and the disabled root's skills (not `enabled`). |
| Backend.SortSkills | src-tauri/src/lib.rs:196 | A name-sorted permutation. |
| Backend.ToggleEndpoints | src-tauri/src/lib.rs:214-220 | Enabling moves into the enabled root, disabling into the disabled root. |
| Backend.ToggleEndpointsOpposite | src-tauri/src/lib.rs:214-220 | Enabling and disabling are opposite moves between two distinct directories. |
| Backend.ToggleSkill | src-tauri/src/lib.rs:202-227 | Refused without a project. A failure to create the enabled root, then the disabled root, is returned as that error. With both roots ready: a missing source succeeds with no move, a failed rename is reported, and a completed rename returns the move between the chosen endpoints. |
| Backend.DefaultCategories | src-tauri/src/lib.rs:242-244 | The single empty category 未分類. |
| Backend.LoadConfigAsWritten | src-tauri/src/lib.rs:230-253 | Refused without a project. The stored categories when readable, otherwise the default. |
| Backend.ReorderLostAsWritten | src-tauri/src/lib.rs:26-29 | As written, any saved order comes back as key order after a reload. |
| Backend.ReorderLostExample | src-tauri/src/lib.rs:256-260 | The order [b, a] is saved and reloads as [a, b]. |
| Backend.LoadConfig | src-tauri/src/lib.rs:230-253 | The corrected load: the stored configuration with its order, otherwise the default with no order. |
| Backend.ReorderSurvivesReload | src/hooks/useSkills.ts:299-304 | With the order stored, a consistent order survives saving and reloading. |
| Guards.AddGuard | src/components/CategoryTabs.tsx:28-34 | Forwards exactly a trimmed name that is not blank and not already a category, and forwards it trimmed. |
| Guards.AddGuardKeepsConsistent | src/components/CategoryEditor.tsx:60-65 | A name the add guard lets through keeps the order consistent and appears as the last tab. |
| Guards.RenameGuardAsWritten | src/components/CategoryEditor.tsx:67-72 | Forwards exactly a trimmed value that is not blank and differs from the old name. There is no collision check. |
| Guards.RenameCollisionAsWritten | src/components/CategoryEditor.tsx:67-72 | Renaming A of [A, B] to "B" passes the guard. It loses A's list and duplicates "B" in the order. |
| Guards.CollisionStart | src/components/CategoryEditor.tsx:67-72 | The configuration of that example is consistent, and the guard lets "B" through. |
| Guards.CollisionKeys | src/hooks/useSkills.ts:279-289 | In that example both keys become "B" and one is dropped, while the order becomes ["B", "B"]. |
| Guards.CollisionLists | src/hooks/useSkills.ts:279-287 | In that example only B's own (empty) list is left. |
| Guards.RenameGuard | src/components/CategoryEditor.tsx:67-72 | The corrected guard: additionally refuses a name that is already a category. |
| Guards.RenameGuardKeepsConsistent | src/components/CategoryEditor.tsx:67-72 | Through the corrected guard, a rename keeps the order consistent and keeps every list. |
| Guards.DeleteVisibleNotRefused | src/components/CategoryEditor.tsx:263 | When an order is present, a delete offered on the shown tabs is never refused by the engine's at-most-one-category guard. |
| Engine.OfferedDeleteAccepted | src/hooks/useSkills.ts:250-254 | A valid engine always holds an order, so a delete the editor offers on its tabs always passes the engine's last-category rule. |
| Tabs.DropOrder | src/components/CategoryTabs.tsx:82-87 | A permutation of the same length. The dragged tab lands at `index - 1` past its old place, else at `index`. Every other tab keeps its relative order. |
| Tabs.TakeOut | src/components/CategoryTabs.tsx:83 | Taking one element out removes exactly it from the multiset. |
| Tabs.PutIn | src/components/CategoryTabs.tsx:86 | Inserting puts the element at the index and keeps the rest in order. |
| Tabs.TabsState.constructor | src/components/CategoryTabs.tsx:22-26 | Not adding, an empty input and no drag. |
| Tabs.TabsState.HandleAdd | src/components/CategoryTabs.tsx:28-34 | Adds only what the add guard forwards, then clears the input and closes it. |
| Tabs.TabsState.HandleKeyDown | src/components/CategoryTabs.tsx:36-42 | Enter adds through the guard; an accepted name clears the input and closes it, a refused one leaves both. Escape closes and clears the input. Other keys change nothing. |
| Tabs.TabsState.HandleDragStart | src/components/CategoryTabs.tsx:44-48 | Records the dragged index. |
| Tabs.TabsState.HandleDragEnd | src/components/CategoryTabs.tsx:50-53 | Resets both drag indices. |
| Tabs.TabsState.HandleDropZoneDragOver | src/components/CategoryTabs.tsx:56-69 | Without a drag nothing changes. A self-adjacent zone clears the drop index, and any other zone sets it. |
| Tabs.TabsState.HandleDropZoneDragLeave | src/components/CategoryTabs.tsx:71-73 | Clears the drop index. |
| Tabs.TabsState.HandleDrop | src/components/CategoryTabs.tsx:75-92 | No reorder when the index is unknown, the same zone or the next one. Otherwise the reorder is a permutation of the same length: the dragged tab lands at `index - 1` past its old place, else at `index`, and every other tab keeps its relative order. Both drag indices are reset. |
| Editor.SwappedEffect | src/components/CategoryEditor.tsx:100-102 | The swap exchanges exactly the two positions and is a permutation. |
| Editor.UpdateMultiset | src/components/CategoryEditor.tsx:101 | Overwriting one position trades one element for another in the multiset. |
| Editor.SwappedTwice | src/components/CategoryEditor.tsx:100-102 | Swapping the same pair twice restores the order. |
| Editor.EditorState.constructor | src/components/CategoryEditor.tsx:30-34 | An empty input, no editing, no pending delete and no error. |
| Editor.EditorState.HandleAdd | src/components/CategoryEditor.tsx:60-65 | Adds only what the add guard forwards, then clears the input. |
| Editor.EditorState.StartEditing | src/components/CategoryEditor.tsx:74-77 | Edit mode starts from the current name. |
| Editor.EditorState.CancelEditing | src/components/CategoryEditor.tsx:194-195 | Leaves edit mode (Escape, and the cancel button at line 206-207). |
| Editor.EditorState.HandleRename | src/components/CategoryEditor.tsx:67-72 | As written: forwards exactly what `RenameGuardAsWritten` accepts, a name that is already another category included, and always leaves edit mode. |
| Editor.EditorState.HandleRenameChecked | src/components/CategoryEditor.tsx:67-72 | The corrected handler: forwards only what `RenameGuard` accepts, and always leaves edit mode. |
| Editor.EditorState.HandleRemove | src/components/CategoryEditor.tsx:79-87 | A category that still lists existing skills is refused with a notice. Otherwise it awaits confirmation. |
| Editor.EditorState.ConfirmRemove | src/components/CategoryEditor.tsx:89-94 | A pending name is removed once and the confirmation closes. With nothing pending, nothing happens. |
| Editor.EditorState.CancelRemove | src/components/CategoryEditor.tsx:138 | Closes the confirmation. |
| Editor.EditorState.MoveCategory | src/components/CategoryEditor.tsx:96-103 | Nothing happens when the target index is outside the list. Otherwise the neighbours are swapped. |
| Search.FilteredSkills | src/App.tsx:37-45 | A blank query returns the category's skills unchanged. Any other query returns exactly the order-preserving sub-list whose lowercased name or description holds the lowercased, untrimmed query. |
| Search.EnabledSkills | src/App.tsx:48-49 | At most the total, over every loaded skill. |
| Search.EnabledSkillsBounds | src/App.tsx:48-49 | The two statistics agree exactly when every skill is enabled, and the enabled count is zero exactly when none is. |
| Sorting.SortBy | src-tauri/src/lib.rs:143-150 | In-place sort: sorted by the comparator and a permutation of the input. |
| Sorting.Insert | src-tauri/src/lib.rs:143-150 | One insertion step extends the sorted prefix by one, as a permutation. |
| Types.Names | src/types/index.ts:9-17 | One name per skill, in order. |
| Types.Categories.Put | src/hooks/useSkills.ts:221-223 | `record[key] = value`: an existing key keeps its place, and a new key goes last. |
| Types.Categories.Delete | src/hooks/useSkills.ts:258 | `delete record[key]`: the key leaves both the map and the key order. |
| Strings.FindFrom | src/hooks/useSkills.ts:143-150 | The first occurrence at or after a position, or `None` when there is none. |
| Strings.FindFirstAt | src/hooks/useSkills.ts:143-150 | An occurrence with none before it is the first. |
| Strings.Take | src-tauri/src/lib.rs:111 | Exactly the first `n` characters of a longer string, and the whole string when it is no longer than `n`. |
| Strings.Lines | src-tauri/src/lib.rs:100 | `str::lines`: no line holds a line feed. |
| Strings.LinesSingle | src-tauri/src/lib.rs:100 | A non-empty text without a line feed is one line, kept whole. |
| Strings.LinesCons | src-tauri/src/lib.rs:100 | The text before the first line feed, less one trailing carriage return, is the first line, and the remaining lines are the lines of the text after it. |

## Left out

- File system and IPC: `fs::rename`, `read_dir`, the directory walk, `create_dir_all` and `fs::write` are not modelled as I/O. The same goes for the Tauri `invoke` calls and the serde JSON round trip. Their results are parameters: outcomes, directory listings, and the found SKILL.md files.
- Concurrency and React: `Promise.all`/`allSettled` become sequences of outcomes in request order. State batching and stale closures are modelled as one coherent state. For example, `removeCategory` reads the same state for its guard and its update.
- The `loading` flag, the `setTimeout` that clears the editor's message, and the effects that call `reload` and `saveConfig` are not modelled.
- `saveConfig` failures are only logged in the source. The model returns the configuration handed to it and no outcome.
- The editor's message text is kept as a `Notice` value, not as a formatted string.
- Unicode: `trim`, `toLowerCase` and `chars().take` are modelled for ASCII whitespace and letters only.
- JavaScript objects list integer-like keys first and have prototype keys. The record model keeps insertion order for every key.
- Backend.Join: `PathBuf::join` is modelled as joining with `/`. An absolute or `..` name is not resolved, and a project path that already ends in `/` gets a double slash, where `PathBuf` would give one.
- Sorting.SortBy: a stable insertion sort, like `sort_by`, but stability is not stated.
- Backend.SortSkills and Backend.LoadSkills: stability of the name sort is not stated. It decides which of two same-named skills comes first after `load_skills` sorts (src-tauri/src/lib.rs:196): the enabled copy, which is loaded first. That is the copy `skills.find` returns in `toggleSkill` (src/hooks/useSkills.ts:174).
- Sorting.Insert: does not state that the suffix after `i` is unchanged, because that frame makes the proof too costly; `SortBy` does not need it.
- Tabs.TabsState.HandleDrop: a drag index that parses to a number outside the tab list does not reorder in the model. In JavaScript, an index at or past the end removes nothing and `splice` inserts `undefined`; a negative index counts from the end (clamped to the first tab), so that tab is moved, e.g. `[a, b, c]` with index -1 dropped on zone 2 gives `[a, c, b]`. Both cases need drag data not written by `handleDragStart`.
- Engine.SkillsEngine.Reload: the app passes no readiness argument to `useSkills` in src/App.tsx:34, so `isReady` is a parameter.
- Settings and the project path (`get_project_path`, `set_project_path`, the settings file), `read_file`, `write_file`, and copying the app into the slash commands (`handleAddToCommands`) are I/O or UI outside this model.
- `toggleSkill`: the code applies the change only after `toggle_skill` succeeds, and the model follows the code. An optimistic update followed by a rollback on failure is not modelled.
- Engine.SkillsEngine.SetEnabledForCategory: the per-name logging is modelled as the `Failures` list.

## Findings

| source | as written | input that shows it | evidently intended | confidence | as-written member | corrected member |
|---|---|---|---|---|---|---|
| src/components/CategoryEditor.tsx:67-72 | The rename guard only checks for blank and unchanged names. `renameCategory` (src/hooks/useSkills.ts:276-297) then rebuilds the record, so a name that is already a category overwrites that key, one list is lost, and the order gets the name twice. | Categories A (holding "s") and B, in order [A, B]. Rename A to "B". The record becomes {B: []}, so "s" is unlisted, and the order becomes [B, B]. | Refuse a new name that is already a category, as the add guard does. | medium, not executed | Guards.RenameGuardAsWritten, Guards.RenameCollisionAsWritten, Editor.EditorState.HandleRename | Guards.RenameGuard, Guards.RenameGuardKeepsConsistent, Editor.EditorState.HandleRenameChecked |
| src-tauri/src/lib.rs:26-29 | The Rust `Config` has only `categories`, so `save_config` (src-tauri/src/lib.rs:256-260) drops the `categoryOrder` that `reorderCategories` (src/hooks/useSkills.ts:299-304) set. After a reload the order is rebuilt from key order. | Categories a and b, reordered to [b, a]. Save and reload: the order is [a, b] again. | Persist `categoryOrder` with the categories, so that a saved order survives a reload. | high, not executed | Backend.StoreAsWritten, Backend.ReorderLostAsWritten, Backend.ReorderLostExample | Backend.Store, Backend.LoadConfig, Backend.ReorderSurvivesReload |
