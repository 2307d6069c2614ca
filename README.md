# Bullet journal: a verified model of the core

This project models the logic core of a bullet-journal web app written in
TypeScript and React, and proves properties of it in Dafny. A journal holds
*bullets*: tasks, events and notes, dated on a day or filed under a
*collection* (a project, a list or the future log). The model covers the
pieces below.

- **State reducer** (`StoreReducer`). One case per action. `Reduce` is the
  specification. The method `Reducer` runs the list actions as the source
  does: copy the map, then update it one payload entry at a time.
- **Dispatch wrapper** (`Store`). It fills in generated ids and keeps a
  single-slot undo stack. It runs the reducer and plans the Firestore
  writes. The class `Store` holds the state and the undo stack as fields.
- **Firestore write planner** (`DatabaseLogic`). Each action becomes the
  ordered list of document writes it issues. This includes migration and
  the rewrite of task references inside a parent note. The module also
  holds the snapshot-to-map step.
- **Keyboard shortcuts** (`KeyboardShortcuts`). The decision table returns
  an effect value: whether the default is prevented, and which callbacks
  run.
- **Focus cursor** (`KeyboardFocus`). The move-up and move-down updaters,
  plus the provider's state as the class `FocusCursor`.
- **Utilities**:
  - indentation depth over the parent chain (`BulletUtils`);
  - orphaned-task pruning of note trees, and the URL whitelist
    (`NoteUtils`);
  - plain-text extraction from note trees (`TextExtraction`);
  - the string operations these rely on (`JsString`).
- **Export filter** (`ExportUtils`).
- **Recurrence generator** (`Recurrence`).
- **Quick-entry editor** (`BulletEditor`).
- **Views**. Each one selects or orders bullets:
  - the task list with project grouping (`TaskGroupList`);
  - the backlog (`BacklogView`);
  - the daily log (`DailyLog`);
  - a collection's page (`CollectionView`);
  - the drag-reorder these share (`SortableList`);
  - the generic filter, stable sort and first-appearance dedup
    (`Ordering`).

Dates are day numbers: day 0 is Thursday 1970-01-01. The source stores
dates as `yyyy-MM-dd` strings. Two such strings compare character by
character exactly as their day numbers compare. So `localeCompare` on them
is modelled as the sign of the day difference, and equality of the strings
as equality of the days.

Each reading of the clock within one call is the parameter `now`.
`generateUUID()` is the parameter `uuid`. The signed-in user is
`Option<string>`. `Object.values(state.bullets)` is a `seq` in the order the
runtime enumerates it.

## Model

| member | source | states |
|---|---|---|
| StoreReducer.InitialState | src/storeReducer.ts:6-18 | No bullets and no collections. The daily view is on the given day. Grouping by project and sorting by type are off, and showing completed bullets is on. |
| StoreReducer.Reducer | src/storeReducer.ts:21-221 | Every action gives the state `Reduce` specifies. This includes the five list actions, which run as loops over the payload. |
| StoreReducer.AddBulletInserts | src/storeReducer.ts:23-39 | The key set grows by exactly the new id. The new bullet carries the payload's content, type, date, collection, long-form content and parent note. It is open, its order, createdAt and updatedAt are `now`, and it has no completion time. Every other bullet, the collections, the view and the preferences are unchanged. |
| StoreReducer.AddEachStores | src/storeReducer.ts:40-49 | ADD_BULLETS: a key is present iff it was present or is listed. Each listed bullet is stored under its id, and the last entry naming an id wins. Unlisted keys keep their bullets. |
| StoreReducer.UpdateMissingIsNoOp | src/storeReducer.ts:50-52 | UPDATE_BULLET of an id not in the map returns the state unchanged. |
| StoreReducer.UpdateBulletStamps | src/storeReducer.ts:50-76 | UPDATE_BULLET of a present bullet: the key set is unchanged, and the bullet keeps the payload's id. Each of content, type, state, date, collection, order, createdAt, long-form content and parent note is the payload's where the payload has it and the old value otherwise. updatedAt is `now`. Completing a bullet that was not completed sets completedAt to `now`, and reopening a completed bullet clears it. In every other case the payload's completedAt, if any, applies. Other bullets and the rest of the state are unchanged. |
| StoreReducer.UpdateEachFrame | src/storeReducer.ts:77-102 | UPDATE_BULLETS never adds or removes a key and leaves unlisted bullets as they were. Every listed present bullet gets the payload's fields over its own and updatedAt `now`. A bullet listed once follows the completion rule of UPDATE_BULLET. For a bullet listed more than once, the payload's completedAt wins if the payload has one, and otherwise the bullet ends as if listed once. |
| StoreReducer.ReorderEachOnlyOrder | src/storeReducer.ts:103-112 | REORDER_BULLETS never adds a key and changes nothing but `order`. Unlisted bullets are unchanged. A listed present bullet gets the order of the last item naming it. |
| StoreReducer.ReorderCollectionsOnlyOrder | src/storeReducer.ts:113-121 | REORDER_COLLECTIONS never adds a key and changes nothing but `order`. Unlisted collections are unchanged. A listed present collection gets the order of the last item naming it. |
| StoreReducer.DeleteBulletRemovesKey | src/storeReducer.ts:122-126 | DELETE_BULLET removes exactly the given key. The remaining entries are unchanged. |
| StoreReducer.DeleteEachRemoves | src/storeReducer.ts:127-133 | DELETE_BULLETS gives the map minus exactly the listed keys. |
| StoreReducer.SetViewDate | src/storeReducer.ts:134-143 | SET_VIEW takes the payload's mode and collection. It keeps the current date when the payload has none. Bullets and collections are unchanged. |
| StoreReducer.AddCollectionInserts | src/storeReducer.ts:144-160 | ADD_COLLECTION adds exactly its id. The collection has the payload's title and type, and createdAt and order are both `now`. Other collections and all bullets are unchanged. |
| StoreReducer.UpdateCollectionMerges | src/storeReducer.ts:161-175 | UPDATE_COLLECTION of a missing id changes nothing. For a present id, each of title, type, createdAt and order is the patch's where the patch has it and the old value otherwise. The id and the key set are kept. The other entries, the bullets, the view and the preferences are unchanged. |
| StoreReducer.DeleteCollectionRemovesKey | src/storeReducer.ts:176-183 | DELETE_COLLECTION removes exactly the given key and leaves the bullets alone. |
| StoreReducer.ToggleTwice | src/storeReducer.ts:184-192 | TOGGLE_PREFERENCE flips the key's truth value. Toggling twice restores a key that was present. A key that was absent ends at `false`. |
| StoreReducer.LoadDataMerges | src/storeReducer.ts:193-206 | LOAD_DATA merges the loaded bullets, and separately the loaded collections, over the local ones. The key set is the union, loaded entries win, and the other local entries are kept. A missing field loads nothing. Preferences, when given, merge the same way key by key, and are unchanged otherwise. The view is unchanged. |
| StoreReducer.RestoreBulletPuts | src/storeReducer.ts:207-215 | After RESTORE_BULLET the map holds the payload under its id. The other entries are unchanged. |
| StoreReducer.UndoAndMigrateAreNoOps | src/storeReducer.ts:216-219 | UNDO, and MIGRATE_BULLET (which falls to `default`), return the state unchanged. |
| Store.Enhance | src/store.tsx:54-67 | A creation without an id gets the generated one, and every other action is unchanged. The result always carries the ids the reducer needs. |
| Store.CreationsGetFreshIds | src/store.tsx:58-67 | ADD_BULLET, ADD_COLLECTION and MIGRATE_BULLET keep a given id. Without one, they take the generated id. |
| Store.Store.constructor | src/store.tsx:22-24 | The store starts in the initial state with an empty undo stack. |
| Store.Store.Dispatch | src/store.tsx:41-109 | One call updates the state and the undo stack to what `Step` gives. It returns the toast and the Firestore writes `Step` gives, and keeps the stack valid. |
| Store.StepKeepsSingleSlot | src/store.tsx:69-97 | After any call the stack holds at most one action, and that action is a DELETE_BULLET or a RESTORE_BULLET. |
| Store.UndoEmptyIsNoOp | src/store.tsx:43-52 | UNDO with an empty stack changes nothing, writes nothing and shows no toast. |
| Store.UndoAppliesInverse | src/store.tsx:43-52 | UNDO pops the stored inverse and applies it to the state. It shows "Undone" and syncs the inverse. |
| Store.AddCapturesDelete | src/store.tsx:72-73 | ADD_BULLET stores DELETE_BULLET of the id it creates. |
| Store.ChangeCapturesRestore | src/store.tsx:74-83 | DELETE_BULLET or UPDATE_BULLET of an existing bullet stores RESTORE_BULLET of its old value. |
| Store.StructuralActionsClearStack | src/store.tsx:84-93 | Migrations, the collection actions and both reorders empty the stack. |
| Store.OtherActionsKeepStack | src/store.tsx:71-97 | The stack is unchanged by these actions: UPDATE or DELETE of a missing bullet, SET_VIEW, TOGGLE_PREFERENCE, LOAD_DATA, RESTORE_BULLET, and the list actions. |
| Store.UnsyncedDispatches | src/store.tsx:102-108 | SET_VIEW and LOAD_DATA are never synced, and nothing is synced while signed out. |
| Store.AddThenUndoRestores | src/store.tsx:41-100 | ADD_BULLET of a new id followed by UNDO gives back the original state, with an empty stack and the "Undone" toast. When signed in, the undo deletes the created document. |
| Store.ChangeThenUndoRestores | src/store.tsx:41-100 | UPDATE_BULLET or DELETE_BULLET of a bullet stored under its own id, followed by UNDO, gives back the original state. No write is issued for the undo. |
| DatabaseLogic.Build | src/lib/database.logic.ts:77-79 | A document has a field exactly where the value is defined, and holds that value there. |
| DatabaseLogic.PerformAction | src/lib/database.logic.ts:59-184 | The writes issued in turn, including one update per REORDER_BULLETS item, are the list `Plan` gives. |
| DatabaseLogic.AddWithoutIdWritesNothing | src/lib/database.logic.ts:70-75 | ADD_BULLET without an id issues no writes. |
| DatabaseLogic.AddBulletSetsDocument | src/lib/database.logic.ts:70-91 | ADD_BULLET issues one set of `users/<uid>/bullets/<id>`. The payload's defined fields are present, optional ones exactly when given. It carries the id, state `open`, content, and createdAt, updatedAt and order equal to `now`. |
| DatabaseLogic.UpdateBulletUpdatesDocument | src/lib/database.logic.ts:92-99 | UPDATE_BULLET issues one update of `bullets/<id>`. It carries the id and `updatedAt`, plus each payload field exactly when that field is defined. It never invents other fields. |
| DatabaseLogic.MigrateWritesNothing | src/lib/database.logic.ts:104-116 | MIGRATE_BULLET issues no writes for an unknown bullet, or for an uncollected bullet without a new id. |
| DatabaseLogic.MigrateInCollectionMovesDate | src/lib/database.logic.ts:104-112 | MIGRATE_BULLET of a collected bullet issues exactly one update, setting `date` and `updatedAt`. |
| DatabaseLogic.CopyFields | src/lib/database.logic.ts:124-133 | The migrated copy has the new id, the target date, state `open` and three `now` timestamps. It keeps content, type and the optional fields of the old bullet, and has no title. |
| DatabaseLogic.MigrateDailyCopies | src/lib/database.logic.ts:113-148 | MIGRATE_BULLET of a daily bullet first marks the old bullet migrated, then sets the copy. A third write follows iff the bullet's parent note exists and has non-empty content. |
| DatabaseLogic.ParentNoteRewrite | src/lib/database.logic.ts:135-146 | The parent note's text splits at the old reference into pieces that contain none. Joining the pieces back with the old reference gives the note. The written text joins them with the new reference. Only `longFormContent` and `updatedAt` are written. |
| DatabaseLogic.ParentNoteWithoutReference | src/lib/database.logic.ts:135-146 | A parent note with no reference to the old id is written back unchanged. |
| DatabaseLogic.CollectionWrites | src/lib/database.logic.ts:151-172 | ADD_COLLECTION without an id writes nothing. With an id, it sets title, type, id and createdAt. UPDATE_COLLECTION updates the id and the defined patch fields, without `updatedAt`. DELETE_COLLECTION deletes the document. |
| DatabaseLogic.ReorderWritesOnePerItem | src/lib/database.logic.ts:173-179 | REORDER_BULLETS issues one order-only update per item, in payload order. |
| DatabaseLogic.UnsyncedActionsWriteNothing | src/lib/database.logic.ts:69-180 | These actions have no case and issue no writes: ADD_BULLETS, UPDATE_BULLETS, DELETE_BULLETS, REORDER_COLLECTIONS, SET_VIEW, TOGGLE_PREFERENCE, LOAD_DATA, RESTORE_BULLET and UNDO. |
| DatabaseLogic.CollectDocs | src/lib/database.logic.ts:33-36 | The snapshot loop builds the map `DocsToMap` specifies. |
| DatabaseLogic.DocsToMapContents | src/lib/database.logic.ts:33-36 | The keys are exactly the document ids. Each holds the data of the last document with that id. |
| KeyboardShortcuts.EscapeClearsFocus | src/lib/keyboardShortcuts.ts:39-43 | Escape prevents the default and clears the focus, even inside an input. |
| KeyboardShortcuts.InputIgnoresKeys | src/lib/keyboardShortcuts.ts:45 | Inside an input, every other key does nothing and is not prevented. |
| KeyboardShortcuts.NavigationIgnoresFocus | src/lib/keyboardShortcuts.ts:47-58 | `j`/ArrowDown moves down and `k`/ArrowUp moves up, whatever is focused. |
| KeyboardShortcuts.NoFocusNoAction | src/lib/keyboardShortcuts.ts:61-64 | With no focused id, or one missing from the state, no other key does anything. |
| KeyboardShortcuts.FocusedActions | src/lib/keyboardShortcuts.ts:72-102 | `x` dispatches UPDATE_BULLET to `open` if the bullet is completed, and to `completed` otherwise. `d` requests a danger confirmation titled "Delete Item" whose confirm dispatches DELETE_BULLET of the focused id. |
| KeyboardShortcuts.KeyLowerIdempotent | src/lib/keyboardShortcuts.ts:47 | Lower-casing twice is lower-casing once. |
| KeyboardShortcuts.LettersMatchAnyCase | src/lib/keyboardShortcuts.ts:47-114 | Outside Escape and the arrows, a key and its lower case have the same effect. |
| KeyboardShortcuts.UndoChordIgnoredAsWritten | src/lib/keyboardShortcuts.ts:39-114 | As written, Ctrl+Z and Meta+Z outside an input do nothing, with or without focus. |
| KeyboardShortcuts.UndoChordDispatchesUndo | src/lib/keyboardShortcuts.test.ts:276-327 | In the corrected handler, Ctrl/Meta+Z outside an input prevents the default and dispatches UNDO. Inside an input it does nothing. Every other event is handled as before. |
| KeyboardFocus.IndexOf | src/contexts/KeyboardFocusContext.tsx:36 | `indexOf` returns -1 iff the id is absent. Otherwise it returns the first position holding it. |
| KeyboardFocus.MovesStayVisible | src/contexts/KeyboardFocusContext.tsx:33-49 | Both moves land on a visible id. They give null iff the visible list is empty. |
| KeyboardFocus.MovesFromNothing | src/contexts/KeyboardFocusContext.tsx:33-49 | From no focus, both moves go to the first visible id, or to null. |
| KeyboardFocus.MovesStep | src/contexts/KeyboardFocusContext.tsx:33-49 | For distinct ids, `moveDown` steps to the next id and stays on the last. `moveUp` steps to the previous id and stays on the first. |
| KeyboardFocus.MovesFromHidden | src/contexts/KeyboardFocusContext.tsx:33-49 | A focus that is not visible goes to the last id on `moveDown` and to the first on `moveUp`. |
| KeyboardFocus.InvalidateRestoresValidity | src/contexts/KeyboardFocusContext.tsx:56-61 | The effect leaves the focus null, in the list, or the list empty. It keeps a focus that already satisfies this. |
| KeyboardFocus.FocusCursor.constructor | src/contexts/KeyboardFocusContext.tsx:29-31 | No focus, no editing id, no visible ids. |
| KeyboardFocus.FocusCursor.Up | src/contexts/KeyboardFocusContext.tsx:33-40 | The focus becomes `MoveUp` of the old focus. The other fields are unchanged and the focus stays valid. |
| KeyboardFocus.FocusCursor.Down | src/contexts/KeyboardFocusContext.tsx:42-49 | The focus becomes `MoveDown` of the old focus. The other fields are unchanged and the focus stays valid. |
| KeyboardFocus.FocusCursor.ClearFocus | src/contexts/KeyboardFocusContext.tsx:51-53 | The focus becomes null, and nothing else changes. |
| KeyboardFocus.FocusCursor.SetFocusedId | src/contexts/KeyboardFocusContext.tsx:55-61 | Setting the focus and then running the effect keeps the id only if it is visible, or if the list is empty. |
| KeyboardFocus.FocusCursor.SetVisibleIds | src/contexts/KeyboardFocusContext.tsx:55-61 | A new visible list drops a focus not on it, when the list is non-empty. |
| KeyboardFocus.FocusCursor.SetEditingId | src/contexts/KeyboardFocusContext.tsx:30 | Only the editing id changes. |
| BulletUtils.CalculateDepth | src/lib/bulletUtils.ts:7-36 | The loop returns what `DepthFrom` specifies from depth 0 with nothing visited. It terminates on every parent graph. |
| BulletUtils.DepthBounded | src/lib/bulletUtils.ts:32 | The depth never exceeds 10. |
| BulletUtils.RootDepthZero | src/lib/bulletUtils.ts:16-30 | Without a parent, or with a missing or invisible parent, the depth is 0. |
| BulletUtils.TwoCycleDepth | src/lib/bulletUtils.ts:17-21 | Two visible bullets that are each other's parent give depth 2. |
| BulletUtils.ChainDepth | src/lib/bulletUtils.ts:16-33 | Up a chain of distinct parents, the depth is the number of leading visible parents, capped at 10. |
| NoteUtils.CleanNoteContent | src/lib/noteUtils.ts:15-41 | Empty input gives `''`, and unparseable input is returned raw. A root without an array `content` is re-serialised unchanged. |
| NoteUtils.Survivors | src/lib/noteUtils.ts:23-31 | The reference filter keeps exactly the nodes that are not orphans. |
| NoteUtils.CleanFailsOnNull | src/lib/noteUtils.ts:21-40 | The filter throws, so the raw text comes back, exactly when it meets a `null` node. |
| NoteUtils.NodeFailsOnNull | src/lib/noteUtils.ts:23-31 | The same, for one node and what lies under it. |
| NoteUtils.CleanRemovesOrphans | src/lib/noteUtils.ts:21-32 | No orphaned `embeddedTask` is left at any depth the filter walks into. The children of a kept task reference with a `bulletId` are not visited, so they are not covered. |
| NoteUtils.NodeRemovesOrphans | src/lib/noteUtils.ts:23-31 | The same, under one node, which keeps its own orphan status. |
| NoteUtils.CleanKeepsSurvivorsInOrder | src/lib/noteUtils.ts:23-31 | At each level the kept nodes are the non-orphans in their order. Apart from their cleaned children, they are unchanged. |
| NoteUtils.CleanIsIdentityOnCleanInput | src/lib/noteUtils.ts:21-32 | A tree without orphans and without `null` comes out unchanged. |
| NoteUtils.NodeIsIdentityOnCleanInput | src/lib/noteUtils.ts:23-31 | The same, for one node. |
| NoteUtils.CleanIdempotent | src/lib/noteUtils.ts:21-35 | Cleaning a cleaned tree changes nothing. |
| NoteUtils.CleanAgainNullFree | src/lib/noteUtils.ts:21-32 | A cleaned tree holds no `null` the filter would meet. |
| NoteUtils.NodeAgainNullFree | src/lib/noteUtils.ts:23-31 | The same, for one node. |
| NoteUtils.UntaggedTasksKept | src/lib/noteUtils.ts:24-30 | `embeddedTask` nodes with a missing, null or empty `bulletId` are never dropped. |
| NoteUtils.CleanDropsOnlyOrphan | src/lib/noteUtils.ts:34-37 | A root holding a kept task and an orphan loses only the orphan. |
| NoteUtils.IsValidUrl | src/lib/noteUtils.ts:51-62 | Valid iff the URL is non-empty and, trimmed and ASCII-lower-cased, starts with `http://`, `https://`, `mailto:` or `tel:`. |
| NoteUtils.UrlWhitespaceIgnored | src/lib/noteUtils.ts:55-61 | Surrounding whitespace does not change the verdict. |
| NoteUtils.BlankUrlRejected | src/lib/noteUtils.ts:52-61 | Blank input is rejected. |
| NoteUtils.ProtocolInAnyCaseAccepted | src/lib/noteUtils.ts:59-61 | An allowed protocol in any ASCII case, followed by text not ending in whitespace, is accepted. |
| NoteUtils.OtherSchemesRejected | src/lib/noteUtils.ts:59-61 | Trimmed text starting with anything but h, m or t is rejected. |
| TextExtraction.Traverse | test_extraction.js:9-16 | The walk succeeds iff it meets no `null`. It appends each truthy text in pre-order, followed by a space. |
| TextExtraction.TraverseEach | test_extraction.js:13-15 | The same, over a list of children. |
| TextExtraction.ExtractTextFromContent | test_extraction.js:2-24 | The method returns `ExtractedText`. |
| TextExtraction.NonDocumentsPassThrough | test_extraction.js:3-6 | Empty input gives `''`. Unparseable input, null and scalars come back as they are. |
| TextExtraction.NoTextGivesEmpty | test_extraction.js:8-19 | A tree without truthy text gives `''`. |
| TextExtraction.NonArrayContentIgnored | test_extraction.js:13-15 | A `content` that is not an array is not walked into. |
| TextExtraction.ArrayRootEmpty | test_extraction.js:6-19 | An array root yields `''`. |
| TextExtraction.SpacedIsJoinPlusSpace | test_extraction.js:11 | The texts, each followed by a space, are the texts joined by spaces plus one final space. |
| TextExtraction.TrimDropsFinalSpace | test_extraction.js:19 | Trimming a padded-free text plus one space gives the text back. |
| TextExtraction.ExtractJoinsTexts | test_extraction.js:8-19 | When no text starts or ends with whitespace, the result is the texts in pre-order joined by single spaces. |
| JsString.Trim | src/lib/noteUtils.ts:55 | `trim` cuts only whitespace, and what it keeps neither starts nor ends with whitespace. |
| JsString.TrimEmptyIffBlank | src/components/BulletEditor.tsx:10 | `trim()` is empty iff the text is all whitespace. |
| JsString.TrimUnpadded | test_extraction.js:19 | An unpadded text trims to itself. |
| JsString.TrimIdempotent | src/lib/noteUtils.ts:55 | Trimming twice is trimming once. |
| JsString.AsciiLowerString | src/lib/noteUtils.ts:59 | The `/i` fold lower-cases each character by its ASCII case. |
| JsString.KeyLowerString | src/lib/keyboardShortcuts.ts:47 | `toLowerCase` applies position by position. |
| JsString.Split | src/lib/database.logic.ts:141 | A split has at least one piece. |
| JsString.SplitJoinRoundTrip | src/lib/database.logic.ts:141 | Joining the pieces of a split with the separator gives the string back. |
| JsString.SplitPiecesAreFree | src/lib/database.logic.ts:141 | No piece contains the separator. |
| JsString.FirstPieceIsPrefix | src/lib/database.logic.ts:141 | The first piece is a prefix of the string. |
| JsString.SplitAtLeftmost | src/lib/database.logic.ts:141 | The split cuts at the leftmost occurrence. No occurrence starts inside the first piece. With more pieces, the separator follows the first one and the rest are the split of what comes after it. Otherwise the first piece is the whole string. |
| JsString.ReplaceAbsentIsIdentity | src/lib/database.logic.ts:139-141 | Without the separator, split gives one piece and the replacement changes nothing. |
| JsString.ReplaceBySelfIsIdentity | src/lib/database.logic.ts:139-141 | Replacing the separator by itself changes nothing. |
| ExportUtils.DaysSinceMonday | src/lib/exportUtils.ts:55 | The offset from the week's Monday lies in 0..6. |
| ExportUtils.FilterCollections | src/lib/exportUtils.ts:73-78 | The loop builds the collections `ExportedCollections` specifies. |
| ExportUtils.FilterBullets | src/lib/exportUtils.ts:81-106 | The loop builds the bullets `ExportedBullets` specifies. |
| ExportUtils.FilterStateForExport | src/lib/exportUtils.ts:36-113 | The function returns `ExportedState`. |
| ExportUtils.CollectionsOutsideExclusion | src/lib/exportUtils.ts:73-78 | The exported collections are exactly those whose id is not excluded, unchanged. |
| ExportUtils.ExportIsSubState | src/lib/exportUtils.ts:108-112 | The exported bullets are a sub-map of the input with unchanged values. The view and preferences are unchanged. |
| ExportUtils.ExcludedProjectDropped | src/lib/exportUtils.ts:85-87 | A bullet of an excluded collection is dropped, whatever its date. |
| ExportUtils.UndatedOrAllKept | src/lib/exportUtils.ts:91-100 | An undated bullet outside the excluded collections is kept. With `all`, every such bullet is kept. |
| ExportUtils.Past30DaysWindow | src/lib/exportUtils.ts:61-68 | With `past-30-days`, a dated, non-excluded bullet is kept iff `today - 29 <= date <= today`. |
| ExportUtils.ThisWeekWindow | src/lib/exportUtils.ts:54-60 | With `this-week`, a dated, non-excluded bullet is kept iff its date lies from the Monday to the Sunday of today's week. |
| ExportUtils.WeekStartIsMonday | src/lib/exportUtils.ts:55 | The week start is a Monday, at most six days back. |
| ExportUtils.WindowIsOneWeek | src/lib/exportUtils.ts:55-56 | Every day of the window has the same week start. |
| ExportUtils.ExampleWindows | src/lib/exportUtils.ts:54-68 | For Friday 2023-10-27, the week runs 2023-10-23 to 2023-10-29, and the 30-day window starts on 2023-09-28. |
| Recurrence.GetDay | src/lib/recurrence.logic.ts:22 | The weekday lies in 0..6. |
| Recurrence.LastMatching | src/lib/recurrence.logic.ts:82-92 | The inner loop ends on `LastStepBefore`. |
| Recurrence.Next | src/lib/recurrence.logic.ts:56-114 | One pass through the switch gives `NextDate`. |
| Recurrence.GenerateRecurringDates | src/lib/recurrence.logic.ts:29-120 | The outer loop returns `RecurringDates`. |
| Recurrence.OccurrencesBounded | src/lib/recurrence.logic.ts:43-52 | From any loop state, at most `limit` and at most 366 dates are pushed in all, none after the end. |
| Recurrence.RecurringDatesBounded | src/lib/recurrence.logic.ts:38-52 | At most `limit` and at most 366 dates, none after the user's end date or the one-year cap. The first date is the start, when the start is in range and `limit > 0`. |
| Recurrence.FixedSteps | src/lib/recurrence.logic.ts:57-63 | Daily dates step by `interval` days. Weekly dates step by `7 * interval` days. |
| Recurrence.DailyAndWeeklyDates | src/lib/recurrence.logic.ts:56-63 | The i-th daily or weekly date is `start + i * step`. |
| Recurrence.YearlyStopsAfterOneYear | src/lib/recurrence.logic.ts:109-110 | Yearly with interval 1 and no end date gives exactly the start and one year later. |
| Recurrence.MonthDaySnaps | src/lib/recurrence.logic.ts:98-104 | The monthly-by-day date is in the target month, on day `min(monthDay, daysInMonth)`. |
| Recurrence.FirstWeekdayIsFirst | src/lib/recurrence.logic.ts:73-76 | The first target weekday lies within the first seven days from the month start. |
| Recurrence.LastStepBeforeIsLast | src/lib/recurrence.logic.ts:86-91 | The inner loop ends on the last `first + 7k` not after the month end. |
| Recurrence.NthWeekdayOfMonth | src/lib/recurrence.logic.ts:93-96 | The N-th occurrence is the first target weekday plus N-1 weeks. It has the target weekday and falls in the N-th seven days of the month. |
| Recurrence.LastWeekdayOfMonth | src/lib/recurrence.logic.ts:78-92 | For `-1`, the date has the target weekday. It is not after the month end, and the week after it is. |
| BulletEditor.Editor.constructor | src/components/BulletEditor.tsx:6 | The input starts empty. |
| BulletEditor.Editor.SetContent | src/components/BulletEditor.tsx:47 | The input holds what was typed. |
| BulletEditor.Editor.HandleKeyDown | src/components/BulletEditor.tsx:9-38 | Enter on non-blank text dispatches the parsed ADD_BULLET and empties the input. Any other key, or blank text, dispatches nothing and keeps the text. |
| BulletEditor.BlankDispatchesNothing | src/components/BulletEditor.tsx:10 | Whitespace-only text never submits. |
| BulletEditor.MarkersRoundTrip | src/components/BulletEditor.tsx:16-25 | `"- "` gives a note. `"o "` and `"○ "` give an event, and `". "` and `"• "` give a task. Each is followed by exactly the rest of the text. |
| BulletEditor.UnmarkedIsTask | src/components/BulletEditor.tsx:11-12 | Text without a marker is a task with the text unchanged. |
| BulletEditor.MarkerThenTextIsContent | src/components/BulletEditor.tsx:16-25 | The marker plus the stored text is the typed text. Each marker class selects its type, in both directions. |
| BulletEditor.EntryTargets | src/components/BulletEditor.tsx:13-35 | The date is `defaultDate` if given, else the viewed day. The collection is the viewed one, and no id is set. |
| Ordering.Filter | src/components/TaskGroupList.tsx:34-39 | `filter` keeps exactly the elements passing the test, and never more elements. |
| Ordering.KeptPositions | src/components/BacklogView.tsx:40-41 | The kept positions are increasing and in range. They are exactly the positions passing the test. |
| Ordering.FilterIsSubsequence | src/components/BacklogView.tsx:40-41 | The filter's k-th element is the input at the k-th kept position, so order is preserved. |
| Ordering.FilterAppend | src/components/BacklogView.tsx:40-41 | Filtering distributes over concatenation. |
| Ordering.InsertFront | src/components/DailyLog.tsx:29 | A sort step is a permutation one longer than its input. |
| Ordering.SortBy | src/components/DailyLog.tsx:29 | `sort` gives a permutation of its input. |
| Ordering.InsertFrontSorted | src/components/DailyLog.tsx:29 | A sort step keeps the list sorted by the key. |
| Ordering.InsertFrontKeepsTies | src/components/DailyLog.tsx:29 | A sort step keeps equal keys in their order. |
| Ordering.SortBySorted | src/components/BacklogView.tsx:26-32 | The result is sorted by the comparator's key. |
| Ordering.SortByStable | src/components/BacklogView.tsx:26-32 | Elements with equal keys keep their input order, exactly as JavaScript's stable sort does. |
| Ordering.FirstIndex | src/components/BacklogView.tsx:102 | The position of the first appearance. |
| Ordering.NoDuplicatesCountsOnce | src/components/TaskGroupList.tsx:66-68 | A list without duplicates holds each element once. |
| Ordering.PermutationKeepsNoDuplicates | src/components/TaskGroupList.tsx:66-68 | Sorting distinct keys leaves them distinct. |
| Ordering.Distinct | src/components/BacklogView.tsx:102 | `Array.from(new Set(xs))` holds exactly the elements of `xs`. |
| Ordering.DistinctInFirstAppearanceOrder | src/components/BacklogView.tsx:102 | It lists each element once, in first-appearance order. |
| TaskGroupList.FilterDropsFinished | src/components/TaskGroupList.tsx:34-39 | With `showCompleted` off, completed, migrated and cancelled bullets are dropped and all others kept. With it on, the list is unchanged. |
| TaskGroupList.ShownAllKept | src/components/TaskGroupList.tsx:34-39 | With `showCompleted` on, the filter is the identity. |
| TaskGroupList.FilterKeepsOrder | src/components/TaskGroupList.tsx:34-43 | The filter keeps input order. The visible ids are the filtered ids in that order. |
| TaskGroupList.BucketMembers | src/components/TaskGroupList.tsx:56-63 | A bucket holds exactly its project's bullets whose project exists. `unassigned` holds exactly the others. |
| TaskGroupList.AssignedIdsMembers | src/components/TaskGroupList.tsx:56-63 | The projects met are exactly those of the bullets that go into a bucket. |
| TaskGroupList.PushAll | src/components/TaskGroupList.tsx:56-63 | The push loop builds every bucket, `unassigned`, and the order the keys were first set in. |
| TaskGroupList.GroupBullets | src/components/TaskGroupList.tsx:48-71 | The grouping is `Grouping`. |
| TaskGroupList.UngroupedIsEmpty | src/components/TaskGroupList.tsx:49-51 | With grouping off, everything is empty. |
| TaskGroupList.ExactlyOneBucket | src/components/TaskGroupList.tsx:56-63 | Each filtered bullet lands in its project's bucket if the project is set and exists, and in `unassigned` otherwise. It lands nowhere else. |
| TaskGroupList.BucketsHoldOnlyTheirBullets | src/components/TaskGroupList.tsx:56-63 | Buckets and `unassigned` hold only filtered bullets, and each bucket only bullets of its own project. |
| TaskGroupList.BucketsAreNonEmpty | src/components/TaskGroupList.tsx:57-59 | Every bucket is of an existing project and is non-empty. |
| TaskGroupList.ProjectIdsAreGroupedKeys | src/components/TaskGroupList.tsx:66-68 | `projectIds` lists each grouped project exactly once, and only those. |
| TaskGroupList.ProjectIdsNewestFirst | src/components/TaskGroupList.tsx:66-68 | `projectIds` is ordered by `createdAt`, descending. |
| TaskGroupList.ProjectTiesKeepFirstBulletOrder | src/components/TaskGroupList.tsx:66-68 | Projects created at the same instant keep the order of their first bullets. |
| BacklogView.DatedSections | src/components/BacklogView.tsx:102-103 | One section per distinct date, each with exactly the filter of the tasks on that date. |
| BacklogView.ComparatorIsKeyOrder | src/components/BacklogView.tsx:26-32 | The comparator is negative, zero or positive exactly as the sort key is below, equal or above. |
| BacklogView.OpenTasksMembers | src/components/BacklogView.tsx:13-25 | A bullet is listed iff it is an open task, and it is undated or dated strictly before today. |
| BacklogView.VisibleIdsAreListed | src/components/BacklogView.tsx:36 | `visibleIdsSet` holds exactly the ids of the listed tasks. |
| BacklogView.OpenTasksOrdered | src/components/BacklogView.tsx:26-32 | Undated tasks come before dated ones. Undated tasks are ascending by `order`, and dated tasks descending by date. |
| BacklogView.TiesKeepEnumerationOrder | src/components/BacklogView.tsx:26-32 | Tasks the comparator ties keep their enumeration order. |
| BacklogView.UndatedAndDatedPartition | src/components/BacklogView.tsx:40-41 | The undated part followed by the dated part is the whole list. |
| BacklogView.SectionsByDate | src/components/BacklogView.tsx:102-103 | The sections have distinct dates in first-appearance order, and every date has one. Each section lists exactly the tasks on its date, at least one. |
| SortableList.FindIndex | src/components/DailyLog.tsx:46-47 | `findIndex` returns -1 iff no bullet has the id. Otherwise it returns the first position holding it. |
| SortableList.ArrayMove | src/components/DailyLog.tsx:49 | `arrayMove` keeps the length. |
| SortableList.ArrayMoveAt | src/components/DailyLog.tsx:49 | Every position of the result reads the input at its source position. |
| SortableList.ArrayMovePermutes | src/components/DailyLog.tsx:49 | The result is a permutation of the input. |
| SortableList.ArrayMoveInRange | src/components/DailyLog.tsx:49 | For a target inside the list, the item lands at the target. Removing it gives the input without it. |
| SortableList.ArrayMoveMinusOneAppends | src/components/DailyLog.tsx:47-49 | Target -1 moves the item to the end. |
| SortableList.ArrayMoveInPlace | src/components/DailyLog.tsx:49 | Moving an item onto its own place changes nothing. |
| SortableList.Renumbered | src/components/DailyLog.tsx:52-55 | The k-th item names the k-th bullet, with order `k * 1000`. |
| SortableList.DropOnSelfDoesNothing | src/components/DailyLog.tsx:45 | A drop on the dragged bullet itself dispatches nothing, and any other drop dispatches. |
| SortableList.DispatchRenumbersPermutation | src/components/DailyLog.tsx:45-57 | The dispatched items name a permutation of the list, with strictly increasing orders `k * 1000`. |
| SortableList.DispatchCoversList | src/components/DailyLog.tsx:52-57 | One item per bullet. The ids are exactly the list's ids. |
| SortableList.DropOnOtherTakesItsPlace | src/components/DailyLog.tsx:46-49 | A drop on another listed bullet puts the dragged bullet at that bullet's position. |
| SortableList.DropOutsideMovesToEnd | src/components/DailyLog.tsx:46-49 | A drop with no target, or on one outside the list, moves the dragged bullet to the end. |
| SortableList.ArrayMoveKeepsDistinctIds | src/components/DailyLog.tsx:49 | Moving keeps the ids distinct. |
| SortableList.ReorderTakesEffect | src/components/DailyLog.tsx:52-57 | Applying the dispatched REORDER_BULLETS gives the k-th bullet of the new order the order `k * 1000`. |
| SortableList.SortedByOrder | src/components/DailyLog.tsx:29 | A selection sorted by `order` is a permutation of it. It is ascending by `order`, and ties keep their order. |
| DailyLog.DailyBulletsSelected | src/components/DailyLog.tsx:27-29 | The daily list holds exactly the bullets dated on the viewed day, ascending by `order`. |
| DailyLog.DailyDragDispatch | src/components/DailyLog.tsx:42-59 | A drop on itself dispatches nothing. Otherwise one REORDER_BULLETS names exactly the daily bullets, numbered `k * 1000`. |
| CollectionView.NotFoundWithoutCollection | src/components/CollectionView.tsx:25-27 | The page short-circuits iff no collection is viewed or the viewed one does not exist. |
| CollectionView.CollectionBulletsSelected | src/components/CollectionView.tsx:30-32 | The list holds exactly the collection's bullets, ascending by `order`. |
| CollectionView.CollectionDragDispatch | src/components/CollectionView.tsx:41-57 | A drop on itself dispatches nothing. Otherwise one REORDER_BULLETS names exactly the collection's bullets, numbered `k * 1000`. |

## Left out

- `Date.now()`, `new Date()` and `getTodayDate()` are parameters. All clock readings within one call are the same `now`.
- `generateUUID()` is the parameter `uuid`. Where a lemma needs the id to be new, it says so in its requires.
- `JSON.parse` and `JSON.stringify` are not modelled. Notes are passed already parsed, with `None` for a parse failure, and a re-serialised note is the value itself.
- Firestore itself is left out: network calls, `onSnapshot` subscription and unsubscription, `Promise.all` and the error-swallowing `catch`. Writes are returned as a list in issue order.
- Firestore document field order, and the difference between `undefined` and a missing field, are not modelled. Both become "field absent".
- React rendering, `useMemo`, `useEffect` scheduling and state batching are left out. Each setter and its effect run at once. `BacklogView.tsx` uses `useMemo` without importing it; the model treats the memo as the computation it wraps.
- The cleanup `setVisibleIds([])` of the task list's effect is left out, because it belongs to unmounting.
- The toast's timer, `requestAnimationFrame`, and `getElementById(...).focus()` in the `tab` shortcut are left out. Only the `clearFocus` part is kept.
- `Object.values` and `Object.keys` enumeration order comes in as a `seq`. `grouped`'s keys are listed in insertion order. The runtime would list integer-like keys first; uuids are never integer-like.
- `(a.order \|\| 0)` in the daily and collection comparators is `a.order`: `order` is always a number.
- The month and year operations of `DateOps`/`DateLib` (`addMonths`, `addYears`, `startOfMonth`, `endOfMonth`) are fields of an abstract `Calendar`. The lemmas about them state the laws they rely on (`MonthLaws`, `YearsMoveForward`). Day arithmetic and weekdays are exact on day numbers.
- `format(d, 'yyyy-MM-dd')` and `parseISO` are the identity on day numbers.
- Recurrence.RecurringDatesBounded: the one-year cap `addYears(start, 1)` comes from the abstract calendar, so the cap is not tied to a calendar year.
- KeyboardShortcuts.LettersMatchAnyCase: `toLowerCase` is modelled only where its result can equal an ASCII key (ASCII capitals and the Kelvin sign). Other characters are left as they are.
- `NoteUtils.IsValidUrl`: the `/i` flag folds ASCII letters only, which is all a pattern without the `u` flag folds to ASCII.
- The in-place assignment of `node.content` in `cleanNodes` is modelled as building a new value; no other reference to the parsed tree exists.
- A drop over nothing (`over` null) is modelled as written: `findIndex` gives -1 and the bullet moves to the end. With the `closestCenter` collision detection the views use, such a drop is practically unreachable.
- The drag handlers require the active id to be in the list; dnd-kit only reports drags of the list's own items.
- RESTORE_BULLET has no Firestore case. So undoing an update or a delete changes only the local state, as `Store.ChangeThenUndoRestores` states.
- `verification_script.py` drives a browser and is not part of this model. The undo behaviour it checks is stated by the `Store` lemmas.

## Findings

| source | as written | input that shows it | evidently intended | confidence | as-written member | corrected member |
|---|---|---|---|---|---|---|
| src/lib/keyboardShortcuts.ts:39-114 | the handler has no branch for `z`, so Ctrl+Z and Meta+Z fall through every case and do nothing | key `z` with `ctrlKey` true, `isInput` false, no focus (src/lib/keyboardShortcuts.test.ts:276-292) | outside inputs, Ctrl/Meta+Z prevents the default and dispatches `{ type: 'UNDO' }`; inside inputs it is ignored | not executed | KeyboardShortcuts.UndoChordIgnoredAsWritten | KeyboardShortcuts.UndoChordDispatchesUndo |
