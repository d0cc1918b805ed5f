# Notes app: a Dafny model of the note and tag core

This project models the note-taking application's domain layer and its client-side state logic:

- **Note and tag services.** Two note services (one scoped by owner, one single-tenant) and the tag service. Each guards its input before calling a repository.
- **Repositories.** The note repositories and the tag repository. Each is a table of rows keyed by id, with queries that filter the rows and order them (newest first for notes, by name for tags).
- **Application-shell state machine.** It exists in two versions: a reducer and an older hook made of individual setters.
- **Client list logic.** This covers:
  - the note utilities;
  - the offline note list;
  - the caches that hold notes and tags fetched from the API;
  - the sidebar's filters;
  - the tag picker;
  - the markdown toolbar's text splice.

How the source maps into Dafny:

- **Repositories and stateful hooks are classes.** The tables become `map`s and the client lists become `seq`s. Their methods state the whole new state.
- **Pure helpers are functions,** with lemmas about them.
- **Queries are proved against a specification.** `NoteQuery.Select` and `BackendTagRepository.Collect` evaluate a query with a loop. They are proved against the predicates `NoteQuery.IsView` and `BackendTagRepository.Lists`, which say which rows the store may return and in what order.
- **External inputs are parameters.** This covers:
  - ids and timestamps generated by the store;
  - the outcome of an awaited API call;
  - the key that was pressed;
  - the screen width.

Language semantics are written out in `Text` and `Seqs`:

- JavaScript's `trim` uses the whitespace set of the ECMAScript `WhiteSpace` and `LineTerminator` productions.
- `toLowerCase` is modelled on ASCII letters.
- `substring` clamps its bounds and swaps them when they are reversed.
- `slice(0, n)` counts a negative `n` from the end.
- A template literal prints an integer in decimal.
- `Math.floor` of a non-negative quotient is Dafny's `/`.

An empty owner reads every owner's notes: `lib/repositories/NoteRepository.ts:14-16` adds the owner condition only when `userId` is non-empty (`NoteQuery.ReadScope`).

## Model

| member | source | states |
|---|---|---|
| Text.Trim | lib/services/NoteService.ts:31 | `trim()` leaves no whitespace at either end of its result. |
| Text.TrimCutsOnlySpace | lib/services/NoteService.ts:31 | The result of `trim()` is an infix of the input, and only whitespace was cut away before and after it. |
| Text.TrimIdempotent | lib/services/TagService.ts:79 | Trimming an already trimmed name changes nothing, so the repository's second trim is harmless. |
| Text.BlankIffAllSpace | lib/services/TagService.ts:23 | A name fails the `!name.trim()` test exactly when every character is whitespace. |
| Text.Substring | frontend/src/components/Sidebar.tsx:46 | `substring(a, b)` is the slice `[a, b)` whenever `0 <= a <= b <= length`, and is never longer than the string. |
| Text.SubstringSplit | src/components/ui/MarkdownEditor.tsx:66-71 | The prefix before any cut and the suffix after it rebuild the string, whatever the cut. |
| Text.NatToStringRoundTrip | frontend/src/components/Sidebar.tsx:36-41 | The decimal digits printed in a date label read back as the number printed. |
| Text.LexLeqTotal | backend/src/repositories/TagRepository.ts:8-12 | The name order used by `orderBy: { name: 'asc' }` compares any two names. |
| Text.LexLeqAntisymmetric | backend/src/repositories/TagRepository.ts:8-12 | Two names each ordered before the other are equal. |
| Text.LexLeqTransitive | backend/src/repositories/TagRepository.ts:8-12 | The name order is transitive. |
| Seqs.SortDesc | notes-app/src/utils/noteUtils.ts:55 | A descending sort by a numeric key returns a permutation of its input, in non-increasing key order. |
| Seqs.Take | notes-app/src/utils/noteUtils.ts:56 | `slice(0, n)` returns a prefix whose length is `n` capped at the length, or the length plus `n` (floored at 0) for a negative `n`. |
| Seqs.FilterPartition | frontend/src/hooks/useLocalNotes.ts:94-101 | A filter and the filter by the negated predicate together hold every element of the input exactly once. |
| NoteQuery.ReadScope | lib/repositories/NoteRepository.ts:14-16 | A read adds an owner condition exactly when `userId` is non-empty, and the condition is that owner. |
| NoteQuery.DefaultView | lib/services/NoteService.ts:76 | The fallback view is the archived list when `archived` is true, and the active list otherwise, including when `archived` is absent. |
| NoteQuery.TagView | lib/services/NoteService.ts:74-80 | An absent or empty tag list reads the fallback view; any other list reads the notes carrying one of the ids. |
| NoteQuery.SearchView | lib/services/NoteService.ts:82-88 | A blank query reads the fallback view; any other query is trimmed and matched against title or content. |
| NoteQuery.ViewSoFarStep | lib/repositories/NoteRepository.ts:22-26 | Visiting one more row keeps the partial result exact: a matching row is placed among the newest-first results, and a non-matching one is skipped. |
| NoteQuery.Select | lib/repositories/NoteRepository.ts:7-27 | A `findMany` with `orderBy: { updatedAt: 'desc' }` returns every stored row that matches the `where` clause, each once, nothing else, newest first. |
| NoteQuery.DistinctMultiplicity | lib/repositories/NoteRepository.ts:22-26 | A result whose ids are distinct holds each note at most once. |
| NoteQuery.SameRowsSameNotes | lib/services/NoteService.ts:82-88 | Two results of queries that match the same rows hold the same notes, with the same count. They can differ only in the order of equally recent notes. |
| NoteQuery.AllIsActivePlusArchived | lib/services/NoteService.ts:11-21 | The notes of `getAllNotes` are those of `getActiveNotes` together with those of `getArchivedNotes`, and no note is in both. |
| NoteQuery.ReadScopeIsolation | lib/repositories/NoteRepository.ts:14-16 | A reader with an owner never sees another owner's note. The empty owner sees every owner's notes. |
| LibNoteRepository.ConnectedTags | lib/repositories/NoteRepository.ts:51-53 | A create connects exactly the listed tag ids, and none when `tagIds` is absent or empty. |
| LibNoteRepository.Patched | lib/repositories/NoteRepository.ts:61-79 | An update writes the fields present in the data and keeps the others. A present `tagIds` replaces the tag set, so an empty list clears it; an absent one keeps it. Id, owner and creation time never change. |
| LibNoteRepository.Toggled | lib/repositories/NoteRepository.ts:95-111 | A toggle flips `isArchived`, refreshes `updatedAt` and changes nothing else. |
| LibNoteRepository.ToggleTwiceRestores | lib/repositories/NoteRepository.ts:95-111 | Two toggles restore the flag and every field except `updatedAt`. |
| LibNoteRepository.NoteRepository.constructor | lib/repositories/NoteRepository.ts:1-6 | The table starts empty. |
| LibNoteRepository.NoteRepository.FindAll | lib/repositories/NoteRepository.ts:7-27 | Returns the notes with the given status (or all statuses) that are visible to `userId`, newest first. |
| LibNoteRepository.NoteRepository.FindById | lib/repositories/NoteRepository.ts:29-42 | Returns a note exactly when the id is stored and the owner is either `userId` or not given. |
| LibNoteRepository.NoteRepository.Create | lib/repositories/NoteRepository.ts:44-59 | Adds one active note owned by `userId`, with the connected tags, and changes no other row. |
| LibNoteRepository.NoteRepository.Update | lib/repositories/NoteRepository.ts:61-79 | Patches only a note matching both id and owner. Without one, the store fails and nothing changes. No other owner's note is touched. |
| LibNoteRepository.NoteRepository.Delete | lib/repositories/NoteRepository.ts:81-93 | Returns true and removes the row exactly when the owner's note exists; otherwise returns false and changes nothing. |
| LibNoteRepository.NoteRepository.ToggleArchive | lib/repositories/NoteRepository.ts:95-111 | Returns null when the note is not visible to `userId`; flips the owner's note. With the empty owner, another owner's note is found but the update then fails. |
| LibNoteRepository.NoteRepository.FindByTags | lib/repositories/NoteRepository.ts:113-145 | Returns the visible notes that carry at least one of the ids and have the optional status, newest first. |
| LibNoteRepository.NoteRepository.SearchNotes | lib/repositories/NoteRepository.ts:147-186 | Returns the visible notes whose title or content contains the query, ignoring case, with the optional status, newest first. |
| LibNoteService.CheckId | lib/services/NoteService.ts:23-28 | "Note ID is required" exactly for the empty id. |
| LibNoteService.CheckCreate | lib/services/NoteService.ts:30-40 | A blank title fails first; then a blank content fails; anything else passes. |
| LibNoteService.CheckUpdate | lib/services/NoteService.ts:42-56 | The empty id fails first, then a present but blank title, then a present but blank content. Each of the three errors, and success, is pinned by an if-and-only-if. An absent field never fails. |
| LibNoteService.FallbacksAreDefaultViews | lib/services/NoteService.ts:74-88 | An empty or absent tag list, and a blank query, read exactly the archived view when `archived` is true and the active view otherwise. |
| LibNoteService.BlankSearchIsDefaultView | lib/services/NoteService.ts:82-85 | A blank search returns the same notes as the plain active (or archived) list. |
| LibNoteService.NoteService.constructor | lib/services/NoteService.ts:7-9 | The service owns a fresh, empty repository. |
| LibNoteService.NoteService.GetAllNotes | lib/services/NoteService.ts:11-13 | Equals `findAll(undefined, userId)`. |
| LibNoteService.NoteService.GetActiveNotes | lib/services/NoteService.ts:15-17 | Equals `findAll(false, userId)`. |
| LibNoteService.NoteService.GetArchivedNotes | lib/services/NoteService.ts:19-21 | Equals `findAll(true, userId)`. |
| LibNoteService.NoteService.GetNoteById | lib/services/NoteService.ts:23-28 | The empty id fails before the store is read; otherwise returns the owner-scoped lookup. |
| LibNoteService.NoteService.CreateNote | lib/services/NoteService.ts:30-40 | Fails with the guard's error and changes nothing; otherwise stores an active note of `userId` with the given title and content, which reads back by id. |
| LibNoteService.NoteService.UpdateNote | lib/services/NoteService.ts:42-56 | Fails with the guard's error, or with a storage failure when `userId` owns no such note. Otherwise patches that note. Other owners' notes never change. |
| LibNoteService.NoteService.DeleteNote | lib/services/NoteService.ts:58-64 | The empty id fails; otherwise returns whether the owner's note existed, and removes exactly it. |
| LibNoteService.NoteService.ToggleArchiveNote | lib/services/NoteService.ts:66-72 | The empty id fails. The owner's note is flipped. A note the caller cannot see gives null. A note the empty owner sees but does not own gives the store failure. Only the owner's note changes. |
| LibNoteService.NoteService.GetNotesByTags | lib/services/NoteService.ts:74-80 | Returns the tag view, or the fallback list for an absent or empty tag list. |
| LibNoteService.NoteService.SearchNotes | lib/services/NoteService.ts:82-88 | Returns the trimmed-query search, or the fallback list for a blank query. |
| LibNoteService.ToggleTwice | lib/services/NoteService.ts:66-72 | Two toggles by the owner restore the archive flag; only `updatedAt` differs from the start. |
| LibNoteService.ForeignOwnerIsRefused | lib/repositories/NoteRepository.ts:29-111 | Another owner cannot see, update or delete a note, and the table is unchanged afterwards. |
| BackendNoteRepository.NoteRepository.constructor | backend/src/repositories/NoteRepository.ts:1-6 | The table starts empty. |
| BackendNoteRepository.NoteRepository.FindAll | backend/src/repositories/NoteRepository.ts:7-17 | Returns every note with the given status, or all notes, newest first. |
| BackendNoteRepository.NoteRepository.FindById | backend/src/repositories/NoteRepository.ts:19-26 | Returns a note exactly when the id is stored. |
| BackendNoteRepository.NoteRepository.Create | backend/src/repositories/NoteRepository.ts:28-42 | Adds one active note without an owner, with the connected tags. |
| BackendNoteRepository.NoteRepository.Update | backend/src/repositories/NoteRepository.ts:44-59 | Patches the note with the id; a missing id is a storage failure that changes nothing. |
| BackendNoteRepository.NoteRepository.Delete | backend/src/repositories/NoteRepository.ts:61-70 | Returns whether the id was stored, and it is gone afterwards. |
| BackendNoteRepository.NoteRepository.ToggleArchive | backend/src/repositories/NoteRepository.ts:72-85 | Returns null for an unknown id; otherwise flips that note's flag. |
| BackendNoteRepository.NoteRepository.FindByTags | backend/src/repositories/NoteRepository.ts:87-110 | Returns the notes carrying at least one of the ids, with the optional status, newest first. |
| BackendNoteRepository.NoteRepository.SearchNotes | backend/src/repositories/NoteRepository.ts:112-142 | Returns the notes whose title or content contains the query, ignoring case, with the optional status, newest first. |
| BackendNoteRepository.UnscopedReadsAreEmptyOwnerReads | backend/src/repositories/NoteRepository.ts:7-142 | Each read of the single-tenant store matches the same rows as the owner-aware store read with the empty owner. |
| BackendNoteService.NoteService.constructor | backend/src/services/NoteService.ts:7-9 | The service owns a fresh, empty repository. |
| BackendNoteService.NoteService.GetAllNotes | backend/src/services/NoteService.ts:11-13 | Equals `findAll()`. |
| BackendNoteService.NoteService.GetActiveNotes | backend/src/services/NoteService.ts:15-17 | Equals `findAll(false)`. |
| BackendNoteService.NoteService.GetArchivedNotes | backend/src/services/NoteService.ts:19-21 | Equals `findAll(true)`. |
| BackendNoteService.NoteService.GetNoteById | backend/src/services/NoteService.ts:23-28 | The empty id fails; otherwise returns the lookup by id. |
| BackendNoteService.NoteService.CreateNote | backend/src/services/NoteService.ts:30-40 | Fails with the title guard, then the content guard, changing nothing; otherwise stores one active note. |
| BackendNoteService.NoteService.UpdateNote | backend/src/services/NoteService.ts:42-56 | Fails with the guard's error, or with a storage failure for an unknown id; otherwise patches the note. |
| BackendNoteService.NoteService.DeleteNote | backend/src/services/NoteService.ts:58-64 | The empty id fails; otherwise returns whether the id was stored, and removes it. |
| BackendNoteService.NoteService.ToggleArchiveNote | backend/src/services/NoteService.ts:66-72 | The empty id fails; an unknown id gives null; otherwise flips that note. |
| BackendNoteService.NoteService.GetNotesByTags | backend/src/services/NoteService.ts:74-80 | Returns the tag view, or the fallback list for an absent or empty tag list. |
| BackendNoteService.NoteService.SearchNotes | backend/src/services/NoteService.ts:82-88 | Returns the trimmed-query search, or the fallback list for a blank query. |
| BackendNoteService.CreateThenDelete | backend/src/services/NoteService.ts:23-64 | A created note reads back by its id, and deleting it returns true and restores the table. |
| BackendTagRepository.NamePosition | backend/src/repositories/TagRepository.ts:8-12 | The place of a name in a list ordered by name: every earlier name is at most it, and the next one is at least it. |
| BackendTagRepository.SortedSplice | backend/src/repositories/TagRepository.ts:8-12 | Placing a tag at its name position keeps a list ordered by name. |
| BackendTagRepository.CollectStep | backend/src/repositories/TagRepository.ts:101-115 | Visiting one more row keeps the partial listing exact and ordered by name. |
| BackendTagRepository.Collect | backend/src/repositories/TagRepository.ts:7-19 | Returns every stored tag whose id is kept, each once, nothing else, ordered by name ascending. |
| BackendTagRepository.SortedListingUnique | backend/src/repositories/TagRepository.ts:7-19 | With unique names, two name-ordered listings of the same rows are equal, so `findAll` has exactly one answer. |
| BackendTagRepository.TagRepository.constructor | backend/src/repositories/TagRepository.ts:1-6 | The table starts empty and well formed. |
| BackendTagRepository.TagRepository.FindAll | backend/src/repositories/TagRepository.ts:7-19 | Returns every tag once, by name ascending. |
| BackendTagRepository.TagRepository.FindById | backend/src/repositories/TagRepository.ts:21-33 | Returns a tag exactly when the id is stored. |
| BackendTagRepository.TagRepository.FindByName | backend/src/repositories/TagRepository.ts:35-47 | Returns a stored tag with exactly that name when one exists, and null otherwise. |
| BackendTagRepository.TagRepository.Create | backend/src/repositories/TagRepository.ts:49-61 | Stores the trimmed name. A name already taken violates the unique column, so the store fails and nothing changes. Names stay trimmed and unique. |
| BackendTagRepository.TagRepository.Update | backend/src/repositories/TagRepository.ts:63-80 | Stores the trimmed name. It returns null instead of failing for an unknown id, or for a name held by another tag. |
| BackendTagRepository.TagRepository.Delete | backend/src/repositories/TagRepository.ts:82-91 | Returns whether the id was stored, and it is gone afterwards. |
| BackendTagRepository.TagRepository.FindOrCreate | backend/src/repositories/TagRepository.ts:93-99 | Returns the stored tag holding the trimmed name; only when there is none does it create one. |
| BackendTagRepository.TagRepository.FindByIds | backend/src/repositories/TagRepository.ts:101-115 | Returns exactly the stored tags whose id is listed, each once. |
| BackendTagRepository.FindOrCreateTwice | backend/src/repositories/TagRepository.ts:93-99 | Calling `findOrCreate` twice with the same name gives the same tag and adds at most one row. |
| LibTagService.CheckName | lib/services/TagService.ts:23-25 | "Tag name is required" exactly for a blank name. |
| LibTagService.CheckTagId | lib/services/TagService.ts:16-18 | "Tag ID is required" exactly for the empty id. |
| LibTagService.TagService.constructor | lib/services/TagService.ts:7-9 | The service owns a fresh, empty repository. |
| LibTagService.TagService.GetAllTags | lib/services/TagService.ts:11-13 | Returns every tag once, by name. |
| LibTagService.TagService.GetTagById | lib/services/TagService.ts:15-20 | The empty id fails; otherwise returns the lookup. |
| LibTagService.TagService.CreateTag | lib/services/TagService.ts:22-34 | A blank name fails, then a taken trimmed name fails with "Tag already exists"; otherwise stores the trimmed name. |
| LibTagService.TagService.UpdateTag | lib/services/TagService.ts:36-58 | Checks, in order: the empty id, a blank name, an unknown id ("Tag not found"), and a trimmed name held by a different tag. Then it renames. A failure changes nothing. |
| LibTagService.TagService.DeleteTag | lib/services/TagService.ts:60-72 | The empty id fails, then an unknown id fails; otherwise the tag is removed and true is returned. |
| LibTagService.TagService.FindOrCreateTag | lib/services/TagService.ts:74-80 | Fails only on a blank name, never on a conflict; the tag returned holds the trimmed name and is stored. |
| LibTagService.TagService.GetTagsByIds | lib/services/TagService.ts:82-88 | An absent or empty list gives []; otherwise returns exactly the stored tags whose id is listed. |
| LibTagService.CreateTwiceFails | lib/services/TagService.ts:22-34 | A second create of the same trimmed name fails with "Tag already exists". |
| LibTagService.RenameToOwnName | lib/services/TagService.ts:51-57 | Renaming a tag to its own name succeeds and leaves the table unchanged. |
| AppStateReducer.Initial | src/hooks/useAppStateReducer.ts:29-38 | The initial state satisfies both shell invariants. |
| AppStateReducer.Reduce | src/hooks/useAppStateReducer.ts:40-131 | Every action preserves both invariants: never creating and viewing at once, and creating has no selection. Only SET_VIEW changes the view. Only CREATE_NOTE can turn creating on. |
| AppStateReducer.RunAppend | src/hooks/useAppStateReducer.ts:40-131 | Running two action sequences one after the other is running their concatenation. |
| AppStateReducer.RunPreservesConsistent | src/hooks/useAppStateReducer.ts:40-131 | Any action sequence keeps both invariants. |
| AppStateReducer.ReachableConsistent | src/hooks/useAppStateReducer.ts:29-131 | Every state reachable from the initial state satisfies both invariants. |
| AppStateReducer.SetViewForgets | src/hooks/useAppStateReducer.ts:42-47 | SET_VIEW yields the initial state with the new view and the dashboard shown, whatever came before. |
| AppStateReducer.SelectIsView | src/hooks/useAppStateReducer.ts:49-81 | SELECT_NOTE and VIEW_NOTE are the same transition and change only their four fields. |
| AppStateReducer.CreateNoteStartsBlank | src/hooks/useAppStateReducer.ts:58-65 | CREATE_NOTE starts creating with nothing selected, not viewing, dashboard hidden; all else is kept. |
| AppStateReducer.EditNoteKeepsSelection | src/hooks/useAppStateReducer.ts:67-72 | EDIT_NOTE clears only viewing and creating. |
| AppStateReducer.GoHomeIsResetWithDashboard | src/hooks/useAppStateReducer.ts:83-126 | GO_HOME is RESET_STATE with the dashboard shown. Both clear the selection, the mode flags, the search and the tags, and keep the view and the message. |
| AppStateReducer.ResetIdempotent | src/hooks/useAppStateReducer.ts:83-126 | Resetting, or going home, twice is the same as doing it once. |
| AppStateReducer.SettersChangeOneField | src/hooks/useAppStateReducer.ts:94-116 | SET_SEARCH, SET_SELECTED_TAGS, SHOW_SUCCESS and CLEAR_SUCCESS each change exactly their own field, and the last write wins. |
| AppStateReducer.SetShowDashboard | src/hooks/useAppStateReducer.ts:186-190 | `setShowDashboard(true)` goes home; `false` does nothing, so this setter can never hide the dashboard. |
| AppStateReducer.DisplaySuccessMessage | src/hooks/useAppStateReducer.ts:173-176 | Shows the message; the timer's later CLEAR_SUCCESS undoes exactly that. |
| AppStateHook.AppStateHook.constructor | notes-app/src/hooks/useAppState.ts:7-14 | The eight cells start at the reducer's initial state. |
| AppStateHook.AppStateHook.ResetAppState | notes-app/src/hooks/useAppState.ts:16-22 | The same transition as RESET_STATE: view, dashboard and message are kept. |
| AppStateHook.AppStateHook.HandleViewChange | notes-app/src/hooks/useAppState.ts:24-27 | Sets the view and resets, but keeps the dashboard flag and the message, unlike SET_VIEW. |
| AppStateHook.AppStateHook.HandleNewNote | notes-app/src/hooks/useAppState.ts:29-33 | CREATE_NOTE except that `isViewing` keeps its old value. |
| AppStateHook.AppStateHook.HandleNoteSelect | notes-app/src/hooks/useAppState.ts:35-40 | The same transition as SELECT_NOTE. |
| AppStateHook.AppStateHook.HandleGoHome | notes-app/src/hooks/useAppState.ts:42-45 | The same transition as GO_HOME. |
| AppStateHook.AppStateHook.HandleEditNote | notes-app/src/hooks/useAppState.ts:47-50 | The same transition as EDIT_NOTE. |
| AppStateHook.AppStateHook.HandleViewNote | notes-app/src/hooks/useAppState.ts:52-57 | The same transition as VIEW_NOTE. |
| AppStateHook.AppStateHook.DisplaySuccessMessage | notes-app/src/hooks/useAppState.ts:59-62 | Sets the message and nothing else, before the timer fires. |
| AppStateHook.AppStateHook.ClearSuccessMessage | notes-app/src/hooks/useAppState.ts:64-66 | Sets the message to null and nothing else. |
| AppStateHook.AppStateHook.SetSearchQuery | notes-app/src/hooks/useAppState.ts:11 | Changes only the search query. |
| AppStateHook.AppStateHook.SetSelectedTagIds | notes-app/src/hooks/useAppState.ts:12 | Changes only the selected tag ids. |
| AppStateHook.AppStateHook.SetShowDashboard | notes-app/src/hooks/useAppState.ts:14 | The raw setter: changes only the dashboard flag, and can also hide it. |
| AppStateHook.ViewChangeAgreesWithSetView | notes-app/src/hooks/useAppState.ts:24-27 | The setter-based view change equals SET_VIEW exactly when the dashboard was shown and no message was pending. |
| AppStateHook.NewNoteAgreesWithCreateNote | notes-app/src/hooks/useAppState.ts:29-33 | The setter-based new note equals CREATE_NOTE exactly when no note was being viewed. |
| AppStateHook.NewNoteWhileViewing | notes-app/src/hooks/useAppState.ts:29-40 | Selecting a note and then starting a new one leaves the hook both creating and viewing, which breaks the shell invariant. |
| AppStateHook.NewNoteAfterSelectIsConsistent | src/hooks/useAppStateReducer.ts:49-65 | The same two steps through the reducer end creating, not viewing, with nothing selected. |
| ClientTypes.FindFirst | notes-app/src/utils/noteUtils.ts:30 | `find` returns the first element with the id, and undefined exactly when no element has it. |
| ClientTypes.ArrayOrEmpty | frontend/src/hooks/useNotes.ts:17 | A response that is an array is kept, and anything else becomes []. |
| ClientTypes.ErrorText | frontend/src/hooks/useNotes.ts:19 | The thrown error's message when it is an `Error`, otherwise the fallback text. |
| ClientTypes.RemoveKey | frontend/src/hooks/useNotes.ts:89-91 | Keeps exactly the elements whose key differs. |
| ClientTypes.ReplaceKey | frontend/src/hooks/useNotes.ts:72-74 | Replaces every element with the key and keeps the rest in place, so the length is preserved. |
| ClientTypes.RemoveAfterReplace | frontend/src/hooks/useNotes.ts:105-107 | Removing an id after replacing it removes the same elements as removing it at once. |
| ClientTypes.RemoveAppended | frontend/src/components/TagSelector.tsx:44-52 | Removing the key of an element just appended, which no earlier element carries, gives back the list. |
| ClientTypes.RemoveKeyMultiplicity | frontend/src/hooks/useLocalNotes.ts:75-79 | Removing a key keeps every other element with its multiplicity. |
| NoteUtils.GetCurrentNotes | notes-app/src/utils/noteUtils.ts:3-19 | Returns the active, archived or all list, matching the view. |
| NoteUtils.FindSelectedNote | notes-app/src/utils/noteUtils.ts:21-34 | Undefined for an absent or empty id. Otherwise the first match in `notes`, then in the active list, then in the archived list. |
| NoteUtils.GetAllNotes | notes-app/src/utils/noteUtils.ts:36-38 | The active list followed by the archived list. |
| NoteUtils.AllViewIsBothLists | notes-app/src/utils/noteUtils.ts:3-38 | The "all" view holds exactly the active and the archived notes. |
| NoteUtils.GetNotesWithTags | notes-app/src/utils/noteUtils.ts:48-50 | Keeps exactly the notes with a non-empty tag list, in order and with their multiplicities. |
| NoteUtils.GetRecentNotes | notes-app/src/utils/noteUtils.ts:52-57 | Returns the first `limit` (default 5) of the active notes sorted newest first, so no dropped active note is newer than a kept one. There are `limit` of them, or all the active notes when there are fewer. |
| NoteUtils.RecentAreNewest | notes-app/src/utils/noteUtils.ts:52-57 | An active note that the recent list leaves out (one copy of it, when it occurs more than once) is no newer than any note the list keeps. |
| NoteUtils.CountCarrying | notes-app/src/utils/noteUtils.ts:61-63 | The usage count never exceeds the number of notes. |
| NoteUtils.Usages | notes-app/src/utils/noteUtils.ts:60-64 | Each tag paired with the number of notes carrying its id, in tag order. |
| NoteUtils.GetTagUsage | notes-app/src/utils/noteUtils.ts:59-66 | A permutation of the tag usages, sorted by usage non-increasing, where every usage counts the notes carrying that tag. |
| LocalNotes.Merged | frontend/src/hooks/useLocalNotes.ts:61-67 | The fields present in the patch replace the note's; id, flag and creation time are kept; `updatedAt` is refreshed. |
| LocalNotes.Flipped | frontend/src/hooks/useLocalNotes.ts:85 | Flips the archive flag, refreshes `updatedAt` and keeps everything else. |
| LocalNotes.ToggledList | frontend/src/hooks/useLocalNotes.ts:83-86 | Flips every note with the id and keeps the others in place. |
| LocalNotes.FindInToggled | frontend/src/hooks/useLocalNotes.ts:83-90 | The note `toggleArchive` returns is the flipped first note with the id, or undefined when there is none. |
| LocalNotes.ToggleTwiceRestores | frontend/src/hooks/useLocalNotes.ts:82-91 | Two toggles of the same id restore every archive flag. |
| LocalNotes.LocalNoteList.constructor | frontend/src/hooks/useLocalNotes.ts:17 | The list starts empty. |
| LocalNotes.LocalNoteList.CreateNote | frontend/src/hooks/useLocalNotes.ts:42-57 | Appends one active note, with the given tags or none, and no validation. `createdAt` and `updatedAt` are two separate clock readings. |
| LocalNotes.LocalNoteList.UpdateNote | frontend/src/hooks/useLocalNotes.ts:60-72 | Merges the patch into the notes with the id; the length and every other note are unchanged. |
| LocalNotes.LocalNoteList.DeleteNote | frontend/src/hooks/useLocalNotes.ts:75-79 | Removes the notes with the id and keeps the others in order. |
| LocalNotes.LocalNoteList.ToggleArchive | frontend/src/hooks/useLocalNotes.ts:82-91 | Flips the notes with the id and returns the first of them flipped, or undefined when none has it. |
| LocalNotes.LocalNoteList.GetActiveNotes | frontend/src/hooks/useLocalNotes.ts:94-96 | Exactly the notes not archived. |
| LocalNotes.LocalNoteList.GetArchivedNotes | frontend/src/hooks/useLocalNotes.ts:99-101 | Exactly the archived notes. |
| LocalNotes.LocalNoteList.SearchNotes | frontend/src/hooks/useLocalNotes.ts:104-110 | Exactly the notes whose title or content contains the query, ignoring case; no trim and no status filter. |
| LocalNotes.LocalNoteList.ActiveArchivedPartition | frontend/src/hooks/useLocalNotes.ts:94-101 | The active and the archived notes split the list. |
| LocalNotes.LocalNoteList.EmptySearchIsEverything | frontend/src/hooks/useLocalNotes.ts:104-110 | The empty query returns the whole list. |
| NotesCache.NotesCache.constructor | frontend/src/hooks/useNotes.ts:6-10 | The three lists start empty, not loading, with no error. |
| NotesCache.NotesCache.FetchAllNotes | frontend/src/hooks/useNotes.ts:12-23 | Replaces `notes` with the response, or [] for a non-array; on failure keeps it and records the error. Ends not loading. |
| NotesCache.NotesCache.FetchActiveNotes | frontend/src/hooks/useNotes.ts:25-36 | The same for `activeNotes`. |
| NotesCache.NotesCache.FetchArchivedNotes | frontend/src/hooks/useNotes.ts:38-49 | The same for `archivedNotes`. |
| NotesCache.NotesCache.CreateNote | frontend/src/hooks/useNotes.ts:51-65 | Prepends the new note to `notes` and `activeNotes` and leaves `archivedNotes` alone. On failure it records the error and rethrows. |
| NotesCache.NotesCache.UpdateNote | frontend/src/hooks/useNotes.ts:67-82 | Replaces the note by id in all three lists and preserves every length. |
| NotesCache.NotesCache.DeleteNote | frontend/src/hooks/useNotes.ts:84-98 | Removes the id from all three lists. |
| NotesCache.NotesCache.ToggleArchiveNote | frontend/src/hooks/useNotes.ts:100-122 | Replaces the note in `notes`. The id then appears once, at the head of the list matching the new flag, and not in the other list. |
| NotesCache.NotesCache.SearchNotes | frontend/src/hooks/useNotes.ts:124-136 | Returns the response or []; the cached lists never change. |
| NotesCache.NotesCache.GetNotesByTags | frontend/src/hooks/useNotes.ts:138-150 | Returns the response or []; the cached lists never change. |
| NotesCache.NotesCache.ClearError | frontend/src/hooks/useNotes.ts:152 | Clears the error and nothing else. |
| NotesCache.TogglePlacement | frontend/src/hooks/useNotes.ts:105-113 | After a toggle the id is at the head of the target list exactly once and absent from the other list. |
| TagsCache.TagsCache.constructor | frontend/src/hooks/useTags.ts:6-8 | No tags, not loading, no error. |
| TagsCache.TagsCache.FetchTags | frontend/src/hooks/useTags.ts:10-21 | Replaces the list with the response, or [] for a non-array; on failure records the error. |
| TagsCache.TagsCache.CreateTag | frontend/src/hooks/useTags.ts:23-36 | Appends the new tag; on failure records the error, rethrows, and ends not loading. |
| TagsCache.TagsCache.UpdateTag | frontend/src/hooks/useTags.ts:38-51 | Replaces the tag by id and preserves the length. |
| TagsCache.TagsCache.DeleteTag | frontend/src/hooks/useTags.ts:53-65 | Removes exactly the tags with the id. |
| TagsCache.TagsCache.ClearError | frontend/src/hooks/useTags.ts:67 | Clears the error and nothing else. |
| Sidebar.FilteredNotes | frontend/src/components/Sidebar.tsx:68-86 | Keeps a note exactly when a non-empty query matches its title or content ignoring case, and a non-empty tag selection shares one tag id with it (OR). The order and multiplicities are kept. |
| Sidebar.NoFilterShowsAll | frontend/src/components/Sidebar.tsx:68-86 | With no query and no selected tag, the list is shown unchanged, in order. |
| Sidebar.ToggleTag | frontend/src/components/Sidebar.tsx:54-60 | Removes a selected id everywhere, or appends an id that was not selected. |
| Sidebar.ToggleTagTwice | frontend/src/components/Sidebar.tsx:54-60 | Toggling the same id twice restores the set of selected ids, and the list itself when the id was not selected. |
| Sidebar.TruncateText | frontend/src/components/Sidebar.tsx:44-47 | Text within the limit (default 100) is kept. Longer text becomes its first `maxLength` characters plus "...", which is `maxLength + 3` characters. |
| Sidebar.TruncateBounds | frontend/src/components/Sidebar.tsx:44-47 | A preview is at most three characters over the limit, and what it keeps is a prefix of the text. |
| Sidebar.UnitDays | frontend/src/components/Sidebar.tsx:38-41 | Every unit of a date label is at least one day long. |
| Sidebar.FormatDate | frontend/src/components/Sidebar.tsx:31-42 | Day 0 is "Today" and day 1 is "Yesterday". A date in the future prints as a negative count of days ago. |
| Sidebar.FormatDateRoundsDown | frontend/src/components/Sidebar.tsx:36-41 | From two days on, the label is a whole number `k >= 1` of days, weeks, months or years. `k` units fit in the elapsed days and `k + 1` do not, and the digits read back as `k`. |
| Sidebar.SidebarState.constructor | frontend/src/components/Sidebar.tsx:27 | The search box starts with the parent's query. |
| Sidebar.SidebarState.SetLocalSearchQuery | frontend/src/components/Sidebar.tsx:99 | Typing sets the box text. |
| Sidebar.SidebarState.HandleSearch | frontend/src/components/Sidebar.tsx:49-52 | Submits the box text to `onSearch` when that handler exists. |
| Sidebar.SidebarState.ClearFilters | frontend/src/components/Sidebar.tsx:62-66 | Empties the box, and emits an empty query and an empty tag list to the handlers present. |
| Sidebar.ClearThenShowAll | frontend/src/components/Sidebar.tsx:62-86 | After clearing, the sidebar shows its whole list, provided the parent applies the emitted `onTagFilter([])` to its `selectedTagIds` prop. |
| TagSelector.FilteredTags | frontend/src/components/TagSelector.tsx:39-42 | Exactly the available tags whose name contains the search term, ignoring case, and that are not selected. Order and multiplicities are kept. |
| TagSelector.EmptySearchOffersAll | frontend/src/components/TagSelector.tsx:39-42 | With nothing typed and nothing selected, every available tag is offered. |
| TagSelector.SelectedIsNotOffered | frontend/src/components/TagSelector.tsx:39-48 | A tag just selected is no longer offered. |
| TagSelector.TagsAfterRemove | frontend/src/components/TagSelector.tsx:50-52 | Removes the tags with the id and keeps every other one. |
| TagSelector.RemoveUndoesSelect | frontend/src/components/TagSelector.tsx:44-52 | Removing a tag that was just selected restores the earlier selection. |
| TagSelector.TagSelectorState.constructor | frontend/src/components/TagSelector.tsx:19-22 | Closed, both inputs empty, not creating. |
| TagSelector.TagSelectorState.ToggleOpen | frontend/src/components/TagSelector.tsx:113 | The button flips `isOpen` only. |
| TagSelector.TagSelectorState.SetSearchTerm | frontend/src/components/TagSelector.tsx:139 | Typing sets the search term only. |
| TagSelector.TagSelectorState.SetNewTagName | frontend/src/components/TagSelector.tsx:153 | Typing sets the new tag name only. |
| TagSelector.TagSelectorState.Dismiss | frontend/src/components/TagSelector.tsx:26-37 | A click outside closes the dropdown and clears both inputs. |
| TagSelector.TagSelectorState.HandleTagSelect | frontend/src/components/TagSelector.tsx:44-48 | Emits the selection with the tag appended, clears the search term and closes. |
| TagSelector.TagSelectorState.HandleTagRemove | frontend/src/components/TagSelector.tsx:50-52 | Emits the selection without the id and changes no picker state. |
| TagSelector.CreateRequest | frontend/src/components/TagSelector.tsx:54-59 | The handler is asked for a name exactly when the input is not blank and a handler exists. The name asked for is the trimmed input, which is neither empty nor blank. |
| TagSelector.TagSelectorState.HandleCreateTag | frontend/src/components/TagSelector.tsx:54-69 | Requests the name CreateRequest gives and does nothing else when it gives none. On success it appends the new tag and clears and closes; on failure nothing else changes. Creating always ends false. |
| TagSelector.TagSelectorState.HandleKeyDown | frontend/src/components/TagSelector.tsx:71-84 | Enter creates when a name is typed and a handler exists, otherwise it selects the first offered tag, if any. Escape closes and clears both inputs. Other keys do nothing. |
| TagSelector.EnterCreates | frontend/src/components/TagSelector.tsx:54-78 | Enter on a typed name, with a create handler that succeeds, adds the created tag and leaves the picker closed and empty. |
| MarkdownEditor.Replacement | src/components/ui/MarkdownEditor.tsx:63-64 | The selected text, or the placeholder when the selection is empty. |
| MarkdownEditor.InsertMarkdown | src/components/ui/MarkdownEditor.tsx:57-81 | Nothing happens without a textarea. Otherwise the text before the selection, the markup around the replacement and the text after the selection form the new value, and the cursor goes after the inserted block. |
| MarkdownEditor.InsertMarkdownFrame | src/components/ui/MarkdownEditor.tsx:66-78 | For a selection inside the text, the prefix and the suffix are kept and the block sits between them. The length changes by the block minus the selection, and the cursor is where the suffix starts. |
| MarkdownEditor.UnwrapRestores | src/components/ui/MarkdownEditor.tsx:61-71 | Wrapping a non-empty selection keeps it: cutting the markup back out gives the old value. |
| MarkdownEditor.EmptyInsertKeepsValue | src/components/ui/MarkdownEditor.tsx:66-71 | Inserting nothing at any caret, even one outside the text, leaves the value unchanged. |
| MarkdownEditor.ToolbarActions | src/components/ui/MarkdownEditor.tsx:83-129 | Nine buttons, each with a non-empty opening markup and a non-empty placeholder. |
| MarkdownEditor.ToolbarInsertGrows | src/components/ui/MarkdownEditor.tsx:83-129 | Every toolbar button lengthens the text by at least its markup. |
| MarkdownEditor.VisibleActions | src/components/ui/MarkdownEditor.tsx:142 | A narrow screen shows the first four buttons; otherwise all nine are shown. |
| MarkdownEditor.EditorState.constructor | src/components/ui/MarkdownEditor.tsx:47-48 | Editing, not mobile. |
| MarkdownEditor.EditorState.TogglePreview | src/components/ui/MarkdownEditor.tsx:153 | Flips between editing and preview. |
| MarkdownEditor.EditorState.CheckMobile | src/components/ui/MarkdownEditor.tsx:50-55 | The editor is in mobile mode exactly when the window is narrower than 768 pixels. |

## Left out

- Prisma itself. The store's generated ids, its clock, the schema defaults and its exact error types are not modelled. Ids and `now` are parameters, and every storage error is the one `StoreFailure`.
- The unique `name` column of the tag table is not shown. The uniqueness of tag names is a repository invariant, and a write that would break it is a storage failure, as the store's unique constraint would make it.
- Referential integrity of tag connections is not modelled. A note stores the set of tag ids it connects, and deleting a tag does not cascade into notes.
- Joined tag records are not modelled. Server notes carry tag ids, and client notes carry tag records.
- Unicode is not modelled. Case-insensitive matching lowercases ASCII letters only, and the name order is code-point order, not the database collation.
- Concurrency is not modelled: the read-then-write race in `toggleArchive`, overlapping hook calls, and the loading flags under interleaving. Each call is atomic here.
- Timers are not modelled. `displaySuccessMessage` is modelled before its three-second timeout fires, and the textarea cursor is set without the zero-delay timeout.
- Browser storage is not modelled. The offline list's localStorage load and save, and its `Date.now`/`Math.random` ids, are parameters or left out. `createNote` reads the clock twice, so the two stamps are two parameters that may differ.
- HTTP controllers, routes, API clients and authentication are not modelled. The caches take the awaited call's outcome as a parameter.
- Rendering is not modelled: JSX, the regex-based `renderMarkdown`, and the dropdowns' open flags beyond the ones listed.
- `Date` parsing is not modelled. `formatDate` takes the whole number of elapsed days, and the client notes' timestamps are integers. Invalid dates (NaN) are not modelled.
- Seqs.SortDesc: the stable order of equal keys is not proved, only a non-increasing permutation.
- NoteQuery.Select: the order of notes with equal `updatedAt` is the store's choice and is not pinned down.
- TagSelector.TagSelectorState.HandleKeyDown: `handleCreateTag` is not awaited there; the model applies its whole effect at once.
- MarkdownEditor.InsertMarkdown: `document.querySelector('textarea')` picks the first textarea in the page. The model takes that textarea's selection as a parameter.
- LocalNotes.LocalNoteList.UpdateNote: a patch key present with the value `undefined` would overwrite the field with `undefined`; the model treats it as absent.
- `getNotesCreatedToday` depends on the wall clock and is not modelled.
- The sidebar's and the editor's other display flags (`showSearch`, `showTagFilter`) are not modelled; they only toggle visibility.

## Findings

| source | as written | input that shows it | evidently intended | confidence | as-written member | corrected member |
|---|---|---|---|---|---|---|
| notes-app/src/hooks/useAppState.ts:29-33 | `handleNewNote` sets `isCreating` but never clears `isViewing` | select a note (`isViewing` true), then start a new note: the state is creating and viewing at once | a new note leaves viewing mode, as CREATE_NOTE in the later reducer does | not executed | AppStateHook.NewNoteWhileViewing | AppStateReducer.NewNoteAfterSelectIsConsistent |
