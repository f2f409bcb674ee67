# Journal cache-and-sync core, modelled in Dafny

This project models the local-first core of a personal journaling client:
- the local entry cache, which maps a calendar date to the last committed entry and is mirrored into browser storage;
- the autosave commit (`saveJournalEntry`), which uploads staged files and then updates, inserts or skips a row;
- the session guards around it: hydration once per session, sign-out clearing, the autosave timer and its in-flight flag, and loading the draft on a date change;
- the views derived from the cache: full-text search with a context snippet and highlighting, and the calendar's mood map;
- the sign-up / sign-in form's submit handler (`handleAuth`).

Modules:
- `Wrappers`: `Option`.
- `Text`: `trim`-blankness, ASCII case mapping, and `indexOf` / `includes`.
- `LocalCache`: entries, hydration from fetched rows, and the cache with its persisted copy.
- `SaveScheduler`: one `saveJournalEntry` decision and its write-through.
- `SyncCoordinator`: the `Journal` component's session state as an event-driven state machine.
- `DateOrder`: the most recent date of a set, and a set of dates in descending order.
- `SearchIndex`: `getSearchContext`, the regular-expression escaping, `highlightSearchTerm` and `searchJournalEntries`.
- `CalendarView`: `loadCalendarMoods`.
- `AuthForm`: `handleAuth`.

Modelling choices:
- Every backend call is an input rather than an effect:
  - one `Option<Url>` per uploaded file;
  - whether the row for the date exists;
  - whether the update or insert succeeded;
  - the clock value written to `updated_at`;
  - the fetched rows, with `None` standing for a failed select;
  - the authentication reply, with `None` for success or `Some(message)` for an error.
- Timers are events:
  - `AutosaveFired` is the 2500 ms autosave timeout.
  - `SavingReset` is the 500 ms timeout that clears the in-flight flag.
- A React effect re-run is modelled by `SyncCoordinator.Settle`. The autosave effect cancels its pending timer and re-arms it only under its guard. This happens when one of its dependencies changed by value, or when a new array or user object was set.
- Dates are integers whose order is the chronological order of the `YYYY-MM-DD` keys.
- A mood counts as set when it is truthy: present and not the empty string. The code tests `if (entry.mood)` and `selectedMood ||`.

Behaviour the model follows exactly as the code has it, although a reader might expect otherwise:
- Sign-out (src/app/page.tsx:74-85) clears the content, mood, last-saved time, cache, stored copy and hydration guard. It does not clear the editing flag, the in-flight flag, the staged files or the saved attachment URLs.
- The auth-change handler tests `isLoadingUserData` through the closure created on mount, where it is always `false`. Only `hasLoadedUserDataRef` guards hydration, and that is how it is modelled.
- Resolving the draft after hydration (`loadJournalEntryFromCache`) leaves staged files alone on a miss. The date-change loader (`loadJournalEntry`, followed by `setAttachments([])`) always drops them.

## Model

| member | source | states |
|---|---|---|
| LocalCache.EntryOfRow | src/app/page.tsx:187-196 | A fetched row becomes a cache entry with null content read as `''` and null attachments as `[]`; mood and timestamp are copied |
| LocalCache.Hydrate | src/app/page.tsx:188-196 | Every cached date comes from some fetched row, and the cache has no more entries than there are rows |
| LocalCache.HydrateKeys | src/app/page.tsx:187-196 | The hydrated cache has exactly the dates of the fetched rows as keys |
| LocalCache.HydrateLastWins | src/app/page.tsx:187-196 | For each date, the cache holds the normalised entry of the last row fetched for that date |
| LocalCache.HydrateDistinct | src/app/page.tsx:187-196 | With distinct dates, every fetched row appears in the cache, normalised |
| LocalCache.LoadAll | src/app/page.tsx:172-211 | A failed fetch yields the empty cache; a successful one yields the hydration of its rows |
| LocalCache.Install | src/app/page.tsx:197-200 | Hydration stores the same cache in memory and in storage |
| LocalCache.Put | src/app/page.tsx:454-467 | A write-through sets one date to the new entry, keeps every other date as it was, and stores the new map |
| LocalCache.Clear | src/app/page.tsx:81-84 | Logout empties the map and removes the storage key |
| SaveScheduler.Uploaded | src/app/page.tsx:366-367 | A URL is kept exactly when some upload returned it; failed uploads are dropped |
| SaveScheduler.UploadedAppend | src/app/page.tsx:345-367 | Filtering distributes over concatenation, so the surviving URLs keep their upload order |
| SaveScheduler.UploadedAllFail | src/app/page.tsx:354-357 | When every upload fails, no URL is added |
| SaveScheduler.UploadedAllSucceed | src/app/page.tsx:345-367 | When every upload succeeds, every URL is kept, in file order |
| SaveScheduler.NewUrls | src/app/page.tsx:343 | No staged files gives `[]`; otherwise exactly the successful upload URLs |
| SaveScheduler.Combined | src/app/page.tsx:418 | The committed attachment list is the saved URLs followed by the new URLs |
| SaveScheduler.Save | src/app/page.tsx:389-518 | An existing row is updated and a missing row is inserted iff content is non-blank, a mood is set or an attachment exists, otherwise the save is skipped. A success writes content, mood and attachments through for the date, empties the staged files and records the combined list. A failure or a skip changes neither cache nor draft. Other dates never change, and memory and storage stay in agreement |
| SaveScheduler.UpdateTimestamp | src/app/page.tsx:450-468 | A successful update rewrites the cache only when the cached entry differs from what was committed |
| SaveScheduler.NoEmptyInsert | src/app/page.tsx:476 | A blank, moodless draft whose uploads all fail and which has no saved attachments is never inserted; without an existing row it is skipped |
| SaveScheduler.OneOfTwoUploadsFails | src/app/page.tsx:366-418 | With two staged files of which the second fails, only the first URL is appended to the saved ones |
| SyncCoordinator.Initial | src/app/page.tsx:11-33 | On mount the cache and its stored copy are what storage holds, or empty when the key is absent; today is both the active and the mount date; the draft is empty; no user, no hydration, no pending timer, no save in flight |
| SyncCoordinator.Settle | src/app/page.tsx:545-567 | Re-running the autosave effect arms the timer exactly when its guard holds, and only when a dependency changed |
| SyncCoordinator.Resolve | src/app/page.tsx:213-340 | For the given date, the draft takes the cached entry's content, mood, saved URLs and timestamp on a hit, and is emptied on a miss, dropping staged files only for the date-change loader; the editing flag is reset and nothing else changes |
| SyncCoordinator.LoadUserDataAt | src/app/page.tsx:91-170 | Once hydrated, loading user data changes nothing. Otherwise the session becomes hydrated; a stored cache with entries is used as is, else fetched rows are hydrated into memory and storage, else (failed fetch) the store is kept. The draft is resolved from the cache used, or emptied with staged files kept after a failed fetch. User, dates and flags other than editing are untouched, and storage stays in agreement with memory |
| SyncCoordinator.LoadUserDataAsWritten | src/app/page.tsx:69-73 | The draft loaded on sign-in is the one for the mount date, and the active date does not change |
| SyncCoordinator.LoadUserData | src/app/page.tsx:213-214 | Corrected loader: the draft loaded on sign-in is the one for the active date |
| SyncCoordinator.StaleHydrationDate | src/app/page.tsx:69-73 | After moving from date 0 to date 1 and signing in with a row for date 0 only, the code's draft holds date 0's content and mood while date 1 is active; the corrected loader shows the empty draft |
| SyncCoordinator.Step | src/app/page.tsx:545-567 | Every event keeps storage in agreement with memory and keeps a pending timer only while its guard holds. A save starts only from a pending timer, with a user and no save in flight, and raises the in-flight flag. While that flag is up no second save starts and only its reset clears it. A failed or skipped save leaves cache, storage and draft unchanged |
| SyncCoordinator.CommitOnlyWhenEditing | src/app/page.tsx:546-554 | Under the invariant, a save runs only with a user, an edit in progress and no save in flight |
| SyncCoordinator.CommitWritesThrough | src/app/page.tsx:441-468 | A committed autosave stores the editor HTML, mood and combined attachments for the active date, empties the staged files, and leaves other dates alone |
| SyncCoordinator.HydrationRunsOnce | src/app/page.tsx:69-73 | A sign-in signal after hydration changes neither the cache nor the draft |
| SyncCoordinator.SignOutClears | src/app/page.tsx:74-85 | Sign-out empties the cache, removes the stored copy, resets the hydration guard and disarms autosave |
| SyncCoordinator.DateChangeLoadsDraft | src/app/page.tsx:569-580 | A date change loads content, mood and saved attachments from the cache, or clears them on a miss. It drops staged files, resets editing and disarms autosave |
| SyncCoordinator.CommitThenReturn | src/app/page.tsx:441-468 | After a committed autosave, moving to any date and back loads exactly the committed content, mood and attachments into the draft |
| SyncCoordinator.NoCommitAfterDateChange | src/app/page.tsx:569-580 | An autosave timeout right after a date change saves nothing |
| SyncCoordinator.AtMostOneHydration | src/app/page.tsx:91-98 | In any run of events without a sign-out, at most one event hydrates the cache, and none does once the session is hydrated |
| DateOrder.Latest | src/app/page.tsx:1109 | The latest date of a non-empty set is in the set and no date in it is later |
| DateOrder.SortedDesc | src/app/page.tsx:1109 | The dates of a set, each exactly once, newest first |
| Text.Trim | src/app/page.tsx:1080 | `trim()` is empty exactly for whitespace-only strings |
| Text.IndexOf | src/app/page.tsx:1042 | `indexOf` finds the first occurrence, and fails exactly when there is none |
| SearchIndex.SearchContext | src/app/page.tsx:1039-1062 | Without a match: the first 100 characters plus `...`. With a match: at most the query length plus 50 characters on each side plus a three-character ellipsis on each side |
| SearchIndex.ContextWindow | src/app/page.tsx:1051-1058 | With the first match at `i`, the snippet is the text between `max(0, i-50)` and `min(len, i+len(q)+50)`. It has a `...` prefix iff that start is positive and a `...` suffix iff that end is before the end of the text |
| SearchIndex.ContextShowsMatch | src/app/page.tsx:1039-1062 | The snippet of a matching text still contains the query, case-insensitively |
| SearchIndex.ContextCaseBlind | src/app/page.tsx:1040-1042 | The snippet depends on the query only through its lower-cased form and its length |
| SearchIndex.Escape | src/app/page.tsx:1067-1068 | The escaped query is a well-formed pattern that denotes exactly the query as a literal string |
| SearchIndex.EscapeOrdinary | src/app/page.tsx:1067 | A query without special characters is copied unchanged |
| SearchIndex.Render | src/app/page.tsx:1069 | Wrapping marked stretches in the highlight `<span>` gives the plain snippet when nothing is marked, and otherwise adds the length of one opening and one closing marker per marked stretch |
| SearchIndex.RenderOne | src/app/page.tsx:1069 | A plain stretch is rendered as its text; a marked stretch is rendered as the opening marker, the matched text as it was cased, and the closing marker |
| SearchIndex.RenderAppend | src/app/page.tsx:1069 | Rendering works stretch by stretch: rendering a concatenation gives the concatenation of the renderings |
| SearchIndex.Highlight | src/app/page.tsx:1065-1077 | The highlighted snippet is never shorter than the snippet. For a non-empty query it is longer when the query occurs, ignoring case, and equal to the snippet when it does not |
| SearchIndex.HighlightChanges | src/app/page.tsx:1065-1077 | For a non-empty query, highlighting leaves the text unchanged exactly when the query does not occur in it, ignoring case |
| SearchIndex.Pieces | src/app/page.tsx:1068-1069 | Deleting the highlight markers gives back the snippet with its casing intact, and every marked stretch is a case-insensitive occurrence of the query |
| SearchIndex.PiecesCaseBlind | src/app/page.tsx:1068 | The `gi` highlighting does not depend on the query's case |
| SearchIndex.PiecesScan | src/app/page.tsx:1068-1069 | Scanning left to right, a piece is marked exactly when a case-insensitive occurrence of the query starts at its offset in the snippet; marked pieces span the query and plain pieces one character, so no plain piece starts an occurrence |
| SearchIndex.PiecesMarksAMatch | src/app/page.tsx:1069 | A snippet that contains a non-empty query, case-insensitively, gets at least one highlighted stretch |
| SearchIndex.HighlightWithoutMatch | src/app/page.tsx:1069 | A snippet without an occurrence of a non-empty query has no marked stretch and is returned unhighlighted |
| SearchIndex.ResultFor | src/app/page.tsx:1093-1107 | A hit carries the date and the mood of the entry it reports |
| SearchIndex.MatchingDates | src/app/page.tsx:1088-1091 | The dates selected are exactly the cached dates whose plain text contains the query, ignoring case |
| SearchIndex.Search | src/app/page.tsx:1079-1113 | A blank query finds nothing. Otherwise the hits are exactly the matching cache entries, each with its highlighted snippet and its entry's mood, newest date first |
| SearchIndex.HitHighlighted | src/app/page.tsx:1093-1097 | The hit for an entry matching a non-empty query renders its snippet with at least one highlighted stretch |
| SearchIndex.SearchHitsHighlighted | src/app/page.tsx:1079-1107 | Every hit the search reports renders its entry's snippet with at least one highlighted stretch |
| SearchIndex.SearchCaseInsensitive | src/app/page.tsx:1088-1097 | Upper-casing the query gives the same hits, snippets and order |
| CalendarView.MoodMap | src/app/page.tsx:962-972 | The mood map holds exactly the cached dates whose mood is set, each mapped to that mood |
| CalendarView.MoodMapAfterPut | src/app/page.tsx:962-972 | After a write-through of one date, the mood map changes only at that date: it shows the new mood, or no entry when the mood is unset |
| CalendarView.MoodMapAfterClear | src/app/page.tsx:962-972 | After logout the mood map is empty |
| AuthForm.FieldErrors | src/components/Auth.tsx:33-49 | Each sign-up field key is present iff that field is blank after trimming, with its fixed message; no other key appears |
| AuthForm.HandleAuth | src/components/Auth.tsx:23-92 | Sign-up is called iff all four fields are non-blank and the passwords are identical; sign-in mode always calls sign-in without validation. Loading ends false, field errors appear only in sign-up mode, and the mismatch flag is set iff in sign-up mode both passwords are non-blank and differ. A reply's error message is shown, a successful sign-up shows the confirmation message, and the success callback runs iff sign-in returned no error |
| AuthForm.SignUpCallIffClean | src/components/Auth.tsx:51-67 | In sign-up mode the backend is called exactly when the form shows neither a field error nor a mismatch |
| AuthForm.PasswordsComparedUntrimmed | src/components/Auth.tsx:61-65 | Passwords differing only by a trailing space block sign-up and raise the mismatch flag |
| AuthForm.BlankPasswordsHideMismatch | src/components/Auth.tsx:43-59 | Two different blank passwords raise only their "should be filled" errors, not the mismatch |

## Left out

- Supabase calls are not modelled as effects. Their results are inputs:
  - entry select, insert and update;
  - storage upload and `getPublicUrl`;
  - profile select and upsert;
  - the auth calls.
- The user-name and profile handling inside `loadUserData` is left out. It only affects the greeting, which is not part of the cache or save logic.
- DOM work is left out because it depends on the browser:
  - editor `innerHTML` syncing, cursor and scroll preservation;
  - `insertAttachmentInline`, image click and hover handlers, and the visibility-change content repair.
- The by-index rewrite of blob URLs in the editor's `<img>` nodes (src/app/page.tsx:406-415) is left out. The HTML handed to `SaveScheduler.Save` is taken as already rewritten.
- `stripHtml` depends on the browser's HTML parser. It is a parameter `plain` of the search functions.
- `localStorage` and JSON serialisation are not modelled byte for byte. The persisted copy is a second map that is written alongside the cache, or removed.
- React scheduling and `setTimeout` delays are not modelled as time. Each handler runs atomically, and each timeout is an event. Interleavings inside one async handler, for example a sign-out during an in-flight save, are therefore not modelled.
- Case mapping is ASCII only. Full Unicode `toLowerCase`, which can change string lengths, is not modelled.
- The JavaScript regular-expression engine is not modelled. Highlighting is modelled as the literal, case-insensitive, left-to-right replacement the escaped pattern denotes.
- Calendar arithmetic is left out because it needs real clock and calendar semantics:
  - `getCalendarDays`, `getDaysInWeek` and `goToNextDay`;
  - the time-based greeting;
  - time zones and `toISOString`.
- SyncCoordinator.Step: the `SignedIn` case uses `LoadUserData`, not `LoadUserDataAsWritten`. It loads the draft of the active date, where the code loads the draft of the date selected on mount. The code's auth-change callback is registered once, on mount (src/app/page.tsx:69-89, dependencies `[]`), and the `loadJournalEntryFromCache` it reaches reads that first render's `selectedDate` (src/app/page.tsx:213-214). The component stays mounted while it shows the sign-in form (src/app/page.tsx:1142). See "## Findings".
- SearchIndex.SearchContext: lengths and indices are counted in Unicode code points, where the code's `indexOf`, `length` and `substring` count UTF-16 code units. The 50- and 100-character windows therefore differ for text with characters outside the Basic Multilingual Plane, such as emoji, and a window that cuts a surrogate pair in half cannot be represented.
- SearchIndex.ContextWindow: the start, the end and the ellipsis conditions are in code points, not UTF-16 code units, for the same reason.
- SyncCoordinator.Step: a save runs atomically within the `AutosaveFired` event, before any `SavingReset`. In the code the in-flight flag `isSavingRef` is cleared 500 ms after a save starts, not when it completes (src/app/page.tsx:558-563). A save slower than that can overlap the next one. After such a save commits, the `setAttachments([])` at src/app/page.tsx:448 or :496 changes a dependency of the autosave effect (src/app/page.tsx:567), which re-arms the timer while the editing flag is still set, so the same content is saved again. Neither the overlap nor that re-arm is modelled; in the model the timer stays disarmed after a commit.
- SyncCoordinator.LoadUserDataAt: a failed fetch leaves the cache as it was and resolves the draft against an empty cache, as `loadAllJournalEntries` returning `{}` does. The loading-state flags `isLoadingUserData` and `isLoadingCurrentEntry` are UI-only and are not modelled.
- The saved-URL branch of an inline attachment's remove button (src/app/page.tsx:820-822) is not modelled: only `loadSavedAttachmentsInline` passes a URL, and nothing calls it. `AttachmentRemoved` therefore only marks the draft as edited; as in the code, the staged file stays in `attachments`.
- The autosave effect's stale read of `savedAttachments` (it is not among the dependencies at src/app/page.tsx:567) is not modelled separately: every handler runs on the current state.
- The search debounce (300 ms), the "saved" indicator timeout (2000 ms), the mood button list, modals, styling and the dark-mode toggle are left out.

## Findings

| source | as written | input that shows it | evidently intended | confidence | as-written member | corrected member |
|---|---|---|---|---|---|---|
| src/app/page.tsx:69-73 | The auth-change callback, registered once on mount, loads the draft through a `loadJournalEntryFromCache` that reads the mount render's `selectedDate` (src/app/page.tsx:213-214) | Mount on date 0, select date 1, sign out, sign in with one fetched row, for date 0, with content "A" and mood "Happy": the draft holds "A" and "Happy" while date 1 is active, so the editor shows them, and the next edit autosaves them under date 1 | Load the draft of the date that is active at sign-in | not executed; high | SyncCoordinator.StaleHydrationDate | SyncCoordinator.LoadUserData |
