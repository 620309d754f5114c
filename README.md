# Horoscope journal: store, editing session and date keys

A model of the core of a small journaling app. The user picks a zodiac sign,
reads a horoscope and keeps one journal entry per calendar day. The model
has three parts.

- **The journal store.** This is the Redux slice, in `JournalSlice`. The
  class `JournalState` holds the selected sign, the horoscope text, the fetch
  status (`loading`, `error`) and the journal, a map from a `YYYY-MM-DD` date
  key to an entry. Each reducer case is a method that assigns only the
  fields the reducer assigns. The two journal updates are specified by the
  map functions `Upsert` and `Remove`, and lemmas prove their properties.
  Its invariant `Valid()` says that every entry is stored under its own date
  and that a fetch in flight carries no error.
- **The journal screen's editing session.** This is in `JournalScreen`. The
  class `EditingSession` holds the draft (`currentEntry`), the
  unsaved-changes flag and the store. The screen's handlers are its
  methods: reload, text change, explicit save, the auto-save tick and
  leaving the screen. The word and character counts and the
  previous-entries list are functions. The JavaScript string primitives they
  rely on are in `Text`: `trim`, `split(/\s+/)` with the empty-piece filter,
  and `length` in UTF-16 code units. `KeyOrder` holds the key order the list
  is sorted by, with a proof that it is calendar order.
- **Date keys.** These are in `DateUtils`: the date part of an ISO 8601
  timestamp, and the "is today" test.

The clock and the identifier generator are not modelled: the current ISO
timestamp (`now`, `nowIso`) and a fresh id (`newId`) are parameters. The
horoscope service is not modelled either: only the outcome of a fetch
reaches the store, as a `FetchOutcome`. The reload effect of the screen
runs whenever today's stored entry changes, which includes right after a
save; in the model the caller invokes `Reload` for it.

## Model

| member | source | states |
|---|---|---|
| JournalSlice.JournalState.constructor | src/store/slice/journalSlice.ts:17-23 | The initial state: sign Aries, empty horoscope, empty journal, not loading, no error; it satisfies the invariant. |
| JournalSlice.JournalState.SetZodiacSign | src/store/slice/journalSlice.ts:29-31 | Only `selectedZodiac` changes, and it becomes the given sign. |
| JournalSlice.Upsert | src/store/slice/journalSlice.ts:32-53 | Saving under `date`: the keys are the old ones plus `date`. Every other date's entry is unchanged. The entry under `date` has the new content and update time. An existing entry keeps its id, date and creation time. A new entry gets the fresh id, the key as its date, and `createdAt == updatedAt == now`. |
| JournalSlice.JournalState.SaveJournalEntry | src/store/slice/journalSlice.ts:32-53 | Only the journal changes, and it becomes `Upsert` of the old journal; the invariant is kept. |
| JournalSlice.UpsertSize | src/store/slice/journalSlice.ts:32-53 | A save grows the journal by one entry exactly when the date was absent, and by none otherwise. |
| JournalSlice.UpsertKeepsKeyed | src/store/slice/journalSlice.ts:37-52 | After a save every entry is still stored under its own date. |
| JournalSlice.UpsertTwice | src/store/slice/journalSlice.ts:37-42 | A second save under the same date keeps the id and creation time from the first and carries the second content and time; no key is added. |
| JournalSlice.Remove | src/store/slice/journalSlice.ts:54-56 | Deleting `date`: the keys are the old keys without `date`, and every remaining entry is unchanged. |
| JournalSlice.JournalState.DeleteJournalEntry | src/store/slice/journalSlice.ts:54-56 | Only the journal changes, and it becomes `Remove` of the old journal; the invariant is kept. |
| JournalSlice.RemoveSize | src/store/slice/journalSlice.ts:54-56 | A delete shrinks the journal by one entry when the date was present. When the date is absent it is a no-op and the journal is unchanged. |
| JournalSlice.RemoveKeepsKeyed | src/store/slice/journalSlice.ts:54-56 | After a delete every entry is still stored under its own date. |
| JournalSlice.RemoveUndoesNewUpsert | src/store/slice/journalSlice.ts:43-56 | Deleting a date that was just saved for the first time gives back the journal as it was. |
| JournalSlice.JournalState.ClearError | src/store/slice/journalSlice.ts:57-59 | Only `error` changes, and it becomes absent. |
| JournalSlice.JournalState.FetchPending | src/store/slice/journalSlice.ts:63-66 | `loading` becomes true and `error` absent; nothing else changes. |
| JournalSlice.JournalState.FetchFulfilled | src/store/slice/journalSlice.ts:67-71 | `loading` becomes false, the horoscope becomes the returned text and `error` becomes absent. |
| JournalSlice.FetchErrorMessage | src/store/slice/journalSlice.ts:74 | The stored error is never empty. It is the rejection's message when that is present and non-empty, and "Failed to fetch horoscope" otherwise. |
| JournalSlice.JournalState.FetchRejected | src/store/slice/journalSlice.ts:72-75 | `loading` becomes false and `error` becomes `FetchErrorMessage` of the message; the horoscope shown before stays. |
| JournalSlice.JournalState.FetchSettled | src/store/slice/journalSlice.ts:67-75 | After either outcome `loading` is false. On success the horoscope is the new text and there is no error. On failure the horoscope is unchanged and the error is the failure's message or the default. |
| JournalSlice.FetchLifecycle | src/store/slice/journalSlice.ts:63-75 | A whole fetch, pending then settled. `loading` ends false and the journal and sign are untouched. A failure leaves a non-empty error and the old horoscope. A success leaves the new text and no error. |
| DateUtils.DateKey | src/utils/dateUtils.ts:14-16 | `split('T')[0]`: the key is a prefix of the ISO string and contains no `'T'`. When it is shorter than the string, the next character is the first `'T'`. |
| DateUtils.DateKeyOfPrefix | src/utils/dateUtils.ts:14-16 | Whatever follows the first `'T'` has no bearing on the key. |
| DateUtils.DateKeyOfIso | src/utils/dateUtils.ts:14-16 | For a `toISOString` timestamp the key is its first ten characters, a well-formed `YYYY-MM-DD` key. |
| DateUtils.SameDaySameKey | src/utils/dateUtils.ts:14-16 | Two timestamps get the same key exactly when their ISO strings agree on the date part, that is, on the same UTC day. |
| DateUtils.CurrentDateKey | src/utils/dateUtils.ts:10-12 | The key of the current instant is the first ten characters of its ISO string, a well-formed key. |
| DateUtils.IsToday | src/utils/dateUtils.ts:22-24 | True exactly when the string equals the current date key. |
| Text.Trim | src/screens/JournalScreen.tsx:50-57 | `trim()`: the result neither begins nor ends with whitespace. It is the slice of the input that starts after the leading whitespace, and only whitespace follows it. It is empty exactly when the input is all whitespace. |
| Text.TrimIdempotent | src/screens/JournalScreen.tsx:50-57 | Trimming twice is trimming once. |
| Text.TrimmedIsFixed | src/screens/JournalScreen.tsx:50-57 | A string with no whitespace at either end is its own trim. |
| Text.TrimKeepsText | src/screens/JournalScreen.tsx:50-57 | Trimming drops only whitespace: the non-whitespace characters are the same before and after. |
| Text.SplitWhitespace | src/screens/JournalScreen.tsx:75 | `split(/\s+/)`: there is at least one piece, no piece holds whitespace, and only the first and last pieces may be empty. |
| Text.SplitRoundTrip | src/screens/JournalScreen.tsx:75 | Putting back the whitespace runs a split cut out, one non-empty run between each two pieces, gives the input again. Together with the pieces holding no whitespace, this fixes where the split cuts. |
| Text.SplitKeepsText | src/screens/JournalScreen.tsx:75 | The pieces of a split, joined, are exactly the input's non-whitespace characters. |
| Text.NonEmpty | src/screens/JournalScreen.tsx:75 | `filter(word => word)`: it keeps pieces of the input, none of them empty, and joined they give the same text. A single piece is kept exactly when it is non-empty. |
| Text.NonEmptyKeepsOrder | src/screens/JournalScreen.tsx:75 | Filtering two lists joined is filtering each and joining, so the filter deletes the empty pieces and keeps the rest in order. |
| Text.Words | src/screens/JournalScreen.tsx:75 | Every word is non-empty and free of whitespace, and the words are exactly `Runs` of the draft: its maximal runs of non-whitespace characters, in order. |
| Text.Runs | src/screens/JournalScreen.tsx:75 | The reference definition of the tokens: the maximal runs of non-whitespace characters, each non-empty and free of whitespace, without `trim`, `split` or `filter`. |
| Text.FilteredSplitIsRuns | src/screens/JournalScreen.tsx:75 | Splitting at whitespace and then dropping the empty pieces gives exactly the tokens. |
| Text.RunsIgnoreTrim | src/screens/JournalScreen.tsx:75 | Trimming first does not change the tokens. |
| Text.RunsTrailingBlank | src/screens/JournalScreen.tsx:75 | Whitespace appended to a text adds no token. |
| Text.RunsCount | src/screens/JournalScreen.tsx:75 | There are as many tokens as the left-to-right scan counts token starts. |
| Text.StartsAfterCounts | src/screens/JournalScreen.tsx:75 | The scan counts exactly the positions where a non-whitespace character starts the text or follows whitespace. |
| Text.WordsCountStarts | src/screens/JournalScreen.tsx:75 | The number of words is the number of positions where a word begins. |
| Text.WordsKeepText | src/screens/JournalScreen.tsx:75 | The words, joined, are exactly the draft's non-whitespace characters. |
| Text.NoWordsIffBlank | src/screens/JournalScreen.tsx:75 | There are no words exactly when the draft is empty or whitespace only. |
| Text.TwoWords | src/screens/JournalScreen.tsx:75 | Two whitespace-free words joined by one space split into exactly those two words. |
| Text.Utf16Length | src/screens/JournalScreen.tsx:79 | `length` counts UTF-16 code units: between one and two per character. It equals the number of characters exactly when none lies above U+FFFF. |
| JournalScreen.PersistedContent | src/screens/JournalScreen.tsx:38 | The stored content for the key, or empty when there is no entry. |
| JournalScreen.EditingSession.constructor | src/screens/JournalScreen.tsx:30-41 | On mount the draft is today's stored content (empty when there is none), and there are no unsaved changes. |
| JournalScreen.EditingSession.Reload | src/screens/JournalScreen.tsx:37-41 | When today's entry changes, the draft resets to its content (empty when there is none) and the unsaved flag clears. |
| JournalScreen.EditingSession.TextChange | src/screens/JournalScreen.tsx:43-47 | The draft becomes the new text. The unsaved flag is set exactly when the text differs from today's stored content. |
| JournalScreen.EditingSession.Save | src/screens/JournalScreen.tsx:49-62 | It reports "empty entry" exactly when the draft is whitespace only; then the journal and the flag are unchanged. Otherwise the trimmed draft, which is non-empty and trimmed, is upserted under today's key and the flag clears. A journal whose entries are all clean stays clean. |
| JournalScreen.EditingSession.AutoSave | src/screens/JournalScreen.tsx:64-72 | With the flag set and a draft that is not blank, the trimmed draft is upserted under today's key and the flag clears. Otherwise the journal and the flag are unchanged. Clean entries stay clean. |
| JournalScreen.AutoSaveTwice | src/screens/JournalScreen.tsx:64-72 | Two ticks in a row end exactly as one does: the second writes nothing. |
| JournalScreen.TrimmedDraftIsClean | src/screens/JournalScreen.tsx:55-58 | What the screen writes for a draft that is not blank is non-empty, with no whitespace at either end. |
| JournalScreen.UpsertKeepsClean | src/screens/JournalScreen.tsx:66-69 | Writing clean text keeps every entry of a clean journal clean. |
| JournalScreen.EditingSession.Rendered | src/screens/JournalScreen.tsx:89-111 | The leave listener is registered again, with the current draft in its closure, only when the unsaved flag changed in the render. |
| JournalScreen.EditingSession.Guard | src/screens/JournalScreen.tsx:91-95 | Leaving proceeds at once exactly when there are no unsaved changes; otherwise it is blocked and the user is asked. |
| JournalScreen.EditingSession.Leave | src/screens/JournalScreen.tsx:89-108 | The prompt appears exactly when there are unsaved changes. Without a prompt, or with "Don't save", nothing is written. "Save" writes the trimmed current draft under today's key unless the draft is blank. Clean entries stay clean. |
| JournalScreen.EditingSession.LeaveAsWritten | src/screens/JournalScreen.tsx:89-111 | As the source has it: "Save" writes the trimmed draft held by the listener's closure, not the current draft. |
| JournalScreen.StaleLeaveScenario | src/screens/JournalScreen.tsx:89-111 | On an empty day, typing a non-blank `first` and then `second`, leaving and answering "Save" stores the trimmed `first`. |
| JournalScreen.LeaveSavesLatestDraft | src/screens/JournalScreen.tsx:89-108 | The same steps through `Leave` store the trimmed `second`. |
| JournalScreen.StaleLeaveExample | src/screens/JournalScreen.tsx:102-105 | "H" and "Hello" are their own trimmed forms, so the two leaves store different text. |
| JournalScreen.FirstEntryScenario | src/screens/JournalScreen.tsx:37-62 | On a day with no entry, typing a non-blank draft sets the flag and gives at least one word. Saving then creates the only entry: the fresh id, today's key, the trimmed draft, `createdAt == updatedAt == now`. Afterwards the flag is clear. |
| JournalScreen.BlankSaveScenario | src/screens/JournalScreen.tsx:49-53 | Saving a blank draft is refused and no entry is created. |
| JournalScreen.WordCount | src/screens/JournalScreen.tsx:74-76 | The count is the number of positions where a non-whitespace character starts the draft or follows whitespace. It is zero exactly when the draft is empty or whitespace only. |
| JournalScreen.TwoWordCount | src/screens/JournalScreen.tsx:74-76 | Two whitespace-free words with one space between them, such as "Hello world", count as two. |
| JournalScreen.CharacterCount | src/screens/JournalScreen.tsx:78-80 | The count is the draft's UTF-16 length: at least its number of characters and at most twice that. |
| JournalScreen.HelloWorldCharacters | src/screens/JournalScreen.tsx:78-80 | "Hello world" counts eleven characters. |
| JournalScreen.Newest | src/screens/JournalScreen.tsx:189 | A member of the set that every other member precedes in key order. |
| JournalScreen.NewestExists | src/screens/JournalScreen.tsx:189 | Every non-empty set of keys has a greatest key. |
| JournalScreen.NewestFirst | src/screens/JournalScreen.tsx:189 | The keys in strictly descending key order, each exactly once. |
| JournalScreen.PreviousEntries | src/screens/JournalScreen.tsx:186-191 | The list holds min(10, number of other dates) pairs. Each pair is a stored date other than the current one, with its stored entry. Dates are strictly newest first. Any other date left out is older than every date listed. |
| JournalScreen.LeftOutAreOlder | src/screens/JournalScreen.tsx:189-190 | In a newest-first list, every key past the first `n` is older than each of the first `n`. |
| KeyOrder.KeyLessIrreflexive | src/screens/JournalScreen.tsx:189 | No key precedes itself. |
| KeyOrder.KeyLessAsymmetric | src/screens/JournalScreen.tsx:189 | Two keys never precede each other. |
| KeyOrder.KeyLessTransitive | src/screens/JournalScreen.tsx:189 | Key order is transitive. |
| KeyOrder.KeyLessTotal | src/screens/JournalScreen.tsx:189 | Of two different keys, one precedes the other. |
| KeyOrder.DigitsOrder | src/screens/JournalScreen.tsx:189 | For digit strings of one length, string order is numeric order and string equality is numeric equality. |
| KeyOrder.KeyOrderIsDateOrder | src/screens/JournalScreen.tsx:189 | For `YYYY-MM-DD` keys, one precedes another exactly when its (year, month, day) comes first, which is the order `new Date(key).getTime()` gives. |

## Left out

- Rendering, styling, icons and alert texts are not modelled. The success and "empty entry" alerts appear only as `Save`'s result.
- Other screens, navigation wiring and the zodiac picker are not modelled: they only dispatch the actions above.
- The horoscope service (random delay, random failure, canned texts) is not modelled. Only the outcome of a fetch is an input.
- Timing is not modelled. The 30-second interval is restarted on every draft change, so in the app a tick happens only after 30 idle seconds; here `AutoSave` is one tick, called by the caller.
- Overlapping fetches are not modelled. They are an event-loop ordering concern; each fetch is a pending step followed by a settling step.
- Persistence and rehydration of the store are not modelled: they are library code that is not part of this model.
- The clock and `generateId` are parameters: `now`, `nowIso`, `newId`. Their format and uniqueness are not modelled.
- `formatDate` is not modelled: it calls the host's locale formatter.
- Parsing keys with `new Date(...)` is not modelled. The list is sorted by string order of the keys, which `KeyOrderIsDateOrder` proves is calendar order for `YYYY-MM-DD` keys. For malformed keys the source compares `NaN`s and its order is unspecified; the model still sorts them by string order.
- `toISOString` is not modelled. It is its argument, and `DateKeyOfIso` covers its shape for years 0 through 9999. Expanded years (`+YYYYYY`) are not covered.
- Prototype-chain lookups in the journal object are not modelled. The journal is a plain map, so a key such as `constructor` behaves as any other date.
- JournalScreen.EditingSession: today's key is fixed when the session starts. The source recomputes it on every render (src/screens/JournalScreen.tsx:34-35). A session that crosses midnight therefore switches to the new day's key for text changes, saves, auto-saves, leaving and the previous-entries filter. If either day has an entry, the reload effect (src/screens/JournalScreen.tsx:37-41) then replaces the draft with the new day's content, empty when there is none, and clears the flag, so unsaved text is lost. The model does not capture a day change during a session.
- JournalScreen.EditingSession.Leave: the navigation action that follows the prompt is not modelled, because leaving the screen happens in every case and only the store write is observable here.

## Findings

| source | as written | input that shows it | evidently intended | confidence | as-written member | corrected member |
|---|---|---|---|---|---|---|
| src/screens/JournalScreen.tsx:89-111 | The leave listener is registered again only when `navigation` or `hasUnsavedChanges` changes. Its "Save" branch therefore runs the `handleAutoSave` of the render where the flag last changed, with that render's draft. | A day with no entry: type "H", then "Hello", leave the screen and answer "Save". "H" is stored. | "Save" stores the current draft, "Hello". | medium, not executed | JournalScreen.EditingSession.LeaveAsWritten, JournalScreen.StaleLeaveScenario | JournalScreen.EditingSession.Leave, JournalScreen.LeaveSavesLatestDraft |
