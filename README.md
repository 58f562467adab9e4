# Untitled Journal — a Dafny model of its persistence and reflection logic

Untitled Journal is a small journaling web application. Users write short
entries. They read them grouped under coarse ages ("Just now", "Today", …).
Once 30 entries exist, they can ask a generative model for a few reflective
questions. All data lives in the browser's key-value store, in two records:
the entries and the reflections.

This project models the logic under that user interface:

- `Storage` (`services/storageService.ts`): the store as a class `Store`
  with one field per record. It saves an entry at the front, clears both
  records, and upserts a reflection so that only the latest one of each kind
  is kept. It also imports a parsed export file. The import checks each
  item's shape, drops items whose id is already stored, and merges the rest
  into the stored entries, newest first. The list transformations are
  functions: filters, the id set, and a stable newest-first sort.
- `EntryFeed` (`components/EntryFeed.tsx`): the age label of an entry,
  computed from a first-match chain of seven thresholds. Also the grouping
  pass, a loop that gathers consecutive entries with the same label.
- `Gemini` (`services/geminiService.ts`): the text context sent to the model.
  It holds the first 50 entries, one `[date] text` line each. Also the fixed
  mapping from the call's outcome to the returned list of questions.
- `ReflectionPanel` (`components/Reflection.tsx`): the unlock threshold and
  the 24-hour regeneration gate. A class `ReflectionScreen` models the
  screen's state (`reflections`, `isLoading`) and what `handleReflect` does
  to it and to the store.
- `Journal` (`types.ts`, `constants.ts`): the records and constants.
  `Wrappers` and `Sequences` are small helpers.

Time is integer milliseconds. A `Timestamp` pairs the stored ISO-8601 text
with the instant it denotes. The clock ("now"), the random UUIDs, the API key
and the remote call's outcome are parameters.

Behaviours of the code that the model keeps as they are:

- A record that is not valid JSON makes the read throw
  (`storageService.ts:21` has no `try`); it does not read as empty. The
  model returns `Err(SyntaxError)`. Every operation that reads the record
  first then fails too, and leaves the store unchanged.
- Whitespace-only text is refused by the caller (`EntryInput.tsx:21`). The
  text saved is the untrimmed text (`EntryInput.tsx:22`), not the trimmed
  one. `Store.SaveEntry` requires `!IsBlank(text)` and stores `text` as
  given.
- The generator's failure paths resolve with non-empty lists (the no-key
  message, the "cloudy" message). `handleReflect` therefore saves them as
  the lexical reflection, and they replace the previous one in the store.
  Of the failure paths, only a rejection of the generator (the client
  constructor throwing, which happens outside its `try`) leaves the store
  untouched.
- The regeneration gate looks at the first reflection shown, whatever its
  kind. It does not look for a lexical one.
- `saveEntry` puts the new entry first without comparing timestamps. The
  list stays newest-first only if the clock has not gone back
  (`PrependKeepsNewestFirst`).

## Model

| member | source | states |
|---|---|---|
| `Journal.LabelTextIsInjective` | constants.ts:11-19 | the seven label texts are distinct, so comparing texts (as the feed does) is comparing labels |
| `Storage.Read` | services/storageService.ts:19-22 | reading a record: nothing stored gives the empty list, a stored list is returned as is, and exactly the unparseable record throws |
| `Storage.Store.GetEntries` | services/storageService.ts:19-22 | the entries read back as `[]` when nothing is stored and as the stored list when one is, and throw exactly when the record does not parse |
| `Storage.Store.GetReflections` | services/storageService.ts:29-32 | the reflections read back as `[]` when nothing is stored and as the stored list when one is, and throw exactly when the record does not parse |
| `Storage.Store.constructor` | services/storageService.ts:4-5 | a fresh store holds neither record |
| `Storage.Store.SaveEntry` | services/storageService.ts:7-17 | for non-blank text and a fresh id: returns the new entry, the entries become `[new] + old`, reflections untouched, and the new id was not stored before; an unreadable record throws and changes nothing |
| `Storage.PrependKeepsNewestFirst` | services/storageService.ts:14 | prepending an entry no older than the current first keeps the list newest-first |
| `Storage.Store.ClearAllData` | services/storageService.ts:24-27 | both records are removed, and both then read back as `[]` |
| `Storage.WithoutKind` | services/storageService.ts:43 | the kept reflections are exactly those of other kinds, with their multiplicities, as a subsequence (order kept) |
| `Storage.Upsert` | services/storageService.ts:43-44 | the new reflection is first and is the only one of its kind; every reflection of another kind is kept as often as it occurs, in its original relative order |
| `Storage.WithoutKindKeepsOnePerKind` | services/storageService.ts:43 | dropping one kind keeps "at most one reflection per kind" |
| `Storage.UpsertKeepsOnePerKind` | services/storageService.ts:42-44 | saving a reflection preserves "at most one reflection per kind" |
| `Storage.Store.SaveReflection` | services/storageService.ts:34-47 | returns the new reflection; the record becomes the upsert of it into the stored list; entries untouched; the one-per-kind invariant is kept (and established when nothing was stored); an unreadable record throws and changes nothing |
| `Storage.InsertNewestFirst` | services/storageService.ts:75 | inserting adds exactly the one entry (multiset) |
| `Storage.InsertKeepsNewestFirst` | services/storageService.ts:75 | inserting into a newest-first list keeps it newest-first |
| `Storage.SortNewestFirst` | services/storageService.ts:75 | the sorted list is a permutation of the input, of the same length, with timestamps non-increasing |
| `Storage.InsertIsStable` | services/storageService.ts:75 | insertion puts the entry before every entry with the same timestamp and moves no other |
| `Storage.SortIsStable` | services/storageService.ts:75 | entries with equal timestamps keep their input order (the stable sort JavaScript guarantees) |
| `Storage.ValidEntries` | services/storageService.ts:55-59 | the kept items are exactly the items with string `id`, `timestamp` and `text`, each as often as it occurs (batch duplicates kept) |
| `Storage.ValidEntriesAppend` | services/storageService.ts:55-59 | the shape filter keeps input order: filtering a concatenation is concatenating the filtered parts |
| `Storage.FreshEntries` | services/storageService.ts:66-69 | the kept entries are exactly those whose id is not stored, with multiplicities, in order; the result is empty iff every id is stored |
| `Storage.FreshCountMatches` | services/storageService.ts:55-69 | the number of new entries equals the number of well-shaped items whose id is not stored |
| `Storage.ImportOutcome` | services/storageService.ts:49-79 | something is written iff a positive count is returned; a null item throws a TypeError; with no null item and some well-shaped item, an unparseable stored record throws a SyntaxError and writes nothing; on a write the list is newest-first, has length old + count, and is a permutation of the new entries plus the stored ones |
| `Storage.ImportAddsNothing` | services/storageService.ts:50-52 | a non-array, an import with no well-shaped item, or one whose every well-shaped id is stored returns 0 and writes nothing |
| `Storage.ImportCount` | services/storageService.ts:61-78 | with a readable record and no null item, the count returned is the number of well-shaped items whose id is not stored, batch duplicates each counted |
| `Storage.IdsOfMerge` | services/storageService.ts:66 | the ids of a merged list are the union of the ids of its parts |
| `Storage.ReimportAddsNothing` | services/storageService.ts:66-71 | importing the same data right after an import that added entries returns 0 and writes nothing |
| `Storage.BatchDuplicatesAreKept` | services/storageService.ts:69 | two copies of one new entry in one import are both counted |
| `Storage.Store.ImportEntries` | services/storageService.ts:49-79 | returns what `ImportOutcome` returns and writes what it writes; otherwise the store is unchanged; reflections untouched |
| `EntryFeed.VagueTime` | components/EntryFeed.tsx:9-21 | the label returned is the bucket the age lies in: at least the threshold before it and below its own |
| `EntryFeed.BucketIsUnique` | components/EntryFeed.tsx:14-20 | buckets do not overlap, so the first match is the only match |
| `EntryFeed.VagueTimeIsMonotone` | components/EntryFeed.tsx:14-20 | more elapsed time never gives a label earlier in the order |
| `EntryFeed.FutureIsJustNow` | components/EntryFeed.tsx:14 | a timestamp in the future gives "Just now" |
| `EntryFeed.SampleAges` | components/EntryFeed.tsx:14-20 | ages of 0.5 h, 10 h, 30 h, 4 d, 20 d, 60 d, 200 d give the seven labels in order |
| `EntryFeed.GroupByVagueTime` | components/EntryFeed.tsx:25-39 | the groups concatenate back to the input, none is empty, every item has its group's label, neighbours differ in label, and empty input gives no groups |
| `EntryFeed.LastGroupIsTrailingRun` | components/EntryFeed.tsx:30-36 | the last group holds exactly the trailing run of entries with its label |
| `EntryFeed.EmptyGrouping` | components/EntryFeed.tsx:26 | a grouping is empty exactly when there are no entries |
| `EntryFeed.LastGroupsAgree` | components/EntryFeed.tsx:30-36 | two groupings of the same entries end with the same group |
| `EntryFeed.RunGroupingIsUnique` | components/EntryFeed.tsx:25-39 | only one list of groups has the properties of the grouping pass |
| `EntryFeed.ReturningLabelStartsNewGroup` | components/EntryFeed.tsx:32-36 | labels A, A, B, A give exactly three groups, A twice |
| `EntryFeed.NewestFirstGivesDistinctLabels` | components/EntryFeed.tsx:28-37 | on a newest-first list the group labels strictly advance, so no label appears in two groups |
| `Gemini.DatePart` | services/geminiService.ts:18 | the result is the prefix of the timestamp up to its first 'T' (the whole text if there is none) |
| `Gemini.ContextLines` | services/geminiService.ts:18 | one `[date] text` line per entry, in order |
| `Gemini.BuildContext` | services/geminiService.ts:18 | no entries give the empty context; otherwise the context starts with the first entry's `[date] text` line (its full line structure is `ContextLinesAreTheNewestEntries` and `ContextIgnoresOlderEntries`) |
| `Gemini.SplitJoinedLines` | services/geminiService.ts:18 | for a non-empty list in which no line contains a newline, the newline join has no trailing separator: splitting it gives the lines back |
| `Gemini.ContextLinesAreTheNewestEntries` | services/geminiService.ts:18 | when no date part or text contains a newline, the context has one line for each of the first min(n, 50) entries, in order, each `[date] text` |
| `Gemini.ContextIgnoresOlderEntries` | services/geminiService.ts:18 | entries after the 50th do not change the context |
| `Gemini.GenerateLexicalReflection` | services/geminiService.ts:13-68 | no key: exactly the no-key message, and no call; the client constructor throwing: a rejection; a throw or unparseable answer: exactly the "cloudy" message; a parsed answer: that list as is; the list is empty iff the answer is empty text or an empty list |
| `Gemini.FailuresYieldOneMessage` | services/geminiService.ts:15 | every failure path returns a one-element, non-empty list |
| `ReflectionPanel.CanReflect` | components/Reflection.tsx:23 | unlocked iff there are at least 30 entries |
| `ReflectionPanel.ThresholdSamples` | components/Reflection.tsx:23 | locked at 0 and 29 entries, unlocked at 30, 31 and 1000 |
| `ReflectionPanel.CanRegenerate` | components/Reflection.tsx:63-65 | allowed iff nothing is shown or the first shown reflection is strictly more than 24 h old |
| `ReflectionPanel.RegenerationSamples` | components/Reflection.tsx:65 | 23 h and exactly 24 h block a new request, 25 h allows it |
| `ReflectionPanel.WithoutId` | components/Reflection.tsx:35 | the kept reflections are those with another id, each as often as it occurs, in their order; with a fresh id nothing is dropped |
| `ReflectionPanel.ShownAfterSave` | components/Reflection.tsx:35 | the saved reflection is first, and the rest are exactly the shown reflections with another id, each as often as it occurs, in their order (with a fresh id, the whole shown list: `FreshIdDropsNothing`) |
| `ReflectionPanel.FreshIdDropsNothing` | components/Reflection.tsx:35 | after a save the shown list is the new reflection followed by the previous list, nothing removed |
| `ReflectionPanel.StaleLexicalStaysShown` | components/Reflection.tsx:35 | an older lexical reflection stays shown after a save although the upsert, which is the new record when the store held the shown list, drops it |
| `ReflectionPanel.MissingKeyBlocksForADay` | components/Reflection.tsx:32-35 | without an API key the no-key message is saved as the lexical reflection and blocks a new request for 24 h |
| `ReflectionPanel.ReflectionScreen.constructor` | components/Reflection.tsx:12-14 | the screen starts with no reflections shown and not busy |
| `ReflectionPanel.ReflectionScreen.LoadReflections` | components/Reflection.tsx:25-27 | on mount the shown list becomes the stored reflections |
| `ReflectionPanel.ReflectionScreen.BeginReflect` | components/Reflection.tsx:30 | while the generator is awaited the screen is busy |
| `ReflectionPanel.ReflectionScreen.CompleteReflect` | components/Reflection.tsx:33-41 | a non-empty answer is upserted into the store and put in front of the shown list; a rejection, an empty answer or a store exception changes neither; the busy flag ends cleared |
| `ReflectionPanel.ReflectionScreen.HandleReflect` | components/Reflection.tsx:29-42 | busy during the request, not busy after; the generator's answer is saved and shown only when it resolved non-empty; a rejection saves nothing; entries untouched |

## Left out

- The browser store and JSON (de)serialisation. A record is modelled as
  absent, a list, or text that does not parse. A record that parses to a
  JSON value other than a list is not modelled.
- Extra properties of imported objects. The source stores the imported
  objects as they are; the model keeps only `id`, `timestamp` and `text`.
- `crypto.randomUUID`: ids are parameters, and freshness is a precondition
  where the code relies on it.
- `Date.now()`, `toISOString()` and date parsing. The clock is a parameter,
  and a `Timestamp` carries its text and its instant. Unparseable dates
  (NaN instants) are not modelled.
- `VagueTime` compares integer milliseconds where the source divides into
  floating-point hours and days. The source reads the clock once per entry;
  the grouping pass here uses one `now` for the whole list.
- The remote model call, its prompt, model name and response schema.
  `CallOutcome` stands for them. Only two parse results are modelled: a
  list of strings, or a parse that throws. `null` or a non-list are left
  out.
- `injectMockData`: it depends on `Math.random` and a data file that is not
  part of this model. Its merge-and-sort step is the one `ImportOutcome`
  models.
- `daysActive` in `Reflection.tsx`: a floating-point value nothing uses.
- Rendering and view switching: `App.tsx`, `Modal.tsx`, `AboutModal.tsx`,
  and the JSX of the core files. This includes the render conditions that
  show the request button (`canReflect`, `canRegenerate`, `disabled` while
  busy); `HandleReflect` does not require them.
- `Settings.tsx`: file reading, export download and status messages.
- The textarea resizing in `EntryInput.tsx`.
- `ReflectionPanel.ReflectionScreen.LoadReflections`: when the stored
  record does not parse, the source's effect throws during rendering. The
  model leaves the shown list unchanged.
- The asynchrony of `handleReflect`: the one `await` is modelled by
  splitting the handler into `BeginReflect` and `CompleteReflect`.
  Interleaving with other events is not modelled.
