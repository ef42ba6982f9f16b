# MeetPulse storage core, modelled in Dafny

MeetPulse is a single-page meeting-notes app whose "backend" lives in the browser:
`storageService` keeps three local-storage slots (all users with their plain-text
passwords, all notes of all users, and the current session) and rewrites a whole slot on
every change. This project models that service, together with the two pieces of UI logic
that sit next to it: the dashboard's search filter and the note editor's comma-separated
participant/tag lists, including which `saveNote` branch the editor's payload selects.

Layout (one module per file):

- `wrappers.dfy` (`Wrappers`): `Option`, `Result`.
- `seqs.dfy` (`Seqs`): `filter`, `findIndex`, subsequences.
- `text.dfy` (`Text`): `trim` (the full ECMAScript whitespace and line-terminator set),
  ASCII `toLowerCase`, `includes`, `split(',')`, `join`.
- `types.dfy` (`Types`): `User`, `Note`, `AuthResponse`, and `Patch`, the `Partial<Note>`
  payload. A `Patch` records, for each key, whether the key is present.
- `recency.dfy` (`Recency`): the stable newest-first sort of `getNotes`.
- `storage.dfy` (`Storage`): the store record and one pure transition per service call.
  A call that can throw returns a `Step`: the new store paired with a success value or an
  error.
- `storage_facts.dfy` (`StorageFacts`): properties across calls, and the store invariant.
- `note_modal.dfy` (`NoteModal`): list formatting and parsing, the opened form, and the save payload.
- `app.dfy` (`App`): the search filter, the `userId` injection of `handleSaveNote`, and
  how the editor's payload reaches `saveNote`.

`crypto.randomUUID()` is the parameter `freshId`. `new Date().toISOString()` is the
integer parameter `now`. Freshness of ids, and a clock that does not run backwards, are
hypotheses of the invariant lemmas only. The transitions themselves require nothing of
them, just as the source does not check them.

An update is the spread `{ ...stored, ...note, updatedAt: now }`
(services/storage.ts:85-89). It overwrites `userId`, and also `createdAt` when the payload
has that key. `Storage.SaveNote` states exactly that. `StorageFacts.SaveNoteKeepsValid`
therefore needs the payload's `createdAt` to be absent or not later than `now`. The `id`
cannot change, because the update branch only runs on the note whose id equals the
payload's id.

## Model

| member | source | states |
|---|---|---|
| Storage.Register | services/storage.ts:12-36 | fails with "User already exists" exactly when some stored user has the email, leaving the store unchanged; otherwise appends exactly the new user at the end, and stores and returns the password-free user with token `fake-jwt-<id>`; notes never change |
| Storage.Login | services/storage.ts:38-53 | succeeds iff some stored user matches both email and password; then returns and stores the FIRST such user without password, with token `fake-jwt-<id>`; users and notes never change; on failure nothing changes and the error is "Invalid credentials" |
| Storage.Logout | services/storage.ts:55-57 | clears the session slot and keeps users and notes |
| Storage.GetSession | services/storage.ts:59-62 | reads the session slot, absent as nothing; what register, login and logout leave there is stated by the session lemmas below |
| StorageFacts.SessionIsStoredUser | services/storage.ts:31-35 | under the store invariant, the session read back is the password-free view and token of some stored user |
| Storage.Token | services/storage.ts:31 | the token is the prefix `fake-jwt-` followed by the id |
| Storage.TokenInjective | services/storage.ts:48 | distinct user ids give distinct tokens |
| StorageFacts.LogoutClearsSession | services/storage.ts:55-62 | after logout `getSession` reads nothing; logout is idempotent and touches only the session |
| StorageFacts.RegisterThenGetSession | services/storage.ts:31-35 | right after a successful register the session read back is the new user with a non-empty token |
| StorageFacts.RegisterSameEmailTwice | services/storage.ts:17-19 | a second register with the same email fails with the error whose message is "User already exists" and changes nothing |
| StorageFacts.RegisterThenLogin | services/storage.ts:28-52 | logging in with just-registered credentials succeeds with the same session, since the new user is the only one with that email |
| StorageFacts.WrongPasswordFails | services/storage.ts:43-46 | when no user with the email has that password, login fails with the message "Invalid credentials" and the store is unchanged |
| Storage.GetNotes | services/storage.ts:65-70 | the result is a permutation of the owner's notes (exactly the notes with that `userId`), newest `updatedAt` first |
| Recency.SortNewestFirst | services/storage.ts:69 | the sort returns a permutation of its input ordered by non-increasing `updatedAt` |
| Recency.InsertNewestFirst | services/storage.ts:69 | inserting into a newest-first list keeps it newest first |
| Recency.InsertStable | services/storage.ts:69 | insertion puts the new note ahead of the notes with its own timestamp and keeps their order |
| Recency.SortStable | services/storage.ts:69 | notes with equal timestamps keep their storage order (the sort is stable) |
| StorageFacts.GetNotesStable | services/storage.ts:69 | within one timestamp, `getNotes` lists a user's notes in storage order |
| StorageFacts.GetNotesExample | services/storage.ts:69 | notes A (older) and B (newer) of a user, and C of another user, list as exactly [B, A] |
| Storage.SaveNote | services/storage.ts:72-110 | a falsy id (absent or empty) creates: appends one note with the fresh id, `createdAt == updatedAt == now`, a falsy title replaced by "Untitled Meeting", empty defaults for content, participants and tags; a truthy id that is not stored fails with "Note not found" and changes nothing; a stored id replaces only the first note with that id, keeping length and all other notes, setting `updatedAt` to now, and letting each present key overwrite while absent keys keep the stored value; users and session never change |
| StorageFacts.SaveThenList | services/storage.ts:90-105 | the note `saveNote` returns belongs to the payload's `userId` and is listed by `getNotes` for that user |
| StorageFacts.CreateThenRetitle | services/storage.ts:82-105 | creating a note and then updating only its title keeps `createdAt` and `content` and moves `updatedAt` forward |
| Storage.DeleteNote | services/storage.ts:112-118 | removes every note with the id and keeps every copy of all other notes in their original order (a subsequence with the same multiplicities); users and session unchanged |
| StorageFacts.SaveAtFirst | services/storage.ts:82-89 | an update whose id first occurs at position `k` succeeds and replaces exactly the note at `k` by its merge with the payload |
| StorageFacts.DeleteAbsentIsNoOp | services/storage.ts:116-117 | deleting an id that is not stored leaves the store unchanged |
| StorageFacts.DeleteIdempotent | services/storage.ts:116 | deleting twice equals deleting once |
| StorageFacts.DeleteThenList | services/storage.ts:116 | after delete, the owner's listing no longer has that id and still has every other note it had |
| StorageFacts.EmptyIsValid | services/storage.ts:15 | the empty store (no slots yet) satisfies the invariant |
| StorageFacts.RegisterKeepsValid | services/storage.ts:17-33 | with a fresh id, register keeps emails and user ids unique and the session owned by a stored user |
| StorageFacts.LoginKeepsValid | services/storage.ts:43-50 | login keeps the invariant: the new session belongs to a stored user |
| StorageFacts.LogoutKeepsValid | services/storage.ts:55-57 | logout keeps the invariant |
| StorageFacts.SaveNoteKeepsValid | services/storage.ts:80-105 | with a fresh id, a clock ahead of every stored update and no `createdAt` past now, save keeps note ids unique and non-empty and `createdAt <= updatedAt` |
| StorageFacts.DeleteKeepsValid | services/storage.ts:116 | delete keeps the invariant |
| Seqs.FindIndex | services/storage.ts:82 | returns the first index whose element matches, or nothing when none does |
| Seqs.FilterIsSubseq | App.tsx:114 | a filter result is a subsequence of its input |
| Seqs.FilterCount | App.tsx:114 | a filter keeps every copy of an element that passes and no copy of one that fails |
| Text.Trim | components/NoteModal.tsx:46 | the result has no whitespace at either end; it runs from the first to the last non-whitespace character, and is empty exactly when the input is all whitespace |
| Text.TrimSlice | components/NoteModal.tsx:46 | the trimmed string is a slice of the input with only whitespace before and after it |
| Text.TrimIdempotent | components/NoteModal.tsx:46 | trimming an already trimmed string changes nothing |
| Text.TrimLeadingSpace | components/NoteModal.tsx:46 | trimming a trimmed string with one space prepended gives the string back |
| Text.TrimEmptyIff | components/NoteModal.tsx:46-47 | a string trims to empty iff it is all whitespace |
| Text.Split | components/NoteModal.tsx:46 | `split(',')` yields one more piece than there are commas, the pieces are comma-free, and joining them with `,` gives back the input |
| Text.SplitAfterComma | components/NoteModal.tsx:46 | splitting `a + "," + b`, with `a` comma-free, gives `a` followed by the pieces of `b` |
| Text.ContainsIff | App.tsx:117-119 | `includes` holds iff the needle occurs at some position |
| Text.Lower | App.tsx:115 | lowercasing maps each character on its own, changing exactly `A`-`Z` |
| NoteModal.FormatList | components/NoteModal.tsx:23-24 | `join(', ')`; its inverse on parser-shaped lists is stated by `NoteModal.ListRoundTrip` |
| NoteModal.ParseList | components/NoteModal.tsx:46-47 | every parsed item is non-empty, trimmed and comma-free, and there are at most one more items than commas |
| NoteModal.ParseBlankIff | components/NoteModal.tsx:46-47 | the text parses to the empty list iff it consists only of commas and whitespace, the empty text included |
| NoteModal.SplitFormatted | components/NoteModal.tsx:23-24 | splitting a `', '`-join of comma-free items gives the first item, then every other item behind one space |
| NoteModal.ListRoundTrip | components/NoteModal.tsx:23-47 | parsing the `', '`-join of non-empty, trimmed, comma-free items gives back that list |
| NoteModal.ParseNormalises | components/NoteModal.tsx:46-47 | formatting a parsed list and parsing it again changes nothing |
| NoteModal.OpenForm | components/NoteModal.tsx:20-37 | a new note opens a blank form; an existing note opens with its title, content and AI data, and with list texts that are the `', '`-joins of its lists, which parse back to those lists when they are non-empty, trimmed and comma-free |
| NoteModal.SavePayload | components/NoteModal.tsx:41-50 | the payload carries the edited note's id when editing and no id when creating, no `userId` or timestamps, the title and content as typed, the participant and tag lists as `ParseList` of the typed text (so every item is non-empty, trimmed and comma-free), and `summary`/`actionItems` present with the AI data's values, or present with no value when there is no AI data |
| App.NoteMatches | App.tsx:116-120 | the search predicate; `App.MatchesIff` states it with substring positions |
| App.FilteredNotes | App.tsx:114-121 | the shown notes are a subsequence of the notes, a note is shown iff it matches the query, and every copy of a matching note is shown |
| App.MatchesIff | App.tsx:116-120 | a note matches iff the lowercased query occurs in the lowercased title, in some lowercased tag, or in the lowercased content |
| App.EmptyQueryKeepsAll | App.tsx:115-120 | the empty query shows every note |
| App.LowercaseQuerySame | App.tsx:115 | a query and its lowercased form show the same notes |
| App.UnsearchedFields | App.tsx:116-120 | participants, summary and action items do not affect matching |
| App.ParticipantOnlyExcluded | App.tsx:116-120 | a note matching only outside title, tags and content is not shown |
| App.WithOwner | App.tsx:97 | the payload gets the user's id as `userId`, replacing any given one, and is otherwise unchanged |
| App.HandleSaveNote | App.tsx:94-102 | with no user nothing changes; otherwise the payload, with the user's id as `userId`, goes to `saveNote`: a failing save changes nothing, and a successful one yields that call's store, whose saved note belongs to the user and is in the user's listing; users and session never change |
| App.SaveStoresOwnersNote | App.tsx:97-98 | saving through the dashboard stores a note of the logged-in user, whatever `userId` the payload had, and the reloaded listing includes it |
| App.EditTakesUpdateBranch | components/NoteModal.tsx:43 | the editor opened on a stored note sends its id, so saving takes the update branch, finds the note and keeps the collection size |
| App.NewTakesCreateBranch | components/NoteModal.tsx:43 | the editor opened for a new note sends no id, so saving appends one note with the fresh id for the user |
| App.UneditedSaveKeepsNote | components/NoteModal.tsx:20-50 | merging the payload of an opened, unedited note into that note changes only its `updatedAt`, when its lists are in parser shape |
| App.UneditedSaveKeepsStore | components/NoteModal.tsx:20-50 | opening the first stored note with a given id and saving without edits succeeds and replaces exactly that note by itself with only `updatedAt` set to now, when its lists are in parser shape |

## Left out

- Simulated latency (`delay`, `setTimeout`) and `async`/`await`: each call is one atomic transition.
- `localStorage` and the `JSON.stringify`/`JSON.parse` round trip: the slots are typed values. A missing users or notes slot reads as the empty list, as in the source.
- `crypto.randomUUID` and `Date`: an injected id and an integer clock. ISO-string parsing, and the `NaN` an unparseable date gives the sort comparator, are not modelled.
- Storage.GetNotes: orders by the integer `updatedAt`, not by the parsed ISO string, because timestamps are integers here.
- Text.Lower: ASCII only. Unicode case mapping of `toLowerCase` is not modelled, because Dafny has no Unicode tables.
- Types.Patch: a required `Note` field that is present with the value `undefined` cannot be written, because the TypeScript types of the callers rule it out. An absent `id` and an `undefined` `id` are one value, because both are falsy and neither is ever copied.
- Storage.SaveNote: requires `userId` to be present, because that is the parameter type `Partial<Note> & { userId: string }`.
- Exceptions thrown by `localStorage` (quota exceeded, storage disabled) are not modelled: every call is total, while in the source such an exception propagates out of every `storageService` call. The same holds for a slot holding corrupt JSON, on which `JSON.parse` throws.
- `services/gemini.ts`: an external API client, consumed only through the optional `summary`/`actionItems` fields.
- `components/PlasmaBackground.tsx`, `components/GeometricHero.tsx`, `components/Navbar.tsx`, and all JSX rendering, React hooks, `confirm()` and `alert()`: presentation only.
- `App.tsx` `handleLogin`, `handleRegister`, `handleLogout`, `handleDeleteNote` and `loadNotes`: UI wiring around the store calls that are modelled.
