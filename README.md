# Daily Notes client — a Dafny model of its note list and forms

This project models the client-side state of a small note-taking web app: the
notes page with its in-memory note list, search view, and add/edit/delete/save
handlers; the note editor dialog; the sign-up form's validation; and the
profile page's name and password forms. The pages work on local sample data, and
the network calls are simulated delays. Each handler is modelled as one atomic
step. Each simulated call becomes an `Outcome` (`Success` or `Failure`) that the
caller passes in.

Modules, one per source file plus three shared ones:

- `Common` (common.dfy): `String`, `Option`, `Outcome`, and JavaScript truthiness of
  an optional string.
- `Text` (text.dfy): `toLowerCase` on ASCII letters and `String.prototype.includes`.
  `includes` is proved equal to "occurs at some index".
- `Lists` (lists.dfy): `Array.prototype.filter` and `find`. The filter is proved to
  be the order-preserving selection of the passing positions.
- `Notes` (notes.dfy): src/pages/Notes.tsx. The `Note` record, the search view
  `SearchView(notes, query)`, the empty-state choice, and `UpdateById`,
  `RemoveById` and `FindById`. The class `NotesPage` holds the component state
  (`notes`, `isFormOpen`, `currentNote`, `isLoading`, `searchQuery`,
  `noteToDelete`). Its invariant `Valid()` says that ids are non-empty and
  distinct. `SyncEditor` passes the page's `currentNote` and `isLoading` to the
  editor, and `SubmitEditor` composes the editor's submit with the page's save
  handler.
- `NoteEditor` (noteform.dfy): src/components/notes/NoteForm.tsx. The class
  `NoteForm` holds the `note`/`isLoading` props and the `title`/`content` drafts.
  It has the seeding effect, the title guard, the payload and the submit-button
  guard.
- `Signup` (signup.dfy): src/components/auth/SignupForm.tsx. It has the guard
  chain, the `onSignup` call trace and the submit button's guard.
- `Profile` (profile.dfy): src/pages/Profile.tsx. The class `ProfilePage` holds
  the busy flags, the user, the drafts, the two handlers and the two
  button-enable predicates.

JavaScript truthiness is modelled where the source relies on it.
`if (searchQuery)`, `if (!noteToDelete)`, `if (noteData.id)` and
`!!note?.id` all treat the empty string like an absent value.

Two consequences of the code are worth stating:

- `confirmDelete` clears `noteToDelete` in its `finally` block, so a failed
  delete also closes the confirmation (`Notes.NotesPage.ConfirmDelete`).
- `handleSaveNote` catches its own failure, so the editor's awaited `onSave`
  never rejects. In create mode the editor therefore clears its drafts even when
  the save failed and the dialog stays open (`Notes.SubmitEditor`).

## Model

| member | source | states |
|---|---|---|
| `Text.LowerChar` | src/pages/Notes.tsx:55-56 | lower-casing yields no upper-case letter, maps `A`–`Z` to `a`–`z` and leaves every other character alone |
| `Text.Lower` | src/pages/Notes.tsx:55-56 | `toLowerCase` keeps the length and lower-cases every character in place |
| `Text.LowerIdempotent` | src/pages/Notes.tsx:55-56 | lower-casing twice is the same as lower-casing once |
| `Text.IncludesIffOccurs` | src/pages/Notes.tsx:55-56 | `s.includes(q)` holds exactly when q occurs in s at some index |
| `Text.Includes` | src/pages/Notes.tsx:55-56 | `includes` finds a query that is a prefix, and never finds one longer than the string |
| `Text.ContainsIgnoringCase` | src/pages/Notes.tsx:55-56 | the case-insensitive test finds the empty query in every string and never finds a query longer than the string |
| `Text.ExactMatchFound` | src/pages/Notes.tsx:55-56 | an occurrence with the same case is also found when case is ignored |
| `Text.LowerQueryIrrelevant` | src/pages/Notes.tsx:55-56 | the case-insensitive test gives the same answer for a query and its lower-cased form |
| `Lists.Filter` | src/pages/Notes.tsx:54-57 | every kept element is in the input and passes; every passing input element is kept; the result is no longer than the input |
| `Lists.FilterSelects` | src/pages/Notes.tsx:54-57 | the filter takes the input at strictly increasing positions, and it takes position i iff that element passes |
| `Lists.FilterIdempotent` | src/pages/Notes.tsx:54-57 | filtering a filtered list again with the same test changes nothing |
| `Lists.FilterKeepsAll` | src/pages/Notes.tsx:89 | when every element passes, the filter returns the input unchanged |
| `Lists.Find` | src/pages/Notes.tsx:70 | a found element is in the list and satisfies the test; nothing is found iff no element satisfies it |
| `Lists.FindIsFirst` | src/pages/Notes.tsx:70 | when some element satisfies the test, `find` returns the first one that does |
| `Notes.Matches` | src/pages/Notes.tsx:54-57 | the empty query matches every note, and a note whose title or content includes the query as written matches it |
| `Notes.SearchView` | src/pages/Notes.tsx:52-62 | with an empty query the view is the whole list in order; otherwise it holds exactly the notes whose lower-cased title or content includes the lower-cased query |
| `Notes.SearchViewIsOrderedSelection` | src/pages/Notes.tsx:53-58 | with a non-empty query the view is the order-preserving subsequence of exactly the matching notes |
| `Notes.SearchViewIdempotent` | src/pages/Notes.tsx:53-58 | searching the view again with the same query returns the same view |
| `Notes.SearchIgnoresQueryCase` | src/pages/Notes.tsx:55-56 | a query and its lower-cased form show the same notes |
| `Notes.ListingFor` | src/pages/Notes.tsx:170-183 | "No notes yet" iff there is no query and no note; "No results found" iff a query matches no note; otherwise the cards are the non-empty search view |
| `Notes.FindById` | src/pages/Notes.tsx:70 | a found note is in the list and has the id; nothing is found iff no note has the id |
| `Notes.FindByIdExact` | src/pages/Notes.tsx:69-75 | with distinct ids, looking up a note's id returns that very note |
| `Notes.UpdateById` | src/pages/Notes.tsx:114-120 | the length, order, ids and `createdAt` stay the same; notes with the id get the new title and content; every other note is unchanged; an unknown id changes nothing |
| `Notes.RemoveById` | src/pages/Notes.tsx:89 | no kept note has the id; every note with another id is kept; nothing new appears |
| `Notes.RemoveByIdIsOrderedSelection` | src/pages/Notes.tsx:89 | the notes left are those with another id, in their original order |
| `Notes.RemoveByIdKeepsDistinct` | src/pages/Notes.tsx:89 | removal keeps ids distinct |
| `Notes.RemoveByIdCount` | src/pages/Notes.tsx:89 | with distinct ids, removing an id that is present shortens the list by exactly one |
| `Notes.RemoveByIdIdempotent` | src/pages/Notes.tsx:89 | removing the same id a second time leaves the list unchanged |
| `Notes.SavedNotes` | src/pages/Notes.tsx:114-133 | a payload with an id updates by id; one without an id puts one new note with the fresh id, the payload's title and content and the given time in front of the unchanged old list |
| `Notes.SavedNotesKeepsIds` | src/pages/Notes.tsx:125-133 | given a fresh non-empty id, a save keeps the ids non-empty and distinct |
| `Notes.SampleNotes` | src/pages/Notes.tsx:20-39 | the page starts with three sample notes with distinct non-empty ids |
| `Notes.NotesPage.constructor` | src/pages/Notes.tsx:42-48 | the initial state is the sample list, a closed form, no current note, not loading, an empty query and no pending delete |
| `Notes.NotesPage.FilteredNotes` | src/pages/Notes.tsx:52-62 | `filteredNotes` is the whole list when the query is empty and is always drawn from the list |
| `Notes.NotesPage.Shown` | src/pages/Notes.tsx:170-183 | the "No notes yet" state shows iff the list and the query are both empty |
| `Notes.NotesPage.HandleAddNote` | src/pages/Notes.tsx:64-67 | the form opens with no current note; nothing else changes |
| `Notes.NotesPage.HandleEditNote` | src/pages/Notes.tsx:69-75 | a known id makes that note current and opens the form; an unknown id changes nothing |
| `Notes.NotesPage.HandleDeleteNote` | src/pages/Notes.tsx:77-79 | the id becomes the pending delete, which opens the confirmation dialog iff the id is non-empty; nothing else changes |
| `Notes.NotesPage.DismissDeleteDialog` | src/pages/Notes.tsx:210 | closing the confirmation clears the pending id, so the dialog is closed; nothing else changes |
| `Notes.NotesPage.ConfirmDelete` | src/pages/Notes.tsx:81-105 | with no truthy pending id nothing changes; otherwise success removes every note with that id, and on both outcomes the pending id is cleared and loading ends; the dialog is closed afterwards; ids stay distinct |
| `Notes.NotesPage.HandleSaveNote` | src/pages/Notes.tsx:107-150 | success sets the list to `SavedNotes` and closes the form; failure keeps the list and the form; loading ends on both outcomes; ids stay distinct and non-empty |
| `Notes.NotesPage.CloseForm` | src/pages/Notes.tsx:204 | the editor's `onClose` closes the form; nothing else changes |
| `Notes.NotesPage.HandleSearch` | src/pages/Notes.tsx:152-154 | only the query changes; the view becomes the search of the unchanged list |
| `Notes.SyncEditor` | src/pages/Notes.tsx:202-208 | the editor's props become the page's current note and loading flag; it is in edit mode iff there is a current note; the drafts are reseeded only when the `note` prop changes |
| `Notes.AddCloseAddKeepsDraft` | src/pages/Notes.tsx:64-67 | add, type, close, add again: the `note` prop stays undefined, so the typed title is still in the editor |
| `Notes.SubmitEditor` | src/pages/Notes.tsx:202-208 | submitting the editor sends its payload to the save handler only when the title is non-empty; a create clears the drafts even when the save failed and the dialog stays open |
| `NoteEditor.IsEditing` | src/components/notes/NoteForm.tsx:24 | edit mode needs a note with a truthy id; with no note the editor creates |
| `NoteEditor.SeedTitle` | src/components/notes/NoteForm.tsx:26-34 | the seeded title is the note's title, or "" with no note |
| `NoteEditor.SeedContent` | src/components/notes/NoteForm.tsx:26-34 | the seeded content is the note's content, or "" with no note |
| `NoteEditor.SeededSubmit` | src/components/notes/NoteForm.tsx:26-47 | submitting untouched seeded drafts in edit mode sends the note's own id, title and content; with no note the empty title keeps the button disabled |
| `NoteEditor.BuildPayload` | src/components/notes/NoteForm.tsx:43-47 | the payload carries an id exactly in edit mode, and then the note's id; its title and content are the drafts |
| `NoteEditor.NoteForm.constructor` | src/components/notes/NoteForm.tsx:21-34 | on mount the drafts are seeded from the initial `note` prop |
| `NoteEditor.NoteForm.ReceiveNote` | src/components/notes/NoteForm.tsx:26-34 | a new `note` prop sets the drafts to its title and content, or to "" when there is no note |
| `NoteEditor.NoteForm.ReceiveLoading` | src/components/notes/NoteForm.tsx:21 | a new `isLoading` prop leaves the drafts alone |
| `NoteEditor.NoteForm.EditTitle` | src/components/notes/NoteForm.tsx:70 | typing sets the title draft only |
| `NoteEditor.NoteForm.EditContent` | src/components/notes/NoteForm.tsx:80 | typing sets the content draft only |
| `NoteEditor.NoteForm.HandleSubmit` | src/components/notes/NoteForm.tsx:36-54 | an empty title sends nothing and changes nothing; otherwise the payload is sent, so a submit through the enabled button always sends; after `onSave` settles, drafts are cleared in create mode and kept in edit mode; a rejection leaves them |
| `NoteEditor.NoteForm.CanSubmit` | src/components/notes/NoteForm.tsx:89 | the submit button is enabled only when the title is non-empty (and not loading) |
| `Signup.Validate` | src/components/auth/SignupForm.tsx:24-40 | an empty field gives "missing field" (an empty password included); otherwise a password shorter than 6 gives "too short"; exactly non-empty email and name with a password of 6 or more are accepted |
| `Signup.HandleSubmit` | src/components/auth/SignupForm.tsx:21-47 | rejected input calls nothing; accepted input calls `onSignup` once with (email, password, name); the handler has no failure result, since the callback's rejection is caught |
| `Signup.SignupButtonEnabled` | src/components/auth/SignupForm.tsx:96 | the submit button is disabled while `isLoading` |
| `Profile.ProfilePage.constructor` | src/pages/Profile.tsx:13-28 | the sample user, a name draft equal to the user's name, empty password fields, both buttons disabled |
| `Profile.ProfilePage.UpdateEnabled` | src/pages/Profile.tsx:149 | the update button is enabled only when the draft name differs from the user's name |
| `Profile.ProfilePage.ChangePasswordEnabled` | src/pages/Profile.tsx:200 | the change button is enabled only when all three password fields are non-empty |
| `Profile.ProfilePage.EditName` | src/pages/Profile.tsx:133 | typing sets the name draft only |
| `Profile.ProfilePage.EditCurrentPassword` | src/pages/Profile.tsx:172 | typing sets the current-password field only |
| `Profile.ProfilePage.EditNewPassword` | src/pages/Profile.tsx:182 | typing sets the new-password field only |
| `Profile.ProfilePage.EditConfirmPassword` | src/pages/Profile.tsx:192 | typing sets the confirmation field only |
| `Profile.ProfilePage.HandleUpdateProfile` | src/pages/Profile.tsx:30-53 | success sets the user's name to the draft, which disables the button; the email never changes; `isUpdating` ends false on both outcomes |
| `Profile.ProfilePage.HandleChangePassword` | src/pages/Profile.tsx:55-90 | differing new and confirm passwords change nothing, not even the busy flag; success clears the three fields and disables the button; failure keeps them; `isChangingPassword` ends false |

## Left out

- Simulated network delays (`setTimeout` promises): each becomes an `Outcome` parameter. The catch branches can only be reached that way.
- The pages have no remote store, session or load states; an update or removal of an unknown id leaves the list unchanged.
- Busy flags while a call is in flight: each handler is one atomic step, so `isLoading`, `isUpdating` and `isChangingPassword` are modelled only as they are after the handler finishes.
- React effect scheduling and stale closures over `notes`: `filteredNotes` is a function of the list and the query, and every handler reads the current state.
- `Notes.SyncEditor`: React reruns the seeding effect when the `note` prop changes identity. The model compares the prop by value, so a new note object with equal fields does not reseed here.
- `NoteEditor.NoteForm.ReceiveNote`: it is the effect's body; `Notes.SyncEditor` decides when it runs. Closing the editor keeps the drafts, so add, close, add shows the old draft (`Notes.AddCloseAddKeepsDraft`).
- `Notes.NotesPage.HandleSaveNote`: the id and timestamp of a new note come from `Date.now()` and `new Date().toISOString()`. Here they are parameters, and the id is required to be fresh and non-empty. The sample notes' times are parameters too.
- Unicode `toLowerCase`: only ASCII letters are lower-cased. JavaScript `length` counts UTF-16 code units, while the model counts characters.
- The browser's `required` attribute check on inputs: it is not part of the handlers.
- Toasts, `console.error`, `navigate`, and sign-out through the external auth service (`handleLogout`): these are side effects and foreign calls.
- src/services/notesService.ts is not part of this model. The notes page does not use it.
- The login and sign-up pages, the navigation bar, the note card's relative dates, and the "Danger Zone" buttons. These are presentation only, or they have no handlers.

