/** The notes page (src/pages/Notes.tsx): an in-memory list of notes, the search
    view derived from it, and the handlers behind the add, edit, delete and save
    buttons, with the dialog state they drive. */
module Notes {
  import opened Common
  import opened Text
  import opened Lists
  import NoteEditor

  datatype Note = Note(id: String, title: String, content: String, createdAt: String)

  /** The note as the editor receives it through its `note` prop. */
  function Fields(n: Note): (f: NoteEditor.NoteFields)
    ensures f.id == n.id && f.title == n.title && f.content == n.content
    ensures NoteEditor.IsEditing(Some(f)) <==> n.id != []
  {
    NoteEditor.NoteFields(n.id, n.title, n.content)
  }

  // ---------------------------------------------------------------------------
  // Ids

  predicate HasId(notes: seq<Note>, id: String)
  {
    exists i :: 0 <= i < |notes| && notes[i].id == id
  }

  /** No two notes of the list share an id. */
  predicate DistinctIds(notes: seq<Note>)
  {
    forall i, j :: 0 <= i < j < |notes| ==> notes[i].id != notes[j].id
  }

  // ---------------------------------------------------------------------------
  // The search view (the filtering effect)

  /** A note matches a query when its lower-cased title or lower-cased content
      includes the lower-cased query. */
  predicate Matches(query: String, n: Note)
    ensures query == [] ==> Matches(query, n)
    ensures Includes(n.title, query) || Includes(n.content, query) ==> Matches(query, n)
  {
    ExactMatchFound(n.title, query);
    ExactMatchFound(n.content, query);
    ContainsIgnoringCase(n.title, query) || ContainsIgnoringCase(n.content, query)
  }

  function Matcher(query: String): Note -> bool
  {
    n => Matches(query, n)
  }

  /** `filteredNotes` as a function of `notes` and `searchQuery`: the whole list when
      the query is empty, otherwise the matching notes. */
  function SearchView(notes: seq<Note>, query: String): (view: seq<Note>)
    ensures query == [] ==> view == notes
    ensures |view| <= |notes|
    ensures forall k :: 0 <= k < |view| ==> view[k] in notes && (query == [] || Matches(query, view[k]))
    ensures forall i :: 0 <= i < |notes| && (query == [] || Matches(query, notes[i])) ==> notes[i] in view
  {
    if query != [] then Filter(notes, Matcher(query)) else notes
  }

  /** The positions of the notes that match the query. */
  ghost function MatchPositions(notes: seq<Note>, query: String): seq<nat>
  {
    KeptPositions(notes, Matcher(query))
  }

  /** With a non-empty query the view is exactly the order-preserving subsequence of
      the matching notes: it takes notes at strictly increasing positions, and takes
      position i iff notes[i] matches. */
  lemma SearchViewIsOrderedSelection(notes: seq<Note>, query: String)
    requires query != []
    ensures SelectsAt(SearchView(notes, query), notes, MatchPositions(notes, query))
    ensures forall i :: 0 <= i < |notes| ==> (i in MatchPositions(notes, query) <==> Matches(query, notes[i]))
  {
    FilterSelects(notes, Matcher(query));
  }

  /** Searching the search result again with the same query changes nothing. */
  lemma SearchViewIdempotent(notes: seq<Note>, query: String)
    ensures SearchView(SearchView(notes, query), query) == SearchView(notes, query)
  {
    if query != [] {
      FilterIdempotent(notes, Matcher(query));
    }
  }

  /** Two filters that agree on every element of s give the same result. */
  lemma {:induction false} FilterAgree(s: seq<Note>, f: Note -> bool, g: Note -> bool)
    requires forall i :: 0 <= i < |s| ==> f(s[i]) == g(s[i])
    ensures Filter(s, f) == Filter(s, g)
  {
    if s != [] {
      FilterAgree(s[1..], f, g);
    }
  }

  /** The case of the query does not matter: searching for its lower-cased form
      shows the same notes. */
  lemma SearchIgnoresQueryCase(notes: seq<Note>, query: String)
    ensures SearchView(notes, Lower(query)) == SearchView(notes, query)
  {
    if query != [] {
      assert Lower(query) != [];
      forall i | 0 <= i < |notes|
        ensures Matcher(Lower(query))(notes[i]) == Matcher(query)(notes[i])
      {
        LowerQueryIrrelevant(notes[i].title, query);
        LowerQueryIrrelevant(notes[i].content, query);
      }
      FilterAgree(notes, Matcher(Lower(query)), Matcher(query));
    }
  }

  /** What the page shows: the cards of the view, or one of two empty states. */
  datatype Listing = Cards(shown: seq<Note>) | NoResults | NoNotesYet

  /** The empty-state choice: "No results found" when a query hides every note,
      "No notes yet" when there is no query and no note. */
  function ListingFor(notes: seq<Note>, query: String): (l: Listing)
    ensures l.NoNotesYet? <==> query == [] && notes == []
    ensures l.NoResults? <==> query != [] && forall i :: 0 <= i < |notes| ==> !Matches(query, notes[i])
    ensures l.Cards? ==> l.shown == SearchView(notes, query) && l.shown != []
  {
    var view := SearchView(notes, query);
    if |view| == 0 then
      (if query != [] then NoResults else NoNotesYet)
    else
      assert query != [] ==> Matches(query, view[0]) && view[0] in notes;
      Cards(view)
  }

  // ---------------------------------------------------------------------------
  // Lookup, update and removal by id

  function WithId(id: String): Note -> bool
  {
    (n: Note) => n.id == id
  }

  function WithoutId(id: String): Note -> bool
  {
    (n: Note) => n.id != id
  }

  /** `notes.find(note => note.id === id)`. */
  function FindById(notes: seq<Note>, id: String): (r: Option<Note>)
    ensures r.Some? ==> r.value in notes && r.value.id == id
    ensures r.None? <==> !HasId(notes, id)
  {
    Find(notes, WithId(id))
  }

  /** With distinct ids, the lookup returns exactly the note that carries the id. */
  lemma FindByIdExact(notes: seq<Note>, i: nat)
    requires DistinctIds(notes) && i < |notes|
    ensures FindById(notes, notes[i].id) == Some(notes[i])
  {
  }

  /** The update branch of the save handler: every note with the id gets the new
      title and content; positions, ids and creation times stay, and every other
      note is untouched. */
  function UpdateById(notes: seq<Note>, id: String, title: String, content: String): (r: seq<Note>)
    ensures |r| == |notes|
    ensures forall i :: 0 <= i < |notes| ==> r[i].id == notes[i].id && r[i].createdAt == notes[i].createdAt
    ensures forall i :: 0 <= i < |notes| && notes[i].id == id ==> r[i].title == title && r[i].content == content
    ensures forall i :: 0 <= i < |notes| && notes[i].id != id ==> r[i] == notes[i]
    ensures !HasId(notes, id) ==> r == notes
  {
    if notes == [] then []
    else
      var n := notes[0];
      var head := if n.id == id then n.(title := title, content := content) else n;
      [head] + UpdateById(notes[1..], id, title, content)
  }

  /** The delete branch: `notes.filter(note => note.id !== id)`. */
  function RemoveById(notes: seq<Note>, id: String): (r: seq<Note>)
    ensures forall k :: 0 <= k < |r| ==> r[k] in notes && r[k].id != id
    ensures forall i :: 0 <= i < |notes| && notes[i].id != id ==> notes[i] in r
    ensures !HasId(r, id)
  {
    Filter(notes, WithoutId(id))
  }

  /** Removal keeps the other notes in their order: r takes notes at strictly
      increasing positions, exactly those whose id differs. */
  lemma RemoveByIdIsOrderedSelection(notes: seq<Note>, id: String)
    ensures SelectsAt(RemoveById(notes, id), notes, KeptPositions(notes, WithoutId(id)))
    ensures forall i :: 0 <= i < |notes| ==>
      (i in KeptPositions(notes, WithoutId(id)) <==> notes[i].id != id)
  {
    FilterSelects(notes, WithoutId(id));
  }

  /** Removal keeps ids distinct. */
  lemma RemoveByIdKeepsDistinct(notes: seq<Note>, id: String)
    requires DistinctIds(notes)
    ensures DistinctIds(RemoveById(notes, id))
  {
    var keep := WithoutId(id);
    FilterSelects(notes, keep);
    var r := RemoveById(notes, id);
    var idx := KeptPositions(notes, keep);
    forall a, b | 0 <= a < b < |r| ensures r[a].id != r[b].id {
      assert idx[a] < idx[b];
    }
  }

  /** With distinct ids, removing an id that is present shortens the list by exactly
      one; removing it again changes nothing. */
  lemma {:induction false} RemoveByIdCount(notes: seq<Note>, id: String)
    requires DistinctIds(notes) && HasId(notes, id)
    ensures |RemoveById(notes, id)| == |notes| - 1
  {
    var keep := WithoutId(id);
    var tail := notes[1..];
    if notes[0].id == id {
      forall i | 0 <= i < |tail| ensures keep(tail[i]) {
        assert notes[0].id != notes[i + 1].id;
      }
      FilterKeepsAll(tail, keep);
    } else {
      var i :| 0 <= i < |notes| && notes[i].id == id;
      assert tail[i - 1].id == id;
      RemoveByIdCount(tail, id);
    }
  }

  /** A second removal of the same id leaves the list as it is. */
  lemma RemoveByIdIdempotent(notes: seq<Note>, id: String)
    ensures RemoveById(RemoveById(notes, id), id) == RemoveById(notes, id)
  {
    FilterIdempotent(notes, WithoutId(id));
  }

  // ---------------------------------------------------------------------------
  // The save handler's effect on the list

  /** The list after a save that succeeded: an update when the payload carries a
      (non-empty) id, otherwise a new note with the fresh id put in front. */
  function SavedNotes(notes: seq<Note>, data: NoteEditor.Payload, newId: String, now: String): (r: seq<Note>)
    ensures Truthy(data.id) ==> r == UpdateById(notes, data.id.value, data.title, data.content)
    ensures !Truthy(data.id) ==> |r| == |notes| + 1 && r[1..] == notes
    ensures !Truthy(data.id) ==> r[0].id == newId && r[0].title == data.title && r[0].content == data.content && r[0].createdAt == now
  {
    if Truthy(data.id) then
      UpdateById(notes, data.id.value, data.title, data.content)
    else
      [Note(newId, data.title, data.content, now)] + notes
  }

  /** A save keeps ids distinct and non-empty, given a fresh non-empty id for a new
      note. */
  lemma SavedNotesKeepsIds(notes: seq<Note>, data: NoteEditor.Payload, newId: String, now: String)
    requires DistinctIds(notes) && forall i :: 0 <= i < |notes| ==> notes[i].id != []
    requires !Truthy(data.id) ==> newId != [] && !HasId(notes, newId)
    ensures var r := SavedNotes(notes, data, newId, now);
      DistinctIds(r) && forall i :: 0 <= i < |r| ==> r[i].id != []
  {
  }

  /** The three sample notes the page starts with; their creation times are read
      from the clock, so they are parameters here. */
  function SampleNotes(now: String, dayAgo: String, twoDaysAgo: String): (s: seq<Note>)
    ensures |s| == 3 && DistinctIds(s)
    ensures forall i :: 0 <= i < |s| ==> s[i].id != []
  {
    [ Note("1", "Meeting Notes",
           "Diskusi dengan tim marketing tentang strategi Q4. Perlu follow up minggu depan.", now),
      Note("2", "Ideas for Project",
           "Tambahkan fitur ekspor ke PDF. Perbaiki UI di halaman profil. Optimalkan performa load time.", dayAgo),
      Note("3", "Things to Remember",
           "Bayar tagihan listrik. Jemput paket di kantor pos. Beli bahan makanan.", twoDaysAgo) ]
  }

  // ---------------------------------------------------------------------------
  // The page component

  class NotesPage {
    var notes: seq<Note>
    var isFormOpen: bool
    var currentNote: Option<Note>
    var isLoading: bool
    var searchQuery: String
    var noteToDelete: Option<String>

    /** Every note has a non-empty id and no two notes share one; the note being
        edited, taken from the list, has a non-empty id too. */
    ghost predicate Valid()
      reads this
    {
      DistinctIds(notes) && (forall i :: 0 <= i < |notes| ==> notes[i].id != []) &&
      (currentNote.Some? ==> currentNote.value.id != [])
    }

    constructor (now: String, dayAgo: String, twoDaysAgo: String)
      ensures Valid()
      ensures notes == SampleNotes(now, dayAgo, twoDaysAgo)
      ensures !isFormOpen && currentNote == None && !isLoading
      ensures searchQuery == [] && noteToDelete == None
    {
      notes := SampleNotes(now, dayAgo, twoDaysAgo);
      isFormOpen := false;
      currentNote := None;
      isLoading := false;
      searchQuery := [];
      noteToDelete := None;
    }

    /** `filteredNotes`, recomputed from the current list and query. */
    function FilteredNotes(): (view: seq<Note>)
      reads this
      ensures searchQuery == [] ==> view == notes
      ensures forall k :: 0 <= k < |view| ==> view[k] in notes
    {
      SearchView(notes, searchQuery)
    }

    /** What the main area shows. */
    function Shown(): (l: Listing)
      reads this
      ensures l.NoNotesYet? <==> searchQuery == [] && notes == []
    {
      ListingFor(notes, searchQuery)
    }

    /** The delete confirmation dialog is open while an id is pending. */
    function DeleteDialogOpen(): (r: bool)
      reads this
      ensures r <==> Truthy(noteToDelete)
    {
      noteToDelete.Some? && noteToDelete.value != []
    }

    /** `handleAddNote`: open the editor with no current note. */
    method HandleAddNote()
      modifies this
      ensures currentNote == None && isFormOpen
      ensures notes == old(notes) && isLoading == old(isLoading)
      ensures searchQuery == old(searchQuery) && noteToDelete == old(noteToDelete)
    {
      currentNote := None;
      isFormOpen := true;
    }

    /** `handleEditNote`: open the editor on the note with that id; an unknown id
        changes nothing. */
    method HandleEditNote(id: String)
      requires Valid()
      modifies this
      ensures Valid()
      ensures var found := FindById(old(notes), id);
        if found.Some? then currentNote == found && isFormOpen
        else currentNote == old(currentNote) && isFormOpen == old(isFormOpen)
      ensures notes == old(notes) && isLoading == old(isLoading)
      ensures searchQuery == old(searchQuery) && noteToDelete == old(noteToDelete)
    {
      var note := FindById(notes, id);
      if note.Some? {
        currentNote := note;
        isFormOpen := true;
      }
    }

    /** `handleDeleteNote`: remember the id awaiting confirmation. */
    method HandleDeleteNote(id: String)
      modifies this
      ensures noteToDelete == Some(id)
      ensures DeleteDialogOpen() <==> id != []
      ensures notes == old(notes) && isFormOpen == old(isFormOpen) && currentNote == old(currentNote)
      ensures isLoading == old(isLoading) && searchQuery == old(searchQuery)
    {
      noteToDelete := Some(id);
    }

    /** The confirmation dialog closing (`onOpenChange`): forget the pending id. */
    method DismissDeleteDialog()
      modifies this
      ensures noteToDelete == None && !DeleteDialogOpen()
      ensures notes == old(notes) && isFormOpen == old(isFormOpen) && currentNote == old(currentNote)
      ensures isLoading == old(isLoading) && searchQuery == old(searchQuery)
    {
      noteToDelete := None;
    }

    /** `confirmDelete`. Without a pending id nothing happens. Otherwise, when the
        awaited call succeeds, every note with the pending id is removed; on either
        outcome the pending id is cleared and the page is no longer loading. */
    method ConfirmDelete(outcome: Outcome)
      requires Valid()
      modifies this
      ensures Valid()
      ensures !Truthy(old(noteToDelete)) ==>
        notes == old(notes) && noteToDelete == old(noteToDelete) && isLoading == old(isLoading)
      ensures !DeleteDialogOpen()
      ensures Truthy(old(noteToDelete)) ==>
        noteToDelete == None && !isLoading &&
        notes == (if outcome == Success then RemoveById(old(notes), old(noteToDelete).value) else old(notes))
      ensures isFormOpen == old(isFormOpen) && currentNote == old(currentNote)
      ensures searchQuery == old(searchQuery)
    {
      if noteToDelete.None? || noteToDelete.value == [] {
        return;
      }
      isLoading := true;
      if outcome == Success {
        RemoveByIdKeepsDistinct(notes, noteToDelete.value);
        notes := RemoveById(notes, noteToDelete.value);
      }
      isLoading := false;
      noteToDelete := None;
    }

    /** `handleSaveNote`. When the awaited call succeeds the list becomes
        `SavedNotes` and the editor closes; on failure the list and the editor stay
        as they were. Either way the page is no longer loading. The id and time of a
        new note come from the clock in the page; here they are parameters, the id
        fresh and non-empty. */
    method HandleSaveNote(data: NoteEditor.Payload, outcome: Outcome, newId: String, now: String)
      requires Valid()
      requires !Truthy(data.id) ==> newId != [] && !HasId(notes, newId)
      modifies this
      ensures Valid()
      ensures !isLoading
      ensures notes == (if outcome == Success then SavedNotes(old(notes), data, newId, now) else old(notes))
      ensures isFormOpen == (outcome == Failure && old(isFormOpen))
      ensures currentNote == old(currentNote) && noteToDelete == old(noteToDelete)
      ensures searchQuery == old(searchQuery)
    {
      isLoading := true;
      if outcome == Success {
        SavedNotesKeepsIds(notes, data, newId, now);
        notes := SavedNotes(notes, data, newId, now);
        isFormOpen := false;
      }
      isLoading := false;
    }

    /** The editor's `onClose`. */
    method CloseForm()
      modifies this
      ensures !isFormOpen
      ensures notes == old(notes) && currentNote == old(currentNote) && isLoading == old(isLoading)
      ensures searchQuery == old(searchQuery) && noteToDelete == old(noteToDelete)
    {
      isFormOpen := false;
    }

    /** `handleSearch`: only the query changes; the list itself is never touched. */
    method HandleSearch(query: String)
      modifies this
      ensures searchQuery == query
      ensures FilteredNotes() == SearchView(old(notes), query)
      ensures notes == old(notes) && isFormOpen == old(isFormOpen) && currentNote == old(currentNote)
      ensures isLoading == old(isLoading) && noteToDelete == old(noteToDelete)
    {
      searchQuery := query;
    }
  }

  /** Submitting the editor on the notes page: the editor's submit handler with the
      page's save handler as `onSave`. The save handler never rejects, so a create
      clears the drafts even when the save failed and the dialog stays open. */
  method SubmitEditor(page: NotesPage, form: NoteEditor.NoteForm, outcome: Outcome, newId: String, now: String)
    returns (sent: Option<NoteEditor.Payload>)
    requires page.Valid()
    requires newId != [] && !HasId(page.notes, newId)
    modifies page, form
    ensures page.Valid()
    ensures form.note == old(form.note)
    ensures sent.None? <==> old(form.title) == []
    ensures sent.None? ==> page.notes == old(page.notes) && page.isFormOpen == old(page.isFormOpen)
    ensures sent.None? ==> form.title == old(form.title) && form.content == old(form.content)
    ensures sent.Some? ==> sent.value == NoteEditor.BuildPayload(form.note, old(form.title), old(form.content))
    ensures sent.Some? ==> !page.isLoading
    ensures sent.Some? ==>
      page.notes == (if outcome == Success then SavedNotes(old(page.notes), sent.value, newId, now) else old(page.notes))
    ensures sent.Some? ==> page.isFormOpen == (outcome == Failure && old(page.isFormOpen))
    ensures sent.Some? && !NoteEditor.IsEditing(form.note) ==> form.title == [] && form.content == []
    ensures sent.Some? && NoteEditor.IsEditing(form.note) ==>
      form.title == old(form.title) && form.content == old(form.content)
  {
    sent := form.HandleSubmit(false);
    if sent.Some? {
      page.HandleSaveNote(sent.value, outcome, newId, now);
    }
  }

  /** The `note` prop the page gives the editor: the current note, if any. */
  function EditorNote(current: Option<Note>): (r: Option<NoteEditor.NoteFields>)
    ensures r.Some? <==> current.Some?
    ensures current.Some? ==> r.value == Fields(current.value)
  {
    if current.Some? then Some(Fields(current.value)) else None
  }

  /** The page re-rendering the editor with `note={currentNote}` and
      `isLoading={isLoading}`. The seeding effect runs only when the `note` prop
      changes, so pressing "add" while there was already no current note keeps the
      drafts left from before. A current note from the list always opens the
      editor in edit mode, seeded with that note's title and content. */
  method SyncEditor(page: NotesPage, form: NoteEditor.NoteForm)
    requires page.Valid()
    modifies form
    ensures form.note == EditorNote(page.currentNote) && form.isLoading == page.isLoading
    ensures NoteEditor.IsEditing(form.note) <==> page.currentNote.Some?
    ensures old(form.note) != form.note && page.currentNote.Some? ==>
      form.title == page.currentNote.value.title && form.content == page.currentNote.value.content
    ensures old(form.note) != form.note && page.currentNote.None? ==> form.title == [] && form.content == []
    ensures old(form.note) == form.note ==> form.title == old(form.title) && form.content == old(form.content)
  {
    var next := EditorNote(page.currentNote);
    if form.note != next {
      form.ReceiveNote(next);
    }
    form.ReceiveLoading(page.isLoading);
  }

  /** Add, type a title, close the editor, add again: the second "add" leaves the
      `note` prop undefined, so the effect does not run and the old draft is still
      there. */
  method AddCloseAddKeepsDraft(page: NotesPage, form: NoteEditor.NoteForm, draft: String)
    requires page.Valid() && page.currentNote.None?
    modifies page, form
    ensures page.isFormOpen && page.currentNote.None?
    ensures form.note == None && form.title == draft
  {
    page.HandleAddNote();
    SyncEditor(page, form);
    form.EditTitle(draft);
    page.CloseForm();
    SyncEditor(page, form);
    page.HandleAddNote();
    SyncEditor(page, form);
  }
}
