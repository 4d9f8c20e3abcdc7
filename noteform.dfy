/** The note editor dialog (src/components/notes/NoteForm.tsx): two draft fields
    seeded from the note being edited, a title guard on submit, and the payload
    handed to the page's save handler. */
module NoteEditor {
  import opened Common

  /** The shape of the `note` prop: the fields of a note the editor needs. */
  datatype NoteFields = NoteFields(id: String, title: String, content: String)

  /** What `onSave` receives: `id` is present only when an existing note is edited. */
  datatype Payload = Payload(id: Option<String>, title: String, content: String)

  /** `isEditing = !!note?.id`: a note is given and its id is not empty. */
  predicate IsEditing(note: Option<NoteFields>)
    ensures IsEditing(note) ==> note.Some? && Truthy(Some(note.value.id))
    ensures note.None? ==> !IsEditing(note)
  {
    note.Some? && note.value.id != []
  }

  /** The drafts the seeding effect installs when the `note` prop changes. */
  function SeedTitle(note: Option<NoteFields>): (t: String)
    ensures note.Some? ==> t == note.value.title
    ensures note.None? ==> t == []
  {
    if note.Some? then note.value.title else []
  }

  function SeedContent(note: Option<NoteFields>): (c: String)
    ensures note.Some? ==> c == note.value.content
    ensures note.None? ==> c == []
  {
    if note.Some? then note.value.content else []
  }

  /** The object built by `handleSubmit`: the drafts, plus the note's id in edit mode. */
  function BuildPayload(note: Option<NoteFields>, title: String, content: String): (p: Payload)
    ensures p.id.Some? <==> IsEditing(note)
    ensures IsEditing(note) ==> p.id.value == note.value.id && Truthy(p.id)
    ensures p.title == title && p.content == content
  {
    Payload(if IsEditing(note) then Some(note.value.id) else None, title, content)
  }

  /** The submit button's enablement: `disabled={isLoading || !title}`. */
  predicate SubmitButtonEnabled(isLoading: bool, title: String)
  {
    !isLoading && title != []
  }

  /** Submitting the seeded drafts unchanged: in edit mode the payload re-saves the
      note's own id, title and content; with no note the title draft is empty, so
      the title guard stops the submit. */
  lemma SeededSubmit(note: Option<NoteFields>)
    ensures IsEditing(note) ==>
      BuildPayload(note, SeedTitle(note), SeedContent(note)) ==
      Payload(Some(note.value.id), note.value.title, note.value.content)
    ensures note.None? ==> SeedTitle(note) == [] && !SubmitButtonEnabled(false, SeedTitle(note))
  {
  }

  class NoteForm {
    /** Props supplied by the page. */
    var note: Option<NoteFields>
    var isLoading: bool
    /** Draft state. */
    var title: String
    var content: String

    /** Mounting: the drafts start as "" and the seeding effect runs once with the
        initial `note` prop. */
    constructor (note: Option<NoteFields>, isLoading: bool)
      ensures this.note == note && this.isLoading == isLoading
      ensures title == SeedTitle(note) && content == SeedContent(note)
    {
      this.note := note;
      this.isLoading := isLoading;
      title := [];
      content := [];
      new;
      ReceiveNote(note);
    }

    /** The seeding effect on a change of the `note` prop: the drafts become that
        note's title and content, or both "" when there is no note. */
    method ReceiveNote(n: Option<NoteFields>)
      modifies this
      ensures note == n && isLoading == old(isLoading)
      ensures title == SeedTitle(n) && content == SeedContent(n)
    {
      note := n;
      if n.Some? {
        title := n.value.title;
        content := n.value.content;
      } else {
        title := [];
        content := [];
      }
    }

    /** A change of the `isLoading` prop; drafts are untouched. */
    method ReceiveLoading(b: bool)
      modifies this
      ensures isLoading == b
      ensures note == old(note) && title == old(title) && content == old(content)
    {
      isLoading := b;
    }

    /** Typing into the title input. */
    method EditTitle(t: String)
      modifies this
      ensures title == t
      ensures note == old(note) && isLoading == old(isLoading) && content == old(content)
    {
      title := t;
    }

    /** Typing into the content area. */
    method EditContent(c: String)
      modifies this
      ensures content == c
      ensures note == old(note) && isLoading == old(isLoading) && title == old(title)
    {
      content := c;
    }

    /** `handleSubmit`. With an empty title nothing is sent and nothing changes.
        Otherwise the payload is handed to `onSave` (returned in `sent`); when the
        awaited `onSave` settles without rejecting, the drafts are cleared in create
        mode and kept in edit mode. When it rejects (`saveRejected`), the rejection
        propagates out of the handler before the drafts are touched. */
    method HandleSubmit(saveRejected: bool) returns (sent: Option<Payload>)
      modifies this
      ensures note == old(note) && isLoading == old(isLoading)
      ensures old(title) == [] ==> sent == None && title == old(title) && content == old(content)
      ensures old(CanSubmit()) ==> sent.Some?
      ensures old(title) != [] ==> sent == Some(BuildPayload(note, old(title), old(content)))
      ensures old(title) != [] && !saveRejected && !IsEditing(note) ==> title == [] && content == []
      ensures IsEditing(note) || saveRejected ==> title == old(title) && content == old(content)
    {
      if title == [] {
        return None;
      }
      sent := Some(BuildPayload(note, title, content));
      if saveRejected {
        return;
      }
      if !IsEditing(note) {
        title := [];
        content := [];
      }
    }

    /** The submit button of the dialog. */
    function CanSubmit(): (r: bool)
      reads this
      ensures r ==> title != []
    {
      SubmitButtonEnabled(isLoading, title)
    }
  }
}
