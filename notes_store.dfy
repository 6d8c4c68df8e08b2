/** The client-side note store of store/useNotesStore.ts: a shared state
    container holding the note list and the selected note, and the six
    actions that replace those two fields. */
module NotesStore {
  import opened Common

  /** The note as the client receives it (lib/api/notes.ts). */
  datatype Note = Note(id: string, title: string, content: string, createdAt: string, updatedAt: string)

  /** `notes.map(note => note.id === updated.id ? updated : note)`. */
  function ReplaceById(notes: seq<Note>, updated: Note): (r: seq<Note>)
    ensures |r| == |notes|
    ensures forall i :: 0 <= i < |notes| ==> r[i] == (if notes[i].id == updated.id then updated else notes[i])
    decreases |notes|
  {
    if notes == [] then []
    else
      var last := notes[|notes| - 1];
      ReplaceById(notes[..|notes| - 1], updated) + [if last.id == updated.id then updated else last]
  }

  /** `notes.filter(note => note.id !== noteId)`. */
  function RemoveById(notes: seq<Note>, noteId: string): (r: seq<Note>)
    ensures IsSubsequence(r, notes)
    ensures forall n :: n in r <==> n in notes && n.id != noteId
    ensures forall n :: multiset(r)[n] == if n.id == noteId then 0 else multiset(notes)[n]
  {
    Filter(notes, (n: Note) => n.id != noteId)
  }

  /** Some note in `notes` carries the id `id`. */
  predicate Listed(notes: seq<Note>, id: string)
  {
    exists i :: 0 <= i < |notes| && notes[i].id == id
  }

  /** The selection is empty or names a note of the list (by id). */
  predicate SelectionListed(notes: seq<Note>, selected: Option<Note>)
  {
    selected.None? || Listed(notes, selected.value.id)
  }

  /** Replacing by id keeps every position's id. */
  lemma ReplaceByIdKeepsIds(notes: seq<Note>, updated: Note, id: string)
    ensures Listed(ReplaceById(notes, updated), id) <==> Listed(notes, id)
  {
    var r := ReplaceById(notes, updated);
    if Listed(notes, id) {
      var i :| 0 <= i < |notes| && notes[i].id == id;
      assert r[i].id == id;
    }
    if Listed(r, id) {
      var i :| 0 <= i < |r| && r[i].id == id;
      assert notes[i].id == id;
    }
  }

  /** Removing one id keeps every other id that was listed. */
  lemma RemoveByIdKeepsOtherIds(notes: seq<Note>, noteId: string, id: string)
    requires id != noteId
    ensures Listed(RemoveById(notes, noteId), id) <==> Listed(notes, id)
  {
    var r := RemoveById(notes, noteId);
    if Listed(notes, id) {
      var i :| 0 <= i < |notes| && notes[i].id == id;
      var n := notes[i];
      assert n in r;
      var j :| 0 <= j < |r| && r[j] == n;
      assert r[j].id == id;
    }
    if Listed(r, id) {
      var j :| 0 <= j < |r| && r[j].id == id;
      var n := r[j];
      assert n in notes;
      var i :| 0 <= i < |notes| && notes[i] == n;
      assert notes[i].id == id;
    }
  }

  /** After a removal no note with that id is left. */
  lemma RemoveByIdRemovesAll(notes: seq<Note>, noteId: string)
    ensures !Listed(RemoveById(notes, noteId), noteId)
  {
  }

  /** `useNotesStore`: the two shared fields and the six actions. */
  class Store {
    var notes: seq<Note>
    var selectedNote: Option<Note>

    /** The selection names a listed note (or is null). */
    ghost predicate Consistent()
      reads this
    {
      SelectionListed(notes, selectedNote)
    }

    /** The initial state: no notes, nothing selected. */
    constructor ()
      ensures notes == [] && selectedNote == None
      ensures Consistent()
    {
      notes := [];
      selectedNote := None;
    }

    /** `setNotes`: the list is replaced wholesale; the selection is kept
        even if it no longer names a listed note. */
    method SetNotes(newNotes: seq<Note>)
      modifies this
      ensures notes == newNotes
      ensures selectedNote == old(selectedNote)
    {
      notes := newNotes;
    }

    /** `addNote`: appended at the end, with no check for a duplicate id. */
    method AddNote(note: Note)
      modifies this
      ensures notes == old(notes) + [note]
      ensures selectedNote == old(selectedNote)
      ensures old(Consistent()) ==> Consistent()
    {
      notes := notes + [note];
      if selectedNote.Some? && Listed(old(notes), selectedNote.value.id) {
        var i :| 0 <= i < |old(notes)| && old(notes)[i].id == selectedNote.value.id;
        assert notes[i] == old(notes)[i];
      }
    }

    /** `updateNoteInList`: every note with the same id is replaced, and so
        is the selection if it has that id. */
    method UpdateNoteInList(updated: Note)
      modifies this
      ensures notes == ReplaceById(old(notes), updated)
      ensures selectedNote == if old(selectedNote).Some? && old(selectedNote).value.id == updated.id
                              then Some(updated) else old(selectedNote)
      ensures old(Consistent()) ==> Consistent()
    {
      ghost var before := notes;
      notes := ReplaceById(notes, updated);
      if selectedNote.Some? && selectedNote.value.id == updated.id {
        selectedNote := Some(updated);
      }
      if selectedNote.Some? {
        ReplaceByIdKeepsIds(before, updated, selectedNote.value.id);
      }
    }

    /** `removeNote`: every note with that id leaves the list, and the
        selection is cleared if it has that id. */
    method RemoveNote(noteId: string)
      modifies this
      ensures notes == RemoveById(old(notes), noteId)
      ensures selectedNote == if old(selectedNote).Some? && old(selectedNote).value.id == noteId
                              then None else old(selectedNote)
      ensures old(Consistent()) ==> Consistent()
    {
      ghost var before := notes;
      notes := RemoveById(notes, noteId);
      if selectedNote.Some? && selectedNote.value.id == noteId {
        selectedNote := None;
      }
      if selectedNote.Some? {
        RemoveByIdKeepsOtherIds(before, noteId, selectedNote.value.id);
      }
    }

    /** `selectNote`: any note, or null; it need not be in the list. */
    method SelectNote(note: Option<Note>)
      modifies this
      ensures selectedNote == note
      ensures notes == old(notes)
    {
      selectedNote := note;
    }

    /** `clearSelection`. */
    method ClearSelection()
      modifies this
      ensures selectedNote == None
      ensures notes == old(notes)
      ensures Consistent()
    {
      selectedNote := None;
    }
  }

  /** A client of the store: selecting a note that was never added leaves
      the store inconsistent, and removing that id repairs it. */
  method SelectUnlistedNote(n: Note) returns (store: Store, ghost consistentAfterSelect: bool)
    ensures fresh(store)
    ensures !consistentAfterSelect
    ensures store.notes == [] && store.selectedNote == None
    ensures store.Consistent()
  {
    store := new Store();
    store.SelectNote(Some(n));
    consistentAfterSelect := store.Consistent();
    store.RemoveNote(n.id);
  }

  /** A client of the store: `setNotes` keeps a selection that the new list
      no longer holds. */
  method ReplaceListUnderSelection(n: Note) returns (store: Store, ghost consistentBefore: bool)
    ensures fresh(store)
    ensures consistentBefore
    ensures store.notes == [] && store.selectedNote == Some(n)
    ensures !store.Consistent()
  {
    store := new Store();
    store.AddNote(n);
    store.SelectNote(Some(n));
    assert store.notes[0].id == n.id;
    consistentBefore := store.Consistent();
    store.SetNotes([]);
  }
}
