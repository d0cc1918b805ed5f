/** The remote-notes cache of the client: three lists (all, active,
    archived), a loading flag and the last error, updated after each awaited
    API call. The call's outcome is a parameter. */
module NotesCache {
  import opened Domain
  import opened Seqs
  import opened ClientTypes

  class NotesCache {
    var notes: seq<ClientNote>
    var activeNotes: seq<ClientNote>
    var archivedNotes: seq<ClientNote>
    var loading: bool
    var error: Option<string>

    constructor ()
      ensures notes == [] && activeNotes == [] && archivedNotes == []
      ensures !loading && error.None?
    {
      notes, activeNotes, archivedNotes := [], [], [];
      loading, error := false, None;
    }

    /** `fetchAllNotes()`: a failure is recorded, not rethrown. */
    method FetchAllNotes(res: CallResult<Fetched<ClientNote>>)
      modifies this
      ensures !loading
      ensures activeNotes == old(activeNotes) && archivedNotes == old(archivedNotes)
      ensures res.Done? ==> notes == ArrayOrEmpty(res.value) && error.None?
      ensures res.Raised? ==> notes == old(notes) && error == Some(ErrorText(res.message, "Failed to fetch notes"))
    {
      loading := true;
      error := None;
      if res.Done? {
        notes := ArrayOrEmpty(res.value);
      } else {
        error := Some(ErrorText(res.message, "Failed to fetch notes"));
      }
      loading := false;
    }

    /** `fetchActiveNotes()`. */
    method FetchActiveNotes(res: CallResult<Fetched<ClientNote>>)
      modifies this
      ensures !loading
      ensures notes == old(notes) && archivedNotes == old(archivedNotes)
      ensures res.Done? ==> activeNotes == ArrayOrEmpty(res.value) && error.None?
      ensures res.Raised? ==> activeNotes == old(activeNotes) && error == Some(ErrorText(res.message, "Failed to fetch active notes"))
    {
      loading := true;
      error := None;
      if res.Done? {
        activeNotes := ArrayOrEmpty(res.value);
      } else {
        error := Some(ErrorText(res.message, "Failed to fetch active notes"));
      }
      loading := false;
    }

    /** `fetchArchivedNotes()`. */
    method FetchArchivedNotes(res: CallResult<Fetched<ClientNote>>)
      modifies this
      ensures !loading
      ensures notes == old(notes) && activeNotes == old(activeNotes)
      ensures res.Done? ==> archivedNotes == ArrayOrEmpty(res.value) && error.None?
      ensures res.Raised? ==> archivedNotes == old(archivedNotes) && error == Some(ErrorText(res.message, "Failed to fetch archived notes"))
    {
      loading := true;
      error := None;
      if res.Done? {
        archivedNotes := ArrayOrEmpty(res.value);
      } else {
        error := Some(ErrorText(res.message, "Failed to fetch archived notes"));
      }
      loading := false;
    }

    /** `createNote(data)`: the new note goes first in the full and the
        active list; a failure is recorded and rethrown. */
    method CreateNote(res: CallResult<ClientNote>) returns (r: CallResult<ClientNote>)
      modifies this
      ensures r == res && !loading
      ensures archivedNotes == old(archivedNotes)
      ensures res.Done? ==> notes == [res.value] + old(notes) && activeNotes == [res.value] + old(activeNotes) && error.None?
      ensures res.Raised? ==> && notes == old(notes) && activeNotes == old(activeNotes)
                              && error == Some(ErrorText(res.message, "Failed to create note"))
    {
      loading := true;
      error := None;
      if res.Done? {
        notes := [res.value] + notes;
        activeNotes := [res.value] + activeNotes;
      } else {
        error := Some(ErrorText(res.message, "Failed to create note"));
      }
      loading := false;
      r := res;
    }

    /** `updateNote(id, data)`: the returned note replaces the id in all
        three lists. */
    method UpdateNote(id: string, res: CallResult<ClientNote>) returns (r: CallResult<ClientNote>)
      modifies this
      ensures r == res && !loading
      ensures res.Done? ==> && notes == ReplaceKey(old(notes), NoteKey, id, res.value)
                            && activeNotes == ReplaceKey(old(activeNotes), NoteKey, id, res.value)
                            && archivedNotes == ReplaceKey(old(archivedNotes), NoteKey, id, res.value)
                            && error.None?
      ensures |notes| == |old(notes)| && |activeNotes| == |old(activeNotes)| && |archivedNotes| == |old(archivedNotes)|
      ensures res.Raised? ==> && notes == old(notes) && activeNotes == old(activeNotes) && archivedNotes == old(archivedNotes)
                              && error == Some(ErrorText(res.message, "Failed to update note"))
    {
      loading := true;
      error := None;
      if res.Done? {
        notes := ReplaceKey(notes, NoteKey, id, res.value);
        activeNotes := ReplaceKey(activeNotes, NoteKey, id, res.value);
        archivedNotes := ReplaceKey(archivedNotes, NoteKey, id, res.value);
      } else {
        error := Some(ErrorText(res.message, "Failed to update note"));
      }
      loading := false;
      r := res;
    }

    /** `deleteNote(id)`: the id leaves all three lists. */
    method DeleteNote(id: string, res: CallResult<()>) returns (r: CallResult<()>)
      modifies this
      ensures r == res && !loading
      ensures res.Done? ==> && notes == RemoveKey(old(notes), NoteKey, id)
                            && activeNotes == RemoveKey(old(activeNotes), NoteKey, id)
                            && archivedNotes == RemoveKey(old(archivedNotes), NoteKey, id)
                            && error.None?
      ensures res.Done? ==> forall n :: n in notes + activeNotes + archivedNotes ==> n.id != id
      ensures res.Raised? ==> && notes == old(notes) && activeNotes == old(activeNotes) && archivedNotes == old(archivedNotes)
                              && error == Some(ErrorText(res.message, "Failed to delete note"))
    {
      loading := true;
      error := None;
      if res.Done? {
        notes := RemoveKey(notes, NoteKey, id);
        activeNotes := RemoveKey(activeNotes, NoteKey, id);
        archivedNotes := RemoveKey(archivedNotes, NoteKey, id);
      } else {
        error := Some(ErrorText(res.message, "Failed to delete note"));
      }
      loading := false;
      r := res;
    }

    /** `toggleArchiveNote(id)`: the returned note replaces the id in the
        full list, leaves both status lists, and is put first in the list of
        its new status. */
    method ToggleArchiveNote(id: string, res: CallResult<ClientNote>) returns (r: CallResult<ClientNote>)
      modifies this
      ensures r == res && !loading
      ensures res.Done? ==> notes == ReplaceKey(old(notes), NoteKey, id, res.value) && error.None?
      ensures res.Done? && res.value.isArchived ==>
        archivedNotes == [res.value] + RemoveKey(old(archivedNotes), NoteKey, id) && activeNotes == RemoveKey(old(activeNotes), NoteKey, id)
      ensures res.Done? && !res.value.isArchived ==>
        activeNotes == [res.value] + RemoveKey(old(activeNotes), NoteKey, id) && archivedNotes == RemoveKey(old(archivedNotes), NoteKey, id)
      ensures res.Raised? ==> && notes == old(notes) && activeNotes == old(activeNotes) && archivedNotes == old(archivedNotes)
                              && error == Some(ErrorText(res.message, "Failed to toggle archive note"))
    {
      loading := true;
      error := None;
      if res.Done? {
        var updated := res.value;
        notes := ReplaceKey(notes, NoteKey, id, updated);
        activeNotes := RemoveKey(activeNotes, NoteKey, id);
        archivedNotes := RemoveKey(archivedNotes, NoteKey, id);
        if updated.isArchived {
          archivedNotes := [updated] + archivedNotes;
        } else {
          activeNotes := [updated] + activeNotes;
        }
      } else {
        error := Some(ErrorText(res.message, "Failed to toggle archive note"));
      }
      loading := false;
      r := res;
    }

    /** `searchNotes(query, archived)`: the results are returned, the lists
        stay as they are. */
    method SearchNotes(res: CallResult<Fetched<ClientNote>>) returns (r: CallResult<seq<ClientNote>>)
      modifies this
      ensures !loading
      ensures notes == old(notes) && activeNotes == old(activeNotes) && archivedNotes == old(archivedNotes)
      ensures res.Done? ==> r == Done(ArrayOrEmpty(res.value)) && error.None?
      ensures res.Raised? ==> r == Raised(res.message) && error == Some(ErrorText(res.message, "Failed to search notes"))
    {
      loading := true;
      error := None;
      if res.Done? {
        r := Done(ArrayOrEmpty(res.value));
      } else {
        error := Some(ErrorText(res.message, "Failed to search notes"));
        r := Raised(res.message);
      }
      loading := false;
    }

    /** `getNotesByTags(tagIds, archived)`: as `searchNotes`. */
    method GetNotesByTags(res: CallResult<Fetched<ClientNote>>) returns (r: CallResult<seq<ClientNote>>)
      modifies this
      ensures !loading
      ensures notes == old(notes) && activeNotes == old(activeNotes) && archivedNotes == old(archivedNotes)
      ensures res.Done? ==> r == Done(ArrayOrEmpty(res.value)) && error.None?
      ensures res.Raised? ==> r == Raised(res.message) && error == Some(ErrorText(res.message, "Failed to get notes by tags"))
    {
      loading := true;
      error := None;
      if res.Done? {
        r := Done(ArrayOrEmpty(res.value));
      } else {
        error := Some(ErrorText(res.message, "Failed to get notes by tags"));
        r := Raised(res.message);
      }
      loading := false;
    }

    method ClearError()
      modifies this
      ensures error.None?
      ensures notes == old(notes) && activeNotes == old(activeNotes) && archivedNotes == old(archivedNotes) && loading == old(loading)
    {
      error := None;
    }
  }

  /** After a toggle whose returned note carries the id, the id is in the
      list of the note's new status exactly once, at its head, and not in
      the other list. */
  lemma TogglePlacement(oldActive: seq<ClientNote>, oldArchived: seq<ClientNote>, id: string, u: ClientNote)
    requires u.id == id
    ensures var target := [u] + RemoveKey(if u.isArchived then oldArchived else oldActive, NoteKey, id);
      var other := RemoveKey(if u.isArchived then oldActive else oldArchived, NoteKey, id);
      && target[0] == u
      && (forall i :: 1 <= i < |target| ==> target[i].id != id)
      && (forall n :: n in other ==> n.id != id)
  {
    var target := [u] + RemoveKey(if u.isArchived then oldArchived else oldActive, NoteKey, id);
    forall i | 1 <= i < |target| ensures target[i].id != id {
      assert target[i] in RemoveKey(if u.isArchived then oldArchived else oldActive, NoteKey, id);
    }
  }
}
