/** The single-tenant note repository of the standalone backend: reads and
    writes match on the id alone and never look at an owner. */
module BackendNoteRepository {
  import opened Domain
  import opened NoteQuery
  import opened LibNoteRepository

  class NoteRepository {
    var notes: map<string, Note>

    ghost predicate Valid()
      reads this
    {
      KeyedById(notes)
    }

    constructor ()
      ensures Valid() && notes == map[]
    {
      notes := map[];
    }

    /** `findAll(archived)`: every note with the given status, or every note. */
    method FindAll(archived: Option<bool>) returns (r: seq<Note>)
      requires Valid()
      ensures IsView(notes, StatusView(archived, None), r)
    {
      r := Select(notes, StatusView(archived, None));
    }

    /** `findById(id)`. */
    function FindById(id: string): (r: Option<Note>)
      reads this
      ensures r.Some? <==> id in notes
      ensures r.Some? ==> r.value == notes[id]
    {
      if id in notes then Some(notes[id]) else None
    }

    /** `create(data)`: the row carries no owner. */
    method Create(data: CreateNoteRequest, id: string, now: int) returns (n: Note)
      requires Valid() && id !in notes
      modifies this
      ensures Valid()
      ensures n == Note(id, data.title, data.content, false, "", ConnectedTags(data.tagIds), now, now)
      ensures notes == old(notes)[id := n]
    {
      n := Note(id, data.title, data.content, false, "", ConnectedTags(data.tagIds), now, now);
      notes := notes[id := n];
    }

    /** `update(id, data)`: the store throws when no note has the id. */
    method Update(id: string, data: UpdateNoteRequest, now: int) returns (r: Result<Note>)
      requires Valid()
      modifies this
      ensures Valid()
      ensures id in old(notes) ==> r == Ok(Patched(old(notes)[id], data, now)) && notes == old(notes)[id := r.value]
      ensures id !in old(notes) ==> r == Err(StoreFailure) && notes == old(notes)
    {
      if id in notes {
        var n := Patched(notes[id], data, now);
        notes := notes[id := n];
        r := Ok(n);
      } else {
        r := Err(StoreFailure);
      }
    }

    /** `delete(id)`: the store's error for a missing id becomes false. */
    method Delete(id: string) returns (deleted: bool)
      requires Valid()
      modifies this
      ensures Valid()
      ensures deleted == (id in old(notes))
      ensures notes == old(notes) - {id}
    {
      deleted := id in notes;
      notes := notes - {id};
    }

    /** `toggleArchive(id)`: null for a missing id, otherwise the flipped row. */
    method ToggleArchive(id: string, now: int) returns (r: Option<Note>)
      requires Valid()
      modifies this
      ensures Valid()
      ensures id !in old(notes) ==> r == None && notes == old(notes)
      ensures id in old(notes) ==> r == Some(Toggled(old(notes)[id], now)) && notes == old(notes)[id := r.value]
    {
      var found := FindById(id);
      if found.None? {
        return None;
      }
      var n := Toggled(found.value, now);
      notes := notes[id := n];
      r := Some(n);
    }

    /** `findByTags(tagIds, archived)`. */
    method FindByTags(tagIds: seq<string>, archived: Option<bool>) returns (r: seq<Note>)
      requires Valid()
      ensures IsView(notes, NoteFilter(archived, None, Some(tagIds), None), r)
    {
      r := Select(notes, NoteFilter(archived, None, Some(tagIds), None));
    }

    /** `searchNotes(query, archived)`. */
    method SearchNotes(query: string, archived: Option<bool>) returns (r: seq<Note>)
      requires Valid()
      ensures IsView(notes, NoteFilter(archived, None, None, Some(query)), r)
    {
      r := Select(notes, NoteFilter(archived, None, None, Some(query)));
    }
  }

  /** The backend store behaves as the owner-aware one read with the empty
      owner: the same rows match every read. */
  lemma UnscopedReadsAreEmptyOwnerReads(notes: map<string, Note>, archived: Option<bool>, tagIds: seq<string>, query: string)
    ensures MatchingIds(notes, StatusView(archived, None)) == MatchingIds(notes, StatusView(archived, ReadScope("")))
    ensures MatchingIds(notes, NoteFilter(archived, None, Some(tagIds), None))
         == MatchingIds(notes, NoteFilter(archived, ReadScope(""), Some(tagIds), None))
    ensures MatchingIds(notes, NoteFilter(archived, None, None, Some(query)))
         == MatchingIds(notes, NoteFilter(archived, ReadScope(""), None, Some(query)))
  {
  }
}
