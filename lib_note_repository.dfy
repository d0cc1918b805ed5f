/** The owner-aware note repository: reads narrow to the owner only when one
    is given, writes always match both the id and the owner. */
module LibNoteRepository {
  import opened Domain
  import opened NoteQuery

  /** The tag ids a create connects: none when `tagIds` is absent or empty. */
  function ConnectedTags(tagIds: Option<seq<string>>): (s: set<string>)
    ensures tagIds.None? ==> s == {}
    ensures tagIds.Some? ==> forall t :: t in s <==> t in tagIds.value
  {
    if tagIds.Some? && |tagIds.value| > 0 then set t | t in tagIds.value else {}
  }

  /** The row an update writes: the fields present in `data` replace the old
      ones, a present `tagIds` replaces the tag set (an empty list clears it),
      and the store refreshes `updatedAt`. */
  function Patched(n: Note, data: UpdateNoteRequest, now: int): (m: Note)
    ensures m.id == n.id && m.owner == n.owner && m.createdAt == n.createdAt && m.updatedAt == now
    ensures m.title == (if data.title.Some? then data.title.value else n.title)
    ensures m.content == (if data.content.Some? then data.content.value else n.content)
    ensures m.isArchived == (if data.isArchived.Some? then data.isArchived.value else n.isArchived)
    ensures data.tagIds.None? ==> m.tagIds == n.tagIds
    ensures data.tagIds.Some? ==> forall t :: t in m.tagIds <==> t in data.tagIds.value
  {
    n.(title := data.title.GetOr(n.title),
       content := data.content.GetOr(n.content),
       isArchived := data.isArchived.GetOr(n.isArchived),
       tagIds := if data.tagIds.Some? then (if |data.tagIds.value| > 0 then set t | t in data.tagIds.value else {}) else n.tagIds,
       updatedAt := now)
  }

  /** The row a toggle writes. */
  function Toggled(n: Note, now: int): (m: Note)
    ensures m.isArchived == !n.isArchived && m.updatedAt == now
    ensures m.(isArchived := n.isArchived, updatedAt := n.updatedAt) == n
  {
    n.(isArchived := !n.isArchived, updatedAt := now)
  }

  /** Toggling twice restores the flag and every field but `updatedAt`. */
  lemma ToggleTwiceRestores(n: Note, t1: int, t2: int)
    ensures Toggled(Toggled(n, t1), t2).isArchived == n.isArchived
    ensures Toggled(Toggled(n, t1), t2) == n.(updatedAt := t2)
  {
  }

  /** The write target `{ id, userId }` exists. */
  predicate Owns(notes: map<string, Note>, id: string, userId: string) {
    id in notes && notes[id].owner == userId
  }

  /** No note of an owner other than `userId` changed or disappeared. */
  ghost predicate OthersUntouched(before: map<string, Note>, after: map<string, Note>, userId: string) {
    forall k :: k in before && before[k].owner != userId ==> k in after && after[k] == before[k]
  }

  class NoteRepository {
    var notes: map<string, Note>

    ghost predicate Valid()
      reads this
    {
      KeyedById(notes)
    }

    constructor ()
      ensures Valid() && notes == map[]
    {
      notes := map[];
    }

    /** `findAll(archived, userId)`. */
    method FindAll(archived: Option<bool>, userId: string) returns (r: seq<Note>)
      requires Valid()
      ensures IsView(notes, StatusView(archived, ReadScope(userId)), r)
    {
      r := Select(notes, StatusView(archived, ReadScope(userId)));
    }

    /** `findById(id, userId)`: the note with that id, provided it belongs to
        `userId` or no owner is given. */
    function FindById(id: string, userId: string): (r: Option<Note>)
      reads this
      ensures r.Some? <==> id in notes && (userId == "" || notes[id].owner == userId)
      ensures r.Some? ==> r.value == notes[id]
    {
      if id in notes && (userId == "" || notes[id].owner == userId) then Some(notes[id]) else None
    }

    /** `create(data, userId)`; `id` and `now` stand for the store's generated
        id and clock. */
    method Create(data: CreateNoteRequest, userId: string, id: string, now: int) returns (n: Note)
      requires Valid() && id !in notes
      modifies this
      ensures Valid()
      ensures n == Note(id, data.title, data.content, false, userId, ConnectedTags(data.tagIds), now, now)
      ensures notes == old(notes)[id := n]
    {
      n := Note(id, data.title, data.content, false, userId, ConnectedTags(data.tagIds), now, now);
      notes := notes[id := n];
    }

    /** `update(id, data, userId)`: without a note matching `{ id, userId }`
        the store throws. */
    method Update(id: string, data: UpdateNoteRequest, userId: string, now: int) returns (r: Result<Note>)
      requires Valid()
      modifies this
      ensures Valid()
      ensures Owns(old(notes), id, userId) ==> r == Ok(Patched(old(notes)[id], data, now)) && notes == old(notes)[id := r.value]
      ensures !Owns(old(notes), id, userId) ==> r == Err(StoreFailure) && notes == old(notes)
      ensures OthersUntouched(old(notes), notes, userId)
    {
      if Owns(notes, id, userId) {
        var n := Patched(notes[id], data, now);
        notes := notes[id := n];
        r := Ok(n);
      } else {
        r := Err(StoreFailure);
      }
    }

    /** `delete(id, userId)`: true when the owned note was removed; the
        store's error for a missing target becomes false. */
    method Delete(id: string, userId: string) returns (deleted: bool)
      requires Valid()
      modifies this
      ensures Valid()
      ensures deleted == Owns(old(notes), id, userId)
      ensures notes == if deleted then old(notes) - {id} else old(notes)
      ensures OthersUntouched(old(notes), notes, userId)
    {
      deleted := Owns(notes, id, userId);
      if deleted {
        notes := notes - {id};
      }
    }

    /** `toggleArchive(id, userId)`: reads with `findById`, then updates
        where `{ id, userId }`. With the empty owner the read is unscoped,
        so a note of another owner is found and the update then throws. */
    method ToggleArchive(id: string, userId: string, now: int) returns (r: Result<Option<Note>>)
      requires Valid()
      modifies this
      ensures Valid()
      ensures old(FindById(id, userId)).None? ==> r == Ok(None) && notes == old(notes)
      ensures Owns(old(notes), id, userId) ==>
        r == Ok(Some(Toggled(old(notes)[id], now))) && notes == old(notes)[id := Toggled(old(notes)[id], now)]
      ensures old(FindById(id, userId)).Some? && !Owns(old(notes), id, userId) ==>
        userId == "" && r == Err(StoreFailure) && notes == old(notes)
      ensures OthersUntouched(old(notes), notes, userId)
    {
      var found := FindById(id, userId);
      if found.None? {
        return Ok(None);
      }
      if Owns(notes, id, userId) {
        var n := Toggled(found.value, now);
        notes := notes[id := n];
        r := Ok(Some(n));
      } else {
        r := Err(StoreFailure);
      }
    }

    /** `findByTags(tagIds, archived, userId)`: notes carrying any of the ids. */
    method FindByTags(tagIds: seq<string>, archived: Option<bool>, userId: string) returns (r: seq<Note>)
      requires Valid()
      ensures IsView(notes, NoteFilter(archived, ReadScope(userId), Some(tagIds), None), r)
    {
      r := Select(notes, NoteFilter(archived, ReadScope(userId), Some(tagIds), None));
    }

    /** `searchNotes(query, archived, userId)`: title or content contains the
        query, ignoring case. */
    method SearchNotes(query: string, archived: Option<bool>, userId: string) returns (r: seq<Note>)
      requires Valid()
      ensures IsView(notes, NoteFilter(archived, ReadScope(userId), None, Some(query)), r)
    {
      r := Select(notes, NoteFilter(archived, ReadScope(userId), None, Some(query)));
    }
  }
}
