/** The owner-scoped note service: input guards in front of the owner-aware
    repository, and the tag and search fallbacks to the default views. */
module LibNoteService {
  import opened Domain
  import opened Text
  import opened NoteQuery
  import opened LibNoteRepository

  /** `if (!id) throw new Error('Note ID is required')`. */
  function CheckId(id: string): (e: Option<Failure>)
    ensures e.Some? <==> id == ""
    ensures e.Some? ==> e.value == NoteIdRequired
  {
    if id == "" then Some(NoteIdRequired) else None
  }

  /** The create guards: a blank title fails first, then a blank content. */
  function CheckCreate(data: CreateNoteRequest): (e: Option<Failure>)
    ensures e.None? <==> !IsBlank(data.title) && !IsBlank(data.content)
    ensures e == Some(NoteTitleRequired) <==> IsBlank(data.title)
    ensures e == Some(NoteContentRequired) <==> !IsBlank(data.title) && IsBlank(data.content)
  {
    if IsBlank(data.title) then Some(NoteTitleRequired)
    else if IsBlank(data.content) then Some(NoteContentRequired)
    else None
  }

  /** The update guards: the id, then a title or content that is present but
      blank. An absent field never fails. */
  function CheckUpdate(id: string, data: UpdateNoteRequest): (e: Option<Failure>)
    ensures e.None? <==> id != "" && (data.title.Some? ==> !IsBlank(data.title.value)) && (data.content.Some? ==> !IsBlank(data.content.value))
    ensures e == Some(NoteIdRequired) <==> id == ""
    ensures e == Some(NoteTitleEmpty) <==> id != "" && data.title.Some? && IsBlank(data.title.value)
    ensures e == Some(NoteContentEmpty) <==>
      id != "" && (data.title.Some? ==> !IsBlank(data.title.value)) && data.content.Some? && IsBlank(data.content.value)
    ensures data.title.None? && data.content.None? ==> e == CheckId(id)
  {
    if id == "" then Some(NoteIdRequired)
    else if data.title.Some? && IsBlank(data.title.value) then Some(NoteTitleEmpty)
    else if data.content.Some? && IsBlank(data.content.value) then Some(NoteContentEmpty)
    else None
  }

  /** An empty `tagIds` list or a blank query reads the same notes as the
      plain view: the archived one when `archived` is true, the active one
      otherwise, including when `archived` is absent. */
  lemma FallbacksAreDefaultViews(tagIds: Option<seq<string>>, query: string, archived: Option<bool>, scope: Option<string>)
    ensures (tagIds.None? || tagIds.value == []) ==>
      TagView(tagIds, archived, scope) == StatusView(Some(archived == Some(true)), scope)
    ensures IsBlank(query) ==> SearchView(query, archived, scope) == StatusView(Some(archived == Some(true)), scope)
    ensures archived.None? ==> DefaultView(archived, scope) == StatusView(Some(false), scope)
  {
  }

  /** A blank search returns the same notes as the active (or archived)
      view, up to the order of equally recent notes. */
  lemma BlankSearchIsDefaultView(notes: map<string, Note>, query: string, archived: Option<bool>, userId: string, r1: seq<Note>, r2: seq<Note>)
    requires IsBlank(query)
    requires IsView(notes, SearchView(query, archived, ReadScope(userId)), r1)
    requires IsView(notes, StatusView(Some(archived == Some(true)), ReadScope(userId)), r2)
    ensures multiset(r1) == multiset(r2) && |r1| == |r2|
  {
    SameRowsSameNotes(notes, SearchView(query, archived, ReadScope(userId)), StatusView(Some(archived == Some(true)), ReadScope(userId)), r1, r2);
  }

  class NoteService {
    const repo: NoteRepository

    ghost predicate Valid()
      reads this, repo
    {
      repo.Valid()
    }

    constructor ()
      ensures Valid() && fresh(repo) && repo.notes == map[]
    {
      repo := new NoteRepository();
    }

    method GetAllNotes(userId: string) returns (r: seq<Note>)
      requires Valid()
      ensures IsView(repo.notes, StatusView(None, ReadScope(userId)), r)
    {
      r := repo.FindAll(None, userId);
    }

    method GetActiveNotes(userId: string) returns (r: seq<Note>)
      requires Valid()
      ensures IsView(repo.notes, StatusView(Some(false), ReadScope(userId)), r)
    {
      r := repo.FindAll(Some(false), userId);
    }

    method GetArchivedNotes(userId: string) returns (r: seq<Note>)
      requires Valid()
      ensures IsView(repo.notes, StatusView(Some(true), ReadScope(userId)), r)
    {
      r := repo.FindAll(Some(true), userId);
    }

    method GetNoteById(id: string, userId: string) returns (r: Result<Option<Note>>)
      requires Valid()
      ensures id == "" ==> r == Err(NoteIdRequired)
      ensures id != "" ==> r == Ok(repo.FindById(id, userId))
    {
      if id == "" {
        return Err(NoteIdRequired);
      }
      r := Ok(repo.FindById(id, userId));
    }

    /** `createNote(data, userId)`; `id` and `now` come from the store. */
    method CreateNote(data: CreateNoteRequest, userId: string, id: string, now: int) returns (r: Result<Note>)
      requires Valid() && id !in repo.notes
      modifies repo
      ensures Valid()
      ensures CheckCreate(data).Some? ==> r == Err(CheckCreate(data).value) && repo.notes == old(repo.notes)
      ensures CheckCreate(data).None? ==> r.Ok? && repo.notes == old(repo.notes)[id := r.value]
      ensures r.Ok? ==> && r.value.id == id && r.value.owner == userId && !r.value.isArchived
                        && r.value.title == data.title && r.value.content == data.content
                        && repo.FindById(id, userId) == Some(r.value)
    {
      var e := CheckCreate(data);
      if e.Some? {
        return Err(e.value);
      }
      var n := repo.Create(data, userId, id, now);
      r := Ok(n);
    }

    method UpdateNote(id: string, data: UpdateNoteRequest, userId: string, now: int) returns (r: Result<Note>)
      requires Valid()
      modifies repo
      ensures Valid()
      ensures CheckUpdate(id, data).Some? ==> r == Err(CheckUpdate(id, data).value) && repo.notes == old(repo.notes)
      ensures CheckUpdate(id, data).None? && !Owns(old(repo.notes), id, userId) ==>
        r == Err(StoreFailure) && repo.notes == old(repo.notes)
      ensures CheckUpdate(id, data).None? && Owns(old(repo.notes), id, userId) ==>
        r == Ok(Patched(old(repo.notes)[id], data, now)) && repo.notes == old(repo.notes)[id := r.value]
      ensures OthersUntouched(old(repo.notes), repo.notes, userId)
    {
      var e := CheckUpdate(id, data);
      if e.Some? {
        return Err(e.value);
      }
      r := repo.Update(id, data, userId, now);
    }

    method DeleteNote(id: string, userId: string) returns (r: Result<bool>)
      requires Valid()
      modifies repo
      ensures Valid()
      ensures id == "" ==> r == Err(NoteIdRequired) && repo.notes == old(repo.notes)
      ensures id != "" ==> r == Ok(Owns(old(repo.notes), id, userId))
      ensures r == Ok(true) ==> repo.notes == old(repo.notes) - {id}
      ensures r != Ok(true) ==> repo.notes == old(repo.notes)
      ensures OthersUntouched(old(repo.notes), repo.notes, userId)
    {
      if id == "" {
        return Err(NoteIdRequired);
      }
      var deleted := repo.Delete(id, userId);
      r := Ok(deleted);
    }

    method ToggleArchiveNote(id: string, userId: string, now: int) returns (r: Result<Option<Note>>)
      requires Valid()
      modifies repo
      ensures Valid()
      ensures id == "" ==> r == Err(NoteIdRequired) && repo.notes == old(repo.notes)
      ensures id != "" && Owns(old(repo.notes), id, userId) ==>
        r == Ok(Some(Toggled(old(repo.notes)[id], now))) && repo.notes == old(repo.notes)[id := r.value.value]
      ensures id != "" && old(repo.FindById(id, userId)).None? ==> r == Ok(None)
      ensures id != "" && old(repo.FindById(id, userId)).Some? && !Owns(old(repo.notes), id, userId) ==>
        userId == "" && r == Err(StoreFailure)
      ensures !Owns(old(repo.notes), id, userId) ==> repo.notes == old(repo.notes)
      ensures OthersUntouched(old(repo.notes), repo.notes, userId)
    {
      if id == "" {
        return Err(NoteIdRequired);
      }
      r := repo.ToggleArchive(id, userId, now);
    }

    method GetNotesByTags(tagIds: Option<seq<string>>, userId: string, archived: Option<bool>) returns (r: seq<Note>)
      requires Valid()
      ensures IsView(repo.notes, TagView(tagIds, archived, ReadScope(userId)), r)
    {
      if tagIds.None? || |tagIds.value| == 0 {
        if archived == Some(true) {
          r := GetArchivedNotes(userId);
        } else {
          r := GetActiveNotes(userId);
        }
        return;
      }
      r := repo.FindByTags(tagIds.value, archived, userId);
    }

    method SearchNotes(query: string, userId: string, archived: Option<bool>) returns (r: seq<Note>)
      requires Valid()
      ensures IsView(repo.notes, SearchView(query, archived, ReadScope(userId)), r)
    {
      if IsBlank(query) {
        if archived == Some(true) {
          r := GetArchivedNotes(userId);
        } else {
          r := GetActiveNotes(userId);
        }
        return;
      }
      r := repo.SearchNotes(Trim(query), archived, userId);
    }
  }

  /** The toggle is an involution: two toggles by the owner restore the flag. */
  method ToggleTwice(svc: NoteService, id: string, userId: string, t1: int, t2: int) returns (first: Result<Option<Note>>, second: Result<Option<Note>>)
    requires svc.Valid() && id != "" && Owns(svc.repo.notes, id, userId)
    modifies svc.repo
    ensures svc.Valid()
    ensures second.Ok? && second.value.Some? && second.value.value.isArchived == old(svc.repo.notes[id].isArchived)
    ensures svc.repo.notes == old(svc.repo.notes)[id := old(svc.repo.notes[id]).(updatedAt := t2)]
  {
    first := svc.ToggleArchiveNote(id, userId, t1);
    second := svc.ToggleArchiveNote(id, userId, t2);
    ToggleTwiceRestores(old(svc.repo.notes[id]), t1, t2);
  }

  /** Ownership isolation: another owner can neither update nor delete a note
      and does not see it. */
  method ForeignOwnerIsRefused(svc: NoteService, id: string, owner: string, other: string, data: UpdateNoteRequest, now: int)
      returns (seen: Result<Option<Note>>, updated: Result<Note>, deleted: Result<bool>)
    requires svc.Valid() && id != "" && other != "" && Owns(svc.repo.notes, id, owner) && owner != other
    modifies svc.repo
    ensures svc.Valid()
    ensures seen == Ok(None)
    ensures updated.Err? && deleted == Ok(false)
    ensures svc.repo.notes == old(svc.repo.notes)
  {
    seen := svc.GetNoteById(id, other);
    updated := svc.UpdateNote(id, data, other, now);
    deleted := svc.DeleteNote(id, other);
  }
}
