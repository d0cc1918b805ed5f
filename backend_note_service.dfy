/** The note service of the standalone backend: the same guards as the
    owner-scoped service in front of the single-tenant repository. */
module BackendNoteService {
  import opened Domain
  import opened Text
  import opened NoteQuery
  import opened LibNoteRepository
  import opened LibNoteService
  import BackendNoteRepository

  class NoteService {
    const repo: BackendNoteRepository.NoteRepository

    ghost predicate Valid()
      reads this, repo
    {
      repo.Valid()
    }

    constructor ()
      ensures Valid() && fresh(repo) && repo.notes == map[]
    {
      repo := new BackendNoteRepository.NoteRepository();
    }

    method GetAllNotes() returns (r: seq<Note>)
      requires Valid()
      ensures IsView(repo.notes, StatusView(None, None), r)
    {
      r := repo.FindAll(None);
    }

    method GetActiveNotes() returns (r: seq<Note>)
      requires Valid()
      ensures IsView(repo.notes, StatusView(Some(false), None), r)
    {
      r := repo.FindAll(Some(false));
    }

    method GetArchivedNotes() returns (r: seq<Note>)
      requires Valid()
      ensures IsView(repo.notes, StatusView(Some(true), None), r)
    {
      r := repo.FindAll(Some(true));
    }

    method GetNoteById(id: string) returns (r: Result<Option<Note>>)
      requires Valid()
      ensures id == "" ==> r == Err(NoteIdRequired)
      ensures id != "" ==> r == Ok(repo.FindById(id))
    {
      if id == "" {
        return Err(NoteIdRequired);
      }
      r := Ok(repo.FindById(id));
    }

    method CreateNote(data: CreateNoteRequest, id: string, now: int) returns (r: Result<Note>)
      requires Valid() && id !in repo.notes
      modifies repo
      ensures Valid()
      ensures CheckCreate(data).Some? ==> r == Err(CheckCreate(data).value) && repo.notes == old(repo.notes)
      ensures CheckCreate(data).None? ==> r.Ok? && repo.notes == old(repo.notes)[id := r.value]
      ensures r.Ok? ==> && r.value.id == id && !r.value.isArchived
                        && r.value.title == data.title && r.value.content == data.content
                        && repo.FindById(id) == Some(r.value)
    {
      var e := CheckCreate(data);
      if e.Some? {
        return Err(e.value);
      }
      var n := repo.Create(data, id, now);
      r := Ok(n);
    }

    method UpdateNote(id: string, data: UpdateNoteRequest, now: int) returns (r: Result<Note>)
      requires Valid()
      modifies repo
      ensures Valid()
      ensures CheckUpdate(id, data).Some? ==> r == Err(CheckUpdate(id, data).value) && repo.notes == old(repo.notes)
      ensures CheckUpdate(id, data).None? && id !in old(repo.notes) ==> r == Err(StoreFailure) && repo.notes == old(repo.notes)
      ensures CheckUpdate(id, data).None? && id in old(repo.notes) ==>
        r == Ok(Patched(old(repo.notes)[id], data, now)) && repo.notes == old(repo.notes)[id := r.value]
    {
      var e := CheckUpdate(id, data);
      if e.Some? {
        return Err(e.value);
      }
      r := repo.Update(id, data, now);
    }

    method DeleteNote(id: string) returns (r: Result<bool>)
      requires Valid()
      modifies repo
      ensures Valid()
      ensures id == "" ==> r == Err(NoteIdRequired) && repo.notes == old(repo.notes)
      ensures id != "" ==> r == Ok(id in old(repo.notes)) && repo.notes == old(repo.notes) - {id}
    {
      if id == "" {
        return Err(NoteIdRequired);
      }
      var deleted := repo.Delete(id);
      r := Ok(deleted);
    }

    method ToggleArchiveNote(id: string, now: int) returns (r: Result<Option<Note>>)
      requires Valid()
      modifies repo
      ensures Valid()
      ensures id == "" ==> r == Err(NoteIdRequired) && repo.notes == old(repo.notes)
      ensures id != "" && id !in old(repo.notes) ==> r == Ok(None) && repo.notes == old(repo.notes)
      ensures id != "" && id in old(repo.notes) ==>
        r == Ok(Some(Toggled(old(repo.notes)[id], now))) && repo.notes == old(repo.notes)[id := r.value.value]
    {
      if id == "" {
        return Err(NoteIdRequired);
      }
      var t := repo.ToggleArchive(id, now);
      r := Ok(t);
    }

    method GetNotesByTags(tagIds: Option<seq<string>>, archived: Option<bool>) returns (r: seq<Note>)
      requires Valid()
      ensures IsView(repo.notes, TagView(tagIds, archived, None), r)
    {
      if tagIds.None? || |tagIds.value| == 0 {
        if archived == Some(true) {
          r := GetArchivedNotes();
        } else {
          r := GetActiveNotes();
        }
        return;
      }
      r := repo.FindByTags(tagIds.value, archived);
    }

    method SearchNotes(query: string, archived: Option<bool>) returns (r: seq<Note>)
      requires Valid()
      ensures IsView(repo.notes, SearchView(query, archived, None), r)
    {
      if IsBlank(query) {
        if archived == Some(true) {
          r := GetArchivedNotes();
        } else {
          r := GetActiveNotes();
        }
        return;
      }
      r := repo.SearchNotes(Trim(query), archived);
    }
  }

  lemma AddThenRemove(m: map<string, Note>, k: string, v: Note)
    requires k !in m
    ensures m[k := v] - {k} == m
  {
  }

  /** A created note can be read back by its id, and deleting it removes it
      and nothing else. */
  method CreateThenDelete(svc: NoteService, data: CreateNoteRequest, id: string, now: int) returns (created: Result<Note>, seen: Result<Option<Note>>, deleted: Result<bool>)
    requires svc.Valid() && id != "" && id !in svc.repo.notes
    requires !IsBlank(data.title) && !IsBlank(data.content)
    modifies svc.repo
    ensures svc.Valid()
    ensures created.Ok? && seen == Ok(Some(created.value))
    ensures deleted == Ok(true)
    ensures svc.repo.notes == old(svc.repo.notes)
  {
    ghost var before := svc.repo.notes;
    created := svc.CreateNote(data, id, now);
    assert svc.repo.notes == before[id := created.value];
    seen := svc.GetNoteById(id);
    deleted := svc.DeleteNote(id);
    assert svc.repo.notes == before[id := created.value] - {id};
    AddThenRemove(before, id, created.value);
  }
}
