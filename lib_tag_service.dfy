/** The tag service: id and name guards, the existence and name-conflict
    checks in front of the tag repository. */
module LibTagService {
  import opened Domain
  import opened Text
  import opened Seqs
  import opened BackendTagRepository

  /** `if (!name || !name.trim()) throw new Error('Tag name is required')`. */
  function CheckName(name: string): (e: Option<Failure>)
    ensures e.Some? <==> IsBlank(name)
    ensures e.Some? ==> e.value == TagNameRequired
  {
    if IsBlank(name) then Some(TagNameRequired) else None
  }

  /** `if (!id) throw new Error('Tag ID is required')`. */
  function CheckTagId(id: string): (e: Option<Failure>)
    ensures e.Some? <==> id == ""
    ensures e.Some? ==> e.value == TagIdRequired
  {
    if id == "" then Some(TagIdRequired) else None
  }

  class TagService {
    const repo: TagRepository

    /** Besides the repository's own invariant, no stored name is empty:
        every write path rejects a blank name first. */
    ghost predicate Valid()
      reads this, repo
    {
      repo.Valid() && forall k :: k in repo.tags ==> repo.tags[k].name != ""
    }

    constructor ()
      ensures Valid() && fresh(repo) && repo.tags == map[]
    {
      repo := new TagRepository();
    }

    method GetAllTags() returns (r: seq<Tag>)
      requires Valid()
      ensures Lists(repo.tags, repo.tags.Keys, r) && SortedByName(r)
    {
      r := repo.FindAll();
    }

    method GetTagById(id: string) returns (r: Result<Option<Tag>>)
      requires Valid()
      ensures id == "" ==> r == Err(TagIdRequired)
      ensures id != "" ==> r == Ok(repo.FindById(id))
    {
      if id == "" {
        return Err(TagIdRequired);
      }
      r := Ok(repo.FindById(id));
    }

    /** `createTag(data)`: a blank name, then a taken trimmed name, fail. */
    method CreateTag(name: string, id: string) returns (r: Result<Tag>)
      requires Valid() && id !in repo.tags
      modifies repo
      ensures Valid()
      ensures IsBlank(name) ==> r == Err(TagNameRequired) && repo.tags == old(repo.tags)
      ensures !IsBlank(name) && NameTaken(old(repo.tags), Trim(name)) ==> r == Err(TagAlreadyExists) && repo.tags == old(repo.tags)
      ensures !IsBlank(name) && !NameTaken(old(repo.tags), Trim(name)) ==>
        r == Ok(Tag(id, Trim(name))) && repo.tags == old(repo.tags)[id := r.value]
    {
      if IsBlank(name) {
        return Err(TagNameRequired);
      }
      var existing := repo.FindByName(Trim(name));
      if existing.Some? {
        return Err(TagAlreadyExists);
      }
      r := repo.Create(name, id);
    }

    /** `updateTag(id, data)`: the id, the name, the tag's existence and a
        name held by a different tag are checked in this order. */
    method UpdateTag(id: string, name: string) returns (r: Result<Option<Tag>>)
      requires Valid()
      modifies repo
      ensures Valid()
      ensures r.Err? ==> repo.tags == old(repo.tags)
      ensures id == "" ==> r == Err(TagIdRequired)
      ensures id != "" && IsBlank(name) ==> r == Err(TagNameRequired)
      ensures id != "" && !IsBlank(name) && id !in old(repo.tags) ==> r == Err(TagNotFound)
      ensures id != "" && !IsBlank(name) && id in old(repo.tags) ==>
        if NameTaken(old(repo.tags), Trim(name)) && old(repo.tags)[id].name != Trim(name) then
          r == Err(TagNameAlreadyExists)
        else
          r == Ok(Some(Tag(id, Trim(name)))) && repo.tags == old(repo.tags)[id := Tag(id, Trim(name))]
    {
      if id == "" {
        return Err(TagIdRequired);
      }
      if IsBlank(name) {
        return Err(TagNameRequired);
      }
      var existing := repo.FindById(id);
      if existing.None? {
        return Err(TagNotFound);
      }
      var holder := repo.FindByName(Trim(name));
      if holder.Some? && holder.value.id != id {
        return Err(TagNameAlreadyExists);
      }
      var t := repo.Update(id, name);
      r := Ok(t);
    }

    method DeleteTag(id: string) returns (r: Result<bool>)
      requires Valid()
      modifies repo
      ensures Valid()
      ensures id == "" ==> r == Err(TagIdRequired) && repo.tags == old(repo.tags)
      ensures id != "" && id !in old(repo.tags) ==> r == Err(TagNotFound) && repo.tags == old(repo.tags)
      ensures id != "" && id in old(repo.tags) ==> r == Ok(true) && repo.tags == old(repo.tags) - {id}
    {
      if id == "" {
        return Err(TagIdRequired);
      }
      var existing := repo.FindById(id);
      if existing.None? {
        return Err(TagNotFound);
      }
      var deleted := repo.Delete(id);
      r := Ok(deleted);
    }

    /** `findOrCreateTag(name)`: never a conflict, only the blank-name error. */
    method FindOrCreateTag(name: string, id: string) returns (r: Result<Tag>)
      requires Valid() && id !in repo.tags
      modifies repo
      ensures Valid()
      ensures IsBlank(name) <==> r.Err?
      ensures r.Err? ==> r.error == TagNameRequired && repo.tags == old(repo.tags)
      ensures r.Ok? ==> r.value.name == Trim(name) && repo.FindById(r.value.id) == Some(r.value)
      ensures r.Ok? && NameTaken(old(repo.tags), Trim(name)) ==> repo.tags == old(repo.tags)
      ensures r.Ok? && !NameTaken(old(repo.tags), Trim(name)) ==> repo.tags == old(repo.tags)[id := r.value]
    {
      if IsBlank(name) {
        return Err(TagNameRequired);
      }
      TrimIdempotent(name);
      var t := repo.FindOrCreate(Trim(name), id);
      r := Ok(t);
    }

    /** `getTagsByIds(ids)`: nothing for an absent or empty list. */
    method GetTagsByIds(ids: Option<seq<string>>) returns (r: seq<Tag>)
      requires Valid()
      ensures ids.None? || ids.value == [] ==> r == []
      ensures ids.Some? ==> Lists(repo.tags, (set i | i in ids.value), r)
    {
      if ids.None? || |ids.value| == 0 {
        return [];
      }
      r := repo.FindByIds(ids.value);
    }
  }

  /** Creating the same name twice fails the second time, whatever the
      surrounding whitespace. */
  method CreateTwiceFails(svc: TagService, name: string, other: string, id1: string, id2: string) returns (first: Result<Tag>, second: Result<Tag>)
    requires svc.Valid() && !IsBlank(name) && Trim(other) == Trim(name)
    requires id1 !in svc.repo.tags && id2 !in svc.repo.tags && id1 != id2
    modifies svc.repo
    ensures svc.Valid()
    ensures second == Err(TagAlreadyExists)
  {
    first := svc.CreateTag(name, id1);
    assert NameTaken(svc.repo.tags, Trim(name)) by {
      if first.Err? {
        assert first == Err(TagAlreadyExists);
      } else {
        assert svc.repo.tags[id1].name == Trim(name);
      }
    }
    assert !IsBlank(other) by { BlankIffAllSpace(other); }
    second := svc.CreateTag(other, id2);
  }

  lemma RewriteSameRow(tags: map<string, Tag>, id: string)
    requires id in tags
    ensures tags[id := tags[id]] == tags
  {
  }

  /** Renaming a tag to its own name is no conflict. */
  method RenameToOwnName(svc: TagService, id: string) returns (r: Result<Option<Tag>>)
    requires svc.Valid() && id != "" && id in svc.repo.tags
    modifies svc.repo
    ensures svc.Valid()
    ensures r == Ok(Some(old(svc.repo.tags[id])))
    ensures svc.repo.tags == old(svc.repo.tags)
  {
    ghost var before := svc.repo.tags;
    var t0 := svc.repo.tags[id];
    var name := t0.name;
    assert t0 == Tag(id, name);
    TrimOfTrimmed(name);
    BlankOfTrimmed(name);
    assert !IsBlank(name) && Trim(name) == name;
    r := svc.UpdateTag(id, name);
    assert r == Ok(Some(Tag(id, name)));
    assert svc.repo.tags == before[id := t0];
    RewriteSameRow(before, id);
  }
}
