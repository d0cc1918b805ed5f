/** The tag repository: a table of tags whose `name` column is unique (the
    store looks tags up by name with `findUnique`), written with trimmed names. */
module BackendTagRepository {
  import opened Domain
  import opened Text
  import opened Seqs

  function TagId(t: Tag): string {
    t.id
  }

  /** Every stored row sits under its own id, no two rows share a name, and
      every name is trimmed. */
  ghost predicate WellFormed(tags: map<string, Tag>) {
    && (forall k :: k in tags ==> tags[k].id == k && IsTrimmed(tags[k].name))
    && (forall a, b :: a in tags && b in tags && tags[a].name == tags[b].name ==> a == b)
  }

  ghost predicate NameTaken(tags: map<string, Tag>, name: string) {
    exists k :: k in tags && tags[k].name == name
  }

  predicate SortedByName(s: seq<Tag>) {
    forall i, j :: 0 <= i < j < |s| ==> LexLeq(s[i].name, s[j].name)
  }

  /** `r` holds the stored rows whose id is in `keep`, each once. */
  ghost predicate Lists(tags: map<string, Tag>, keep: set<string>, r: seq<Tag>) {
    && (forall i :: 0 <= i < |r| ==> r[i].id in tags && tags[r[i].id] == r[i])
    && Image(r, TagId) == keep * tags.Keys
    && DistinctBy(r, TagId)
  }

  /** Where a tag named `name` goes in a list ordered by name. */
  function NamePosition(s: seq<Tag>, name: string): (i: nat)
    ensures i <= |s|
    ensures forall j :: 0 <= j < i ==> LexLeq(s[j].name, name)
    ensures i < |s| ==> LexLeq(name, s[i].name)
  {
    if s == [] then 0
    else if !LexLeq(s[0].name, name) then
      LexLeqTotal(s[0].name, name);
      0
    else 1 + NamePosition(s[1..], name)
  }

  lemma SortedSplice(s: seq<Tag>, t: Tag)
    requires SortedByName(s)
    ensures var i := NamePosition(s, t.name); SortedByName(s[..i] + [t] + s[i..])
  {
    var i := NamePosition(s, t.name);
    var s' := s[..i] + [t] + s[i..];
    forall a, b | 0 <= a < b < |s'| ensures LexLeq(s'[a].name, s'[b].name) {
      if b < i {
        assert s'[a] == s[a] && s'[b] == s[b];
      } else if b == i {
        assert s'[a] == s[a];
      } else if a == i {
        assert s'[b] == s[b - 1];
        if b - 1 > i { LexLeqTransitive(t.name, s[i].name, s[b - 1].name); }
      } else if a < i {
        assert s'[a] == s[a] && s'[b] == s[b - 1];
        if b - 1 > i { LexLeqTransitive(t.name, s[i].name, s[b - 1].name); }
        LexLeqTransitive(s[a].name, t.name, s[b - 1].name);
      } else {
        assert s'[a] == s[a - 1] && s'[b] == s[b - 1];
      }
    }
  }

  /** The loop state of Collect: `r` lists the visited rows to keep, by name. */
  ghost predicate CollectedSoFar(tags: map<string, Tag>, keep: set<string>, r: seq<Tag>, pending: set<string>) {
    && pending <= tags.Keys
    && (forall i :: 0 <= i < |r| ==> r[i].id in tags && tags[r[i].id] == r[i] && r[i].id !in pending)
    && Image(r, TagId) == keep * tags.Keys - pending
    && DistinctBy(r, TagId)
    && SortedByName(r)
  }

  lemma CollectStep(tags: map<string, Tag>, keep: set<string>, r: seq<Tag>, pending: set<string>, k: string)
    requires WellFormed(tags)
    requires CollectedSoFar(tags, keep, r, pending) && k in pending
    ensures k !in keep ==> CollectedSoFar(tags, keep, r, pending - {k})
    ensures k in keep ==>
      var i := NamePosition(r, tags[k].name);
      CollectedSoFar(tags, keep, r[..i] + [tags[k]] + r[i..], pending - {k})
  {
    var t := tags[k];
    assert k !in Image(r, TagId);
    if k in keep {
      var i := NamePosition(r, t.name);
      ImageSplice(r, t, i, TagId);
      DistinctSplice(r, t, i, TagId);
      SortedSplice(r, t);
      var r' := r[..i] + [t] + r[i..];
      forall j | 0 <= j < |r'| ensures r'[j].id in tags && tags[r'[j].id] == r'[j] && r'[j].id !in pending - {k} {
        if j < i { assert r'[j] == r[j]; } else if j > i { assert r'[j] == r[j - 1]; }
      }
    }
  }

  /** Reads the rows whose id is in `keep`, ordered by name. */
  method Collect(tags: map<string, Tag>, keep: set<string>) returns (r: seq<Tag>)
    requires WellFormed(tags)
    ensures Lists(tags, keep, r) && SortedByName(r)
  {
    r := [];
    var pending := tags.Keys;
    while pending != {}
      invariant CollectedSoFar(tags, keep, r, pending)
      decreases pending
    {
      var k :| k in pending;
      CollectStep(tags, keep, r, pending, k);
      if k in keep {
        var i := NamePosition(r, tags[k].name);
        r := r[..i] + [tags[k]] + r[i..];
      }
      pending := pending - {k};
    }
  }

  /** Two name-ordered listings of the same rows start with the same tag:
      each one's head has the least name of the rows. */
  lemma SameHead(tags: map<string, Tag>, keep: set<string>, r1: seq<Tag>, r2: seq<Tag>)
    requires WellFormed(tags)
    requires Lists(tags, keep, r1) && SortedByName(r1)
    requires Lists(tags, keep, r2) && SortedByName(r2)
    requires r1 != [] && r2 != []
    ensures r1[0] == r2[0]
  {
    assert TagId(r1[0]) in Image(r1, TagId);
    assert TagId(r2[0]) in Image(r2, TagId);
    var j :| 0 <= j < |r2| && r2[j].id == r1[0].id;
    var i :| 0 <= i < |r1| && r1[i].id == r2[0].id;
    if i > 0 { assert LexLeq(r1[0].name, r1[i].name); } else { LexLeqTotal(r1[0].name, r1[0].name); }
    if j > 0 { assert LexLeq(r2[0].name, r2[j].name); } else { LexLeqTotal(r2[0].name, r2[0].name); }
    LexLeqAntisymmetric(r1[0].name, r2[0].name);
  }

  /** Dropping the head of a name-ordered listing lists the other rows. */
  lemma ListingTail(tags: map<string, Tag>, keep: set<string>, r: seq<Tag>)
    requires Lists(tags, keep, r) && SortedByName(r) && r != []
    ensures Lists(tags, keep - {r[0].id}, r[1..]) && SortedByName(r[1..])
  {
    forall a | 0 <= a < |r| - 1 ensures r[1..][a] == r[a + 1] && r[a + 1].id != r[0].id { }
    assert Image(r[1..], TagId) == Image(r, TagId) - {r[0].id} by {
      forall x | x in Image(r, TagId) - {r[0].id} ensures x in Image(r[1..], TagId) {
        var a :| 0 <= a < |r| && r[a].id == x;
        assert r[1..][a - 1] == r[a];
      }
    }
  }

  /** A listing ordered by name is unique: with distinct names there are
      no ties to break. */
  lemma {:induction false} SortedListingUnique(tags: map<string, Tag>, keep: set<string>, r1: seq<Tag>, r2: seq<Tag>)
    requires WellFormed(tags)
    requires Lists(tags, keep, r1) && SortedByName(r1)
    requires Lists(tags, keep, r2) && SortedByName(r2)
    ensures r1 == r2
    decreases |r1|
  {
    if r1 != [] { assert TagId(r1[0]) in Image(r1, TagId); }
    if r2 != [] { assert TagId(r2[0]) in Image(r2, TagId); }
    if r1 != [] && r2 != [] {
      SameHead(tags, keep, r1, r2);
      ListingTail(tags, keep, r1);
      ListingTail(tags, keep, r2);
      SortedListingUnique(tags, keep - {r1[0].id}, r1[1..], r2[1..]);
      assert r1 == [r1[0]] + r1[1..] && r2 == [r2[0]] + r2[1..];
    }
  }

  /** Writing a row with a trimmed name no other row holds keeps the table
      well formed. */
  lemma WellFormedWrite(tags: map<string, Tag>, t: Tag)
    requires WellFormed(tags) && IsTrimmed(t.name)
    requires forall k :: k in tags && tags[k].name == t.name ==> k == t.id
    ensures WellFormed(tags[t.id := t])
  {
  }

  class TagRepository {
    var tags: map<string, Tag>

    ghost predicate Valid()
      reads this
    {
      WellFormed(tags)
    }

    constructor ()
      ensures Valid() && tags == map[]
    {
      tags := map[];
    }

    /** `findAll()`: every tag, by name ascending. */
    method FindAll() returns (r: seq<Tag>)
      requires Valid()
      ensures Lists(tags, tags.Keys, r) && SortedByName(r)
    {
      r := Collect(tags, tags.Keys);
    }

    /** `findById(id)`. */
    function FindById(id: string): (r: Option<Tag>)
      reads this
      ensures r.Some? <==> id in tags
      ensures r.Some? ==> r.value == tags[id]
    {
      if id in tags then Some(tags[id]) else None
    }

    /** `findByName(name)`: an exact match on the unique name. */
    function FindByName(name: string): (r: Option<Tag>)
      reads this
      requires Valid()
      ensures r.Some? <==> NameTaken(tags, name)
      ensures r.Some? ==> r.value.id in tags && tags[r.value.id] == r.value && r.value.name == name
    {
      if exists k :: k in tags && tags[k].name == name then
        var k :| k in tags && tags[k].name == name;
        Some(tags[k])
      else
        None
    }

    /** `create(data)`: stores the trimmed name; a taken name violates the
        unique column and the store throws. */
    method Create(name: string, id: string) returns (r: Result<Tag>)
      requires Valid() && id !in tags
      modifies this
      ensures Valid()
      ensures NameTaken(old(tags), Trim(name)) ==> r == Err(StoreFailure) && tags == old(tags)
      ensures !NameTaken(old(tags), Trim(name)) ==> r == Ok(Tag(id, Trim(name))) && tags == old(tags)[id := r.value]
    {
      var existing := FindByName(Trim(name));
      if existing.Some? {
        return Err(StoreFailure);
      }
      var t := Tag(id, Trim(name));
      WellFormedWrite(tags, t);
      tags := tags[id := t];
      r := Ok(t);
    }

    /** `update(id, data)`: stores the trimmed name; a missing id or a name
        held by another tag makes the store throw, which becomes null. */
    method Update(id: string, name: string) returns (r: Option<Tag>)
      requires Valid()
      modifies this
      ensures Valid()
      ensures id !in old(tags) ==> r == None && tags == old(tags)
      ensures id in old(tags) ==>
        if NameTaken(old(tags), Trim(name)) && old(tags)[id].name != Trim(name) then
          r == None && tags == old(tags)
        else
          r == Some(Tag(id, Trim(name))) && tags == old(tags)[id := r.value]
    {
      if id !in tags {
        return None;
      }
      var holder := FindByName(Trim(name));
      if holder.Some? && holder.value.id != id {
        return None;
      }
      var t := Tag(id, Trim(name));
      WellFormedWrite(tags, t);
      tags := tags[id := t];
      r := Some(t);
    }

    /** `delete(id)`: true when the tag was removed; the store's error for a
        missing id becomes false. */
    method Delete(id: string) returns (deleted: bool)
      requires Valid()
      modifies this
      ensures Valid()
      ensures deleted == (id in old(tags))
      ensures tags == old(tags) - {id}
    {
      deleted := id in tags;
      tags := tags - {id};
    }

    /** `findOrCreate(name)`: the tag holding the trimmed name, created with
        `id` when there is none. */
    method FindOrCreate(name: string, id: string) returns (t: Tag)
      requires Valid() && id !in tags
      modifies this
      ensures Valid()
      ensures t.name == Trim(name) && t.id in tags && tags[t.id] == t
      ensures NameTaken(old(tags), Trim(name)) ==> tags == old(tags)
      ensures !NameTaken(old(tags), Trim(name)) ==> t == Tag(id, Trim(name)) && tags == old(tags)[id := t]
    {
      var trimmed := Trim(name);
      var existing := FindByName(trimmed);
      if existing.Some? {
        return existing.value;
      }
      TrimIdempotent(name);
      var r := Create(trimmed, id);
      assert r == Ok(Tag(id, trimmed));
      t := r.value;
    }

    /** `findByIds(ids)`: the stored tags whose id is listed, in the store's order. */
    method FindByIds(ids: seq<string>) returns (r: seq<Tag>)
      requires Valid()
      ensures Lists(tags, (set i | i in ids), r)
    {
      r := Collect(tags, (set i | i in ids));
    }
  }

  /** `findOrCreate` twice with the same trimmed name yields one tag: the
      second call finds what the first created. */
  method FindOrCreateTwice(repo: TagRepository, name: string, id1: string, id2: string) returns (t1: Tag, t2: Tag)
    requires repo.Valid() && id1 !in repo.tags && id2 !in repo.tags && id1 != id2
    modifies repo
    ensures repo.Valid()
    ensures t1 == t2
    ensures |repo.tags| <= |old(repo.tags)| + 1
  {
    t1 := repo.FindOrCreate(name, id1);
    TrimIdempotent(name);
    t2 := repo.FindOrCreate(name, id2);
  }
}
