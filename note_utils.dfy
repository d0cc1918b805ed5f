/** List helpers of the application shell over the notes the client holds. */
module NoteUtils {
  import opened Domain
  import opened Seqs
  import opened ClientTypes
  import AppStateReducer

  /** `getCurrentNotes(view, active, archived, all)`. */
  function GetCurrentNotes(view: AppStateReducer.View, active: seq<ClientNote>, archived: seq<ClientNote>, all: seq<ClientNote>): (r: seq<ClientNote>)
    ensures view == AppStateReducer.Active ==> r == active
    ensures view == AppStateReducer.Archived ==> r == archived
    ensures view == AppStateReducer.All ==> r == all
  {
    match view
    case Active => active
    case Archived => archived
    case All => all
  }

  /** `findSelectedNote(id, notes, active, archived)`: nothing for an
      undefined or empty id, otherwise the first match in `notes`, then in
      `active`, then in `archived`. */
  function FindSelectedNote(id: Option<string>, notes: seq<ClientNote>, active: seq<ClientNote>, archived: seq<ClientNote>): (r: Option<ClientNote>)
    ensures id.None? || id.value == "" ==> r.None?
    ensures r.Some? ==> r.value.id == id.value && (r.value in notes || r.value in active || r.value in archived)
    ensures id.Some? && id.value != "" && FindFirst(notes, id.value).Some? ==> r == FindFirst(notes, id.value)
    ensures id.Some? && id.value != "" && FindFirst(notes, id.value).None? && FindFirst(active, id.value).Some? ==>
      r == FindFirst(active, id.value)
    ensures id.Some? && id.value != "" && FindFirst(notes, id.value).None? && FindFirst(active, id.value).None? ==>
      r == FindFirst(archived, id.value)
    ensures id.Some? && id.value != "" && r.None? ==>
      forall n :: n in notes + active + archived ==> n.id != id.value
  {
    if id.None? || id.value == "" then None
    else
      var inNotes := FindFirst(notes, id.value);
      if inNotes.Some? then inNotes
      else
        var inActive := FindFirst(active, id.value);
        if inActive.Some? then inActive
        else FindFirst(archived, id.value)
  }

  /** `getAllNotes(active, archived)`: the active notes, then the archived. */
  function GetAllNotes(active: seq<ClientNote>, archived: seq<ClientNote>): (r: seq<ClientNote>)
    ensures |r| == |active| + |archived|
    ensures r[..|active|] == active && r[|active|..] == archived
  {
    active + archived
  }

  /** The "all" view of the shell holds each active and archived note. */
  lemma AllViewIsBothLists(active: seq<ClientNote>, archived: seq<ClientNote>)
    ensures multiset(GetCurrentNotes(AppStateReducer.All, active, archived, GetAllNotes(active, archived)))
         == multiset(active) + multiset(archived)
  {
  }

  predicate HasTags(n: ClientNote) {
    |n.tags| > 0
  }

  /** `getNotesWithTags(notes)`. */
  function GetNotesWithTags(notes: seq<ClientNote>): (r: seq<ClientNote>)
    ensures forall n :: n in r <==> n in notes && |n.tags| > 0
    ensures forall n :: multiset(r)[n] == if |n.tags| > 0 then multiset(notes)[n] else 0
  {
    FilterMultiplicity(notes, HasTags);
    Filter(notes, HasTags)
  }

  /** `getRecentNotes(notes, limit = 5)`: the active notes, most recently
      updated first, cut to `limit` (a negative limit drops from the end). */
  function GetRecentNotes(notes: seq<ClientNote>, limit: Option<int>): (r: seq<ClientNote>)
    ensures forall n :: n in r ==> n in notes && !n.isArchived
    ensures SortedDesc(r, NoteUpdatedAt)
    ensures limit.GetOr(5) >= 0 ==> |r| == Min(limit.GetOr(5), |Filter(notes, IsActive)|)
    ensures |r| <= |Filter(notes, IsActive)|
    ensures multiset(r) <= multiset(Filter(notes, IsActive))
    ensures r == SortDesc(Filter(notes, IsActive), NoteUpdatedAt)[..|r|]
  {
    var active := Filter(notes, IsActive);
    var sorted := SortDesc(active, NoteUpdatedAt);
    var r := Take(sorted, limit.GetOr(5));
    forall n | n in r ensures n in active {
      assert multiset(r)[n] > 0;
      assert multiset(active)[n] > 0;
    }
    r
  }

  /** The recent notes are the newest ones: an active note left out (one of
      its copies, when it occurs twice) is no newer than any note kept. */
  lemma RecentAreNewest(notes: seq<ClientNote>, limit: Option<int>, x: ClientNote, y: ClientNote)
    requires x in GetRecentNotes(notes, limit)
    requires multiset(GetRecentNotes(notes, limit))[y] < multiset(Filter(notes, IsActive))[y]
    ensures y.updatedAt <= x.updatedAt
  {
    var r := GetRecentNotes(notes, limit);
    var sorted := SortDesc(Filter(notes, IsActive), NoteUpdatedAt);
    TopOfSorted(sorted, |r|, NoteUpdatedAt, x, y);
  }

  function Min(a: int, b: int): int {
    if a < b then a else b
  }

  /** A tag with the number of notes carrying it. */
  datatype TagUsage = TagUsage(tag: Tag, usage: nat)

  function Usage(u: TagUsage): int {
    u.usage
  }

  /** The note carries a tag with this id. */
  predicate Carries(n: ClientNote, tagId: string) {
    exists t :: t in n.tags && t.id == tagId
  }

  function CountCarrying(notes: seq<ClientNote>, tagId: string): (k: nat)
    ensures k <= |notes|
  {
    Count(notes, n => Carries(n, tagId))
  }

  /** `tags.map(tag => ({ ...tag, usage }))` before the sort. */
  function Usages(tags: seq<Tag>, notes: seq<ClientNote>): (r: seq<TagUsage>)
    ensures |r| == |tags|
    ensures forall i :: 0 <= i < |tags| ==> r[i] == TagUsage(tags[i], CountCarrying(notes, tags[i].id))
  {
    seq(|tags|, i requires 0 <= i < |tags| => TagUsage(tags[i], CountCarrying(notes, tags[i].id)))
  }

  /** `getTagUsage(tags, notes)`: every tag once with its usage count, most
      used first. */
  function GetTagUsage(tags: seq<Tag>, notes: seq<ClientNote>): (r: seq<TagUsage>)
    ensures |r| == |tags|
    ensures multiset(r) == multiset(Usages(tags, notes))
    ensures SortedDesc(r, Usage)
    ensures forall u :: u in r ==> u.tag in tags && u.usage == CountCarrying(notes, u.tag.id)
  {
    var r := SortDesc(Usages(tags, notes), Usage);
    forall u | u in r ensures u.tag in tags && u.usage == CountCarrying(notes, u.tag.id) {
      assert multiset(r)[u] > 0;
      assert u in Usages(tags, notes);
    }
    r
  }
}
