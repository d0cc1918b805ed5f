/** The offline note list: an in-memory array of notes that each operation
    replaces (and mirrors to browser storage). */
module LocalNotes {
  import opened Domain
  import opened Text
  import opened Seqs
  import opened ClientTypes

  /** The fields an update may carry; absent ones are `None`. */
  datatype LocalPatch = LocalPatch(title: Option<string>, content: Option<string>, tags: Option<seq<Tag>>)

  /** `{ ...note, ...data, updatedAt }`. */
  function Merged(n: ClientNote, data: LocalPatch, now: int): (m: ClientNote)
    ensures m.id == n.id && m.isArchived == n.isArchived && m.createdAt == n.createdAt && m.updatedAt == now
    ensures m.title == data.title.GetOr(n.title) && m.content == data.content.GetOr(n.content)
    ensures m.tags == data.tags.GetOr(n.tags)
  {
    n.(title := data.title.GetOr(n.title), content := data.content.GetOr(n.content),
       tags := data.tags.GetOr(n.tags), updatedAt := now)
  }

  /** `{ ...note, isArchived: !note.isArchived, updatedAt }`. */
  function Flipped(n: ClientNote, now: int): (m: ClientNote)
    ensures m.isArchived == !n.isArchived && m.updatedAt == now
    ensures m.(isArchived := n.isArchived, updatedAt := n.updatedAt) == n
  {
    n.(isArchived := !n.isArchived, updatedAt := now)
  }

  /** The list after `toggleArchive(id)`. */
  function ToggledList(s: seq<ClientNote>, id: string, now: int): (r: seq<ClientNote>)
    ensures |r| == |s|
    ensures forall i :: 0 <= i < |s| ==> r[i] == if s[i].id == id then Flipped(s[i], now) else s[i]
  {
    seq(|s|, i requires 0 <= i < |s| => if s[i].id == id then Flipped(s[i], now) else s[i])
  }

  /** The first note with the id in the toggled list is the toggled first
      note with the id of the original list. */
  lemma {:induction false} FindInToggled(s: seq<ClientNote>, id: string, now: int)
    ensures FindFirst(ToggledList(s, id, now), id) == if FindFirst(s, id).Some? then Some(Flipped(FindFirst(s, id).value, now)) else None
  {
    if s != [] {
      var t := ToggledList(s, id, now);
      assert t[1..] == ToggledList(s[1..], id, now);
      FindInToggled(s[1..], id, now);
    }
  }

  /** Two toggles of the same id restore every archive flag. */
  lemma ToggleTwiceRestores(s: seq<ClientNote>, id: string, t1: int, t2: int)
    ensures var r := ToggledList(ToggledList(s, id, t1), id, t2);
      forall i :: 0 <= i < |s| ==> r[i].isArchived == s[i].isArchived && r[i].(updatedAt := s[i].updatedAt) == s[i]
  {
  }

  predicate IsArchivedNote(n: ClientNote) {
    n.isArchived
  }

  class LocalNoteList {
    var notes: seq<ClientNote>

    constructor ()
      ensures notes == []
    {
      notes := [];
    }

    /** `createNote(data)`: appends a new active note; `id` stands for the
        generated id, and `created` and `updated` for the two separate
        readings of the clock. No field is validated. */
    method CreateNote(title: string, content: string, tags: Option<seq<Tag>>, id: string, created: int, updated: int) returns (n: ClientNote)
      modifies this
      ensures n == ClientNote(id, title, content, false, tags.GetOr([]), created, updated)
      ensures notes == old(notes) + [n]
    {
      n := ClientNote(id, title, content, false, tags.GetOr([]), created, updated);
      notes := notes + [n];
    }

    /** `updateNote(id, data)`: merges `data` into every note with the id. */
    method UpdateNote(id: string, data: LocalPatch, now: int)
      modifies this
      ensures |notes| == |old(notes)|
      ensures forall i :: 0 <= i < |notes| ==> notes[i] == if old(notes)[i].id == id then Merged(old(notes)[i], data, now) else old(notes)[i]
    {
      notes := seq(|notes|, i requires 0 <= i < |notes| reads this => if notes[i].id == id then Merged(notes[i], data, now) else notes[i]);
    }

    /** `deleteNote(id)`: keeps the other notes in order. */
    method DeleteNote(id: string)
      modifies this
      ensures notes == RemoveKey(old(notes), NoteKey, id)
      ensures forall n :: multiset(notes)[n] == if n.id != id then multiset(old(notes))[n] else 0
    {
      RemoveKeyMultiplicity(notes, NoteKey, id);
      notes := RemoveKey(notes, NoteKey, id);
    }

    /** `toggleArchive(id)`: flips the notes with the id and returns the first
        of them, or nothing. */
    method ToggleArchive(id: string, now: int) returns (r: Option<ClientNote>)
      modifies this
      ensures notes == ToggledList(old(notes), id, now)
      ensures r.None? <==> forall i :: 0 <= i < |old(notes)| ==> old(notes)[i].id != id
      ensures r.Some? ==> r.value == Flipped(FindFirst(old(notes), id).value, now)
    {
      FindInToggled(notes, id, now);
      notes := ToggledList(notes, id, now);
      r := FindFirst(notes, id);
    }

    /** `getActiveNotes()`. */
    function GetActiveNotes(): (r: seq<ClientNote>)
      reads this
      ensures forall n :: n in r <==> n in notes && !n.isArchived
    {
      Filter(notes, IsActive)
    }

    /** `getArchivedNotes()`. */
    function GetArchivedNotes(): (r: seq<ClientNote>)
      reads this
      ensures forall n :: n in r <==> n in notes && n.isArchived
    {
      Filter(notes, IsArchivedNote)
    }

    /** `searchNotes(query)`: no trimming and no archive filter. */
    function SearchNotes(query: string): (r: seq<ClientNote>)
      reads this
      ensures forall n :: n in r <==> n in notes && MatchesQuery(n, query)
    {
      Filter(notes, n => MatchesQuery(n, query))
    }

    /** The active and the archived notes split the list. */
    lemma ActiveArchivedPartition()
      ensures multiset(GetActiveNotes()) + multiset(GetArchivedNotes()) == multiset(notes)
      ensures |GetActiveNotes()| + |GetArchivedNotes()| == |notes|
    {
      FilterPartition(notes, IsActive, IsArchivedNote);
    }

    /** The empty query matches every note. */
    lemma EmptySearchIsEverything()
      ensures SearchNotes("") == notes
    {
      forall n | n in notes ensures MatchesQuery(n, "") {
        ContainsIgnoringCaseEmpty(n.title);
      }
      FilterAll(notes, n => MatchesQuery(n, ""));
    }
  }
}
