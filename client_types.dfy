/** Records of the browser side: the note as the API returns it, what an
    awaited API call yields, and the list edits the caches apply. */
module ClientTypes {
  import opened Domain
  import opened Seqs
  import opened Text

  /** The API's `Note`, with its tag records joined. The ISO timestamps are
      kept as the times they denote (milliseconds since the epoch). */
  datatype ClientNote = ClientNote(
    id: string,
    title: string,
    content: string,
    isArchived: bool,
    tags: seq<Tag>,
    createdAt: int,
    updatedAt: int)

  function NoteKey(n: ClientNote): string {
    n.id
  }

  function TagKey(t: Tag): string {
    t.id
  }

  function NoteUpdatedAt(n: ClientNote): int {
    n.updatedAt
  }

  predicate IsActive(n: ClientNote) {
    !n.isArchived
  }

  /** `s.find(note => note.id === id)`: the first note with the id. */
  function FindFirst(s: seq<ClientNote>, id: string): (r: Option<ClientNote>)
    ensures r.None? <==> forall i :: 0 <= i < |s| ==> s[i].id != id
    ensures r.Some? ==> exists i :: 0 <= i < |s| && s[i] == r.value && s[i].id == id && forall j :: 0 <= j < i ==> s[j].id != id
  {
    if s == [] then None
    else if s[0].id == id then Some(s[0])
    else
      var r := FindFirst(s[1..], id);
      if r.Some? then FirstMatchShift(s, id, r.value); r else r
  }

  lemma FirstMatchShift(s: seq<ClientNote>, id: string, x: ClientNote)
    requires s != [] && s[0].id != id
    requires exists i :: 0 <= i < |s[1..]| && s[1..][i] == x && s[1..][i].id == id && forall j :: 0 <= j < i ==> s[1..][j].id != id
    ensures exists i :: 0 <= i < |s| && s[i] == x && s[i].id == id && forall j :: 0 <= j < i ==> s[j].id != id
  {
    var i :| 0 <= i < |s[1..]| && s[1..][i] == x && s[1..][i].id == id && forall j :: 0 <= j < i ==> s[1..][j].id != id;
    forall j | 0 <= j < i + 1 ensures s[j].id != id {
      if j > 0 { assert s[j] == s[1..][j - 1]; }
    }
    assert s[i + 1] == x;
  }

  /** The case-insensitive search condition of the client lists, on title or content. */
  predicate MatchesQuery(n: ClientNote, query: string) {
    ContainsIgnoringCase(n.title, query) || ContainsIgnoringCase(n.content, query)
  }

  /** An awaited call: its value, or the thrown error with the message it
      carries when it is an `Error`. */
  datatype CallResult<+T> = Done(value: T) | Raised(message: Option<string>)

  /** A response body, which the caches check with `Array.isArray`. */
  datatype Fetched<+T> = AnArray(items: seq<T>) | NotAnArray

  /** `Array.isArray(x) ? x : []`. */
  function ArrayOrEmpty<T>(f: Fetched<T>): (r: seq<T>)
    ensures f.AnArray? ==> r == f.items
    ensures f.NotAnArray? ==> r == []
  {
    if f.AnArray? then f.items else []
  }

  /** `err instanceof Error ? err.message : fallback`. */
  function ErrorText(message: Option<string>, fallback: string): (r: string)
    ensures message.Some? ==> r == message.value
    ensures message.None? ==> r == fallback
  {
    message.GetOr(fallback)
  }

  /** `s.filter(x => key(x) !== k)`. */
  function RemoveKey<T(!new)>(s: seq<T>, key: T -> string, k: string): (r: seq<T>)
    ensures forall x :: x in r <==> x in s && key(x) != k
    ensures |r| <= |s|
  {
    Filter(s, x => key(x) != k)
  }

  /** `s.map(x => key(x) === k ? y : x)`. */
  function ReplaceKey<T>(s: seq<T>, key: T -> string, k: string, y: T): (r: seq<T>)
    ensures |r| == |s|
    ensures forall i :: 0 <= i < |s| && key(s[i]) != k ==> r[i] == s[i]
    ensures forall i :: 0 <= i < |s| && key(s[i]) == k ==> r[i] == y
  {
    seq(|s|, i requires 0 <= i < |s| => if key(s[i]) == k then y else s[i])
  }

  /** Removing a key after replacing it removes the same elements as
      removing it at once, provided the replacement carries that key. */
  lemma {:induction false} RemoveAfterReplace<T(!new)>(s: seq<T>, key: T -> string, k: string, y: T)
    requires key(y) == k
    ensures RemoveKey(ReplaceKey(s, key, k, y), key, k) == RemoveKey(s, key, k)
  {
    if s != [] {
      var r := ReplaceKey(s, key, k, y);
      assert r[1..] == ReplaceKey(s[1..], key, k, y);
      RemoveAfterReplace(s[1..], key, k, y);
    }
  }

  /** Replacing a key no element carries changes nothing. */
  lemma ReplaceAbsent<T>(s: seq<T>, key: T -> string, k: string, y: T)
    requires forall i :: 0 <= i < |s| ==> key(s[i]) != k
    ensures ReplaceKey(s, key, k, y) == s
  {
  }

  /** Removing the key of an element just appended, which no earlier
      element carries, gives back the list before the append. */
  lemma RemoveAppended<T(!new)>(s: seq<T>, key: T -> string, y: T)
    requires forall x :: x in s ==> key(x) != key(y)
    ensures RemoveKey(s + [y], key, key(y)) == s
  {
    FilterDropsAppended(s, y, x => key(x) != key(y));
  }

  /** After removing a key no element carries it, and the rest keep their
      multiplicities. */
  lemma RemoveKeyMultiplicity<T(!new)>(s: seq<T>, key: T -> string, k: string)
    ensures forall x :: multiset(RemoveKey(s, key, k))[x] == if key(x) != k then multiset(s)[x] else 0
  {
    FilterMultiplicity(s, x => key(x) != k);
  }
}
