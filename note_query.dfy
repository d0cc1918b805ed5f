/** The `findMany` queries both note repositories send to the store: a `where`
    clause over one table, the rows ordered by `updatedAt` descending. */
module NoteQuery {
  import opened Domain
  import opened Text
  import opened Seqs

  /** A `where` clause: each present part is one conjunct. `anyTag` is
      `tags: { some: { id: { in: ids } } }`, `text` is the OR of the two
      case-insensitive `contains` conditions on title and content. */
  datatype NoteFilter = NoteFilter(
    archived: Option<bool>,
    owner: Option<string>,
    anyTag: Option<seq<string>>,
    text: Option<string>)

  predicate Matches(f: NoteFilter, n: Note) {
    && (f.archived.Some? ==> n.isArchived == f.archived.value)
    && (f.owner.Some? ==> n.owner == f.owner.value)
    && (f.anyTag.Some? ==> exists t :: t in f.anyTag.value && t in n.tagIds)
    && (f.text.Some? ==> ContainsIgnoringCase(n.title, f.text.value) || ContainsIgnoringCase(n.content, f.text.value))
  }

  /** The owner condition of a read: `whereClause.userId` is only set when
      `userId` is truthy, so an empty owner reads every owner's notes. */
  function ReadScope(userId: string): (scope: Option<string>)
    ensures scope.None? <==> userId == ""
    ensures scope.Some? ==> scope.value == userId
  {
    if userId == "" then None else Some(userId)
  }

  /** `findAll(archived, userId)`. */
  function StatusView(archived: Option<bool>, scope: Option<string>): NoteFilter {
    NoteFilter(archived, scope, None, None)
  }

  /** The view a service falls back to: `archived ? getArchivedNotes : getActiveNotes`. */
  function DefaultView(archived: Option<bool>, scope: Option<string>): (f: NoteFilter)
    ensures f.archived == Some(archived == Some(true))
    ensures f.owner == scope && f.anyTag.None? && f.text.None?
  {
    if archived == Some(true) then StatusView(Some(true), scope) else StatusView(Some(false), scope)
  }

  /** `getNotesByTags`: an absent or empty id list falls back to the default view. */
  function TagView(tagIds: Option<seq<string>>, archived: Option<bool>, scope: Option<string>): (f: NoteFilter)
    ensures (tagIds.None? || tagIds.value == []) ==> f == DefaultView(archived, scope)
    ensures tagIds.Some? && tagIds.value != [] ==> f == NoteFilter(archived, scope, tagIds, None)
  {
    if tagIds.None? || |tagIds.value| == 0 then DefaultView(archived, scope)
    else NoteFilter(archived, scope, tagIds, None)
  }

  /** `searchNotes`: a blank query falls back to the default view, any other
      query is trimmed before it is matched. */
  function SearchView(query: string, archived: Option<bool>, scope: Option<string>): (f: NoteFilter)
    ensures IsBlank(query) ==> f == DefaultView(archived, scope)
    ensures !IsBlank(query) ==> f == NoteFilter(archived, scope, None, Some(Trim(query)))
  {
    if IsBlank(query) then DefaultView(archived, scope)
    else NoteFilter(archived, scope, None, Some(Trim(query)))
  }

  /** Every stored row sits under its own id. */
  ghost predicate KeyedById(notes: map<string, Note>) {
    forall k :: k in notes ==> notes[k].id == k
  }

  predicate NewestFirst(s: seq<Note>) {
    SortedDesc(s, UpdatedAt)
  }

  function NoteId(n: Note): string {
    n.id
  }

  predicate DistinctIds(s: seq<Note>) {
    DistinctBy(s, NoteId)
  }

  ghost function MatchingIds(notes: map<string, Note>, f: NoteFilter): set<string> {
    set k | k in notes && Matches(f, notes[k])
  }

  ghost function IdsOf(s: seq<Note>): set<string> {
    Image(s, NoteId)
  }

  /** `r` is what `findMany({ where: f, orderBy: { updatedAt: 'desc' } })`
      may return: every matching row once, nothing else, newest first (the
      order of rows with equal `updatedAt` is the store's choice). */
  ghost predicate IsView(notes: map<string, Note>, f: NoteFilter, r: seq<Note>) {
    && (forall i :: 0 <= i < |r| ==> r[i].id in notes && notes[r[i].id] == r[i])
    && IdsOf(r) == MatchingIds(notes, f)
    && DistinctIds(r)
    && NewestFirst(r)
  }

  /** The loop state of Select: the rows already visited are those not
      `pending`, and `r` is the view of the visited ones. */
  ghost predicate ViewSoFar(notes: map<string, Note>, f: NoteFilter, r: seq<Note>, pending: set<string>) {
    && pending <= notes.Keys
    && (forall i :: 0 <= i < |r| ==> r[i].id in notes && notes[r[i].id] == r[i] && r[i].id !in pending)
    && IdsOf(r) == MatchingIds(notes, f) - pending
    && DistinctIds(r)
    && NewestFirst(r)
  }

  /** Visiting a matching row splices it in at its insertion point. */
  lemma ViewSoFarInsert(notes: map<string, Note>, f: NoteFilter, r: seq<Note>, pending: set<string>, k: string)
    requires KeyedById(notes)
    requires ViewSoFar(notes, f, r, pending) && k in pending && Matches(f, notes[k])
    ensures var i := InsertionPoint(r, UpdatedAt, notes[k].updatedAt);
      ViewSoFar(notes, f, r[..i] + [notes[k]] + r[i..], pending - {k})
  {
    var n := notes[k];
    assert k !in IdsOf(r);
    var i := InsertionPoint(r, UpdatedAt, n.updatedAt);
    var r' := r[..i] + [n] + r[i..];
    ImageSplice(r, n, i, NoteId);
    assert IdsOf(r') == MatchingIds(notes, f) - (pending - {k});
    DistinctSplice(r, n, i, NoteId);
    assert r' == Insert(n, r, UpdatedAt);
    forall j | 0 <= j < |r'| ensures r'[j].id in notes && notes[r'[j].id] == r'[j] && r'[j].id !in pending - {k} {
      if j < i { assert r'[j] == r[j]; } else if j > i { assert r'[j] == r[j - 1]; }
    }
  }

  lemma ViewSoFarStep(notes: map<string, Note>, f: NoteFilter, r: seq<Note>, pending: set<string>, k: string)
    requires KeyedById(notes)
    requires ViewSoFar(notes, f, r, pending) && k in pending
    ensures !Matches(f, notes[k]) ==> ViewSoFar(notes, f, r, pending - {k})
    ensures Matches(f, notes[k]) ==>
      var i := InsertionPoint(r, UpdatedAt, notes[k].updatedAt);
      ViewSoFar(notes, f, r[..i] + [notes[k]] + r[i..], pending - {k})
  {
    if Matches(f, notes[k]) {
      ViewSoFarInsert(notes, f, r, pending, k);
    } else {
      assert k !in MatchingIds(notes, f);
    }
  }

  /** Evaluates a `findMany` over the table: every row is visited once and
      each matching one is placed among the newest-first results. */
  method Select(notes: map<string, Note>, f: NoteFilter) returns (r: seq<Note>)
    requires KeyedById(notes)
    ensures IsView(notes, f, r)
  {
    r := [];
    var pending := notes.Keys;
    while pending != {}
      invariant ViewSoFar(notes, f, r, pending)
      decreases pending
    {
      var k :| k in pending;
      ViewSoFarStep(notes, f, r, pending, k);
      var n := notes[k];
      if Matches(f, n) {
        var i := InsertionPoint(r, UpdatedAt, n.updatedAt);
        r := r[..i] + [n] + r[i..];
      }
      pending := pending - {k};
    }
  }

  /** A list with distinct ids holds each note at most once. */
  lemma {:induction false} DistinctMultiplicity(s: seq<Note>)
    requires DistinctIds(s)
    ensures forall x :: multiset(s)[x] == if x in s then 1 else 0
  {
    if s != [] {
      assert s == [s[0]] + s[1..];
      assert DistinctIds(s[1..]) by {
        forall i, j | 0 <= i < j < |s| - 1 ensures s[1..][i].id != s[1..][j].id {
          assert s[1..][i] == s[i + 1] && s[1..][j] == s[j + 1];
        }
      }
      DistinctMultiplicity(s[1..]);
      forall j | 0 <= j < |s| - 1 ensures s[1..][j] != s[0] {
        assert s[1..][j] == s[j + 1];
      }
    }
  }

  /** Two results of filters that match the same rows hold the same notes,
      each once: they differ at most in the order of equally recent notes. */
  lemma SameRowsSameNotes(notes: map<string, Note>, f: NoteFilter, g: NoteFilter, r1: seq<Note>, r2: seq<Note>)
    requires IsView(notes, f, r1) && IsView(notes, g, r2)
    requires MatchingIds(notes, f) == MatchingIds(notes, g)
    ensures multiset(r1) == multiset(r2)
    ensures |r1| == |r2|
  {
    DistinctMultiplicity(r1);
    DistinctMultiplicity(r2);
    forall x ensures x in r1 <==> x in r2 {
      if x in r1 {
        var i :| 0 <= i < |r1| && r1[i] == x;
        assert x.id in IdsOf(r1);
        assert x.id in IdsOf(r2);
        var j :| 0 <= j < |r2| && r2[j].id == x.id;
        assert r2[j] == x;
      }
      if x in r2 {
        var i :| 0 <= i < |r2| && r2[i] == x;
        assert x.id in IdsOf(r2);
        assert x.id in IdsOf(r1);
        var j :| 0 <= j < |r1| && r1[j].id == x.id;
        assert r1[j] == x;
      }
    }
    assert multiset(r1) == multiset(r2);
    assert |multiset(r1)| == |multiset(r2)|;
  }

  /** The "all" view is the active view plus the archived view, and no note
      is in both. */
  lemma AllIsActivePlusArchived(notes: map<string, Note>, scope: Option<string>)
    ensures MatchingIds(notes, StatusView(None, scope))
         == MatchingIds(notes, StatusView(Some(false), scope)) + MatchingIds(notes, StatusView(Some(true), scope))
    ensures MatchingIds(notes, StatusView(Some(false), scope)) !! MatchingIds(notes, StatusView(Some(true), scope))
  {
  }

  /** A reader with an owner never sees another owner's note; a reader with
      the empty owner sees every owner's notes. */
  lemma ReadScopeIsolation(notes: map<string, Note>, f: NoteFilter, userId: string, k: string)
    requires f.owner == ReadScope(userId)
    requires k in notes
    ensures userId != "" && notes[k].owner != userId ==> k !in MatchingIds(notes, f)
    ensures userId == "" ==> (k in MatchingIds(notes, f) <==> Matches(f.(owner := None), notes[k]))
  {
  }
}
