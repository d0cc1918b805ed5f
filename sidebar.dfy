/** The sidebar's note filtering, tag-filter toggling, preview truncation and
    relative-date labels, and its local search box state. */
module Sidebar {
  import opened Domain
  import opened Text
  import opened Seqs
  import opened ClientTypes

  /** The note carries at least one of the selected tag ids. */
  predicate HasSelectedTag(n: ClientNote, selectedTagIds: seq<string>) {
    exists id, t :: id in selectedTagIds && t in n.tags && t.id == id
  }

  /** The per-note test of `filteredNotes`: a non-empty query must match,
      and a non-empty tag selection must share a tag. */
  predicate Shown(n: ClientNote, query: string, selectedTagIds: seq<string>) {
    && (query != "" ==> MatchesQuery(n, query))
    && (|selectedTagIds| > 0 ==> HasSelectedTag(n, selectedTagIds))
  }

  /** `filteredNotes`, in the order of `notes`. */
  function FilteredNotes(notes: seq<ClientNote>, query: string, selectedTagIds: seq<string>): (r: seq<ClientNote>)
    ensures forall n :: n in r <==> n in notes && (query != "" ==> MatchesQuery(n, query))
                                    && (selectedTagIds != [] ==> HasSelectedTag(n, selectedTagIds))
    ensures forall n :: multiset(r)[n] == if Shown(n, query, selectedTagIds) then multiset(notes)[n] else 0
  {
    FilterMultiplicity(notes, n => Shown(n, query, selectedTagIds));
    Filter(notes, n => Shown(n, query, selectedTagIds))
  }

  /** With no query and no selected tag the list is shown as it is. */
  lemma NoFilterShowsAll(notes: seq<ClientNote>)
    ensures FilteredNotes(notes, "", []) == notes
  {
    FilterAll(notes, n => Shown(n, "", []));
  }

  /** `handleTagToggle(tagId)`: the new selection it emits. */
  function ToggleTag(selected: seq<string>, tagId: string): (r: seq<string>)
    ensures tagId in selected ==> tagId !in r && forall x :: x in r <==> x in selected && x != tagId
    ensures tagId !in selected ==> r == selected + [tagId]
  {
    if tagId in selected then Filter(selected, x => x != tagId) else selected + [tagId]
  }

  /** Toggling the same id twice restores the selection as a set, and
      restores the list itself when the id was not selected. */
  lemma ToggleTagTwice(selected: seq<string>, tagId: string)
    ensures forall x :: x in ToggleTag(ToggleTag(selected, tagId), tagId) <==> x in selected
    ensures tagId !in selected ==> ToggleTag(ToggleTag(selected, tagId), tagId) == selected
  {
    if tagId !in selected {
      FilterAppend(selected, [tagId], x => x != tagId);
      FilterAll(selected, x => x != tagId);
      assert Filter([tagId], x => x != tagId) == [];
    }
  }

  /** `truncateText(text, maxLength = 100)`. */
  function TruncateText(text: string, maxLength: Option<int>): (r: string)
    ensures |text| <= maxLength.GetOr(100) ==> r == text
    ensures 0 <= maxLength.GetOr(100) < |text| ==> r == text[..maxLength.GetOr(100)] + "..." && |r| == maxLength.GetOr(100) + 3
    ensures maxLength.GetOr(100) < 0 ==> r == "..."
  {
    var m := maxLength.GetOr(100);
    if |text| <= m then text else Substring(text, 0, m) + "..."
  }

  /** A truncated preview is never longer than the limit plus the ellipsis,
      and what it keeps of the text is a prefix of it. */
  lemma TruncateBounds(text: string, maxLength: int)
    requires maxLength >= 0
    ensures |TruncateText(text, Some(maxLength))| <= maxLength + 3
    ensures var r := TruncateText(text, Some(maxLength));
      r == text || (|r| >= 3 && r[..|r| - 3] == text[..|r| - 3] && r[|r| - 3..] == "...")
  {
    var r := TruncateText(text, Some(maxLength));
    if |text| > maxLength {
      assert r[..|r| - 3] == text[..maxLength];
    }
  }

  /** Days per unit of the label `formatDate` picks for `d` elapsed days. */
  function UnitDays(d: int): (u: nat)
    ensures u >= 1
  {
    if d < 7 then 1 else if d < 30 then 7 else if d < 365 then 30 else 365
  }

  function UnitLabel(d: int): string {
    if d < 7 then " days ago" else if d < 30 then " weeks ago" else if d < 365 then " months ago" else " years ago"
  }

  /** `formatDate` from the whole number of days elapsed (`Math.floor` of
      the time difference, negative for a date in the future). */
  function FormatDate(d: int): (r: string)
    ensures d == 0 ==> r == "Today"
    ensures d == 1 ==> r == "Yesterday"
    ensures d < 0 ==> r == "-" + NatToString(-d) + " days ago"
  {
    if d == 0 then "Today"
    else if d == 1 then "Yesterday"
    else if d < 7 then IntToString(d) + " days ago"
    else if d < 30 then IntToString(d / 7) + " weeks ago"
    else if d < 365 then IntToString(d / 30) + " months ago"
    else IntToString(d / 365) + " years ago"
  }

  /** From two days on, the label is a whole count `k` of its unit that
      never overstates the elapsed time: `k` units fit in `d` days and
      `k + 1` do not; the digits read back as `k`. */
  lemma FormatDateRoundsDown(d: int)
    requires d >= 2
    ensures var k := d / UnitDays(d);
      && k >= 1
      && k * UnitDays(d) <= d < (k + 1) * UnitDays(d)
      && FormatDate(d) == NatToString(k) + UnitLabel(d)
      && DigitsValue(NatToString(k)) == k
  {
    NatToStringRoundTrip(d / UnitDays(d));
  }

  /** The search box text and what the sidebar emits to its parent. */
  class SidebarState {
    var localSearchQuery: string

    /** The box starts with the parent's `searchQuery` (default ""). */
    constructor (searchQuery: string)
      ensures localSearchQuery == searchQuery
    {
      localSearchQuery := searchQuery;
    }

    /** Typing into the box. */
    method SetLocalSearchQuery(q: string)
      modifies this
      ensures localSearchQuery == q
    {
      localSearchQuery := q;
    }

    /** `handleSearch`: submits the box text to `onSearch`, when present. */
    method HandleSearch(hasOnSearch: bool) returns (searched: Option<string>)
      ensures searched == if hasOnSearch then Some(localSearchQuery) else None
    {
      searched := if hasOnSearch then Some(localSearchQuery) else None;
    }

    /** `clearFilters`: empties the box and emits an empty query and an empty
        tag selection to the handlers that are present. */
    method ClearFilters(hasOnSearch: bool, hasOnTagFilter: bool) returns (searched: Option<string>, tagFilter: Option<seq<string>>)
      modifies this
      ensures localSearchQuery == ""
      ensures searched == if hasOnSearch then Some("") else None
      ensures tagFilter == if hasOnTagFilter then Some([]) else None
    {
      localSearchQuery := "";
      searched := if hasOnSearch then Some("") else None;
      tagFilter := if hasOnTagFilter then Some([]) else None;
    }
  }

  /** After clearing, the sidebar shows every note of its list. The tag
      filter is a prop of the parent, so this holds once the parent applies
      the emitted `onTagFilter([])`; the lemma feeds that `[]` back in. */
  method ClearThenShowAll(s: SidebarState, notes: seq<ClientNote>) returns (shown: seq<ClientNote>)
    modifies s
    ensures shown == notes
  {
    var searched, tagFilter := s.ClearFilters(true, true);
    shown := FilteredNotes(notes, s.localSearchQuery, tagFilter.value);
    NoFilterShowsAll(notes);
  }
}
