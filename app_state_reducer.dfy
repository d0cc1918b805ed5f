/** The reducer-based view/selection state machine of the application shell. */
module AppStateReducer {
  import opened Domain

  datatype View = Active | Archived | All

  /** `AppState`; an undefined `selectedNoteId` and a null message are `None`. */
  datatype AppState = AppState(
    currentView: View,
    selectedNoteId: Option<string>,
    isCreating: bool,
    isViewing: bool,
    searchQuery: string,
    selectedTagIds: seq<string>,
    showSuccessMessage: Option<string>,
    showDashboard: bool)

  datatype Action =
    | SetView(view: View)
    | SelectNote(noteId: string)
    | CreateNote
    | EditNote
    | ViewNote(noteId: string)
    | GoHome
    | SetSearch(query: string)
    | SetSelectedTags(tagIds: seq<string>)
    | ShowSuccess(message: string)
    | ClearSuccess
    | ResetState

  function Initial(): (s: AppState)
    ensures Consistent(s)
  {
    AppState(Active, None, false, false, "", [], None, true)
  }

  /** The shell is never creating and viewing at once, and creating has no
      selected note. */
  predicate Consistent(s: AppState) {
    && !(s.isCreating && s.isViewing)
    && (s.isCreating ==> s.selectedNoteId.None?)
  }

  /** `appStateReducer(state, action)`. */
  function Reduce(s: AppState, a: Action): (t: AppState)
    ensures Consistent(s) ==> Consistent(t)
    ensures t.currentView == if a.SetView? then a.view else s.currentView
    ensures t.isCreating ==> a == CreateNote || (s.isCreating && !a.SelectNote? && !a.ViewNote? && a != EditNote && a != GoHome && a != ResetState && !a.SetView?)
  {
    match a
    case SetView(v) => Initial().(currentView := v, showDashboard := true)
    case SelectNote(id) => s.(selectedNoteId := Some(id), isCreating := false, isViewing := true, showDashboard := false)
    case CreateNote => s.(isCreating := true, selectedNoteId := None, isViewing := false, showDashboard := false)
    case EditNote => s.(isViewing := false, isCreating := false)
    case ViewNote(id) => s.(selectedNoteId := Some(id), isViewing := true, isCreating := false, showDashboard := false)
    case GoHome => s.(showDashboard := true, selectedNoteId := None, isCreating := false, isViewing := false, searchQuery := "", selectedTagIds := [])
    case SetSearch(q) => s.(searchQuery := q)
    case SetSelectedTags(ids) => s.(selectedTagIds := ids)
    case ShowSuccess(m) => s.(showSuccessMessage := Some(m))
    case ClearSuccess => s.(showSuccessMessage := None)
    case ResetState => s.(selectedNoteId := None, isCreating := false, isViewing := false, searchQuery := "", selectedTagIds := [])
  }

  /** The state after dispatching `acts` in order. */
  function Run(s: AppState, acts: seq<Action>): AppState
    decreases |acts|
  {
    if acts == [] then s else Run(Reduce(s, acts[0]), acts[1..])
  }

  lemma {:induction false} RunAppend(s: AppState, a: seq<Action>, b: seq<Action>)
    ensures Run(s, a + b) == Run(Run(s, a), b)
    decreases |a|
  {
    if a != [] {
      assert (a + b)[0] == a[0] && (a + b)[1..] == a[1..] + b;
      RunAppend(Reduce(s, a[0]), a[1..], b);
    } else {
      assert a + b == b;
    }
  }

  lemma {:induction false} RunPreservesConsistent(s: AppState, acts: seq<Action>)
    requires Consistent(s)
    ensures Consistent(Run(s, acts))
    decreases |acts|
  {
    if acts != [] {
      RunPreservesConsistent(Reduce(s, acts[0]), acts[1..]);
    }
  }

  /** Every state the shell reaches from `initialState` is consistent. */
  lemma ReachableConsistent(acts: seq<Action>)
    ensures Consistent(Run(Initial(), acts))
  {
    RunPreservesConsistent(Initial(), acts);
  }

  /** SET_VIEW forgets the previous state: it yields the initial state with
      the new view and the dashboard shown. */
  lemma SetViewForgets(s1: AppState, s2: AppState, v: View)
    ensures Reduce(s1, SetView(v)) == Reduce(s2, SetView(v))
    ensures Reduce(s1, SetView(v)).(currentView := Active) == Initial()
    ensures Reduce(s1, SetView(v)).currentView == v && Reduce(s1, SetView(v)).showDashboard
  {
  }

  /** SELECT_NOTE and VIEW_NOTE are the same transition: they open the note
      for viewing and touch nothing but the four fields they set. */
  lemma SelectIsView(s: AppState, id: string)
    ensures Reduce(s, SelectNote(id)) == Reduce(s, ViewNote(id))
    ensures var t := Reduce(s, SelectNote(id));
      && t.selectedNoteId == Some(id) && t.isViewing && !t.isCreating && !t.showDashboard
      && t.(selectedNoteId := s.selectedNoteId, isViewing := s.isViewing, isCreating := s.isCreating, showDashboard := s.showDashboard) == s
  {
  }

  /** CREATE_NOTE starts a new note with nothing selected, and keeps the
      view, the filters and the message. */
  lemma CreateNoteStartsBlank(s: AppState)
    ensures var t := Reduce(s, CreateNote);
      && t.isCreating && !t.isViewing && t.selectedNoteId.None? && !t.showDashboard
      && t.(selectedNoteId := s.selectedNoteId, isViewing := s.isViewing, isCreating := s.isCreating, showDashboard := s.showDashboard) == s
  {
  }

  /** EDIT_NOTE clears only the two mode flags; the selection survives. */
  lemma EditNoteKeepsSelection(s: AppState)
    ensures var t := Reduce(s, EditNote);
      && !t.isCreating && !t.isViewing && t.selectedNoteId == s.selectedNoteId
      && t.(isViewing := s.isViewing, isCreating := s.isCreating) == s
  {
  }

  /** GO_HOME is RESET_STATE with the dashboard shown; both keep the view
      and the message. */
  lemma GoHomeIsResetWithDashboard(s: AppState)
    ensures Reduce(s, GoHome) == Reduce(s, ResetState).(showDashboard := true)
    ensures var t := Reduce(s, ResetState);
      && t.currentView == s.currentView && t.showSuccessMessage == s.showSuccessMessage
      && t.showDashboard == s.showDashboard
      && t.selectedNoteId.None? && !t.isCreating && !t.isViewing && t.searchQuery == "" && t.selectedTagIds == []
  {
  }

  /** Resetting twice is resetting once. */
  lemma ResetIdempotent(s: AppState)
    ensures Reduce(Reduce(s, ResetState), ResetState) == Reduce(s, ResetState)
    ensures Reduce(Reduce(s, GoHome), GoHome) == Reduce(s, GoHome)
  {
  }

  /** The four setters each change their own field and nothing else, and a
      later call of the same setter overrides an earlier one. */
  lemma SettersChangeOneField(s: AppState, q1: string, q2: string, ids: seq<string>, m: string)
    ensures Reduce(s, SetSearch(q1)).(searchQuery := s.searchQuery) == s && Reduce(s, SetSearch(q1)).searchQuery == q1
    ensures Reduce(s, SetSelectedTags(ids)).(selectedTagIds := s.selectedTagIds) == s && Reduce(s, SetSelectedTags(ids)).selectedTagIds == ids
    ensures Reduce(s, ShowSuccess(m)).(showSuccessMessage := s.showSuccessMessage) == s && Reduce(s, ShowSuccess(m)).showSuccessMessage == Some(m)
    ensures Reduce(s, ClearSuccess).(showSuccessMessage := s.showSuccessMessage) == s && Reduce(s, ClearSuccess).showSuccessMessage.None?
    ensures Reduce(Reduce(s, SetSearch(q1)), SetSearch(q2)) == Reduce(s, SetSearch(q2))
    ensures Reduce(Reduce(s, ShowSuccess(m)), ClearSuccess) == Reduce(s, ClearSuccess)
  {
  }

  /** `setShowDashboard(show)` of the hook: true dispatches GO_HOME, false
      does nothing, so this setter can never hide the dashboard. */
  function SetShowDashboard(s: AppState, show: bool): (t: AppState)
    ensures t.showDashboard == (show || s.showDashboard)
    ensures !show ==> t == s
    ensures show ==> t.selectedNoteId.None? && !t.isCreating && !t.isViewing
  {
    if show then Reduce(s, GoHome) else s
  }

  /** `displaySuccessMessage(m)` before its timer fires: SHOW_SUCCESS. */
  function DisplaySuccessMessage(s: AppState, m: string): (t: AppState)
    ensures t.showSuccessMessage == Some(m)
    ensures Reduce(t, ClearSuccess) == Reduce(s, ClearSuccess)
  {
    Reduce(s, ShowSuccess(m))
  }
}
