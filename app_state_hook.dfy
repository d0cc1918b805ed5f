/** The older setter-based version of the shell state: eight state cells that
    each handler updates one setter call at a time. */
module AppStateHook {
  import opened Domain
  import opened AppStateReducer

  class AppStateHook {
    var currentView: View
    var selectedNoteId: Option<string>
    var isCreating: bool
    var isViewing: bool
    var searchQuery: string
    var selectedTagIds: seq<string>
    var showSuccessMessage: Option<string>
    var showDashboard: bool

    /** The eight cells as one reducer state. */
    function Snapshot(): AppState
      reads this
    {
      AppState(currentView, selectedNoteId, isCreating, isViewing, searchQuery, selectedTagIds, showSuccessMessage, showDashboard)
    }

    /** The initial `useState` values, which are the reducer's initial state. */
    constructor ()
      ensures Snapshot() == Initial()
    {
      currentView := Active;
      selectedNoteId := None;
      isCreating := false;
      isViewing := false;
      searchQuery := "";
      selectedTagIds := [];
      showSuccessMessage := None;
      showDashboard := true;
    }

    /** `resetAppState`: the same transition as RESET_STATE. */
    method ResetAppState()
      modifies this
      ensures Snapshot() == Reduce(old(Snapshot()), ResetState)
    {
      selectedNoteId := None;
      isCreating := false;
      isViewing := false;
      searchQuery := "";
      selectedTagIds := [];
    }

    /** `handleViewChange(view)`: sets the view and resets, but keeps the
        dashboard flag and the message, unlike SET_VIEW. */
    method HandleViewChange(view: View)
      modifies this
      ensures Snapshot() == Reduce(old(Snapshot()), ResetState).(currentView := view)
    {
      currentView := view;
      ResetAppState();
    }

    /** `handleNewNote`: unlike CREATE_NOTE it leaves `isViewing` as it was. */
    method HandleNewNote()
      modifies this
      ensures Snapshot() == Reduce(old(Snapshot()), CreateNote).(isViewing := old(isViewing))
    {
      isCreating := true;
      selectedNoteId := None;
      showDashboard := false;
    }

    /** `handleNoteSelect(noteId)`: the same transition as SELECT_NOTE. */
    method HandleNoteSelect(noteId: string)
      modifies this
      ensures Snapshot() == Reduce(old(Snapshot()), SelectNote(noteId))
    {
      selectedNoteId := Some(noteId);
      isCreating := false;
      isViewing := true;
      showDashboard := false;
    }

    /** `handleGoHome`: the same transition as GO_HOME. */
    method HandleGoHome()
      modifies this
      ensures Snapshot() == Reduce(old(Snapshot()), GoHome)
    {
      showDashboard := true;
      ResetAppState();
    }

    /** `handleEditNote`: the same transition as EDIT_NOTE. */
    method HandleEditNote()
      modifies this
      ensures Snapshot() == Reduce(old(Snapshot()), EditNote)
    {
      isViewing := false;
      isCreating := false;
    }

    /** `handleViewNote(noteId)`: the same transition as VIEW_NOTE. */
    method HandleViewNote(noteId: string)
      modifies this
      ensures Snapshot() == Reduce(old(Snapshot()), ViewNote(noteId))
    {
      selectedNoteId := Some(noteId);
      isViewing := true;
      isCreating := false;
      showDashboard := false;
    }

    /** `displaySuccessMessage(message)` before its timer fires. */
    method DisplaySuccessMessage(message: string)
      modifies this
      ensures Snapshot() == Reduce(old(Snapshot()), ShowSuccess(message))
    {
      showSuccessMessage := Some(message);
    }

    /** `clearSuccessMessage`: the same transition as CLEAR_SUCCESS. */
    method ClearSuccessMessage()
      modifies this
      ensures Snapshot() == Reduce(old(Snapshot()), ClearSuccess)
    {
      showSuccessMessage := None;
    }

    method SetSearchQuery(query: string)
      modifies this
      ensures Snapshot() == Reduce(old(Snapshot()), SetSearch(query))
    {
      searchQuery := query;
    }

    method SetSelectedTagIds(tagIds: seq<string>)
      modifies this
      ensures Snapshot() == Reduce(old(Snapshot()), SetSelectedTags(tagIds))
    {
      selectedTagIds := tagIds;
    }

    /** The raw `setShowDashboard` setter, which, unlike the reducer hook's,
        can also hide the dashboard. */
    method SetShowDashboard(show: bool)
      modifies this
      ensures Snapshot() == old(Snapshot()).(showDashboard := show)
    {
      showDashboard := show;
    }
  }

  /** The setter-based view change agrees with SET_VIEW exactly when the
      dashboard is already shown and no message is pending. */
  lemma ViewChangeAgreesWithSetView(s: AppState, view: View)
    ensures Reduce(s, ResetState).(currentView := view) == Reduce(s, SetView(view))
        <==> s.showDashboard && s.showSuccessMessage.None?
  {
    if s.showDashboard && s.showSuccessMessage.None? {
      assert Reduce(s, ResetState).(currentView := view) == Reduce(s, SetView(view));
    }
  }

  /** The setter-based new note agrees with CREATE_NOTE exactly when no note
      is being viewed. */
  lemma NewNoteAgreesWithCreateNote(s: AppState)
    ensures Reduce(s, CreateNote).(isViewing := s.isViewing) == Reduce(s, CreateNote) <==> !s.isViewing
  {
  }

  /** Selecting a note and then starting a new one leaves the setter-based
      shell both viewing and creating. */
  method NewNoteWhileViewing(h: AppStateHook, noteId: string)
    modifies h
    ensures h.isCreating && h.isViewing
    ensures !Consistent(h.Snapshot())
  {
    h.HandleNoteSelect(noteId);
    h.HandleNewNote();
  }

  /** The same two steps through the reducer end in a consistent state:
      creating, not viewing, nothing selected. */
  lemma NewNoteAfterSelectIsConsistent(s: AppState, noteId: string)
    ensures var t := Reduce(Reduce(s, SelectNote(noteId)), CreateNote);
      t.isCreating && !t.isViewing && t.selectedNoteId.None? && Consistent(t)
  {
  }
}
