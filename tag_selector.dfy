/** The tag picker of the note editor: the offered tags, selecting and
    removing tags, creating a tag from the typed name, and its keyboard
    handling. */
module TagSelector {
  import opened Domain
  import opened Text
  import opened Seqs
  import opened ClientTypes

  /** A tag with the same id is already selected. */
  predicate IsSelected(selected: seq<Tag>, t: Tag) {
    exists s :: s in selected && s.id == t.id
  }

  predicate Offered(t: Tag, searchTerm: string, selected: seq<Tag>) {
    ContainsIgnoringCase(t.name, searchTerm) && !IsSelected(selected, t)
  }

  /** `filteredTags`: the available tags whose name contains the search term,
      ignoring case, and that are not selected yet, in their order. */
  function FilteredTags(available: seq<Tag>, searchTerm: string, selected: seq<Tag>): (r: seq<Tag>)
    ensures forall t :: t in r <==> t in available && ContainsIgnoringCase(t.name, searchTerm) && !IsSelected(selected, t)
    ensures forall t :: multiset(r)[t] == if Offered(t, searchTerm, selected) then multiset(available)[t] else 0
  {
    FilterMultiplicity(available, t => Offered(t, searchTerm, selected));
    Filter(available, t => Offered(t, searchTerm, selected))
  }

  /** With nothing typed and nothing selected, every available tag is offered. */
  lemma EmptySearchOffersAll(available: seq<Tag>)
    ensures FilteredTags(available, "", []) == available
  {
    forall t | t in available ensures Offered(t, "", []) {
      ContainsIgnoringCaseEmpty(t.name);
    }
    FilterAll(available, t => Offered(t, "", []));
  }

  /** A tag just selected is no longer offered. */
  lemma SelectedIsNotOffered(available: seq<Tag>, searchTerm: string, selected: seq<Tag>, t: Tag)
    ensures t !in FilteredTags(available, searchTerm, selected + [t])
  {
    assert t in selected + [t];
  }

  /** `handleTagRemove(tagId)`: the selection it emits. */
  function TagsAfterRemove(selected: seq<Tag>, tagId: string): (r: seq<Tag>)
    ensures forall t :: t in r <==> t in selected && t.id != tagId
    ensures forall t :: multiset(r)[t] == if t.id != tagId then multiset(selected)[t] else 0
  {
    RemoveKeyMultiplicity(selected, TagKey, tagId);
    RemoveKey(selected, TagKey, tagId)
  }

  /** Removing a tag that was just selected restores the earlier selection,
      provided no tag with its id was selected before. */
  lemma RemoveUndoesSelect(selected: seq<Tag>, t: Tag)
    requires !IsSelected(selected, t)
    ensures TagsAfterRemove(selected + [t], t.id) == selected
  {
    RemoveAppended(selected, TagKey, t);
  }

  /** The name `handleCreateTag` asks the handler for: the trimmed input,
      and nothing when the input is blank or there is no handler. A name it
      asks for is never blank itself. */
  function CreateRequest(newTagName: string, hasHandler: bool): (r: Option<string>)
    ensures r.Some? <==> !IsBlank(newTagName) && hasHandler
    ensures r.Some? ==> r.value == Trim(newTagName) && r.value != [] && !IsBlank(r.value)
  {
    if IsBlank(newTagName) || !hasHandler then None
    else
      TrimIdempotent(newTagName);
      Some(Trim(newTagName))
  }

  /** The picker's own state cells. */
  class TagSelectorState {
    var isOpen: bool
    var searchTerm: string
    var newTagName: string
    var isCreating: bool

    constructor ()
      ensures !isOpen && searchTerm == "" && newTagName == "" && !isCreating
    {
      isOpen, searchTerm, newTagName, isCreating := false, "", "", false;
    }

    /** The dropdown button. */
    method ToggleOpen()
      modifies this
      ensures isOpen == !old(isOpen)
      ensures searchTerm == old(searchTerm) && newTagName == old(newTagName) && isCreating == old(isCreating)
    {
      isOpen := !isOpen;
    }

    method SetSearchTerm(term: string)
      modifies this
      ensures searchTerm == term
      ensures isOpen == old(isOpen) && newTagName == old(newTagName) && isCreating == old(isCreating)
    {
      searchTerm := term;
    }

    method SetNewTagName(name: string)
      modifies this
      ensures newTagName == name
      ensures isOpen == old(isOpen) && searchTerm == old(searchTerm) && isCreating == old(isCreating)
    {
      newTagName := name;
    }

    /** Closing without a choice, by a click outside or Escape: the
        dropdown closes and both inputs are cleared. */
    method Dismiss()
      modifies this
      ensures !isOpen && searchTerm == "" && newTagName == ""
      ensures isCreating == old(isCreating)
    {
      isOpen, searchTerm, newTagName := false, "", "";
    }

    /** `handleTagSelect(tag)`: emits the selection with `tag` appended,
        clears the search term and closes the dropdown. */
    method HandleTagSelect(selected: seq<Tag>, tag: Tag) returns (emitted: seq<Tag>)
      modifies this
      ensures emitted == selected + [tag]
      ensures searchTerm == "" && !isOpen
      ensures newTagName == old(newTagName) && isCreating == old(isCreating)
    {
      emitted := selected + [tag];
      searchTerm, isOpen := "", false;
    }

    /** `handleTagRemove(tagId)` changes no state of the picker. */
    method HandleTagRemove(selected: seq<Tag>, tagId: string) returns (emitted: seq<Tag>)
      ensures emitted == TagsAfterRemove(selected, tagId)
    {
      emitted := TagsAfterRemove(selected, tagId);
    }

    /** `handleCreateTag()`. Without a non-blank name or a create handler it
        does nothing. Otherwise it asks the handler for a tag named by the
        trimmed input (`requested`); `created` is what the awaited call
        gave. On success the new tag is appended to the emitted selection
        and the inputs are cleared; on an error nothing else changes. */
    method HandleCreateTag(selected: seq<Tag>, hasHandler: bool, created: CallResult<Tag>)
        returns (requested: Option<string>, emitted: Option<seq<Tag>>)
      modifies this
      ensures requested == CreateRequest(old(newTagName), hasHandler)
      ensures requested.None? ==> emitted.None? && isCreating == old(isCreating)
      ensures requested.None? || created.Raised? ==>
        emitted.None? && isOpen == old(isOpen) && searchTerm == old(searchTerm) && newTagName == old(newTagName)
      ensures requested.Some? && created.Done? ==>
        emitted == Some(selected + [created.value]) && newTagName == "" && searchTerm == "" && !isOpen
      ensures requested.Some? ==> !isCreating
    {
      requested := CreateRequest(newTagName, hasHandler);
      if requested.None? {
        return None, None;
      }
      isCreating := true;
      if created.Done? {
        emitted := Some(selected + [created.value]);
        // The same three resets as a dismissal.
        Dismiss();
      } else {
        emitted := None;
      }
      isCreating := false;
    }

    /** `handleKeyDown` on either input. Enter creates a tag when a name is
        typed and a handler exists, and otherwise selects the first offered
        tag, if any; Escape dismisses; other keys do nothing. */
    method HandleKeyDown(key: string, selected: seq<Tag>, available: seq<Tag>, hasHandler: bool, created: CallResult<Tag>)
        returns (requested: Option<string>, emitted: Option<seq<Tag>>)
      modifies this
      ensures key == "Enter" && !IsBlank(old(newTagName)) && hasHandler ==>
        requested == Some(Trim(old(newTagName)))
        && (created.Done? ==> emitted == Some(selected + [created.value]) && !isOpen && searchTerm == "" && newTagName == "")
        && (created.Raised? ==> emitted.None? && isOpen == old(isOpen) && searchTerm == old(searchTerm) && newTagName == old(newTagName))
      ensures key == "Enter" && (IsBlank(old(newTagName)) || !hasHandler) ==>
        var offered := FilteredTags(available, old(searchTerm), selected);
        && requested.None?
        && (offered != [] ==> emitted == Some(selected + [offered[0]]) && !isOpen && searchTerm == "" && newTagName == old(newTagName))
        && (offered == [] ==> emitted.None? && isOpen == old(isOpen) && searchTerm == old(searchTerm) && newTagName == old(newTagName))
      ensures key == "Escape" ==> requested.None? && emitted.None? && !isOpen && searchTerm == "" && newTagName == ""
      ensures key != "Enter" && key != "Escape" ==>
        requested.None? && emitted.None? && isOpen == old(isOpen) && searchTerm == old(searchTerm) && newTagName == old(newTagName)
      ensures isCreating == (old(isCreating) && (key != "Enter" || IsBlank(old(newTagName)) || !hasHandler))
    {
      requested, emitted := None, None;
      if key == "Enter" {
        if !IsBlank(newTagName) && hasHandler {
          requested, emitted := HandleCreateTag(selected, hasHandler, created);
        } else {
          var offered := FilteredTags(available, searchTerm, selected);
          if |offered| > 0 {
            var e := HandleTagSelect(selected, offered[0]);
            emitted := Some(e);
          }
        }
      } else if key == "Escape" {
        Dismiss();
      }
    }
  }

  /** Enter on a typed name, with a handler that succeeds, adds the created
      tag and leaves the picker closed and empty. */
  method EnterCreates(s: TagSelectorState, selected: seq<Tag>, available: seq<Tag>, name: string, tag: Tag)
      returns (requested: Option<string>, emitted: Option<seq<Tag>>)
    requires !IsBlank(name)
    modifies s
    ensures requested == Some(Trim(name)) && emitted == Some(selected + [tag])
    ensures !s.isOpen && s.searchTerm == "" && s.newTagName == "" && !s.isCreating
  {
    s.SetNewTagName(name);
    requested, emitted := s.HandleKeyDown("Enter", selected, available, true, Done(tag));
  }
}
