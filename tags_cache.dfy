/** The tag cache of the client: one list of tags, a loading flag and the
    last error, updated after each awaited API call. */
module TagsCache {
  import opened Domain
  import opened Seqs
  import opened ClientTypes

  class TagsCache {
    var tags: seq<Tag>
    var loading: bool
    var error: Option<string>

    constructor ()
      ensures tags == [] && !loading && error.None?
    {
      tags, loading, error := [], false, None;
    }

    /** `fetchTags()`: a failure is recorded, not rethrown. */
    method FetchTags(res: CallResult<Fetched<Tag>>)
      modifies this
      ensures !loading
      ensures res.Done? ==> tags == ArrayOrEmpty(res.value) && error.None?
      ensures res.Raised? ==> tags == old(tags) && error == Some(ErrorText(res.message, "Failed to fetch tags"))
    {
      loading := true;
      error := None;
      if res.Done? {
        tags := ArrayOrEmpty(res.value);
      } else {
        error := Some(ErrorText(res.message, "Failed to fetch tags"));
      }
      loading := false;
    }

    /** `createTag(data)`: the new tag goes last. */
    method CreateTag(res: CallResult<Tag>) returns (r: CallResult<Tag>)
      modifies this
      ensures r == res && !loading
      ensures res.Done? ==> tags == old(tags) + [res.value] && error.None?
      ensures res.Raised? ==> tags == old(tags) && error == Some(ErrorText(res.message, "Failed to create tag"))
    {
      loading := true;
      error := None;
      if res.Done? {
        tags := tags + [res.value];
      } else {
        error := Some(ErrorText(res.message, "Failed to create tag"));
      }
      loading := false;
      r := res;
    }

    /** `updateTag(id, data)`: the returned tag replaces the id. */
    method UpdateTag(id: string, res: CallResult<Tag>) returns (r: CallResult<Tag>)
      modifies this
      ensures r == res && !loading
      ensures |tags| == |old(tags)|
      ensures res.Done? ==> tags == ReplaceKey(old(tags), TagKey, id, res.value) && error.None?
      ensures res.Raised? ==> tags == old(tags) && error == Some(ErrorText(res.message, "Failed to update tag"))
    {
      loading := true;
      error := None;
      if res.Done? {
        tags := ReplaceKey(tags, TagKey, id, res.value);
      } else {
        error := Some(ErrorText(res.message, "Failed to update tag"));
      }
      loading := false;
      r := res;
    }

    /** `deleteTag(id)`: the id leaves the list, the rest keep their order. */
    method DeleteTag(id: string, res: CallResult<()>) returns (r: CallResult<()>)
      modifies this
      ensures r == res && !loading
      ensures res.Done? ==> tags == RemoveKey(old(tags), TagKey, id) && error.None?
      ensures res.Done? ==> forall t :: t in tags <==> t in old(tags) && t.id != id
      ensures res.Raised? ==> tags == old(tags) && error == Some(ErrorText(res.message, "Failed to delete tag"))
    {
      loading := true;
      error := None;
      if res.Done? {
        tags := RemoveKey(tags, TagKey, id);
      } else {
        error := Some(ErrorText(res.message, "Failed to delete tag"));
      }
      loading := false;
      r := res;
    }

    method ClearError()
      modifies this
      ensures error.None? && tags == old(tags) && loading == old(loading)
    {
      error := None;
    }
  }
}
