/** Records of the server side: the stored Note and Tag rows, the request
    payloads the services accept, and the errors the services raise. */
module Domain {

  datatype Option<+T> = None | Some(value: T) {
    function GetOr(default: T): T {
      match this
      case Some(v) => v
      case None => default
    }
  }

  /** What a service call yields: a value, or the error it throws. */
  datatype Result<+T> = Ok(value: T) | Err(error: Failure)

  /** The errors the services throw, one per message in the source, and
      `StoreFailure` for an error the storage engine raises (a missing record
      to update, a violated unique constraint). */
  datatype Failure =
    | NoteIdRequired
    | NoteTitleRequired
    | NoteContentRequired
    | NoteTitleEmpty
    | NoteContentEmpty
    | TagIdRequired
    | TagNameRequired
    | TagAlreadyExists
    | TagNotFound
    | TagNameAlreadyExists
    | StoreFailure
  {
    /** The message of the thrown `Error`. */
    function Message(): string {
      match this
      case NoteIdRequired => "Note ID is required"
      case NoteTitleRequired => "Note title is required"
      case NoteContentRequired => "Note content is required"
      case NoteTitleEmpty => "Note title cannot be empty"
      case NoteContentEmpty => "Note content cannot be empty"
      case TagIdRequired => "Tag ID is required"
      case TagNameRequired => "Tag name is required"
      case TagAlreadyExists => "Tag already exists"
      case TagNotFound => "Tag not found"
      case TagNameAlreadyExists => "Tag name already exists"
      case StoreFailure => "storage error"
    }
  }

  /** A stored note. `owner` is the `userId` column ("" where the store has
      none), `tagIds` the ids of the connected tags, and the two timestamps
      are clock readings. */
  datatype Note = Note(
    id: string,
    title: string,
    content: string,
    isArchived: bool,
    owner: string,
    tagIds: set<string>,
    createdAt: int,
    updatedAt: int)

  datatype Tag = Tag(id: string, name: string)

  /** `CreateNoteRequest`; an absent `tagIds` is `None`. */
  datatype CreateNoteRequest = CreateNoteRequest(title: string, content: string, tagIds: Option<seq<string>>)

  /** `UpdateNoteRequest`: every field optional. */
  datatype UpdateNoteRequest = UpdateNoteRequest(
    title: Option<string>,
    content: Option<string>,
    isArchived: Option<bool>,
    tagIds: Option<seq<string>>)

  function UpdatedAt(n: Note): int {
    n.updatedAt
  }
}
