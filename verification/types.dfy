/** The records of `types.ts` and the partial-note payload handed to the note store. */
module Types {
  import opened Wrappers

  /** The public identity of a user (no password). */
  datatype User = User(id: string, email: string, name: string)

  /** A meeting note. Timestamps are instants of an integer clock instead of ISO strings. */
  datatype Note = Note(
    id: string,
    userId: string,
    title: string,
    content: string,
    participants: seq<string>,
    tags: seq<string>,
    createdAt: int,
    updatedAt: int,
    summary: Option<string>,
    actionItems: Option<seq<string>>)

  /** What login and register return and what the session slot holds. */
  datatype AuthResponse = AuthResponse(user: User, token: string)

  /** A `Partial<Note>`: each field is `None` when its key is absent from the object.
      For the fields that are optional in `Note` itself, `Some(None)` is a key that is
      present with the value `undefined`, which a spread still copies over.
      An `id` that is absent and one that is `undefined` are both `None`: both are falsy
      and no code path copies such an `id` anywhere. */
  datatype Patch = Patch(
    id: Option<string>,
    userId: Option<string>,
    title: Option<string>,
    content: Option<string>,
    participants: Option<seq<string>>,
    tags: Option<seq<string>>,
    createdAt: Option<int>,
    updatedAt: Option<int>,
    summary: Option<Option<string>>,
    actionItems: Option<Option<seq<string>>>)

  /** JavaScript truthiness of a string: only the empty string is falsy. */
  predicate Truthy(s: string) {
    s != ""
  }

  /** `note.id` is truthy: present, defined and non-empty. */
  predicate HasTruthyId(p: Patch) {
    p.id.Some? && Truthy(p.id.value)
  }
}
