/**
  * The records the notes application stores. Dates are milliseconds since
  * the epoch; a folder's optional fields are `Option`s, absent meaning the
  * property is missing from the object.
  */
module NoteTypes {
  import opened Optional

  datatype Tag = Tag(id: string, name: string, color: string)

  datatype Note = Note(
    id: string,
    title: string,
    content: string,
    createdAt: nat,
    updatedAt: nat,
    tags: seq<Tag>,
    folderId: string)

  datatype Folder = Folder(
    id: string,
    name: string,
    icon: Option<string>,
    parentId: Option<string>,
    children: Option<seq<Folder>>)

  /** A string property that JavaScript's `||` keeps: present and not empty. */
  predicate Truthy(v: Option<string>) {
    v.Some? && v.value != ""
  }

  /** `v || fallback` for an optional string. */
  function OrElse(v: Option<string>, fallback: string): (r: string)
    ensures Truthy(v) ==> r == v.value
    ensures !Truthy(v) ==> r == fallback
  {
    if Truthy(v) then v.value else fallback
  }
}
