/**
 * The remote task record as the field extractors see it. The API returns a
 * task as a nested dictionary; only the attributes the core reads are kept,
 * each typed by how the code reads it (`t["id"]` is required, `t.get("x")`
 * may be absent).
 */
module Tasks {
  import opened Wrappers

  /** An attribute of a nested object: absent, present and null, or present with a value. */
  datatype Attr<T> = Missing | Null | Present(value: T) {
    /** `obj.get(key, fallback)`: the fallback when absent, nothing when null, the value otherwise. */
    function Get(fallback: T): Option<T> {
      match this
      case Missing => Some(fallback)
      case Null => None
      case Present(v) => Some(v)
    }
  }

  /**
   * A nested object read with `.get`, such as a task's assignee or parent.
   * Python treats a dictionary as false only when it has no key at all; a key
   * holding null still makes it true.
   */
  datatype Ref = Ref(id: Attr<int>, name: Attr<string>) {
    predicate Truthy() {
      !id.Missing? || !name.Missing?
    }
  }

  /** A compact record `{"id": .., "name": ..}` read with `[]`: a project or a user. */
  datatype Compact = Compact(id: int, name: string)

  /** One entry of a task's `custom_fields` list; `kind` is its `type` attribute. */
  datatype CustomFieldValue = CustomFieldValue(
    id: int,
    kind: string,
    textValue: Option<string>,
    numberValue: Option<int>,
    enumValue: Option<int>)

  /**
   * A task. `None` stands for an attribute that is absent or null; for the
   * three relations it is the missing key, which `task.get(key, [])` reads as
   * the empty list.
   */
  datatype Task = Task(
    id: int,
    assignee: Option<Ref>,
    parent: Option<Ref>,
    projects: Option<seq<Compact>>,
    followers: Option<seq<Compact>>,
    customFields: Option<seq<CustomFieldValue>>)
}
