/**
 * The task fields. Scalar extractors return a column value; the three
 * relation fields (projects, followers, custom field values) return no value
 * and instead reconcile the stored relation with the task's. Each field's
 * calls into the workspace are returned as the sequence of `Call`s it issues,
 * in order; the stored relation it reads from the workspace is a parameter.
 */
module Fields {
  import opened Wrappers
  import opened Collections
  import opened Tasks

  /** The workspace operations the fields invoke. */
  datatype Call =
    | AddUser(user: Ref)
    | AddTaskToProject(taskId: int, project: Compact)
    | RemoveTaskFromProject(taskId: int, projectId: int)
    | AddFollower(taskId: int, follower: Compact)
    | RemoveFollower(taskId: int, followerId: int)
    | AddCustomFieldValue(taskId: int, field: CustomFieldValue)
    | RemoveCustomFieldValue(taskId: int, fieldId: int)
  {
    predicate IsRemoval() {
      RemoveTaskFromProject? || RemoveFollower? || RemoveCustomFieldValue?
    }
  }

  /** One stored row of the custom field values table, as the workspace reads it back. */
  datatype CustomFieldRow = CustomFieldRow(
    customFieldId: int,
    textValue: Option<string>,
    numberValue: Option<int>,
    enumValue: Option<int>)

  /** A scalar field's column value together with the workspace calls made to compute it. */
  datatype Extracted = Extracted(value: Option<int>, calls: seq<Call>)

  /** Every call that adds comes before every call that removes. */
  predicate AddsBeforeRemovals(calls: seq<Call>) {
    forall i, j :: 0 <= i < j < |calls| && calls[i].IsRemoval() ==> calls[j].IsRemoval()
  }

  // ---------------------------------------------------------------------------
  // Scalar extractors

  /**
   * The assignee column: nothing, and no call, for a missing or empty
   * assignee; otherwise the user is registered once and the value is its id,
   * -1 when the object carries no id, nothing when the id is null.
   */
  function AssigneeField(task: Task): (r: Extracted)
    ensures r.calls == [] <==> task.assignee.None? || !task.assignee.value.Truthy()
    ensures r.calls != [] ==> r.calls == [AddUser(task.assignee.value)]
    ensures r.value.None? <==>
              task.assignee.None? || !task.assignee.value.Truthy() || task.assignee.value.id.Null?
    ensures r.value.Some? ==> (r.value.value == -1 && task.assignee.value.id.Missing?)
                              || task.assignee.value.id == Present(r.value.value)
  {
    if task.assignee.Some? && task.assignee.value.Truthy() then
      var a := task.assignee.value;
      Extracted(a.id.Get(-1), [AddUser(a)])
    else
      Extracted(None, [])
  }

  /**
   * The parent column: nothing for a missing or empty parent; otherwise its
   * id, -1 when it has none, nothing when the id is null.
   */
  function ParentIdField(task: Task): (r: Option<int>)
    ensures r.None? <==> task.parent.None? || !task.parent.value.Truthy() || task.parent.value.id.Null?
    ensures r.Some? ==> (r.value == -1 && task.parent.value.id.Missing?) || task.parent.value.id == Present(r.value)
  {
    if task.parent.Some? && task.parent.value.Truthy() then task.parent.value.id.Get(-1)
    else None
  }

  // ---------------------------------------------------------------------------
  // Relation fields: the task's side of each relation

  function ProjectsById(task: Task): map<int, Compact> {
    IndexBy(task.projects.GetOr([]), (p: Compact) => p.id)
  }

  /** The ids of the projects the task belongs to. */
  function ProjectIds(task: Task): set<int> {
    ProjectsById(task).Keys
  }

  function FollowersById(task: Task): map<int, Compact> {
    IndexBy(task.followers.GetOr([]), (f: Compact) => f.id)
  }

  function CustomFieldsById(task: Task): map<int, CustomFieldValue> {
    IndexBy(task.customFields.GetOr([]), (f: CustomFieldValue) => f.id)
  }

  /** The stored rows by field id; of two rows for one field the later one is kept. */
  function StoredById(rows: seq<CustomFieldRow>): map<int, CustomFieldRow> {
    IndexBy(rows, (r: CustomFieldRow) => r.customFieldId)
  }

  /** A stored value that needs no write: same type-specific value for a text, number or enum field. */
  predicate Unchanged(f: CustomFieldValue, row: CustomFieldRow)
    ensures Unchanged(f, row) ==> f.kind == "text" || f.kind == "number" || f.kind == "enum"
    ensures f.kind == "text" ==> (Unchanged(f, row) <==> f.textValue == row.textValue)
  {
    || (f.kind == "text" && f.textValue == row.textValue)
    || (f.kind == "number" && f.numberValue == row.numberValue)
    || (f.kind == "enum" && f.enumValue == row.enumValue)
  }

  // ---------------------------------------------------------------------------
  // What each relation field must issue: one call per member to add or remove

  function ProjectAdds(task: Task, ids: set<int>): set<Call>
    requires ids <= ProjectIds(task)
  {
    set p | p in ids :: AddTaskToProject(task.id, ProjectsById(task)[p])
  }

  function ProjectRemovals(task: Task, ids: set<int>): set<Call> {
    set p | p in ids :: RemoveTaskFromProject(task.id, p)
  }

  function ExpectedProjectCalls(task: Task, stored: set<int>): set<Call> {
    ProjectAdds(task, ProjectIds(task) - stored) + ProjectRemovals(task, stored - ProjectIds(task))
  }

  function FollowerAdds(task: Task, ids: set<int>): set<Call>
    requires ids <= FollowersById(task).Keys
  {
    set f | f in ids :: AddFollower(task.id, FollowersById(task)[f])
  }

  function FollowerRemovals(task: Task, ids: set<int>): set<Call> {
    set f | f in ids :: RemoveFollower(task.id, f)
  }

  function ExpectedFollowerCalls(task: Task, stored: set<int>): set<Call> {
    var ids := FollowersById(task).Keys;
    FollowerAdds(task, ids - stored) + FollowerRemovals(task, stored - ids)
  }

  /** The ids among `ids` whose value must be written: not stored, or stored with a different value. */
  function ChangedFields(task: Task, rows: seq<CustomFieldRow>, ids: set<int>): set<int> {
    var fields := CustomFieldsById(task);
    var stored := StoredById(rows);
    set id | id in ids && id in fields && !(id in stored && Unchanged(fields[id], stored[id]))
  }

  function CustomFieldAdds(task: Task, ids: set<int>): set<Call>
    requires ids <= CustomFieldsById(task).Keys
  {
    set id | id in ids :: AddCustomFieldValue(task.id, CustomFieldsById(task)[id])
  }

  function CustomFieldRemovals(task: Task, ids: set<int>): set<Call> {
    set id | id in ids :: RemoveCustomFieldValue(task.id, id)
  }

  function ExpectedCustomFieldCalls(task: Task, rows: seq<CustomFieldRow>): set<Call> {
    var ids := CustomFieldsById(task).Keys;
    CustomFieldAdds(task, ChangedFields(task, rows, ids))
    + CustomFieldRemovals(task, StoredById(rows).Keys - ids)
  }

  // ---------------------------------------------------------------------------
  // What the expected calls mean

  /** The task's project ids are the ids in its `projects` list; none when the key is missing. */
  lemma ProjectIdsOfList(task: Task)
    ensures ProjectIds(task) == set i | 0 <= i < |task.projects.GetOr([])| :: task.projects.GetOr([])[i].id
    ensures task.projects.None? ==> ProjectIds(task) == {}
  {
    IndexByKeys(task.projects.GetOr([]), (p: Compact) => p.id);
  }

  /**
   * Project reconciliation adds the task to project `p` exactly when `p` is
   * the task's (last) record for a project not stored, removes it from `pid`
   * exactly when `pid` is stored but no longer the task's, and does nothing else.
   */
  lemma {:induction false} ExpectedProjectCallsExactly(task: Task, stored: set<int>)
    ensures forall p :: AddTaskToProject(task.id, p) in ExpectedProjectCalls(task, stored) <==>
                          p.id in ProjectIds(task) - stored && ProjectsById(task)[p.id] == p
    ensures forall pid :: RemoveTaskFromProject(task.id, pid) in ExpectedProjectCalls(task, stored)
                          <==> pid in stored - ProjectIds(task)
    ensures forall c :: c in ExpectedProjectCalls(task, stored) ==>
              (c.AddTaskToProject? && c.taskId == task.id) || (c.RemoveTaskFromProject? && c.taskId == task.id)
  {
    forall p ensures AddTaskToProject(task.id, p) in ExpectedProjectCalls(task, stored)
                     <==> p.id in ProjectIds(task) - stored && ProjectsById(task)[p.id] == p
    {
      if AddTaskToProject(task.id, p) in ExpectedProjectCalls(task, stored) {
        var q :| q in ProjectIds(task) - stored && AddTaskToProject(task.id, ProjectsById(task)[q]) == AddTaskToProject(task.id, p);
        assert ProjectsById(task)[q].id == q;
      }
    }
  }

  /** Project reconciliation issues nothing exactly when the stored projects are the task's. */
  lemma {:induction false} ProjectsInSyncIssueNothing(task: Task, stored: set<int>)
    ensures ExpectedProjectCalls(task, stored) == {} <==> ProjectIds(task) == stored
  {
    ExpectedProjectCallsExactly(task, stored);
    forall p | p in ProjectIds(task) - stored
      ensures AddTaskToProject(task.id, ProjectsById(task)[p]) in ExpectedProjectCalls(task, stored)
    {
    }
    forall pid | pid in stored - ProjectIds(task)
      ensures RemoveTaskFromProject(task.id, pid) in ExpectedProjectCalls(task, stored)
    {
    }
    if ExpectedProjectCalls(task, stored) == {} {
      assert ProjectIds(task) - stored == {};
      forall pid | pid in stored ensures pid in ProjectIds(task) {
        assert RemoveTaskFromProject(task.id, pid) !in ExpectedProjectCalls(task, stored);
      }
    }
  }

  /** A task without a `projects` key is removed from every stored project and added to none. */
  lemma MissingProjectsRemoveAll(task: Task, stored: set<int>)
    requires task.projects.None?
    ensures ExpectedProjectCalls(task, stored) == ProjectRemovals(task, stored)
  {
    ProjectIdsOfList(task);
  }

  /**
   * Follower reconciliation adds follower `f` exactly when `f` is the task's
   * (last) record for a follower not stored, removes `fid` exactly when it is
   * stored but no longer among the task's followers, and does nothing else.
   */
  lemma {:induction false} ExpectedFollowerCallsExactly(task: Task, stored: set<int>)
    ensures forall f :: AddFollower(task.id, f) in ExpectedFollowerCalls(task, stored) <==>
                          f.id in FollowersById(task).Keys - stored && FollowersById(task)[f.id] == f
    ensures forall fid :: RemoveFollower(task.id, fid) in ExpectedFollowerCalls(task, stored)
                          <==> fid in stored - FollowersById(task).Keys
    ensures forall c :: c in ExpectedFollowerCalls(task, stored) ==>
              (c.AddFollower? && c.taskId == task.id) || (c.RemoveFollower? && c.taskId == task.id)
  {
    var ids := FollowersById(task).Keys;
    forall f ensures AddFollower(task.id, f) in ExpectedFollowerCalls(task, stored)
                     <==> f.id in ids - stored && FollowersById(task)[f.id] == f
    {
      if AddFollower(task.id, f) in ExpectedFollowerCalls(task, stored) {
        var q :| q in ids - stored && AddFollower(task.id, FollowersById(task)[q]) == AddFollower(task.id, f);
        assert FollowersById(task)[q].id == q;
      }
    }
  }

  /** A task without a `followers` key removes every stored follower and adds none. */
  lemma MissingFollowersRemoveAll(task: Task, stored: set<int>)
    requires task.followers.None?
    ensures ExpectedFollowerCalls(task, stored) == FollowerRemovals(task, stored)
  {
    IndexByKeys(task.followers.GetOr([]), (f: Compact) => f.id);
  }

  /**
   * Custom field reconciliation writes the task's value `f` exactly when `f`
   * is the task's (last) value for its field and that field is not stored or
   * is stored with a different typed value; it removes field `id` exactly
   * when some stored row has that id and the task has no value for it.
   */
  lemma {:induction false} ExpectedCustomFieldCallsExactly(task: Task, rows: seq<CustomFieldRow>)
    ensures forall f :: AddCustomFieldValue(task.id, f) in ExpectedCustomFieldCalls(task, rows)
              <==> f.id in CustomFieldsById(task) && CustomFieldsById(task)[f.id] == f
                   && !(f.id in StoredById(rows) && Unchanged(f, StoredById(rows)[f.id]))
    ensures forall id :: RemoveCustomFieldValue(task.id, id) in ExpectedCustomFieldCalls(task, rows)
              <==> (exists i :: 0 <= i < |rows| && rows[i].customFieldId == id) && id !in CustomFieldsById(task)
    ensures forall c :: c in ExpectedCustomFieldCalls(task, rows) ==>
              (c.AddCustomFieldValue? || c.RemoveCustomFieldValue?) && c.taskId == task.id
  {
    var fields := CustomFieldsById(task);
    var ids := fields.Keys;
    IndexByKeys(rows, (r: CustomFieldRow) => r.customFieldId);
    forall f ensures AddCustomFieldValue(task.id, f) in ExpectedCustomFieldCalls(task, rows)
              <==> f.id in fields && fields[f.id] == f
                   && !(f.id in StoredById(rows) && Unchanged(f, StoredById(rows)[f.id]))
    {
      if AddCustomFieldValue(task.id, f) in ExpectedCustomFieldCalls(task, rows) {
        var q :| q in ChangedFields(task, rows, ids) && AddCustomFieldValue(task.id, fields[q]) == AddCustomFieldValue(task.id, f);
        assert fields[q].id == q;
      }
    }
  }

  /** A task without a `custom_fields` key removes the value of every stored field and writes none. */
  lemma MissingCustomFieldsRemoveAll(task: Task, rows: seq<CustomFieldRow>)
    requires task.customFields.None?
    ensures ExpectedCustomFieldCalls(task, rows) == CustomFieldRemovals(task, StoredById(rows).Keys)
  {
    IndexByKeys(task.customFields.GetOr([]), (f: CustomFieldValue) => f.id);
  }

  // ---------------------------------------------------------------------------
  // Bookkeeping: a call per id, each issued once

  lemma ProjectAddsInsert(task: Task, ids: set<int>, p: int)
    requires ids <= ProjectIds(task) && p in ProjectIds(task) && p !in ids
    ensures AddTaskToProject(task.id, ProjectsById(task)[p]) !in ProjectAdds(task, ids)
    ensures ProjectAdds(task, ids + {p}) == ProjectAdds(task, ids) + {AddTaskToProject(task.id, ProjectsById(task)[p])}
  {
  }

  lemma ProjectRemovalsInsert(task: Task, ids: set<int>, p: int)
    requires p !in ids
    ensures RemoveTaskFromProject(task.id, p) !in ProjectRemovals(task, ids)
    ensures ProjectRemovals(task, ids + {p}) == ProjectRemovals(task, ids) + {RemoveTaskFromProject(task.id, p)}
  {
  }

  lemma FollowerAddsInsert(task: Task, ids: set<int>, f: int)
    requires ids <= FollowersById(task).Keys && f in FollowersById(task) && f !in ids
    ensures AddFollower(task.id, FollowersById(task)[f]) !in FollowerAdds(task, ids)
    ensures FollowerAdds(task, ids + {f}) == FollowerAdds(task, ids) + {AddFollower(task.id, FollowersById(task)[f])}
  {
  }

  lemma FollowerRemovalsInsert(task: Task, ids: set<int>, f: int)
    requires f !in ids
    ensures RemoveFollower(task.id, f) !in FollowerRemovals(task, ids)
    ensures FollowerRemovals(task, ids + {f}) == FollowerRemovals(task, ids) + {RemoveFollower(task.id, f)}
  {
  }

  /** One step of the custom-field loop: field `id` is written exactly when it is new or its value changed. */
  lemma CustomFieldStep(task: Task, rows: seq<CustomFieldRow>, done: set<int>, id: int, adds: seq<Call>, write: bool)
    requires id in CustomFieldsById(task) && id !in done
    requires write == !(id in StoredById(rows) && Unchanged(CustomFieldsById(task)[id], StoredById(rows)[id]))
    requires multiset(adds) == multiset(CustomFieldAdds(task, ChangedFields(task, rows, done)))
    ensures multiset(if write then adds + [AddCustomFieldValue(task.id, CustomFieldsById(task)[id])] else adds)
         == multiset(CustomFieldAdds(task, ChangedFields(task, rows, done + {id})))
  {
    var before := ChangedFields(task, rows, done);
    if write {
      assert ChangedFields(task, rows, done + {id}) == before + {id};
      CustomFieldAddsInsert(task, before, id);
      AppendFresh(adds, CustomFieldAdds(task, before), AddCustomFieldValue(task.id, CustomFieldsById(task)[id]));
    } else {
      assert ChangedFields(task, rows, done + {id}) == before;
    }
  }

  lemma CustomFieldAddsInsert(task: Task, ids: set<int>, id: int)
    requires ids <= CustomFieldsById(task).Keys && id in CustomFieldsById(task) && id !in ids
    ensures AddCustomFieldValue(task.id, CustomFieldsById(task)[id]) !in CustomFieldAdds(task, ids)
    ensures CustomFieldAdds(task, ids + {id}) == CustomFieldAdds(task, ids) + {AddCustomFieldValue(task.id, CustomFieldsById(task)[id])}
  {
  }

  lemma CustomFieldRemovalsInsert(task: Task, ids: set<int>, id: int)
    requires id !in ids
    ensures RemoveCustomFieldValue(task.id, id) !in CustomFieldRemovals(task, ids)
    ensures CustomFieldRemovals(task, ids + {id}) == CustomFieldRemovals(task, ids) + {RemoveCustomFieldValue(task.id, id)}
  {
  }

  lemma MultisetOfUnion<T>(a: set<T>, b: set<T>)
    requires a !! b
    ensures multiset(a + b) == multiset(a) + multiset(b)
  {
    forall x ensures multiset(a + b)[x] == (multiset(a) + multiset(b))[x] {
      assert x in a + b <==> x in a || x in b;
    }
  }

  /** Appending a call not yet issued keeps the issued calls in step with the set they stand for. */
  lemma AppendFresh(calls: seq<Call>, issued: set<Call>, c: Call)
    requires multiset(calls) == multiset(issued) && c !in issued
    ensures multiset(calls + [c]) == multiset(issued + {c})
  {
    MultisetOfUnion(issued, {c});
  }

  /** Calls that stand for a set of additions followed by calls that stand for a set of removals. */
  lemma AddsThenRemovals(adds: seq<Call>, removals: seq<Call>, addSet: set<Call>, removalSet: set<Call>)
    requires multiset(adds) == multiset(addSet) && multiset(removals) == multiset(removalSet)
    requires forall c :: c in addSet ==> !c.IsRemoval()
    requires forall c :: c in removalSet ==> c.IsRemoval()
    ensures multiset(adds + removals) == multiset(addSet + removalSet)
    ensures AddsBeforeRemovals(adds + removals)
  {
    MultisetOfUnion(addSet, removalSet);
    forall i | 0 <= i < |adds| ensures !adds[i].IsRemoval() {
      assert adds[i] in multiset(adds);
    }
    forall j | 0 <= j < |removals| ensures removals[j].IsRemoval() {
      assert removals[j] in multiset(removals);
    }
    var calls := adds + removals;
    forall i, j | 0 <= i < j < |calls| && calls[i].IsRemoval() ensures calls[j].IsRemoval() {
      assert calls[j] == removals[j - |adds|];
    }
  }

  // ---------------------------------------------------------------------------
  // ProjectsField.get_data_from_task

  /**
   * Adds the task to each project it newly belongs to and removes it from
   * each stored project it has left, each exactly once, additions first.
   * `memberships` is what the workspace's `task_memberships` returned.
   */
  method ProjectsField(task: Task, memberships: seq<int>) returns (calls: seq<Call>)
    ensures multiset(calls) == multiset(ExpectedProjectCalls(task, set p | p in memberships))
    ensures AddsBeforeRemovals(calls)
  {
    var projects := ProjectsById(task);
    var newIds := projects.Keys;
    var oldIds := set p | p in memberships;
    var adds := AddToProjects(task, newIds - oldIds);
    var removals := RemoveFromProjects(task, oldIds - newIds);
    calls := adds + removals;
    AddsThenRemovals(adds, removals, ProjectAdds(task, newIds - oldIds), ProjectRemovals(task, oldIds - newIds));
  }

  /** The first loop: `add_task_to_project` once for each id in `ids`, with that id's project record. */
  method AddToProjects(task: Task, ids: set<int>) returns (adds: seq<Call>)
    requires ids <= ProjectIds(task)
    ensures multiset(adds) == multiset(ProjectAdds(task, ids))
  {
    var projects := ProjectsById(task);
    adds := [];
    var toAdd := ids;
    ghost var done: set<int> := {};
    while toAdd != {}
      invariant toAdd <= ids && done == ids - toAdd
      invariant multiset(adds) == multiset(ProjectAdds(task, done))
      decreases toAdd
    {
      var p := Pick(toAdd);
      ProjectAddsInsert(task, done, p);
      AppendFresh(adds, ProjectAdds(task, done), AddTaskToProject(task.id, projects[p]));
      adds := adds + [AddTaskToProject(task.id, projects[p])];
      done, toAdd := done + {p}, toAdd - {p};
    }
  }

  /** The second loop: `remove_task_from_project` once for each id in `ids`. */
  method RemoveFromProjects(task: Task, ids: set<int>) returns (removals: seq<Call>)
    ensures multiset(removals) == multiset(ProjectRemovals(task, ids))
  {
    removals := [];
    var toRemove := ids;
    ghost var done: set<int> := {};
    while toRemove != {}
      invariant toRemove <= ids && done == ids - toRemove
      invariant multiset(removals) == multiset(ProjectRemovals(task, done))
      decreases toRemove
    {
      var p := Pick(toRemove);
      ProjectRemovalsInsert(task, done, p);
      AppendFresh(removals, ProjectRemovals(task, done), RemoveTaskFromProject(task.id, p));
      removals := removals + [RemoveTaskFromProject(task.id, p)];
      done, toRemove := done + {p}, toRemove - {p};
    }
  }

  // ---------------------------------------------------------------------------
  // FollowersField.get_data_from_task

  /**
   * Adds each follower not already stored and removes each stored follower
   * the task no longer has, each exactly once, additions first.
   * `stored` is what the workspace's `get_followers` returned.
   */
  method FollowersField(task: Task, stored: set<int>) returns (calls: seq<Call>)
    ensures multiset(calls) == multiset(ExpectedFollowerCalls(task, stored))
    ensures AddsBeforeRemovals(calls)
  {
    var ids := FollowersById(task).Keys;
    var adds, rest := AddNewFollowers(task, stored);
    var removals := RemoveFollowers(task, rest);
    calls := adds + removals;
    AddsThenRemovals(adds, removals, FollowerAdds(task, ids - stored), FollowerRemovals(task, stored - ids));
  }

  /**
   * The first loop: each of the task's followers already stored is struck
   * from the stored set, each other one is added; `rest` is what remains of
   * the stored set.
   */
  method AddNewFollowers(task: Task, stored: set<int>) returns (adds: seq<Call>, rest: set<int>)
    ensures rest == stored - FollowersById(task).Keys
    ensures multiset(adds) == multiset(FollowerAdds(task, FollowersById(task).Keys - stored))
  {
    var followers := FollowersById(task);
    adds, rest := [], stored;
    var todo := followers.Keys;
    ghost var done: set<int> := {};
    while todo != {}
      invariant todo <= followers.Keys && done == followers.Keys - todo
      invariant rest == stored - done
      invariant multiset(adds) == multiset(FollowerAdds(task, done - stored))
      decreases todo
    {
      var f := Pick(todo);
      if f in rest {
        rest := rest - {f};
        assert (done + {f}) - stored == done - stored;
      } else {
        FollowerAddsInsert(task, done - stored, f);
        AppendFresh(adds, FollowerAdds(task, done - stored), AddFollower(task.id, followers[f]));
        adds := adds + [AddFollower(task.id, followers[f])];
        assert (done + {f}) - stored == (done - stored) + {f};
      }
      done, todo := done + {f}, todo - {f};
    }
  }

  /** The second loop: `remove_follower` once for each id left in `ids`. */
  method RemoveFollowers(task: Task, ids: set<int>) returns (removals: seq<Call>)
    ensures multiset(removals) == multiset(FollowerRemovals(task, ids))
  {
    removals := [];
    var todo := ids;
    ghost var done: set<int> := {};
    while todo != {}
      invariant todo <= ids && done == ids - todo
      invariant multiset(removals) == multiset(FollowerRemovals(task, done))
      decreases todo
    {
      var f := Pick(todo);
      FollowerRemovalsInsert(task, done, f);
      AppendFresh(removals, FollowerRemovals(task, done), RemoveFollower(task.id, f));
      removals := removals + [RemoveFollower(task.id, f)];
      done, todo := done + {f}, todo - {f};
    }
  }

  // ---------------------------------------------------------------------------
  // CustomFields.get_data_from_task

  /**
   * Writes each of the task's custom field values that is new or changed and
   * removes each stored one the task no longer has, each exactly once,
   * writes first. `rows` is what the workspace's `task_custom_field_values`
   * returned.
   */
  method CustomFields(task: Task, rows: seq<CustomFieldRow>) returns (calls: seq<Call>)
    ensures multiset(calls) == multiset(ExpectedCustomFieldCalls(task, rows))
    ensures AddsBeforeRemovals(calls)
  {
    var ids := CustomFieldsById(task).Keys;
    var adds, rest := WriteChangedFields(task, rows);
    var removals := RemoveCustomFields(task, rest.Keys);
    calls := adds + removals;
    AddsThenRemovals(adds, removals, CustomFieldAdds(task, ChangedFields(task, rows, ids)),
                     CustomFieldRemovals(task, StoredById(rows).Keys - ids));
  }

  /**
   * The first loop: each of the task's fields that is stored is deleted from
   * the stored map and skipped when its value is unchanged; every other field
   * is written. `rest` is what remains of the stored map.
   */
  method WriteChangedFields(task: Task, rows: seq<CustomFieldRow>) returns (adds: seq<Call>, rest: map<int, CustomFieldRow>)
    ensures rest == StoredById(rows) - CustomFieldsById(task).Keys
    ensures multiset(adds) == multiset(CustomFieldAdds(task, ChangedFields(task, rows, CustomFieldsById(task).Keys)))
  {
    var fields := CustomFieldsById(task);
    var stored := StoredById(rows);
    adds, rest := [], stored;
    var todo := fields.Keys;
    ghost var done: set<int> := {};
    while todo != {}
      invariant todo <= fields.Keys && done == fields.Keys - todo
      invariant rest == stored - done
      invariant multiset(adds) == multiset(CustomFieldAdds(task, ChangedFields(task, rows, done)))
      decreases todo
    {
      var id := Pick(todo);
      var field := fields[id];
      var write := true;
      if id in rest {
        var oldField := rest[id];
        rest := rest - {id};
        if Unchanged(field, oldField) {
          write := false;
        }
      }
      CustomFieldStep(task, rows, done, id, adds, write);
      if write {
        adds := adds + [AddCustomFieldValue(task.id, field)];
      }
      done, todo := done + {id}, todo - {id};
    }
  }

  /** The second loop: `remove_custom_field_value` once for each id in `ids`. */
  method RemoveCustomFields(task: Task, ids: set<int>) returns (removals: seq<Call>)
    ensures multiset(removals) == multiset(CustomFieldRemovals(task, ids))
  {
    removals := [];
    var todo := ids;
    ghost var done: set<int> := {};
    while todo != {}
      invariant todo <= ids && done == ids - todo
      invariant multiset(removals) == multiset(CustomFieldRemovals(task, done))
      decreases todo
    {
      var id := Pick(todo);
      CustomFieldRemovalsInsert(task, done, id);
      AppendFresh(removals, CustomFieldRemovals(task, done), RemoveCustomFieldValue(task.id, id));
      removals := removals + [RemoveCustomFieldValue(task.id, id)];
      done, todo := done + {id}, todo - {id};
    }
  }
  // ---------------------------------------------------------------------------
  // default_fields

  /** The SQL column types the default fields declare. */
  datatype SqlType = Integer | String | Text | DateTime | Boolean | Date

  /** What a field does with a task: copy an attribute, or one of the fields above. */
  datatype FieldKind = Simple | ParentId | Assignee | Projects | Followers | CustomFieldValues {
    predicate IsRelation() { Projects? || Followers? || CustomFieldValues? }
  }

  /** A column default declared by a simple field. */
  datatype ColumnDefault = NoDefault | BoolDefault(b: bool) | IntDefault(i: int)

  /** A field: its kind and the column it fills, if any (relation fields fill none). */
  datatype FieldDef = FieldDef(kind: FieldKind, sqlName: Option<string>, sqlType: Option<SqlType>,
                               primaryKey: bool, default: ColumnDefault)

  function SimpleField(name: string, t: SqlType, default: ColumnDefault): FieldDef {
    FieldDef(Simple, Some(name), Some(t), false, default)
  }

  function RelationField(kind: FieldKind): FieldDef {
    FieldDef(kind, None, None, false, NoDefault)
  }

  /**
   * The fields every project table gets, in order: the task id as primary
   * key, the scalar attributes, parent and assignee, then the three relation
   * fields, which fill no column of their own.
   */
  function DefaultFields(): (fs: seq<FieldDef>)
    ensures |fs| == 16
    ensures fs[0].sqlName == Some("id") && fs[0].sqlType == Some(Integer)
    ensures forall i :: 0 <= i < |fs| ==> (fs[i].primaryKey <==> i == 0)
    ensures forall i :: 0 <= i < |fs| ==> (fs[i].sqlName.None? <==> fs[i].kind.IsRelation())
    ensures forall i :: 0 <= i < |fs| ==> (fs[i].kind.IsRelation() <==> i >= 13)
    ensures forall i, j :: 0 <= i < j < |fs| && fs[i].sqlName.Some? ==> fs[i].sqlName != fs[j].sqlName
    ensures forall i, j :: 0 <= i < j < |fs| ==> fs[i].kind.Simple? || fs[i].kind != fs[j].kind
  {
    [ FieldDef(Simple, Some("id"), Some(Integer), true, NoDefault),
      SimpleField("name", String, NoDefault),
      SimpleField("notes", Text, NoDefault),
      SimpleField("created_at", DateTime, NoDefault),
      SimpleField("modified_at", DateTime, NoDefault),
      SimpleField("completed", Boolean, BoolDefault(false)),
      SimpleField("completed_at", DateTime, NoDefault),
      SimpleField("due_on", Date, NoDefault),
      SimpleField("due_at", DateTime, NoDefault),
      SimpleField("num_hearts", Integer, IntDefault(0)),
      FieldDef(ParentId, Some("parent_id"), Some(Integer), false, NoDefault),
      FieldDef(Assignee, Some("assignee_id"), Some(Integer), false, NoDefault),
      SimpleField("assignee_status", String, NoDefault),
      RelationField(Projects),
      RelationField(Followers),
      RelationField(CustomFieldValues) ]
  }
}
