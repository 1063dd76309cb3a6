/**
 * Project memberships end to end: `ProjectsField` reads the task's stored
 * memberships from the workspace, decides its calls, and each call is carried
 * out by the workspace's `add_task_to_project` or `remove_task_from_project`.
 * Afterwards the task's stored memberships are exactly its projects.
 */
module Sync {
  import opened Tasks
  import opened Fields
  import opened Workspaces

  /** A call `ProjectsField` makes. */
  predicate IsMembershipCall(c: Call) {
    c.AddTaskToProject? || c.RemoveTaskFromProject?
  }

  /** The statements the workspace writes to carry out one membership call. */
  function CallWrites(config: Config, c: Call): seq<Write>
    requires IsMembershipCall(c)
  {
    if c.AddTaskToProject? then
      [UpsertProject(TableName(config, ProjectsTable), c.project.id, c.project.name),
       InsertMembership(TableName(config, ProjectMembershipsTable), c.taskId, c.project.id)]
    else
      [DeleteMembership(TableName(config, ProjectMembershipsTable), c.taskId, c.projectId)]
  }

  /** The statements for a sequence of membership calls, in order. */
  function CallsWrites(config: Config, calls: seq<Call>): seq<Write>
    requires forall i :: 0 <= i < |calls| ==> IsMembershipCall(calls[i])
    decreases |calls|
  {
    if calls == [] then []
    else CallsWrites(config, calls[..|calls| - 1]) + CallWrites(config, calls[|calls| - 1])
  }

  /** Some call adds task `t` to project `p`. */
  predicate AddsPair(calls: seq<Call>, t: int, p: int) {
    exists i :: 0 <= i < |calls| && calls[i].AddTaskToProject? && calls[i].taskId == t && calls[i].project.id == p
  }

  /** No pair is both added and removed by the calls. */
  predicate NoPairAddedAndRemoved(calls: seq<Call>) {
    forall i, j :: 0 <= i < |calls| && 0 <= j < |calls| && calls[i].AddTaskToProject? && calls[j].RemoveTaskFromProject?
      ==> calls[i].taskId != calls[j].taskId || calls[i].project.id != calls[j].projectId
  }

  /** The pairs added by calls ending in `c`: those added before, and the one `c` adds. */
  lemma AddsPairSnoc(front: seq<Call>, c: Call, t: int, p: int)
    ensures AddsPair(front + [c], t, p) <==>
            AddsPair(front, t, p) || (c.AddTaskToProject? && c.taskId == t && c.project.id == p)
  {
    var calls := front + [c];
    if AddsPair(front, t, p) {
      var i :| 0 <= i < |front| && front[i].AddTaskToProject? && front[i].taskId == t && front[i].project.id == p;
      assert calls[i] == front[i];
    }
    if c.AddTaskToProject? && c.taskId == t && c.project.id == p {
      assert calls[|front|] == c;
    }
    if AddsPair(calls, t, p) {
      var i :| 0 <= i < |calls| && calls[i].AddTaskToProject? && calls[i].taskId == t && calls[i].project.id == p;
      if i < |front| {
        assert front[i] == calls[i];
      }
    }
  }

  /** The effect of the statements for one membership call on the membership pairs. */
  lemma CallEffect(config: Config, db: Db, c: Call)
    requires IsMembershipCall(c)
    ensures c.AddTaskToProject? ==>
              ApplyAll(db, CallWrites(config, c)).memberships == db.memberships + {(c.taskId, c.project.id)}
    ensures c.RemoveTaskFromProject? ==>
              ApplyAll(db, CallWrites(config, c)).memberships == db.memberships - {(c.taskId, c.projectId)}
    ensures ApplyAll(db, CallWrites(config, c)).users == db.users
    ensures ApplyAll(db, CallWrites(config, c)).created == db.created
    ensures c.AddTaskToProject? ==> c.project.id in ApplyAll(db, CallWrites(config, c)).projects
  {
    var ws := CallWrites(config, c);
    if c.AddTaskToProject? {
      ApplyAllPair(db, ws[0], ws[1]);
    } else {
      assert ws[..0] == [];
      assert ApplyAll(db, ws) == Apply(ApplyAll(db, []), ws[0]);
    }
  }

  /**
   * Carrying out membership calls that never add and remove the same pair:
   * a pair is stored afterwards exactly when some call added it, or it was
   * stored before and no call removed it.
   */
  lemma {:induction false} MembershipsAfterCalls(config: Config, db: Db, calls: seq<Call>)
    requires forall i :: 0 <= i < |calls| ==> IsMembershipCall(calls[i])
    requires NoPairAddedAndRemoved(calls)
    ensures forall t, p :: (t, p) in ApplyAll(db, CallsWrites(config, calls)).memberships <==>
              AddsPair(calls, t, p) || ((t, p) in db.memberships && RemoveTaskFromProject(t, p) !in calls)
    decreases |calls|
  {
    if calls != [] {
      var k := |calls| - 1;
      var c := calls[k];
      var front := calls[..k];
      assert calls == front + [c];
      assert NoPairAddedAndRemoved(front) by {
        forall i, j | 0 <= i < |front| && 0 <= j < |front| && front[i].AddTaskToProject? && front[j].RemoveTaskFromProject?
          ensures front[i].taskId != front[j].taskId || front[i].project.id != front[j].projectId
        {
          assert front[i] == calls[i] && front[j] == calls[j];
        }
      }
      MembershipsAfterCalls(config, db, front);
      ApplyAllAppend(db, CallsWrites(config, front), CallWrites(config, c));
      CallEffect(config, ApplyAll(db, CallsWrites(config, front)), c);
      forall t, p
        ensures AddsPair(calls, t, p) <==>
                AddsPair(front, t, p) || (c.AddTaskToProject? && c.taskId == t && c.project.id == p)
      {
        AddsPairSnoc(front, c, t, p);
      }
      if c.RemoveTaskFromProject? {
        forall i | 0 <= i < |calls| && calls[i].AddTaskToProject?
          ensures calls[i].taskId != c.taskId || calls[i].project.id != c.projectId
        {
        }
      }
    }
  }

  /**
   * Convergence: carrying out, in any order, exactly the calls
   * `ProjectsField` owes for the task's stored memberships leaves the task
   * stored in exactly its own projects, and every other task's memberships
   * as they were.
   */
  lemma {:induction false} ProjectSyncConverges(config: Config, db: Db, task: Task, calls: seq<Call>)
    requires multiset(calls) == multiset(ExpectedProjectCalls(task, MembershipsOf(db, task.id)))
    ensures forall i :: 0 <= i < |calls| ==> IsMembershipCall(calls[i])
    ensures MembershipsOf(ApplyAll(db, CallsWrites(config, calls)), task.id) == ProjectIds(task)
    ensures forall t, p :: t != task.id ==>
              ((t, p) in ApplyAll(db, CallsWrites(config, calls)).memberships <==> (t, p) in db.memberships)
  {
    var stored := MembershipsOf(db, task.id);
    var expected := ExpectedProjectCalls(task, stored);
    ExpectedProjectCallsExactly(task, stored);
    assert forall c :: c in calls <==> c in expected by {
      forall c ensures c in calls <==> c in expected {
        assert c in calls <==> c in multiset(calls);
      }
    }
    forall i | 0 <= i < |calls| ensures IsMembershipCall(calls[i]) && calls[i].taskId == task.id {
      assert calls[i] in expected;
    }
    assert NoPairAddedAndRemoved(calls) by {
      forall i, j | 0 <= i < |calls| && 0 <= j < |calls| && calls[i].AddTaskToProject? && calls[j].RemoveTaskFromProject?
        ensures calls[i].taskId != calls[j].taskId || calls[i].project.id != calls[j].projectId
      {
        assert calls[i] in expected && calls[j] in expected;
        assert AddTaskToProject(task.id, calls[i].project) == calls[i];
        assert RemoveTaskFromProject(task.id, calls[j].projectId) == calls[j];
      }
    }
    MembershipsAfterCalls(config, db, calls);
    var after := ApplyAll(db, CallsWrites(config, calls));
    forall p ensures p in MembershipsOf(after, task.id) <==> p in ProjectIds(task) {
      if p in ProjectIds(task) - stored {
        var c := AddTaskToProject(task.id, ProjectsById(task)[p]);
        assert c in calls;
        var i :| 0 <= i < |calls| && calls[i] == c;
      }
      if AddsPair(calls, task.id, p) {
        var i :| 0 <= i < |calls| && calls[i].AddTaskToProject? && calls[i].taskId == task.id && calls[i].project.id == p;
        assert calls[i] in expected;
      }
    }
    forall t, p | t != task.id ensures (t, p) in after.memberships <==> (t, p) in db.memberships {
      assert RemoveTaskFromProject(t, p) !in expected;
    }
  }

  /**
   * Membership calls leave the users table and the created tables as they
   * were, and every project a call adds the task to is in the projects table.
   */
  lemma {:induction false} CallsEffectElsewhere(config: Config, db: Db, calls: seq<Call>)
    requires forall i :: 0 <= i < |calls| ==> IsMembershipCall(calls[i])
    ensures ApplyAll(db, CallsWrites(config, calls)).users == db.users
    ensures ApplyAll(db, CallsWrites(config, calls)).created == db.created
    ensures forall i :: 0 <= i < |calls| && calls[i].AddTaskToProject? ==>
              calls[i].project.id in ApplyAll(db, CallsWrites(config, calls)).projects
    decreases |calls|
  {
    if calls != [] {
      var k := |calls| - 1;
      var front := calls[..k];
      assert forall i :: 0 <= i < k ==> front[i] == calls[i];
      var mid := ApplyAll(db, CallsWrites(config, front));
      var ws := CallWrites(config, calls[k]);
      assert CallsWrites(config, calls) == CallsWrites(config, front) + ws;
      CallsEffectElsewhere(config, db, front);
      ApplyAllAppend(db, CallsWrites(config, front), ws);
      var after := ApplyAll(mid, ws);
      assert ApplyAll(db, CallsWrites(config, calls)) == after;
      CallEffect(config, mid, calls[k]);
      assert mid.projects.Keys <= after.projects.Keys;
      forall i | 0 <= i < |calls| && calls[i].AddTaskToProject?
        ensures calls[i].project.id in after.projects
      {
        if i < k {
          assert front[i].project.id in mid.projects;
        }
      }
    }
  }

  /** Carries out membership calls one by one through the workspace. */
  method Perform(ws: Workspace, calls: seq<Call>)
    requires ws.Valid()
    requires forall i :: 0 <= i < |calls| ==> IsMembershipCall(calls[i])
    modifies ws
    ensures ws.Valid()
    ensures ws.log == old(ws.log) + CallsWrites(ws.config, calls)
    ensures ws.db == ApplyAll(old(ws.db), CallsWrites(ws.config, calls))
  {
    ghost var log0 := ws.log;
    for i := 0 to |calls|
      invariant ws.Valid()
      invariant ws.log == log0 + CallsWrites(ws.config, calls[..i])
    {
      assert calls[..i + 1][..i] == calls[..i];
      var c := calls[i];
      if c.AddTaskToProject? {
        ws.AddTaskToProject(c.taskId, c.project);
      } else {
        ws.RemoveTaskFromProject(c.taskId, c.projectId);
      }
    }
    assert calls[..|calls|] == calls;
    ApplyAllAppend(ws.initial, log0, CallsWrites(ws.config, calls));
  }

  /**
   * Synchronises a task's project memberships: reads them, runs
   * `ProjectsField`, and carries out its calls. Afterwards the task's stored
   * memberships are exactly its projects and no other task's changed.
   */
  method SyncProjects(ws: Workspace, task: Task) returns (calls: seq<Call>)
    requires ws.Valid()
    modifies ws
    ensures ws.Valid()
    ensures multiset(calls) == multiset(ExpectedProjectCalls(task, MembershipsOf(old(ws.db), task.id)))
    ensures forall i :: 0 <= i < |calls| ==> IsMembershipCall(calls[i])
    ensures ws.log == old(ws.log) + CallsWrites(ws.config, calls)
    ensures ws.db == ApplyAll(old(ws.db), CallsWrites(ws.config, calls))
    ensures MembershipsOf(ws.db, task.id) == ProjectIds(task)
    ensures forall t, p :: t != task.id ==> ((t, p) in ws.db.memberships <==> (t, p) in old(ws.db.memberships))
    ensures forall p :: p in ProjectIds(task) - MembershipsOf(old(ws.db), task.id) ==> p in ws.db.projects
    ensures ws.db.users == old(ws.db.users) && ws.db.created == old(ws.db.created)
  {
    var memberships := ws.TaskMemberships(task.id);
    assert (set p | p in memberships) == MembershipsOf(ws.db, task.id);
    calls := ProjectsField(task, memberships);
    ProjectSyncConverges(ws.config, ws.db, task, calls);
    CallsEffectElsewhere(ws.config, ws.db, calls);
    ghost var stored := MembershipsOf(ws.db, task.id);
    ExpectedProjectCallsExactly(task, stored);
    forall p | p in ProjectIds(task) - stored
      ensures exists i :: 0 <= i < |calls| && calls[i].AddTaskToProject? && calls[i].project.id == p
    {
      var c := AddTaskToProject(task.id, ProjectsById(task)[p]);
      assert c in multiset(calls);
      var i :| 0 <= i < |calls| && calls[i] == c;
    }
    Perform(ws, calls);
  }
}
