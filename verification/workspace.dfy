/**
 * The workspace: the auxiliary tables shared by every project table (projects,
 * memberships, users, followers and the custom field tables). The database is
 * abstract state: each id-keyed table is a map, the membership table is a set
 * of (task id, project id) pairs, and every statement the workspace writes is
 * also appended to a log.
 */
module Workspaces {
  import opened Wrappers
  import opened Collections
  import opened Tasks
  import opened Util

  /** The seven auxiliary tables. */
  datatype AuxTable =
    | ProjectsTable
    | ProjectMembershipsTable
    | UsersTable
    | FollowersTable
    | CustomFieldsTable
    | CustomFieldEnumValuesTable
    | CustomFieldValuesTable

  /** The name each table has when the configuration does not override it. */
  function DefaultName(t: AuxTable): string {
    match t
    case ProjectsTable => "projects"
    case ProjectMembershipsTable => "project_memberships"
    case UsersTable => "users"
    case FollowersTable => "followers"
    case CustomFieldsTable => "custom_fields"
    case CustomFieldEnumValuesTable => "custom_field_enum_values"
    case CustomFieldValuesTable => "custom_field_values"
  }

  /** The configured table names; each may be absent. */
  datatype Config = Config(
    projectsTableName: Option<string>,
    projectMembershipsTableName: Option<string>,
    usersTableName: Option<string>,
    followersTableName: Option<string>,
    customFieldsTableName: Option<string>,
    customFieldEnumValuesTableName: Option<string>,
    customFieldValuesTableName: Option<string>)
  {
    function Override(t: AuxTable): Option<string> {
      match t
      case ProjectsTable => projectsTableName
      case ProjectMembershipsTable => projectMembershipsTableName
      case UsersTable => usersTableName
      case FollowersTable => followersTableName
      case CustomFieldsTable => customFieldsTableName
      case CustomFieldEnumValuesTable => customFieldEnumValuesTableName
      case CustomFieldValuesTable => customFieldValuesTableName
    }
  }

  /** A configuration that overrides nothing. */
  const NoOverrides := Config(None, None, None, None, None, None, None)

  /**
   * The name of table `t` (`config.<t>_table_name or <T>_TABLE_NAME`): the
   * configured name when it is truthy, the default otherwise; never empty.
   */
  function TableName(config: Config, t: AuxTable): (r: string)
    ensures Truthy(config.Override(t)) ==> r == config.Override(t).value
    ensures !Truthy(config.Override(t)) ==> r == DefaultName(t)
    ensures r != []
  {
    if Truthy(config.Override(t)) then config.Override(t).value else DefaultName(t)
  }

  /** Without overrides the seven tables get seven different names. */
  lemma DefaultNamesDistinct(t: AuxTable, u: AuxTable)
    requires t != u
    ensures TableName(NoOverrides, t) != TableName(NoOverrides, u)
  {
    assert |DefaultName(t)| != |DefaultName(u)| || DefaultName(t)[0] != DefaultName(u)[0];
  }

  /** The tables `create_tables` creates, in the order it creates them. */
  const AllTables: seq<AuxTable> := [ProjectsTable, ProjectMembershipsTable, UsersTable, FollowersTable,
                                     CustomFieldsTable, CustomFieldEnumValuesTable, CustomFieldValuesTable]

  /** A statement written to the database, with the resolved name of the table it writes. */
  datatype Write =
    | CreateTable(table: AuxTable, name: string)
    | UpsertUser(name: string, userId: int, userName: string)
    | UpsertProject(name: string, projectId: int, projectName: string)
    | InsertMembership(name: string, taskId: int, projectId: int)
    | DeleteMembership(name: string, taskId: int, projectId: int)

  /** The database: created tables by name, the two id-keyed tables, and the membership pairs. */
  datatype Db = Db(
    created: set<string>,
    users: map<int, string>,
    projects: map<int, string>,
    memberships: set<(int, int)>)

  /**
   * The effect of one statement: `CREATE TABLE IF NOT EXISTS` records the
   * name, `INSERT OR REPLACE` on an id primary key is a map update, and on the
   * (task, project) primary key a set insertion; `DELETE` removes the pair.
   */
  function Apply(db: Db, w: Write): (r: Db)
    ensures !w.CreateTable? ==> r.created == db.created
    ensures !w.UpsertUser? ==> r.users == db.users
    ensures !w.UpsertProject? ==> r.projects == db.projects
    ensures !w.InsertMembership? && !w.DeleteMembership? ==> r.memberships == db.memberships
    ensures w.CreateTable? ==> w.name in r.created
    ensures w.InsertMembership? ==> (w.taskId, w.projectId) in r.memberships
    ensures w.DeleteMembership? ==> (w.taskId, w.projectId) !in r.memberships
  {
    match w
    case CreateTable(_, name) => db.(created := db.created + {name})
    case UpsertUser(_, id, name) => db.(users := db.users[id := name])
    case UpsertProject(_, id, name) => db.(projects := db.projects[id := name])
    case InsertMembership(_, t, p) => db.(memberships := db.memberships + {(t, p)})
    case DeleteMembership(_, t, p) => db.(memberships := db.memberships - {(t, p)})
  }

  /** The statements in order. */
  function ApplyAll(db: Db, ws: seq<Write>): (r: Db)
    ensures db.created <= r.created
    ensures db.users.Keys <= r.users.Keys && db.projects.Keys <= r.projects.Keys
    decreases |ws|
  {
    if ws == [] then db else Apply(ApplyAll(db, ws[..|ws| - 1]), ws[|ws| - 1])
  }

  /** Running two batches of statements is running the first, then the second. */
  lemma {:induction false} ApplyAllAppend(db: Db, ws: seq<Write>, more: seq<Write>)
    ensures ApplyAll(db, ws + more) == ApplyAll(ApplyAll(db, ws), more)
    decreases |more|
  {
    if more != [] {
      var last := |more| - 1;
      assert (ws + more)[..|ws + more| - 1] == ws + more[..last];
      ApplyAllAppend(db, ws, more[..last]);
    } else {
      assert ws + more == ws;
    }
  }

  /** Two statements in a row. */
  lemma ApplyAllPair(db: Db, w: Write, w2: Write)
    ensures ApplyAll(db, [w, w2]) == Apply(Apply(db, w), w2)
  {
    assert [w, w2][..1] == [w];
    assert [w][..0] == [];
    assert ApplyAll(db, [w]) == Apply(ApplyAll(db, []), w);
  }

  /** Every statement is idempotent: running it twice is running it once. */
  lemma ApplyIdempotent(db: Db, w: Write)
    ensures Apply(Apply(db, w), w) == Apply(db, w)
  {
    match w
    case CreateTable(_, name) =>
      assert db.created + {name} + {name} == db.created + {name};
    case UpsertUser(_, id, name) =>
    case UpsertProject(_, id, name) =>
    case InsertMembership(_, t, p) =>
      assert db.memberships + {(t, p)} + {(t, p)} == db.memberships + {(t, p)};
    case DeleteMembership(_, t, p) =>
      assert db.memberships - {(t, p)} - {(t, p)} == db.memberships - {(t, p)};
  }

  /** An upsert binds its id to its name and leaves every other row and table as it was. */
  lemma UpsertIsLocal(db: Db, w: Write, id: int)
    requires w.UpsertUser? || w.UpsertProject?
    ensures w.UpsertUser? ==> Apply(db, w).users[w.userId] == w.userName
    ensures w.UpsertProject? ==> Apply(db, w).projects[w.projectId] == w.projectName
    ensures w.UpsertUser? && id != w.userId ==>
              (id in Apply(db, w).users <==> id in db.users) && (id in db.users ==> Apply(db, w).users[id] == db.users[id])
    ensures w.UpsertProject? && id != w.projectId ==>
              (id in Apply(db, w).projects <==> id in db.projects) && (id in db.projects ==> Apply(db, w).projects[id] == db.projects[id])
    ensures w.UpsertUser? ==> Apply(db, w).projects == db.projects && Apply(db, w).memberships == db.memberships
    ensures w.UpsertProject? ==> Apply(db, w).users == db.users && Apply(db, w).memberships == db.memberships
  {
  }

  /** The project ids stored with task `taskId`. */
  function MembershipsOf(db: Db, taskId: int): (ps: set<int>)
    ensures forall p :: p in ps <==> (taskId, p) in db.memberships
  {
    var ps := set m | m in db.memberships && m.0 == taskId :: m.1;
    assert forall p :: (taskId, p) in db.memberships ==> (taskId, p).1 in ps;
    ps
  }

  /** The `create_tables` statements: one per auxiliary table, each under its resolved name. */
  function CreateTableWrites(config: Config): seq<Write> {
    [ CreateTable(ProjectsTable, TableName(config, ProjectsTable)),
      CreateTable(ProjectMembershipsTable, TableName(config, ProjectMembershipsTable)),
      CreateTable(UsersTable, TableName(config, UsersTable)),
      CreateTable(FollowersTable, TableName(config, FollowersTable)),
      CreateTable(CustomFieldsTable, TableName(config, CustomFieldsTable)),
      CreateTable(CustomFieldEnumValuesTable, TableName(config, CustomFieldEnumValuesTable)),
      CreateTable(CustomFieldValuesTable, TableName(config, CustomFieldValuesTable)) ]
  }

  /** Table creations record their names and touch no row. */
  lemma {:induction false} ApplyCreates(db: Db, ws: seq<Write>)
    requires forall i :: 0 <= i < |ws| ==> ws[i].CreateTable?
    ensures ApplyAll(db, ws) == db.(created := db.created + set i | 0 <= i < |ws| :: ws[i].name)
    decreases |ws|
  {
    if ws != [] {
      var k := |ws| - 1;
      ApplyCreates(db, ws[..k]);
      assert (set i | 0 <= i < |ws| :: ws[i].name) == (set i | 0 <= i < k :: ws[..k][i].name) + {ws[k].name};
    }
  }

  /** Where table `t` stands in `AllTables`. */
  function Position(t: AuxTable): (i: nat)
    ensures i < |AllTables| && AllTables[i] == t
  {
    match t
    case ProjectsTable => 0
    case ProjectMembershipsTable => 1
    case UsersTable => 2
    case FollowersTable => 3
    case CustomFieldsTable => 4
    case CustomFieldEnumValuesTable => 5
    case CustomFieldValuesTable => 6
  }

  /** Creating the tables adds every table's resolved name, and nothing else, and touches no row. */
  lemma CreateTablesEffect(config: Config, db: Db)
    ensures var after := ApplyAll(db, CreateTableWrites(config));
            && (forall t :: TableName(config, t) in after.created)
            && (forall n :: n in after.created ==> n in db.created || exists t :: n == TableName(config, t))
            && after.users == db.users && after.projects == db.projects && after.memberships == db.memberships
  {
    var ws := CreateTableWrites(config);
    var names := set i | 0 <= i < |ws| :: ws[i].name;
    ApplyCreates(db, ws);
    forall t ensures TableName(config, t) in names {
      assert ws[Position(t)].name == TableName(config, t);
    }
    forall n | n in names ensures exists t :: n == TableName(config, t) {
      var i :| 0 <= i < |ws| && ws[i].name == n;
      assert n == TableName(config, AllTables[i]);
    }
  }

  /** The workspace: its configuration, the database it writes, and the statements written so far. */
  class Workspace {
    const config: Config
    var db: Db
    var log: seq<Write>
    /** The database as it was before the workspace wrote anything. */
    ghost const initial: Db

    /** The database is the effect of the logged statements on the initial one. */
    ghost predicate Valid()
      reads this
    {
      db == ApplyAll(initial, log)
    }

    constructor(config: Config, db: Db)
      ensures Valid()
      ensures this.config == config && this.db == db && log == []
    {
      this.config := config;
      this.db := db;
      log := [];
      initial := db;
    }

    /** The accessor `<t>_table_name()`. */
    function Name(t: AuxTable): string {
      TableName(config, t)
    }

    /** Writes one statement: it is logged and takes effect. */
    method Execute(w: Write)
      requires Valid()
      modifies this
      ensures Valid()
      ensures log == old(log) + [w] && db == Apply(old(db), w)
    {
      log := log + [w];
      db := Apply(db, w);
    }

    /** `create_tables`: seven writes, one per auxiliary table, under the resolved names. */
    method CreateTables()
      requires Valid()
      modifies this
      ensures Valid()
      ensures log == old(log) + CreateTableWrites(config)
      ensures db == ApplyAll(old(db), CreateTableWrites(config))
    {
      ghost var ws := CreateTableWrites(config);
      Execute(CreateTable(ProjectsTable, Name(ProjectsTable)));
      Execute(CreateTable(ProjectMembershipsTable, Name(ProjectMembershipsTable)));
      Execute(CreateTable(UsersTable, Name(UsersTable)));
      Execute(CreateTable(FollowersTable, Name(FollowersTable)));
      Execute(CreateTable(CustomFieldsTable, Name(CustomFieldsTable)));
      Execute(CreateTable(CustomFieldEnumValuesTable, Name(CustomFieldEnumValuesTable)));
      Execute(CreateTable(CustomFieldValuesTable, Name(CustomFieldValuesTable)));
      assert log == old(log) + ws;
      ApplyAllAppend(initial, old(log), ws);
    }

    /** `ensure_user_exists`: upserts the user's row on its id. */
    method EnsureUserExists(user: Compact)
      requires Valid()
      modifies this
      ensures Valid()
      ensures log == old(log) + [UpsertUser(Name(UsersTable), user.id, user.name)]
      ensures db == old(db).(users := old(db).users[user.id := user.name])
    {
      Execute(UpsertUser(Name(UsersTable), user.id, user.name));
    }

    /** `ensure_project_exists`: upserts the project's row on its id. */
    method EnsureProjectExists(project: Compact)
      requires Valid()
      modifies this
      ensures Valid()
      ensures log == old(log) + [UpsertProject(Name(ProjectsTable), project.id, project.name)]
      ensures db == old(db).(projects := old(db).projects[project.id := project.name])
    {
      Execute(UpsertProject(Name(ProjectsTable), project.id, project.name));
    }

    /** `task_memberships`: the stored project ids of the task, each once, in the order the rows come back. */
    method TaskMemberships(taskId: int) returns (ids: seq<int>)
      ensures forall p :: p in ids <==> (taskId, p) in db.memberships
      ensures forall i, j :: 0 <= i < j < |ids| ==> ids[i] != ids[j]
    {
      var rows := MembershipsOf(db, taskId);
      ids := [];
      while rows != {}
        invariant rows <= MembershipsOf(db, taskId)
        invariant forall p :: p in ids <==> p in MembershipsOf(db, taskId) - rows
        invariant forall i, j :: 0 <= i < j < |ids| ==> ids[i] != ids[j]
        decreases rows
      {
        var p := Pick(rows);
        ids := ids + [p];
        rows := rows - {p};
      }
    }

    /** `add_task_to_project`: upserts the project, then inserts the (task, project) pair. */
    method AddTaskToProject(taskId: int, project: Compact)
      requires Valid()
      modifies this
      ensures Valid()
      ensures log == old(log) + [UpsertProject(Name(ProjectsTable), project.id, project.name),
                                 InsertMembership(Name(ProjectMembershipsTable), taskId, project.id)]
      ensures db == old(db).(projects := old(db).projects[project.id := project.name],
                             memberships := old(db).memberships + {(taskId, project.id)})
    {
      EnsureProjectExists(project);
      Execute(InsertMembership(Name(ProjectMembershipsTable), taskId, project.id));
    }

    /** `remove_task_from_project`: deletes exactly the (task, project) pair. */
    method RemoveTaskFromProject(taskId: int, projectId: int)
      requires Valid()
      modifies this
      ensures Valid()
      ensures log == old(log) + [DeleteMembership(Name(ProjectMembershipsTable), taskId, projectId)]
      ensures db == old(db).(memberships := old(db).memberships - {(taskId, projectId)})
    {
      Execute(DeleteMembership(Name(ProjectMembershipsTable), taskId, projectId));
    }
  }

  /** Adding a task to a project twice leaves the database as adding it once. */
  lemma AddTaskToProjectTwice(db: Db, config: Config, taskId: int, project: Compact)
    ensures var once := [UpsertProject(TableName(config, ProjectsTable), project.id, project.name),
                         InsertMembership(TableName(config, ProjectMembershipsTable), taskId, project.id)];
            ApplyAll(db, once + once) == ApplyAll(db, once)
  {
    var u := UpsertProject(TableName(config, ProjectsTable), project.id, project.name);
    var m := InsertMembership(TableName(config, ProjectMembershipsTable), taskId, project.id);
    ApplyAllAppend(db, [u, m], [u, m]);
    ApplyAllPair(db, u, m);
    ApplyAllPair(Apply(Apply(db, u), m), u, m);
    assert Apply(Apply(Apply(Apply(db, u), m), u), m) == Apply(Apply(db, u), m);
  }
}
