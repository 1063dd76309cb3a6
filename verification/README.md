# asana2sql reconciliation core in Dafny

asana2sql copies Asana tasks into SQL tables: one table per project, with one row per task. Auxiliary tables are shared by the whole workspace: projects, project memberships, users, followers, custom fields, custom field enum values, and custom field values. This project models the part of asana2sql that decides what to write. It covers:

- **Fields** (`fields.dfy`, module `Fields`). The assignee and parent-id extractors return a column value. The three relation fields (projects, followers, custom field values) compare the task's relation with the stored one. They add what is new or changed and remove what is gone. Each of them returns the sequence of workspace calls it makes. Each is proved against the set of calls it owes: every call is issued exactly once, and additions come before removals. `DefaultFields` gives the default column list, in order.
- **Workspace** (`workspace.dfy`, module `Workspaces`). This is a class over an abstract database: created tables, the users map, the projects map and the membership pairs. It also keeps a log of every statement written. It covers the seven table-name accessors, `create_tables`, the two upserts, `task_memberships`, `add_task_to_project` and `remove_task_from_project`. The class invariant says the database is the effect of the logged statements.
- **Synchronisation** (`sync.dfy`, module `Sync`). `ProjectsField` and the workspace together: after a task's project calls are carried out, the task's stored memberships are exactly its projects, in whatever order the set iteration produced the calls. No other task's memberships change.
- **Cache** (`cache.dfy`, module `Caching`). The lazily seeded, write-through cache. A value reaches the store only when it differs from the cached one.
- **Project** (`project.dfy`, module `Projects`). The memoised remote lookup, `NoSuchProjectException`, the derived table name, and the `CREATE TABLE` statement.
- **`sql_safe_name`** (`util.dfy`, module `Util`). This follows Python 2 `re` without the UNICODE flag:
  - `\s` matches space, tab, newline, carriage return, form feed and vertical tab.
  - `\W` matches anything that is not an ASCII letter, a digit or `_`.

Shared pieces:

- `collections.dfy` holds the model of a Python dict comprehension, where the later item for a key wins (`IndexBy`). It also holds `Pick`, an arbitrary element of a set, which stands for set and dict iteration order.
- `tasks.dfy` holds the task as the Asana API returns it.
  - Optional keys may be missing: `assignee`, `parent`, `projects`, `followers` and `custom_fields`. An assignee's or parent's `id` and `name` may each be absent, null or a value.
  - Some keys are always present, because the source indexes them directly: the task's `id`, the `id` and `name` of each project and follower (the model keeps a follower's `name` too), and the `id` and `type` of each custom field value.
- `wrappers.dfy` holds `Option` and `Result`.

Remote calls are parameters:

- What Asana would answer for a project lookup.
- What the workspace's readers return to the fields.
- The rows the cache's seed function returns.

## Model

| member | source | states |
|---|---|---|
| Collections.IndexBy | asana2sql/fields.py:88 | Every entry of the dict comprehension is an item of the list, stored under its own key |
| Collections.IndexByKeys | asana2sql/fields.py:88-90 | The comprehension's keys (`set(projects.keys())`) are exactly the keys of the list's items |
| Collections.IndexByLastWins | asana2sql/fields.py:88 | An item that no later item shares a key with is the one stored under its key |
| Collections.IndexByStoresLast | asana2sql/fields.py:88 | The item stored under a key is the last item in the list with that key |
| Util.SqlSafeName | asana2sql/util.py:4-5 | The result contains only word characters and is never longer than the input |
| Util.ReplaceSpaces | asana2sql/util.py:5 | `re.sub("\s", "_", s)`: keeps the length |
| Util.DropNonWord | asana2sql/util.py:5 | `re.sub("\W", "", s)`: only word characters remain, and the result is never longer |
| Util.ReplaceSpacesShape | asana2sql/util.py:5 | The inner substitution keeps the length, turns each whitespace char into `_`, and leaves every other char alone |
| Util.DropNonWordWords | asana2sql/util.py:5 | The outer substitution leaves only word characters, is never longer, and keeps the length iff every char is a word char |
| Util.SqlSafeNameLength | asana2sql/util.py:4-5 | The name keeps its length iff every char is a word char or whitespace |
| Util.SqlSafeNameAppend | asana2sql/util.py:4-5 | The function works char by char: the name of a concatenation is the concatenation of the names |
| Util.SqlSafeNameChar | asana2sql/util.py:4-5 | A single char becomes `_` if it is whitespace, stays if it is a word char, and vanishes otherwise |
| Util.SqlSafeNameIdempotent | asana2sql/util.py:4-5 | Applying the function to its own result changes nothing |
| Util.SqlSafeNameSpacedWords | asana2sql/util.py:4-5 | Two words joined by a space become the words joined by `_` |
| Util.SqlSafeNameExample | asana2sql/test/project_test.py:10-18 | "Test Table" becomes "Test_Table" |
| Fields.AssigneeField | asana2sql/fields.py:52-58 | `add_user(assignee)` is called, once, iff the assignee is present and non-empty, where an attribute holding null still makes it non-empty. The value is the id, or -1 when the id attribute is absent. There is no value iff the assignee is missing or empty or its id is null |
| Fields.ParentIdField | asana2sql/fields.py:72-77 | There is no value iff the parent is missing or empty or its id is null. Otherwise the value is the parent's id, or -1 when the id attribute is absent |
| Fields.Unchanged | asana2sql/fields.py:122-130 | A stored value needs no write only for a text, number or enum field. A text field needs none iff its text equals the stored text |
| Fields.ProjectIdsOfList | asana2sql/fields.py:88-90 | The task's project ids are the ids in its `projects` list; none when the key is missing |
| Fields.ExpectedProjectCallsExactly | asana2sql/fields.py:87-97 | Project `p` is added iff its id is new and `p` is the task's last record with that id; `pid` is removed iff it is stored and not among the task's projects; every call is for this task |
| Fields.ProjectsInSyncIssueNothing | asana2sql/fields.py:87-97 | No call is owed iff the stored projects equal the task's |
| Fields.MissingProjectsRemoveAll | asana2sql/fields.py:88 | A task without `projects` is removed from every stored project and added to none |
| Fields.ProjectsField | asana2sql/fields.py:87-97 | The calls are exactly the owed adds and removals, each once, all adds before all removals |
| Fields.AddToProjects | asana2sql/fields.py:93-94 | `add_task_to_project` is called once for each new id, with that id's project record |
| Fields.RemoveFromProjects | asana2sql/fields.py:96-97 | `remove_task_from_project` is called once for each stored id the task has left |
| Fields.ExpectedFollowerCallsExactly | asana2sql/fields.py:147-158 | Follower `f` is added iff it is the task's last record for an id not stored; `fid` is removed iff it is stored and no longer a follower; every call is for this task |
| Fields.MissingFollowersRemoveAll | asana2sql/fields.py:148 | A task without `followers` removes every stored follower and adds none |
| Fields.FollowersField | asana2sql/fields.py:147-158 | The calls are exactly the owed adds and removals, each once, adds first |
| Fields.AddNewFollowers | asana2sql/fields.py:151-155 | A stored follower is struck from the stored set and every other follower is added, once each; what remains is the stored ids the task no longer has |
| Fields.RemoveFollowers | asana2sql/fields.py:157-158 | `remove_follower` is called once for each remaining stored id |
| Fields.ExpectedCustomFieldCallsExactly | asana2sql/fields.py:112-136 | A value is written iff it is the task's last value for its field and that field is not stored or is stored with a different value for its type; field `id` is removed iff some stored row has it and the task does not; every call is an add or remove for this task |
| Fields.MissingCustomFieldsRemoveAll | asana2sql/fields.py:113-114 | A task without `custom_fields` removes every stored field value and writes none |
| Fields.CustomFields | asana2sql/fields.py:112-136 | The calls are exactly the owed writes and removals, each once, writes first |
| Fields.WriteChangedFields | asana2sql/fields.py:118-132 | Every new or changed value is written once, and unchanged text, number and enum values are skipped; what remains of the stored map is the fields the task lacks |
| Fields.RemoveCustomFields | asana2sql/fields.py:134-136 | `remove_custom_field_value` is called once for each remaining stored field |
| Fields.DefaultFields | asana2sql/fields.py:161-178 | 16 fields in source order. The task id is the only primary key and comes first. The three relation fields come last and fill no column. Column names are distinct and no special field appears twice |
| Workspaces.TableName | asana2sql/workspace.py:83-102 | The configured name when it is truthy, the default constant otherwise; never empty |
| Workspaces.DefaultNamesDistinct | asana2sql/workspace.py:3-60 | With no overrides, the seven tables have seven different names |
| Workspaces.Apply | asana2sql/workspace.py:4-24 | One statement changes only the table it writes. A created name exists afterwards, an inserted pair is stored and a deleted pair is gone |
| Workspaces.ApplyAll | asana2sql/workspace.py:4-24 | Statements in order: tables are never dropped, and user and project ids are never removed |
| Workspaces.ApplyIdempotent | asana2sql/workspace.py:4-24 | `CREATE TABLE IF NOT EXISTS`, `INSERT OR REPLACE` and `DELETE` each have the same effect twice as once |
| Workspaces.UpsertIsLocal | asana2sql/workspace.py:9-10 | An upsert binds its id to its name and leaves every other row and table alone |
| Workspaces.MembershipsOf | asana2sql/workspace.py:19-20 | A project id is selected for a task iff the (task, project) pair is stored |
| Workspaces.CreateTablesEffect | asana2sql/workspace.py:104-125 | After `create_tables` every table's resolved name exists; nothing else is created and no row changes |
| Workspaces.Workspace.constructor | asana2sql/workspace.py:78-81 | A workspace with the given configuration and database and an empty log |
| Workspaces.Workspace.Execute | asana2sql/workspace.py:105 | A write is logged and takes effect |
| Workspaces.Workspace.CreateTables | asana2sql/workspace.py:104-125 | Writes the seven `CREATE TABLE` statements in source order under the resolved names and keeps the database/log invariant |
| Workspaces.Workspace.EnsureUserExists | asana2sql/workspace.py:127-131 | Writes one upsert into the users table; the user's id now maps to its name and nothing else changes |
| Workspaces.Workspace.EnsureProjectExists | asana2sql/workspace.py:133-137 | Writes one upsert into the projects table; the project's id now maps to its name and nothing else changes |
| Workspaces.Workspace.TaskMemberships | asana2sql/workspace.py:139-143 | Returns exactly the stored project ids of the task, without duplicates, and changes nothing |
| Workspaces.Workspace.AddTaskToProject | asana2sql/workspace.py:145-150 | Upserts the project, then inserts the (task, project) pair; nothing else changes |
| Workspaces.Workspace.RemoveTaskFromProject | asana2sql/workspace.py:152-156 | Deletes exactly the (task, project) pair |
| Workspaces.AddTaskToProjectTwice | asana2sql/workspace.py:145-150 | Adding a task to a project twice leaves the database as adding it once |
| Sync.MembershipsAfterCalls | asana2sql/workspace.py:145-156 | After membership calls that never add and remove one pair, a pair is stored iff some call added it, or it was stored and no call removed it |
| Sync.ProjectSyncConverges | asana2sql/fields.py:87-97 | The owed calls, carried out in any order, leave the task stored in exactly its projects; other tasks are untouched |
| Sync.Perform | asana2sql/fields.py:93-97 | Carrying out the calls one by one through the workspace writes their statements in order |
| Sync.CallsEffectElsewhere | asana2sql/workspace.py:145-156 | Membership calls leave the users table and the created tables alone; every project a call adds the task to is in the projects table |
| Sync.SyncProjects | asana2sql/fields.py:87-97 | Reads the memberships, runs `ProjectsField` and carries out its calls. The log grows by exactly those calls' statements, and the database is their effect. The task's memberships become its projects and no other task's change. Every newly joined project is upserted into the projects table. Users and created tables are unchanged |
| Caching.SeededEntries | asana2sql/cache.py:22-26 | Each seeded entry is a seed row stored under its own key, and every seed row's key is cached |
| Caching.Cache.constructor | asana2sql/cache.py:6-12 | An unprimed cache with nothing touched and nothing written |
| Caching.Cache.PrimeCache | asana2sql/cache.py:22-26 | Reads the store once and caches every row under its key, a later row winning |
| Caching.Cache.InsertAndCache | asana2sql/cache.py:28-30 | Writes the value to the store and caches it under the key |
| Caching.Cache.Touch | asana2sql/cache.py:32-33 | Adds the key to the touched set |
| Caching.Cache.Get | asana2sql/cache.py:35-41 | Primes at most once; returns the cached row for the key, or none; touches the key; never writes |
| Caching.Cache.Add | asana2sql/cache.py:43-53 | Primes at most once; touches the key; caches the value; writes it to the store iff the cached row for its key is absent or different |
| Caching.AddThenGet | asana2sql/cache.py:35-53 | After `add(v)`, `get` of v's key returns v; other keys keep their entries; the store is read once |
| Caching.AddTwice | asana2sql/cache.py:43-53 | Adding the same value twice writes it at most once |
| Caching.AddNewKey | asana2sql/cache_test.py:14-24 | With ids 1 and 2 stored, id 3 is missing; after adding `{id: 3}` it is found; one seed read and one write, of that row |
| Caching.AddSameRow | asana2sql/workspace_test.py:99-106 | Adding a row equal to the stored one writes nothing |
| Projects.Columns | asana2sql/Project.py:43-47 | The definitions joined, each followed by a comma: empty iff there are none, otherwise ending in a comma, and at least one character per definition |
| Projects.CreateTableStatement | asana2sql/Project.py:5-8 | The template: it opens with `CREATE TABLE "`, then the table name, with the key column and the column definitions between them, and closes with `PRIMARY KEY task_id)` |
| Projects.ColumnsAppend | asana2sql/Project.py:43-47 | Joining two lists of column definitions is joining each and concatenating |
| Projects.ColumnsRoundTrip | asana2sql/Project.py:43-47 | Comma-free column definitions are recovered, in order, from the joined text |
| Projects.Project.constructor | asana2sql/Project.py:17-23 | A project with nothing memoised |
| Projects.Project.ProjectData | asana2sql/Project.py:25-32 | Asks the remote only while nothing is memoised; an unknown project fails with `NoSuchProjectException(project_id)` and memoises nothing |
| Projects.Project.ProjectName | asana2sql/Project.py:37-38 | The name in the memoised or fetched record, or the same failure |
| Projects.Project.TableName | asana2sql/Project.py:34-35 | A truthy explicit name is made SQL-safe without asking the remote; otherwise the project name is; the result contains only word chars |
| Projects.Project.CreateTableSql | asana2sql/Project.py:40-47 | The template filled with the resolved table name and each field definition followed by a comma, or the lookup's failure |
| Projects.LookupTwice | asana2sql/Project.py:25-32 | Once a lookup succeeds, the next one returns the same record without asking the remote |
| Projects.DerivedTableName | asana2sql/test/project_test.py:10-18 | A project named "Test Table" with no explicit name gets the table "Test_Table" |

## Left out

- Simple fields (`SimpleField`, `Field.field_definition_sql`, `required_fields`) are left out. `Field.py` is not part of this model. `DefaultFields` records each field's column name, type, key flag and default, not its SQL text. `CreateTableSql` takes the column definitions as given strings.
- The workspace methods the fields call but `workspace.py` does not define are left out: `add_user`, `get_followers`, `add_follower`, `remove_follower`, `task_custom_field_values`, `add_custom_field_value` and `remove_custom_field_value`. The fields return these calls instead of performing them, so there is no database model for followers or custom field values.
- `get_followers` is modelled as returning a set. The model does not cover a stored list with duplicate ids.
- `ProjectsField`, `FollowersField` and `CustomFields` return their calls instead of making them while they loop. Only the project calls are then carried out through the workspace (`Sync.Perform`). For projects, all reads come before the loops, so the effect on the database is the same as the source's. The follower and custom-field calls are returned but not applied to any database.
- An assignee or parent is reduced to its id and name, each absent, null or a value. A project or follower is reduced to its id and name, both mandatory (see below). An assignee or parent that has only other attributes counts as non-empty in Python; the model cannot represent it. A custom field value is reduced to its id, type, and text, number and enum values. Number values are integers, not floats.
- A relation key that is present but null (`projects`, `followers` or `custom_fields` set to null) cannot be represented: `None` is a missing key. The source raises a `TypeError` for it (`asana2sql/fields.py:88`, `113-114`, `148`) before making any call.
- A missing `id` on the task, or on a project, follower or custom field value, raises a `KeyError` in the source. A project without `name` raises one in `ensure_project_exists` (`asana2sql/workspace.py:137`). The model makes these keys mandatory.
- A custom field value without `type` cannot be represented: `CustomFieldValue.kind` is always present. The source reads `type` only for a field whose id is also stored (`asana2sql/fields.py:119-130`). There a missing `type` raises a `KeyError`; a new field without `type` is simply written (`asana2sql/fields.py:132`). The model covers neither case.
- Cache.Add: requires the key column in the new value. The source raises a `KeyError` otherwise.
- Cache.Add: compares rows by exact value. Booleans are the integers 0 and 1, as the store returns them and as Python compares them (`True == 1`). Floats are not represented, so Python's `1 == 1.0` when comparing rows or looking up keys is not captured.
- Cache.constructor: requires every seed row to carry the key column. Otherwise the source raises a `KeyError` in `_prime_cache` (`asana2sql/cache.py:22-26`), not at construction, but on the first `get` or `add`. That leaves the cache partly filled and never seeded again; the model does not cover this.
- `Cache._row_to_dict` is left out: the seed rows are given as column maps.
- The `touched` set is recorded but nothing in the source reads it, so no property depends on it.
- The database keeps each logical table separately. Two tables configured with the same name would share one table in SQL; the model does not capture that collision.
- The SQL text of the `CREATE TABLE` statements in `workspace.py` is left out: a created table is its name.
- Writes do not require the table to exist. `create_tables` runs only under the `create` command, and SQLite would reject a write to a missing table. The model lets such a write succeed.
- Asana API calls, the database connection, `db_wrapper`, the command line, dry-run mode, and deletion of tasks that are no longer present are left out.
- Exception messages are left out: `NoSuchProjectException` carries the project id.
- `ensure_user_exists` and `ensure_project_exists` (`asana2sql/workspace.py:127-137`) write their upserts directly, without going through `Cache`, and the model does the same. The cache is modelled on its own, from `asana2sql/cache.py`, and `Caching.AddSameRow` mirrors the "same user" test through it.
