/**
 * A project table: its name (an explicit one, or the project's own name as
 * Asana reports it, made SQL-safe) and the statement that creates it. The
 * remote lookup of the project is memoised; what the remote would answer is a
 * parameter of each operation that may need it (`None` for a project it does
 * not know).
 */
module Projects {
  import opened Wrappers
  import opened Util

  /** The remote project record, reduced to the attribute read from it. */
  datatype ProjectRecord = ProjectRecord(name: string)

  /** The error raised when the remote does not know the project; it carries the project id. */
  datatype NoSuchProjectException = NoSuchProjectException(projectId: int)

  // ---------------------------------------------------------------------------
  // The CREATE TABLE statement

  const CreateTableHead: string := "CREATE TABLE \""
  const KeyColumn: string := "\" (task_id BIGINT NOT NULL,"
  const CreateTableTail: string := "PRIMARY KEY task_id)"

  /** The column definitions joined, each followed by one comma. */
  function Columns(defs: seq<string>): (r: string)
    ensures |r| >= |defs|
    ensures defs == [] <==> r == ""
    ensures defs != [] ==> r[|r| - 1] == ','
    decreases |defs|
  {
    if defs == [] then "" else defs[0] + "," + Columns(defs[1..])
  }

  /** The statement creating the table `name` with the given column definitions. */
  function CreateTableStatement(name: string, defs: seq<string>): (sql: string)
    ensures |sql| == |CreateTableHead| + |name| + |KeyColumn| + |Columns(defs)| + |CreateTableTail|
    ensures sql[..|CreateTableHead|] == CreateTableHead
    ensures sql[|CreateTableHead|..|CreateTableHead| + |name|] == name
    ensures sql[|CreateTableHead| + |name|..|sql| - |CreateTableTail|] == KeyColumn + Columns(defs)
    ensures sql[|sql| - |CreateTableTail|..] == CreateTableTail
  {
    CreateTableHead + name + KeyColumn + Columns(defs) + CreateTableTail
  }

  /** Joining two lists of definitions is joining each and concatenating. */
  lemma {:induction false} ColumnsAppend(a: seq<string>, b: seq<string>)
    ensures Columns(a + b) == Columns(a) + Columns(b)
    decreases |a|
  {
    if a == [] {
      assert a + b == b;
    } else {
      assert (a + b)[1..] == a[1..] + b;
      ColumnsAppend(a[1..], b);
    }
  }

  /** The text holds no comma. */
  predicate NoComma(s: string) {
    forall i :: 0 <= i < |s| ==> s[i] != ','
  }

  /**
   * Reads comma-terminated pieces back: `cur` is the piece read so far; text
   * after the last comma is not a piece.
   */
  function SplitTerminated(s: string, cur: string): seq<string>
    decreases |s|
  {
    if s == [] then []
    else if s[0] == ',' then [cur] + SplitTerminated(s[1..], "")
    else SplitTerminated(s[1..], cur + [s[0]])
  }

  lemma {:induction false} SplitPiece(d: string, rest: string, cur: string)
    requires NoComma(d)
    ensures SplitTerminated(d + "," + rest, cur) == [cur + d] + SplitTerminated(rest, "")
    decreases |d|
  {
    if d == [] {
      assert d + "," + rest == [','] + rest;
      assert ([','] + rest)[1..] == rest;
      assert cur + d == cur;
    } else {
      assert (d + "," + rest)[0] == d[0];
      assert (d + "," + rest)[1..] == d[1..] + "," + rest;
      assert NoComma(d[1..]) by {
        forall i | 0 <= i < |d[1..]| ensures d[1..][i] != ',' { assert d[1..][i] == d[i + 1]; }
      }
      SplitPiece(d[1..], rest, cur + [d[0]]);
      assert cur + [d[0]] + d[1..] == cur + d;
    }
  }

  /** Column definitions without commas are recovered from the joined text, in order. */
  lemma {:induction false} ColumnsRoundTrip(defs: seq<string>)
    requires forall i :: 0 <= i < |defs| ==> NoComma(defs[i])
    ensures SplitTerminated(Columns(defs), "") == defs
    ensures |Columns(defs)| >= |defs|
    decreases |defs|
  {
    if defs != [] {
      SplitPiece(defs[0], Columns(defs[1..]), "");
      ColumnsRoundTrip(defs[1..]);
      assert "" + defs[0] == defs[0];
      assert [defs[0]] + defs[1..] == defs;
    }
  }

  // ---------------------------------------------------------------------------
  // The project

  class Project {
    const projectId: int
    /** The explicitly configured table name, if any. */
    const tableName: Option<string>
    /** Each field's column definition, in field order. */
    const fieldDefinitions: seq<string>
    /** The memoised remote record. */
    var cache: Option<ProjectRecord>
    /** How many times the remote was asked for the project. */
    var lookups: nat

    constructor(projectId: int, tableName: Option<string>, fieldDefinitions: seq<string>)
      ensures this.projectId == projectId && this.tableName == tableName
      ensures this.fieldDefinitions == fieldDefinitions
      ensures cache.None? && lookups == 0
    {
      this.projectId := projectId;
      this.tableName := tableName;
      this.fieldDefinitions := fieldDefinitions;
      cache := None;
      lookups := 0;
    }

    /**
     * `_project_data`: the memoised record; the remote is asked only while
     * nothing is memoised, and a project it does not know raises
     * `NoSuchProjectException` and memoises nothing.
     */
    method ProjectData(remote: Option<ProjectRecord>) returns (r: Result<ProjectRecord, NoSuchProjectException>)
      modifies this
      ensures old(cache).Some? ==> r == Success(old(cache).value) && cache == old(cache) && lookups == old(lookups)
      ensures old(cache).None? ==> lookups == old(lookups) + 1 && cache == remote
      ensures old(cache).None? && remote.Some? ==> r == Success(remote.value)
      ensures old(cache).None? && remote.None? ==> r == Failure(NoSuchProjectException(projectId))
      ensures r.Success? ==> cache == Some(r.value)
    {
      if cache.None? {
        lookups := lookups + 1;
        match remote
        case None =>
          return Failure(NoSuchProjectException(projectId));
        case Some(record) =>
          cache := Some(record);
      }
      r := Success(cache.value);
    }

    /** `project_name`: the name in the project's record. */
    method ProjectName(remote: Option<ProjectRecord>) returns (r: Result<string, NoSuchProjectException>)
      modifies this
      ensures old(cache).Some? ==> r == Success(old(cache).value.name) && cache == old(cache) && lookups == old(lookups)
      ensures old(cache).None? ==> lookups == old(lookups) + 1 && cache == remote
      ensures old(cache).None? && remote.Some? ==> r == Success(remote.value.name)
      ensures old(cache).None? && remote.None? ==> r == Failure(NoSuchProjectException(projectId))
    {
      var data := ProjectData(remote);
      match data
      case Success(record) => r := Success(record.name);
      case Failure(e) => r := Failure(e);
    }

    /**
     * `table_name`: the SQL-safe explicit name when it is truthy, without
     * asking the remote; otherwise the SQL-safe project name.
     */
    method TableName(remote: Option<ProjectRecord>) returns (r: Result<string, NoSuchProjectException>)
      modifies this
      ensures r.Success? ==> AllWordChars(r.value)
      ensures Truthy(tableName) ==> r == Success(SqlSafeName(tableName.value))
      ensures Truthy(tableName) ==> cache == old(cache) && lookups == old(lookups)
      ensures !Truthy(tableName) && old(cache).Some? ==>
                r == Success(SqlSafeName(old(cache).value.name)) && cache == old(cache) && lookups == old(lookups)
      ensures !Truthy(tableName) && old(cache).None? ==> lookups == old(lookups) + 1 && cache == remote
      ensures !Truthy(tableName) && old(cache).None? && remote.Some? ==> r == Success(SqlSafeName(remote.value.name))
      ensures !Truthy(tableName) && old(cache).None? && remote.None? ==> r == Failure(NoSuchProjectException(projectId))
    {
      if Truthy(tableName) {
        r := Success(SqlSafeName(tableName.value));
      } else {
        var name := ProjectName(remote);
        match name
        case Success(n) => r := Success(SqlSafeName(n));
        case Failure(e) => r := Failure(e);
      }
    }

    /** `create_table_sql`: the CREATE TABLE statement for the resolved table name. */
    method CreateTableSql(remote: Option<ProjectRecord>) returns (r: Result<string, NoSuchProjectException>)
      modifies this
      ensures Truthy(tableName) ==> r == Success(CreateTableStatement(SqlSafeName(tableName.value), fieldDefinitions))
      ensures Truthy(tableName) ==> cache == old(cache) && lookups == old(lookups)
      ensures !Truthy(tableName) && old(cache).Some? ==>
                r == Success(CreateTableStatement(SqlSafeName(old(cache).value.name), fieldDefinitions))
                && cache == old(cache) && lookups == old(lookups)
      ensures !Truthy(tableName) && old(cache).None? ==> lookups == old(lookups) + 1 && cache == remote
      ensures !Truthy(tableName) && old(cache).None? && remote.Some? ==>
                r == Success(CreateTableStatement(SqlSafeName(remote.value.name), fieldDefinitions))
      ensures !Truthy(tableName) && old(cache).None? && remote.None? ==> r == Failure(NoSuchProjectException(projectId))
    {
      var name := TableName(remote);
      match name
      case Success(n) => r := Success(CreateTableStatement(n, fieldDefinitions));
      case Failure(e) => r := Failure(e);
    }
  }

  /**
   * Two lookups in a row: once the first has found the project, the second
   * returns the same record without asking the remote, whatever it would say.
   */
  method LookupTwice(p: Project, first: Option<ProjectRecord>, second: Option<ProjectRecord>)
    returns (r1: Result<ProjectRecord, NoSuchProjectException>, r2: Result<ProjectRecord, NoSuchProjectException>)
    modifies p
    ensures r1.Success? ==> r2 == r1
    ensures r1.Success? ==> p.lookups <= old(p.lookups) + 1
  {
    r1 := p.ProjectData(first);
    r2 := p.ProjectData(second);
  }

  /** A project without an explicit table name, known remotely as "Test Table", gets the table "Test_Table". */
  method DerivedTableName() returns (r: Result<string, NoSuchProjectException>)
    ensures r == Success("Test_Table")
  {
    var p := new Project(1234, None, []);
    SqlSafeNameExample();
    r := p.TableName(Some(ProjectRecord("Test Table")));
  }
}
