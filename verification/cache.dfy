/**
 * A cache in front of a backing store. It is seeded lazily from the store on
 * its first use, then serves lookups from memory and writes a value through to
 * the store only when it differs from the cached one. Every key asked for or
 * written is remembered as touched.
 */
module Caching {
  import opened Wrappers
  import opened Collections

  /**
   * A column value of a stored row. A boolean is the integer 0 or 1, which is
   * how the store returns it and how Python compares it (`True == 1`).
   */
  datatype Value = Null | Int(i: int) | Str(s: string)

  /** A stored row: column name to value. */
  type Row = map<string, Value>

  /** The key column when none is configured. */
  const DefaultKeyName: string := "id"

  /** The value of a row's key column. */
  function KeyOf(keyName: string): Row -> Value {
    (r: Row) => if keyName in r then r[keyName] else Null
  }

  /** The entries the seed rows give: each row under its key, the later of two rows with one key kept. */
  function Seeded(rows: seq<Row>, keyName: string): map<Value, Row> {
    IndexBy(rows, KeyOf(keyName))
  }

  /** Every seeded entry is a seed row stored under its own key. */
  lemma SeededEntries(rows: seq<Row>, keyName: string)
    requires forall i :: 0 <= i < |rows| ==> keyName in rows[i]
    ensures forall k :: k in Seeded(rows, keyName) ==>
              Seeded(rows, keyName)[k] in rows && Seeded(rows, keyName)[k][keyName] == k
    ensures forall i :: 0 <= i < |rows| ==> rows[i][keyName] in Seeded(rows, keyName)
  {
    IndexByKeys(rows, KeyOf(keyName));
    forall k | k in Seeded(rows, keyName) ensures Seeded(rows, keyName)[k][keyName] == k {
      var row := Seeded(rows, keyName)[k];
      var i :| 0 <= i < |rows| && rows[i] == row;
      assert KeyOf(keyName)(row) == k;
    }
    forall i | 0 <= i < |rows| ensures rows[i][keyName] in Seeded(rows, keyName) {
      assert KeyOf(keyName)(rows[i]) == rows[i][keyName];
    }
  }

  class Cache {
    /** The column rows are keyed by. */
    const keyName: string
    /** What the seed function returns: the rows already in the store. */
    const seedRows: seq<Row>
    /** The cached rows by key; absent until the cache is primed. */
    var entries: Option<map<Value, Row>>
    /** The keys asked for or written so far. */
    var touched: set<Value>
    /** How many times the seed function has been called. */
    var seedCalls: nat
    /** The rows handed to the insert function, in order. */
    var inserts: seq<Row>

    /** Seed rows carry the key column, and the store was read exactly when the cache is primed. */
    ghost predicate Valid()
      reads this
    {
      && (forall i :: 0 <= i < |seedRows| ==> keyName in seedRows[i])
      && seedCalls == (if entries.None? then 0 else 1)
    }

    /** What the cache holds, or will hold once primed. */
    function Contents(): map<Value, Row>
      reads this
    {
      if entries.Some? then entries.value else Seeded(seedRows, keyName)
    }

    constructor(seedRows: seq<Row>, keyName: string := DefaultKeyName)
      requires forall i :: 0 <= i < |seedRows| ==> keyName in seedRows[i]
      ensures Valid()
      ensures this.seedRows == seedRows && this.keyName == keyName
      ensures entries.None? && touched == {} && inserts == []
    {
      this.seedRows := seedRows;
      this.keyName := keyName;
      entries := None;
      touched := {};
      seedCalls := 0;
      inserts := [];
    }

    /** `_prime_cache`: reads the store once and caches each row under its key. */
    method PrimeCache()
      requires Valid() && entries.None?
      modifies this
      ensures Valid()
      ensures entries == Some(Seeded(seedRows, keyName))
      ensures seedCalls == old(seedCalls) + 1
      ensures touched == old(touched) && inserts == old(inserts)
    {
      seedCalls := seedCalls + 1;
      var m: map<Value, Row> := map[];
      for i := 0 to |seedRows|
        invariant m == IndexBy(seedRows[..i], KeyOf(keyName))
      {
        var row := seedRows[i];
        assert seedRows[..i + 1][..i] == seedRows[..i];
        m := m[row[keyName] := row];
      }
      assert seedRows[..|seedRows|] == seedRows;
      entries := Some(m);
    }

    /** `_insert_and_cache`: writes the value through to the store and caches it. */
    method InsertAndCache(key: Value, value: Row)
      requires entries.Some?
      modifies this
      ensures entries == Some(old(entries.value)[key := value])
      ensures inserts == old(inserts) + [value]
      ensures touched == old(touched) && seedCalls == old(seedCalls)
    {
      inserts := inserts + [value];
      entries := Some(entries.value[key := value]);
    }

    /** `_touch`: remembers the key. */
    method Touch(key: Value)
      modifies this
      ensures touched == old(touched) + {key}
      ensures entries == old(entries) && inserts == old(inserts) && seedCalls == old(seedCalls)
    {
      touched := touched + {key};
    }

    /** `get`: the cached row for the key, if any; never writes to the store. */
    method Get(key: Value) returns (r: Option<Row>)
      requires Valid()
      modifies this
      ensures Valid()
      ensures r == if key in old(Contents()) then Some(old(Contents())[key]) else None
      ensures entries == Some(old(Contents()))
      ensures touched == old(touched) + {key}
      ensures inserts == old(inserts) && seedCalls == 1
    {
      if entries.None? {
        PrimeCache();
      }
      Touch(key);
      r := if key in entries.value then Some(entries.value[key]) else None;
    }

    /**
     * `add`: caches the value under its key and writes it through to the
     * store unless the cached row for that key is already equal to it.
     */
    method Add(newValue: Row)
      requires Valid() && keyName in newValue
      modifies this
      ensures Valid()
      ensures entries == Some(old(Contents())[newValue[keyName] := newValue])
      ensures inserts == old(inserts) +
                if newValue[keyName] in old(Contents()) && old(Contents())[newValue[keyName]] == newValue
                then [] else [newValue]
      ensures touched == old(touched) + {newValue[keyName]}
      ensures seedCalls == 1
    {
      if entries.None? {
        PrimeCache();
      }
      var key := newValue[keyName];
      var oldValue := if key in entries.value then Some(entries.value[key]) else None;
      Touch(key);
      if oldValue != Some(newValue) {
        InsertAndCache(key, newValue);
      } else {
        assert entries.value[key := newValue] == entries.value;
      }
    }
  }

  /** After `add(v)`, `get` of v's key returns v, and no other key's entry changed. */
  method AddThenGet(c: Cache, v: Row, other: Value) returns (r: Option<Row>)
    requires c.Valid() && c.keyName in v && other != v[c.keyName]
    modifies c
    ensures r == Some(v)
    ensures other in c.Contents() <==> other in old(c.Contents())
    ensures other in c.Contents() ==> c.Contents()[other] == old(c.Contents())[other]
    ensures c.seedCalls == 1
  {
    c.Add(v);
    r := c.Get(v[c.keyName]);
  }

  /** Adding the same value twice in a row writes it to the store at most once. */
  method AddTwice(c: Cache, v: Row)
    requires c.Valid() && c.keyName in v
    modifies c
    ensures |old(c.inserts)| <= |c.inserts| <= |old(c.inserts)| + 1
    ensures c.inserts[..|old(c.inserts)|] == old(c.inserts)
    ensures c.seedCalls == 1
  {
    c.Add(v);
    c.Add(v);
  }

  /**
   * Store rows with ids 1 and 2: id 3 is not cached; after adding the row
   * {id: 3} it is, the store was read once and written once, with that row.
   */
  method AddNewKey() returns (before: Option<Row>, after: Option<Row>, c: Cache)
    ensures before == None && after == Some(map[DefaultKeyName := Int(3)])
    ensures c.seedCalls == 1 && c.inserts == [map[DefaultKeyName := Int(3)]]
  {
    var r1: Row := map[DefaultKeyName := Int(1)];
    var r2: Row := map[DefaultKeyName := Int(2)];
    var r3: Row := map[DefaultKeyName := Int(3)];
    c := new Cache([r1, r2]);
    assert [r1, r2][..1] == [r1] && [r1][..0] == [];
    assert IndexBy([r1], KeyOf(DefaultKeyName)) == map[Int(1) := r1];
    assert Seeded([r1, r2], DefaultKeyName) == map[Int(1) := r1, Int(2) := r2];
    before := c.Get(Int(3));
    c.Add(r3);
    after := c.Get(Int(3));
  }

  /** Adding a row equal to the stored one for its key writes nothing to the store. */
  method AddSameRow() returns (c: Cache)
    ensures c.inserts == [] && c.seedCalls == 1
  {
    var row: Row := map[DefaultKeyName := Int(1), "name" := Str("foo")];
    c := new Cache([row], DefaultKeyName);
    assert [row][..0] == [];
    assert Seeded([row], DefaultKeyName) == map[Int(1) := row];
    c.Add(map[DefaultKeyName := Int(1), "name" := Str("foo")]);
  }
}
