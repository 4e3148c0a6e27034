/**
 * The relational store written by the converter (svd2db/db_helpers.go): four
 * tables with AUTOINCREMENT ids, and the generic `db_insert` that turns a
 * column-name -> value map into an INSERT statement and returns the new id.
 * The store is kept in memory: one sequence of rows per table, where the row
 * at index i has id i + 1 (ids start at 1 and nothing is ever deleted).
 */
module Store {
  import opened Common
  import opened Text

  /** What a Go `any` holds in the insert maps: an int or a string. */
  datatype Value = IntVal(i: int) | TextVal(s: string)

  /** The columns of the schema other than `id`; ColumnText gives each one's SQL name. */
  datatype Column =
    | Name | Description | MpuId | DerivedFromId | BaseAddress
    | PeripheralId | AddressOffset | ResetValue | RegisterId | NumBits | BitOffset

  function ColumnText(c: Column): string {
    match c
    case Name => "name"
    case Description => "description"
    case MpuId => "mpu_id"
    case DerivedFromId => "derived_from_id"
    case BaseAddress => "base_address"
    case PeripheralId => "peripheral_id"
    case AddressOffset => "address_offset"
    case ResetValue => "reset_value"
    case RegisterId => "register_id"
    case NumBits => "num_bits"
    case BitOffset => "bit_offset"
  }

  /** One row: a missing column is NULL. The id column is implicit (index + 1). */
  type Row = map<Column, Value>

  datatype TableName = Mpus | Peripherals | Registers | Fields

  function TableText(t: TableName): string {
    match t
    case Mpus => "mpus"
    case Peripherals => "peripherals"
    case Registers => "registers"
    case Fields => "fields"
  }

  /** The contents of the four tables. */
  datatype Tables = Tables(mpus: seq<Row>, peripherals: seq<Row>, registers: seq<Row>, fields: seq<Row>)
  {
    function Rows(t: TableName): seq<Row> {
      match t
      case Mpus => mpus
      case Peripherals => peripherals
      case Registers => registers
      case Fields => fields
    }

    function WithRows(t: TableName, rows: seq<Row>): (r: Tables)
      ensures r.Rows(t) == rows
      ensures forall u :: u != t ==> r.Rows(u) == Rows(u)
    {
      match t
      case Mpus => this.(mpus := rows)
      case Peripherals => this.(peripherals := rows)
      case Registers => this.(registers := rows)
      case Fields => this.(fields := rows)
    }
  }

  const EmptyTables := Tables([], [], [], [])

  // ---------------------------------------------------------------------
  // The schema created by db_createdb

  /** The columns other than `id` that each table has. */
  function Columns(t: TableName): set<Column> {
    match t
    case Mpus => {Name, Description}
    case Peripherals => {MpuId, DerivedFromId, Name, BaseAddress, Description}
    case Registers => {PeripheralId, Name, AddressOffset, ResetValue, Description}
    case Fields => {RegisterId, Name, NumBits, BitOffset, Description}
  }

  /** The NOT NULL columns other than `id`. */
  function Required(t: TableName): set<Column> {
    match t
    case Mpus => {Name}
    case Peripherals => {MpuId, Name, BaseAddress}
    case Registers => {PeripheralId, Name, AddressOffset}
    case Fields => {RegisterId, Name, NumBits, BitOffset}
  }

  /** Only `mpus.name` and `peripherals.name` are UNIQUE. */
  predicate HasUniqueName(t: TableName) { t == Mpus || t == Peripherals }

  /** Inserting `data` into `rows` would break a NOT NULL or a UNIQUE constraint. */
  predicate Violates(t: TableName, rows: seq<Row>, data: Row) {
    || !(Required(t) <= data.Keys)
    || (HasUniqueName(t) && Name in data && NameTaken(rows, data[Name]))
  }

  /** Some row of `rows` already holds `name` in its name column. */
  predicate NameTaken(rows: seq<Row>, name: Value)
    decreases |rows|
  {
    |rows| > 0 && ((Name in rows[|rows| - 1] && rows[|rows| - 1][Name] == name) || NameTaken(rows[..|rows| - 1], name))
  }

  lemma {:induction false} NameTakenAt(rows: seq<Row>, name: Value)
    ensures NameTaken(rows, name) <==> exists i :: 0 <= i < |rows| && Name in rows[i] && rows[i][Name] == name
    decreases |rows|
  {
    if |rows| > 0 {
      var n := |rows| - 1;
      NameTakenAt(rows[..n], name);
      if !(Name in rows[n] && rows[n][Name] == name) && !NameTaken(rows[..n], name) {
        assert !exists i :: 0 <= i < |rows| && Name in rows[i] && rows[i][Name] == name by {
          forall i | 0 <= i < |rows| ensures !(Name in rows[i] && rows[i][Name] == name) {
            if i < n { assert rows[..n][i] == rows[i]; }
          }
        }
      } else if !(Name in rows[n] && rows[n][Name] == name) {
        var i :| 0 <= i < n && Name in rows[..n][i] && rows[..n][i][Name] == name;
        assert rows[i] == rows[..n][i];
      }
    }
  }

  // ---------------------------------------------------------------------
  // db_insert

  /** The step of the begin/prepare/exec/lastinsertid/commit sequence that failed. */
  datatype DbError = BeginFailed | PrepareFailed | ExecFailed | LastInsertIdFailed | CommitFailed

  /**
   * A failure of the database transport itself (disk, locking), which the
   * model cannot see: `NoFault`, or the step at which the driver fails.
   */
  datatype Fault = NoFault | FailAt(step: DbError)

  datatype InsertResult = InsertResult(tables: Tables, id: int, err: Option<DbError>)

  /**
   * The effect of one db_insert. Prepare fails on a column the table does not
   * have, exec on a constraint violation; either failure, or one injected by
   * the transport, returns id 0 and leaves the tables as they were (the
   * transaction is never committed). Otherwise the row is appended and its
   * AUTOINCREMENT id returned.
   */
  function InsertOutcome(t: Tables, table: TableName, data: Row, fault: Fault): InsertResult {
    var rows := t.Rows(table);
    if fault == FailAt(BeginFailed) then InsertResult(t, 0, Some(BeginFailed))
    else if fault == FailAt(PrepareFailed) || !(data.Keys <= Columns(table)) then InsertResult(t, 0, Some(PrepareFailed))
    else if fault == FailAt(ExecFailed) || Violates(table, rows, data) then InsertResult(t, 0, Some(ExecFailed))
    else if fault == FailAt(LastInsertIdFailed) then InsertResult(t, 0, Some(LastInsertIdFailed))
    else if fault == FailAt(CommitFailed) then InsertResult(t, 0, Some(CommitFailed))
    else InsertResult(t.WithRows(table, rows + [data]), |rows| + 1, None)
  }

  /** A successful insert appends exactly `data` to its own table, touches no other table, and returns the new row's id. */
  lemma InsertSuccess(t: Tables, table: TableName, data: Row, fault: Fault)
    requires InsertOutcome(t, table, data, fault).err.None?
    ensures var r := InsertOutcome(t, table, data, fault);
      && r.tables.Rows(table) == t.Rows(table) + [data]
      && (forall u :: u != table ==> r.tables.Rows(u) == t.Rows(u))
      && r.id == |t.Rows(table)| + 1 && r.id >= 1
      && r.tables.Rows(table)[r.id - 1] == data
  {
  }

  /** Any failing step returns id 0 together with an error and changes nothing. */
  lemma InsertFailure(t: Tables, table: TableName, data: Row, fault: Fault)
    requires fault.FailAt? || !(data.Keys <= Columns(table)) || Violates(table, t.Rows(table), data)
    ensures InsertOutcome(t, table, data, fault) == InsertResult(t, 0, InsertOutcome(t, table, data, fault).err)
    ensures InsertOutcome(t, table, data, fault).err.Some?
  {
    match fault
    case NoFault =>
    case FailAt(step) =>
      match step
      case BeginFailed =>
      case PrepareFailed =>
      case ExecFailed =>
      case LastInsertIdFailed =>
      case CommitFailed =>
  }

  /** The first row inserted into a fresh table gets id 1. */
  lemma FirstInsertIsOne(table: TableName, data: Row)
    requires data.Keys <= Columns(table) && Required(table) <= data.Keys
    ensures InsertOutcome(EmptyTables, table, data, NoFault).id == 1
  {
  }

  /** `order` is one possible iteration order of the map `data`: each key exactly once. */
  predicate KeyOrder(data: Row, order: seq<Column>) {
    && |order| == |data|
    && (forall i :: 0 <= i < |order| ==> order[i] in data)
    && (forall k :: k in data ==> k in order)
    && (forall i, j :: 0 <= i < j < |order| ==> order[i] != order[j])
  }

  /**
   * Every row has at least one iteration order: Go ranges over a map in an
   * unspecified order, which the model leaves open.
   */
  lemma {:induction false} OrderExists(data: Row)
    ensures exists order :: KeyOrder(data, order)
    decreases |data|
  {
    if |data| == 0 {
      assert KeyOrder(data, []);
    } else {
      var k :| k in data;
      var rest := data - {k};
      assert |rest| == |data| - 1 by {
        assert rest.Keys == data.Keys - {k};
      }
      OrderExists(rest);
      var order :| KeyOrder(rest, order);
      assert KeyOrder(data, order + [k]);
    }
  }

  /** A row holding a name has at least one column. */
  lemma NamedRow(data: Row)
    requires Name in data
    ensures |data| >= 1
  {
    assert data.Keys != {};
  }

  /** The columns an insert names. */
  function KeySet(keys: seq<Column>): (cols: set<Column>)
    ensures forall k :: k in cols <==> k in keys
  {
    set k | k in keys
  }

  /** `values(?,?,...,?)`'s inside for n columns: n - 1 times `?,` then one `?`. */
  function Placeholders(n: nat): string
    requires n >= 1
  {
    Repeat("?,", n - 1) + "?"
  }

  lemma {:induction false} RepeatCount(n: nat)
    ensures Count(Repeat("?,", n), '?') == n
    ensures Count(Repeat("?,", n), ',') == n
  {
    if n > 0 {
      RepeatCount(n - 1);
      CountAppend("?,", Repeat("?,", n - 1), '?');
      CountAppend("?,", Repeat("?,", n - 1), ',');
    }
  }

  /** n columns get exactly n `?` placeholders, separated by n - 1 commas. */
  lemma PlaceholderCount(n: nat)
    requires n >= 1
    ensures Count(Placeholders(n), '?') == n
    ensures Count(Placeholders(n), ',') == n - 1
  {
    RepeatCount(n - 1);
    CountAppend(Repeat("?,", n - 1), "?", '?');
    CountAppend(Repeat("?,", n - 1), "?", ',');
  }

  /** The SQL names of `keys`, in the same order. */
  function ColumnNames(keys: seq<Column>): (names: seq<string>)
    ensures |names| == |keys|
    ensures forall i :: 0 <= i < |keys| ==> names[i] == ColumnText(keys[i])
  {
    seq(|keys|, i requires 0 <= i < |keys| => ColumnText(keys[i]))
  }

  /** ` (k1, k2, ..., kn) `: the column names in iteration order. */
  function ColumnList(keys: seq<Column>): string {
    " (" + Join(ColumnNames(keys), ", ") + ") "
  }

  /** The statement db_insert prepares. */
  function InsertSql(table: TableName, keys: seq<Column>): string
    requires |keys| >= 1
  {
    "insert into " + TableText(table) + ColumnList(keys) + "values(" + Placeholders(|keys|) + ")"
  }

  /** The row that binding `values[i]` to column `keys[i]` produces. */
  function Bind(keys: seq<Column>, values: seq<Value>): Row
    requires |keys| == |values|
  {
    if |keys| == 0 then map[]
    else Bind(keys[..|keys| - 1], values[..|keys| - 1])[keys[|keys| - 1] := values[|keys| - 1]]
  }

  lemma {:induction false} BindAt(keys: seq<Column>, values: seq<Value>)
    requires |keys| == |values|
    requires forall i, j :: 0 <= i < j < |keys| ==> keys[i] != keys[j]
    ensures Bind(keys, values).Keys == set k | k in keys
    ensures forall i :: 0 <= i < |keys| ==> Bind(keys, values)[keys[i]] == values[i]
  {
    if |keys| > 0 {
      var n := |keys| - 1;
      BindAt(keys[..n], values[..n]);
      assert keys == keys[..n] + [keys[n]];
    }
  }

  /**
   * Binding the values in the order the loop collected them rebuilds the map:
   * each value lands in its own column whatever the iteration order was.
   */
  lemma BindRecovers(data: Row, order: seq<Column>, values: seq<Value>)
    requires KeyOrder(data, order)
    requires |values| == |order| && forall i :: 0 <= i < |order| ==> values[i] == data[order[i]]
    ensures Bind(order, values) == data
  {
    BindAt(order, values);
    var b := Bind(order, values);
    assert b.Keys == data.Keys;
    forall k | k in data ensures b[k] == data[k] {
      var i :| 0 <= i < |order| && order[i] == k;
    }
  }

  /**
   * The statement-building part of db_insert (the loop over the map and the
   * string assembly): the columns in iteration order, the values in the same
   * order, and a statement with one placeholder per column.
   */
  method BuildInsert(table: TableName, data: Row, order: seq<Column>)
    returns (stmt: string, keys: seq<Column>, values: seq<Value>)
    requires |data| >= 1
    requires KeyOrder(data, order)
    ensures keys == order
    ensures |values| == |keys| == |data|
    ensures forall i :: 0 <= i < |keys| ==> values[i] == data[keys[i]]
    ensures Bind(keys, values) == data
    ensures stmt == InsertSql(table, keys)
    ensures Count(Placeholders(|keys|), '?') == |data|
  {
    var n := |data|;
    keys, values := [], [];
    var i := 0;
    while i < |order|
      invariant 0 <= i <= |order|
      invariant keys == order[..i]
      invariant |values| == i
      invariant forall j :: 0 <= j < i ==> values[j] == data[order[j]]
    {
      keys := keys + [order[i]];
      values := values + [data[order[i]]];
      i := i + 1;
    }
    assert keys == order;
    var s := ColumnList(keys);
    stmt := "insert into " + TableText(table) + s + "values(" + Placeholders(n) + ")";
    BindRecovers(data, order, values);
    PlaceholderCount(n);
  }

  /** The store: one sequence of rows per table. */
  class Db {
    var mpus: seq<Row>
    var peripherals: seq<Row>
    var registers: seq<Row>
    var fields: seq<Row>

    /** A freshly created store: the schema, no rows. */
    constructor ()
      ensures Snapshot() == EmptyTables
    {
      mpus, peripherals, registers, fields := [], [], [], [];
    }

    function Snapshot(): Tables
      reads this
    {
      Tables(mpus, peripherals, registers, fields)
    }

    /** The commit of one row: `row` is appended to `table`, nothing else changes. */
    method Append(table: TableName, row: Row)
      modifies this
      ensures Snapshot() == old(Snapshot()).WithRows(table, old(Snapshot()).Rows(table) + [row])
    {
      var next := Snapshot().WithRows(table, Snapshot().Rows(table) + [row]);
      mpus, peripherals, registers, fields := next.mpus, next.peripherals, next.registers, next.fields;
    }

    /**
     * db_insert: build the statement and its arguments from the map, then
     * run it.
     */
    method Insert(table: TableName, data: Row, fault: Fault)
      returns (id: int, err: Option<DbError>)
      requires |data| >= 1
      modifies this
      ensures InsertResult(Snapshot(), id, err) == InsertOutcome(old(Snapshot()), table, data, fault)
    {
      OrderExists(data);
      var order :| KeyOrder(data, order);
      var stmt, keys, values := BuildInsert(table, data, order);
      var row := Bind(keys, values);
      var cols := KeySet(keys);
      assert row == data && cols == data.Keys;
      id, err := Execute(table, row, cols, fault);
    }

    /**
     * The transaction of db_insert: begin, prepare (which fails on a column
     * the table does not have), exec (which fails on a NOT NULL or UNIQUE
     * violation), read the last insert id and commit, stopping at the first
     * failure; `cols` are the columns the statement names.
     */
    method Execute(table: TableName, row: Row, cols: set<Column>, fault: Fault)
      returns (id: int, err: Option<DbError>)
      requires cols == row.Keys
      modifies this
      ensures InsertResult(Snapshot(), id, err) == InsertOutcome(old(Snapshot()), table, row, fault)
    {
      if fault == FailAt(BeginFailed) {
        return 0, Some(BeginFailed);
      }
      if fault == FailAt(PrepareFailed) || !(cols <= Columns(table)) {
        return 0, Some(PrepareFailed);
      }
      var rows := Snapshot().Rows(table);
      if fault == FailAt(ExecFailed) || Violates(table, rows, row) {
        return 0, Some(ExecFailed);
      }
      if fault == FailAt(LastInsertIdFailed) {
        return 0, Some(LastInsertIdFailed);
      }
      if fault == FailAt(CommitFailed) {
        return 0, Some(CommitFailed);
      }
      Append(table, row);
      id, err := |rows| + 1, None;
    }
  }

  /**
   * db_createdb's guard: creating a store fails when a file of that name
   * already exists. `existing` is the set of file names present on disk.
   */
  method CreateDb(existing: set<string>, filename: string) returns (db: Db?, err: Option<string>)
    ensures err.None? <==> filename !in existing
    ensures err.Some? ==> db == null && err.value == "database file " + filename + " already exists"
    ensures err.None? ==> db != null && fresh(db) && db.Snapshot() == EmptyTables
  {
    if filename in existing {
      return null, Some("database file " + filename + " already exists");
    }
    db := new Db();
    err := None;
  }
}
