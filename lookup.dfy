/**
 * Reading the store back (internal/svd_lookup.go): the name lookup, the
 * register and field queries, `collect_registers`, which resolves a derived
 * peripheral to the registers of the peripheral it is derived from, the
 * integer power used for bit masks, and the upward search for the database
 * file.
 */
module Lookup {
  import opened Common
  import opened Text
  import opened Store
  import opened Query

  // ---------------------------------------------------------------------
  // The records the queries return

  /** A field as `fetch_fields` scans it (the id column is not selected). */
  datatype Field = Field(name: string, numBits: int, bitOffset: int, description: Option<string>)

  /** A register; `fields` is nil until `collect_registers` fills it in. */
  datatype Register = Register(id: int, name: string, addressOffset: string,
                               resetValue: Option<string>, description: Option<string>,
                               fields: Option<seq<Field>>)

  /** A peripheral; `registers` is nil until `collect_registers` fills it in. */
  datatype Peripheral = Peripheral(id: int, derivedFrom: Option<int>, name: string,
                                   baseAddress: string, description: Option<string>,
                                   registers: Option<seq<Register>>)

  /** A stored row together with its autoincrement id (row i of a table has id i+1). */
  datatype Record = Record(id: int, row: Row)

  function Numbered(rows: seq<Row>): (recs: seq<Record>)
    ensures |recs| == |rows|
    ensures forall i :: 0 <= i < |rows| ==> recs[i] == Record(i + 1, rows[i])
  {
    seq(|rows|, i requires 0 <= i < |rows| => Record(i + 1, rows[i]))
  }

  /** The cell of a column, `None` for SQL NULL. */
  function Cell(row: Row, c: Column): Option<Value> {
    if c in row then Some(row[c]) else None
  }

  // ---------------------------------------------------------------------
  // Scanning a row into Go variables

  /** The text `database/sql` reports when a cell cannot be stored in the variable. */
  function ScanError(c: Column): string {
    "sql: Scan error on column " + ColumnText(c)
  }

  /** Scanning into a `string`: NULL is an error. */
  function ScanText(row: Row, c: Column): (r: Result<string>)
    ensures r.Ok? <==> Cell(row, c).Some? && Cell(row, c).value.TextVal?
    ensures r.Ok? ==> row[c] == TextVal(r.value)
  {
    if c in row && row[c].TextVal? then Ok(row[c].s) else Err(ScanError(c))
  }

  /** Scanning into a `string`-valued `sql.Null`: NULL is `None`. */
  function ScanNullText(row: Row, c: Column): (r: Result<Option<string>>)
    ensures r == Ok(None) <==> c !in row
    ensures r.Ok? && r.value.Some? <==> c in row && row[c].TextVal?
    ensures r.Ok? && r.value.Some? ==> row[c] == TextVal(r.value.value)
  {
    if c !in row then Ok(None)
    else if row[c].TextVal? then Ok(Some(row[c].s))
    else Err(ScanError(c))
  }

  /** Scanning into an `int`: NULL is an error. */
  function ScanInt(row: Row, c: Column): (r: Result<int>)
    ensures r.Ok? <==> Cell(row, c).Some? && Cell(row, c).value.IntVal?
    ensures r.Ok? ==> row[c] == IntVal(r.value)
  {
    if c in row && row[c].IntVal? then Ok(row[c].i) else Err(ScanError(c))
  }

  /** Scanning into an `int`-valued `sql.Null`: NULL is `None`. */
  function ScanNullInt(row: Row, c: Column): (r: Result<Option<int>>)
    ensures r == Ok(None) <==> c !in row
    ensures r.Ok? && r.value.Some? <==> c in row && row[c].IntVal?
    ensures r.Ok? && r.value.Some? ==> row[c] == IntVal(r.value.value)
  {
    if c !in row then Ok(None)
    else if row[c].IntVal? then Ok(Some(row[c].i))
    else Err(ScanError(c))
  }

  /** `Scan(&p.id, &p.derived_from, &p.name, &p.base_address, &p.description)`. */
  function ScanPeripheral(rec: Record): (r: Result<Peripheral>)
    ensures r.Ok? ==> r.value.id == rec.id && r.value.registers.None?
    ensures r.Ok? ==> Name in rec.row && rec.row[Name] == TextVal(r.value.name)
    ensures r.Ok? ==> BaseAddress in rec.row && rec.row[BaseAddress] == TextVal(r.value.baseAddress)
    ensures r.Ok? ==> (r.value.derivedFrom.Some? <==> DerivedFromId in rec.row)
    ensures r.Ok? && r.value.derivedFrom.Some? ==> DerivedFromId in rec.row && rec.row[DerivedFromId] == IntVal(r.value.derivedFrom.value)
  {
    var d := ScanNullInt(rec.row, DerivedFromId);
    var n := ScanText(rec.row, Name);
    var b := ScanText(rec.row, BaseAddress);
    var desc := ScanNullText(rec.row, Description);
    if d.Err? then Err(d.msg)
    else if n.Err? then Err(n.msg)
    else if b.Err? then Err(b.msg)
    else if desc.Err? then Err(desc.msg)
    else Ok(Peripheral(rec.id, d.value, n.value, b.value, desc.value, None))
  }

  /** `Scan(&reg.id, &reg.name, &reg.address_offset, &reg.reset_value, &reg.description)`. */
  function ScanRegister(rec: Record): (r: Result<Register>)
    ensures r.Ok? ==> r.value.id == rec.id && r.value.fields.None?
    ensures r.Ok? ==> Name in rec.row && rec.row[Name] == TextVal(r.value.name)
    ensures r.Ok? ==> AddressOffset in rec.row && rec.row[AddressOffset] == TextVal(r.value.addressOffset)
  {
    var n := ScanText(rec.row, Name);
    var a := ScanText(rec.row, AddressOffset);
    var reset := ScanNullText(rec.row, ResetValue);
    var desc := ScanNullText(rec.row, Description);
    if n.Err? then Err(n.msg)
    else if a.Err? then Err(a.msg)
    else if reset.Err? then Err(reset.msg)
    else if desc.Err? then Err(desc.msg)
    else Ok(Register(rec.id, n.value, a.value, reset.value, desc.value, None))
  }

  /** `Scan(&f.name, &f.num_bits, &f.bit_offset, &f.description)`. */
  function ScanField(rec: Record): (r: Result<Field>)
    ensures r.Ok? ==> Name in rec.row && rec.row[Name] == TextVal(r.value.name)
    ensures r.Ok? ==> NumBits in rec.row && rec.row[NumBits] == IntVal(r.value.numBits)
    ensures r.Ok? ==> BitOffset in rec.row && rec.row[BitOffset] == IntVal(r.value.bitOffset)
  {
    var n := ScanText(rec.row, Name);
    var w := ScanInt(rec.row, NumBits);
    var o := ScanInt(rec.row, BitOffset);
    var desc := ScanNullText(rec.row, Description);
    if n.Err? then Err(n.msg)
    else if w.Err? then Err(w.msg)
    else if o.Err? then Err(o.msg)
    else if desc.Err? then Err(desc.msg)
    else Ok(Field(n.value, w.value, o.value, desc.value))
  }

  /** Prefix an error message with the text Go's `fmt.Errorf("...: %w", ...)` puts before it. */
  function Wrap<T>(r: Result<T>, context: string): (w: Result<T>)
    ensures w.Ok? <==> r.Ok?
    ensures r.Ok? ==> w == r
    ensures r.Err? ==> w.msg == context + r.msg
  {
    if r.Ok? then r else Err(context + r.msg)
  }

  /**
   * The `for rows.Next() { err = rows.Scan(...); if err != nil { return nil, err }; xs = append(xs, x) }`
   * loop as a value: all scanned elements in order, or the first failure.
   */
  function ScanAll<X, Y>(scan: X -> Result<Y>, xs: seq<X>): Result<seq<Y>>
    decreases |xs|
  {
    if |xs| == 0 then Ok([])
    else
      var prefix := ScanAll(scan, xs[..|xs| - 1]);
      var last := scan(xs[|xs| - 1]);
      if prefix.Err? then prefix
      else if last.Err? then Err(last.msg)
      else Ok(prefix.value + [last.value])
  }

  /** A successful scan has one element per row, each the scan of its row. */
  lemma {:induction false} ScanAllOk<X, Y>(scan: X -> Result<Y>, xs: seq<X>)
    requires ScanAll(scan, xs).Ok?
    ensures |ScanAll(scan, xs).value| == |xs|
    ensures forall i :: 0 <= i < |xs| ==> scan(xs[i]) == Ok(ScanAll(scan, xs).value[i])
    decreases |xs|
  {
    if |xs| > 0 {
      var init := xs[..|xs| - 1];
      ScanAllOk(scan, init);
      forall i | 0 <= i < |init| ensures xs[i] == init[i] { }
    }
  }

  /** Once a prefix has failed, the whole scan fails with the same message. */
  lemma {:induction false} ScanAllFailedPrefix<X, Y>(scan: X -> Result<Y>, xs: seq<X>, k: nat)
    requires k <= |xs|
    requires ScanAll(scan, xs[..k]).Err?
    ensures ScanAll(scan, xs) == ScanAll(scan, xs[..k])
    decreases |xs| - k
  {
    if k < |xs| {
      assert xs[..k + 1][..k] == xs[..k];
      ScanAllFailedPrefix(scan, xs, k + 1);
    } else {
      assert xs[..k] == xs;
    }
  }

  /**
   * A scan fails exactly when some element fails, and the message is that of
   * the first failing element.
   */
  lemma {:induction false} ScanAllFirstError<X, Y>(scan: X -> Result<Y>, xs: seq<X>, k: nat)
    requires k < |xs|
    requires forall j :: 0 <= j < k ==> scan(xs[j]).Ok?
    requires scan(xs[k]).Err?
    ensures ScanAll(scan, xs) == Err(scan(xs[k]).msg)
  {
    ScanAllPrefixOk(scan, xs, k);
    assert xs[..k + 1][..k] == xs[..k];
    ScanAllFailedPrefix(scan, xs, k + 1);
  }

  /** A prefix of elements that all scan succeeds. */
  lemma {:induction false} ScanAllPrefixOk<X, Y>(scan: X -> Result<Y>, xs: seq<X>, k: nat)
    requires k <= |xs|
    requires forall j :: 0 <= j < k ==> scan(xs[j]).Ok?
    ensures ScanAll(scan, xs[..k]).Ok?
    decreases k
  {
    if k > 0 {
      ScanAllPrefixOk(scan, xs, k - 1);
      assert xs[..k][..k - 1] == xs[..k - 1];
    }
  }

  // ---------------------------------------------------------------------
  // The queries

  /** SQLite's ordering of cells: NULL first, then integers by value, then text by BINARY collation. */
  predicate CellLe(a: Option<Value>, b: Option<Value>) {
    match (a, b)
    case (None, _) => true
    case (_, None) => false
    case (Some(IntVal(x)), Some(IntVal(y))) => x <= y
    case (Some(IntVal(_)), Some(TextVal(_))) => true
    case (Some(TextVal(_)), Some(IntVal(_))) => false
    case (Some(TextVal(x)), Some(TextVal(y))) => NameLe(x, y)
  }

  /** `ORDER BY c`. */
  function OrderBy(c: Column): (Record, Record) -> bool {
    (a: Record, b: Record) => CellLe(Cell(a.row, c), Cell(b.row, c))
  }

  lemma CellLeTotal(a: Option<Value>, b: Option<Value>)
    ensures CellLe(a, b) || CellLe(b, a)
  {
    if a.Some? && b.Some? && a.value.TextVal? && b.value.TextVal? {
      NameLeTotal(a.value.s, b.value.s);
    }
  }

  lemma CellLeTransitive(a: Option<Value>, b: Option<Value>, c: Option<Value>)
    requires CellLe(a, b) && CellLe(b, c)
    ensures CellLe(a, c)
  {
    if a.Some? && b.Some? && c.Some? && a.value.TextVal? && b.value.TextVal? && c.value.TextVal? {
      NameLeTransitive(a.value.s, b.value.s, c.value.s);
    }
  }

  /** Every `ORDER BY` column gives a valid sort order. */
  lemma OrderByIsPreorder(c: Column)
    ensures TotalPreorder(OrderBy(c))
  {
    forall a: Record, b: Record ensures OrderBy(c)(a, b) || OrderBy(c)(b, a) {
      CellLeTotal(Cell(a.row, c), Cell(b.row, c));
    }
    forall a: Record, b: Record, d: Record | OrderBy(c)(a, b) && OrderBy(c)(b, d)
      ensures OrderBy(c)(a, d)
    {
      CellLeTransitive(Cell(a.row, c), Cell(b.row, c), Cell(d.row, c));
    }
  }

  /** `WHERE c = v`, in id order. */
  function Where(rows: seq<Row>, c: Column, v: Value): seq<Record> {
    Filter(Numbered(rows), Holds(c, v))
  }

  /** The condition `c = v` on one record. */
  function Holds(c: Column, v: Value): Record -> bool {
    (rec: Record) => Cell(rec.row, c) == Some(v)
  }

  /** `lower(name) LIKE lower(pattern)`; a NULL name never matches. */
  function NameMatches(pattern: string): Record -> bool {
    (rec: Record) => Name in rec.row && rec.row[Name].TextVal? && NameLike(rec.row[Name].s, pattern)
  }

  /** The text of `sql.ErrNoRows`. */
  const NoRows: string := "sql: no rows in result set"

  /**
   * `fetch_peripheral_by_name`: `QueryRow` keeps the first matching row; the
   * table is scanned in id order.
   */
  function PeripheralByName(t: Tables, pattern: string): (r: Result<Peripheral>)
    ensures r.Ok? ==> 1 <= r.value.id <= |t.peripherals| && NameLike(r.value.name, pattern)
    ensures |t.peripherals| == 0 ==> r == Err(NoRows)
  {
    var recs := Numbered(t.peripherals);
    var hits := Filter(recs, NameMatches(pattern));
    if |hits| == 0 then Err(NoRows)
    else
      FilterMembers(recs, NameMatches(pattern));
      assert hits[0] in recs;
      ScanPeripheral(hits[0])
  }

  /** `fetch_peripheral`: the row whose id is `id`. */
  function PeripheralById(t: Tables, id: int): (r: Result<Peripheral>)
    ensures r.Ok? ==> r.value.id == id && 1 <= id <= |t.peripherals|
    ensures !(1 <= id <= |t.peripherals|) ==> r == Err(NoRows)
  {
    if 1 <= id <= |t.peripherals| then ScanPeripheral(Record(id, t.peripherals[id - 1]))
    else Err(NoRows)
  }

  /** The rows `fetch_registers` reads: `WHERE peripheral_id = ? ORDER BY name`. */
  function RegisterRows(t: Tables, peripheralId: int): seq<Record> {
    SortBy(Where(t.registers, PeripheralId, IntVal(peripheralId)), OrderBy(Name))
  }

  /** The rows `fetch_fields` reads: `WHERE register_id = ? ORDER BY bit_offset`. */
  function FieldRows(t: Tables, registerId: int): seq<Record> {
    SortBy(Where(t.fields, RegisterId, IntVal(registerId)), OrderBy(BitOffset))
  }

  function RegisterScanContext(peripheralId: int): string {
    "failure in fetch_registers scan for id " + Itoa(peripheralId) + ": "
  }

  function FieldScanContext(registerId: int): string {
    "failure in fetch_fields scan for id " + Itoa(registerId) + ": "
  }

  function ScanRegisterIn(peripheralId: int): Record -> Result<Register> {
    (rec: Record) => Wrap(ScanRegister(rec), RegisterScanContext(peripheralId))
  }

  function ScanFieldIn(registerId: int): Record -> Result<Field> {
    (rec: Record) => Wrap(ScanField(rec), FieldScanContext(registerId))
  }

  /** What `fetch_registers(peripheralId)` returns when the driver does not fail. */
  function RegistersOf(t: Tables, peripheralId: int): Result<seq<Register>> {
    ScanAll(ScanRegisterIn(peripheralId), RegisterRows(t, peripheralId))
  }

  /** What `fetch_fields(registerId)` returns when the driver does not fail. */
  function FieldsOf(t: Tables, registerId: int): Result<seq<Field>> {
    ScanAll(ScanFieldIn(registerId), FieldRows(t, registerId))
  }

  /**
   * A failure of the driver while reading, which the model cannot see: none,
   * `DB.Query` itself failing, or `rows.Next` giving up after `after` rows
   * with an error that `rows.Err()` then reports.
   */
  datatype ReadFault = NoReadFault | QueryFails(msg: string) | RowsFail(after: nat, msg: string)

  /** The rows `rows.Next` hands out before it gives up. */
  function Delivered<X>(rows: seq<X>, fault: ReadFault): seq<X> {
    if fault.RowsFail? && fault.after < |rows| then rows[..fault.after] else rows
  }

  /**
   * A query followed by the `rows.Next` loop and the `rows.Err()` check: the
   * query error, else the first scan error among the delivered rows, else the
   * rows error, else every delivered row scanned.
   */
  function ReadRows<X, Y>(scan: X -> Result<Y>, rows: seq<X>, fault: ReadFault,
                          queryContext: string, rowsContext: string): Result<seq<Y>> {
    if fault.QueryFails? then Err(queryContext + fault.msg)
    else
      var s := ScanAll(scan, Delivered(rows, fault));
      if s.Ok? && fault.RowsFail? then Err(rowsContext + fault.msg) else s
  }

  function RegisterQueryContext(peripheralId: int): string {
    "failure in fetch_registers query for id " + Itoa(peripheralId) + ": "
  }

  function RegisterRowsContext(peripheralId: int): string {
    "failure in fetch_registers rows for id " + Itoa(peripheralId) + ": "
  }

  function FieldQueryContext(registerId: int): string {
    "failure in fetch_fields query for id " + Itoa(registerId) + ": "
  }

  /** As written, `fetch_fields` reports a rows failure under the name of `fetch_registers`. */
  function FieldRowsContext(registerId: int): string {
    "failure in fetch_registers rows for id " + Itoa(registerId) + ": "
  }

  /** What `fetch_registers(peripheralId)` returns under a driver fault. */
  function RegistersRead(t: Tables, peripheralId: int, fault: ReadFault): Result<seq<Register>> {
    ReadRows(ScanRegisterIn(peripheralId), RegisterRows(t, peripheralId), fault,
             RegisterQueryContext(peripheralId), RegisterRowsContext(peripheralId))
  }

  /** What `fetch_fields(registerId)` returns under a driver fault. */
  function FieldsRead(t: Tables, registerId: int, fault: ReadFault): Result<seq<Field>> {
    ReadRows(ScanFieldIn(registerId), FieldRows(t, registerId), fault,
             FieldQueryContext(registerId), FieldRowsContext(registerId))
  }

  /** One more successful element extends a successful scan of a prefix. */
  lemma ScanAllStep<X, Y>(scan: X -> Result<Y>, xs: seq<X>, i: nat, ys: seq<Y>, y: Y)
    requires i < |xs|
    requires ScanAll(scan, xs[..i]) == Ok(ys)
    requires scan(xs[i]) == Ok(y)
    ensures ScanAll(scan, xs[..i + 1]) == Ok(ys + [y])
  {
    assert xs[..i + 1][..i] == xs[..i];
  }

  /** A failing element after a successful prefix fails the whole scan with its message. */
  lemma ScanAllFailedStep<X, Y>(scan: X -> Result<Y>, xs: seq<X>, i: nat)
    requires i < |xs|
    requires ScanAll(scan, xs[..i]).Ok?
    requires scan(xs[i]).Err?
    ensures ScanAll(scan, xs) == Err(scan(xs[i]).msg)
  {
    assert xs[..i + 1][..i] == xs[..i];
    ScanAllFailedPrefix(scan, xs, i + 1);
  }

  /** A failed scan fails with the message of one of its elements. */
  lemma {:induction false} ScanAllErr<X, Y>(scan: X -> Result<Y>, xs: seq<X>)
    requires ScanAll(scan, xs).Err?
    ensures exists i :: 0 <= i < |xs| && scan(xs[i]).Err? && ScanAll(scan, xs).msg == scan(xs[i]).msg
    decreases |xs|
  {
    var init := xs[..|xs| - 1];
    if ScanAll(scan, init).Err? {
      ScanAllErr(scan, init);
      var i :| 0 <= i < |init| && scan(init[i]).Err? && ScanAll(scan, init).msg == scan(init[i]).msg;
      assert init[i] == xs[i];
    }
  }

  // ---------------------------------------------------------------------
  // Properties of the name lookup

  /**
   * A peripheral found by name has a name LIKE the pattern, is stored under
   * its id, and no row before it matches.
   */
  lemma ByNameFound(t: Tables, pattern: string)
    requires PeripheralByName(t, pattern).Ok?
    ensures var p := PeripheralByName(t, pattern).value;
      && 1 <= p.id <= |t.peripherals|
      && Cell(t.peripherals[p.id - 1], Name) == Some(TextVal(p.name))
      && NameLike(p.name, pattern)
      && forall j :: 0 <= j < p.id - 1 ==> !NameMatches(pattern)(Record(j + 1, t.peripherals[j]))
  {
    var recs := Numbered(t.peripherals);
    var hits := Filter(recs, NameMatches(pattern));
    FilterFirst(recs, NameMatches(pattern));
    FilterMembers(recs, NameMatches(pattern));
    var k :| 0 <= k < |recs| && recs[k] == hits[0] && forall j :: 0 <= j < k ==> !NameMatches(pattern)(recs[j]);
    assert hits[0] in hits;
  }

  /** A scan error is never mistaken for "no rows". */
  lemma ScanIsNotNoRows(rec: Record)
    ensures ScanPeripheral(rec) != Err(NoRows)
  {
    var r := ScanPeripheral(rec);
    if r.Err? {
      assert r.msg[5] == 'S';
    }
  }

  /** The lookup reports "no rows" exactly when no stored name is LIKE the pattern. */
  lemma ByNameNoRows(t: Tables, pattern: string)
    ensures PeripheralByName(t, pattern) == Err(NoRows)
        <==> forall i :: 0 <= i < |t.peripherals| ==> !NameMatches(pattern)(Record(i + 1, t.peripherals[i]))
  {
    var recs := Numbered(t.peripherals);
    var hits := Filter(recs, NameMatches(pattern));
    FilterMembers(recs, NameMatches(pattern));
    if |hits| > 0 {
      assert hits[0] in hits;
      ScanIsNotNoRows(hits[0]);
    } else {
      forall i | 0 <= i < |t.peripherals| ensures !NameMatches(pattern)(Record(i + 1, t.peripherals[i])) {
        assert recs[i] in recs;
      }
    }
  }

  /** The pattern is compared case-insensitively: lower-casing it changes nothing. */
  lemma ByNameIgnoresCase(t: Tables, pattern: string)
    ensures PeripheralByName(t, pattern) == PeripheralByName(t, ToLower(pattern))
  {
    forall rec: Record | Name in rec.row && rec.row[Name].TextVal?
      ensures NameMatches(pattern)(rec) == NameMatches(ToLower(pattern))(rec)
    {
      NameLikeIgnoresCase(rec.row[Name].s, pattern);
    }
    FilterCongruent(Numbered(t.peripherals), NameMatches(pattern), NameMatches(ToLower(pattern)));
  }

  // ---------------------------------------------------------------------
  // fetch_registers and fetch_fields

  /**
   * `fetch_registers`: run the query, scan the rows it hands out one by one,
   * stopping at the first failure, then check `rows.Err()`.
   */
  method FetchRegisters(db: Db, peripheralId: int, fault: ReadFault) returns (r: Result<seq<Register>>)
    ensures r == RegistersRead(db.Snapshot(), peripheralId, fault)
  {
    if fault.QueryFails? {
      return Err(RegisterQueryContext(peripheralId) + fault.msg);
    }
    var rows := Delivered(RegisterRows(db.Snapshot(), peripheralId), fault);
    ghost var scan := ScanRegisterIn(peripheralId);
    var registers: seq<Register> := [];
    var i := 0;
    while i < |rows|
      invariant 0 <= i <= |rows|
      invariant ScanAll(scan, rows[..i]) == Ok(registers)
    {
      var reg := ScanRegister(rows[i]);
      if reg.Err? {
        ScanAllFailedStep(scan, rows, i);
        return Err(RegisterScanContext(peripheralId) + reg.msg);
      }
      ScanAllStep(scan, rows, i, registers, reg.value);
      registers := registers + [reg.value];
      i := i + 1;
    }
    assert rows[..i] == rows;
    if fault.RowsFail? {
      return Err(RegisterRowsContext(peripheralId) + fault.msg);
    }
    return Ok(registers);
  }

  /**
   * `fetch_fields`: run the query, scan the rows it hands out one by one,
   * stopping at the first failure, then check `rows.Err()`.
   */
  method FetchFields(db: Db, registerId: int, fault: ReadFault) returns (r: Result<seq<Field>>)
    ensures r == FieldsRead(db.Snapshot(), registerId, fault)
  {
    if fault.QueryFails? {
      return Err(FieldQueryContext(registerId) + fault.msg);
    }
    var rows := Delivered(FieldRows(db.Snapshot(), registerId), fault);
    ghost var scan := ScanFieldIn(registerId);
    var fields: seq<Field> := [];
    var i := 0;
    while i < |rows|
      invariant 0 <= i <= |rows|
      invariant ScanAll(scan, rows[..i]) == Ok(fields)
    {
      var f := ScanField(rows[i]);
      if f.Err? {
        ScanAllFailedStep(scan, rows, i);
        return Err(FieldScanContext(registerId) + f.msg);
      }
      ScanAllStep(scan, rows, i, fields, f.value);
      fields := fields + [f.value];
      i := i + 1;
    }
    assert rows[..i] == rows;
    if fault.RowsFail? {
      return Err(FieldRowsContext(registerId) + fault.msg);
    }
    return Ok(fields);
  }

  // ---------------------------------------------------------------------
  // collect_registers

  /** The peripheral whose registers are read: the one it is derived from, if any (one level only). */
  function Owner(p: Peripheral): int {
    if p.derivedFrom.Some? then p.derivedFrom.value else p.id
  }

  /** One iteration of the field loop: fetch the register's fields and store them in it. */
  function AttachFields(t: Tables): Register -> Result<Register> {
    (r: Register) =>
      var fs := FieldsOf(t, r.id);
      if fs.Err? then Err(fs.msg) else Ok(r.(fields := Some(fs.value)))
  }

  function NotFound(periph: string, cause: string): string {
    "Peripheral " + periph + " not found: " + cause
  }

  /** What `collect_registers(periph)` returns. */
  function Collected(t: Tables, periph: string): (r: Result<Peripheral>)
    ensures r.Ok? ==> r.value.registers.Some?
  {
    var found := PeripheralByName(t, periph);
    if found.Err? then Err(NotFound(periph, found.msg))
    else
      var regs := RegistersOf(t, Owner(found.value));
      if regs.Err? then Err(regs.msg)
      else
        var full := ScanAll(AttachFields(t), regs.value);
        if full.Err? then Err(full.msg)
        else Ok(found.value.(registers := Some(full.value)))
  }

  /**
   * `collect_registers`: look the peripheral up by name, read the registers of
   * its owner, then fill in each register's fields in place.
   */
  method CollectRegisters(db: Db, periph: string) returns (r: Result<Peripheral>)
    ensures r == Collected(db.Snapshot(), periph)
  {
    var found := PeripheralByName(db.Snapshot(), periph);
    if found.Err? {
      return Err(NotFound(periph, found.msg));
    }
    var p := found.value;
    var id := p.id;
    if p.derivedFrom.Some? {
      id := p.derivedFrom.value;
    }
    var fetched := FetchRegisters(db, id, NoReadFault);
    if fetched.Err? {
      return Err(fetched.msg);
    }
    var full := FillFields(db, fetched.value);
    if full.Err? {
      return Err(full.msg);
    }
    return Ok(p.(registers := Some(full.value)));
  }

  /** The loop of `collect_registers` that sets `regs[i].fields` for each register in turn. */
  method FillFields(db: Db, registers: seq<Register>) returns (r: Result<seq<Register>>)
    ensures r == ScanAll(AttachFields(db.Snapshot()), registers)
  {
    var regs := registers;
    ghost var attach := AttachFields(db.Snapshot());
    ghost var done: seq<Register> := [];
    for i := 0 to |registers|
      invariant |done| == i
      invariant ScanAll(attach, registers[..i]) == Ok(done)
      invariant regs == done + registers[i..]
    {
      var r := regs[i];
      assert r == registers[i];
      var attached := AttachOne(db, r);
      if attached.Err? {
        ScanAllFailedStep(attach, registers, i);
        return Err(attached.msg);
      }
      ScanInPlaceStep(attach, registers, i, done, attached.value);
      regs := regs[i := attached.value];
      done := done + [attached.value];
    }
    assert registers[..|registers|] == registers;
    assert done + registers[|registers|..] == done;
    return Ok(regs);
  }

  /** One iteration: fetch the register's fields and store them in it. */
  method AttachOne(db: Db, r: Register) returns (res: Result<Register>)
    ensures res == AttachFields(db.Snapshot())(r)
  {
    var fields := FetchFields(db, r.id, NoReadFault);
    if fields.Err? {
      return Err(fields.msg);
    }
    return Ok(r.(fields := Some(fields.value)));
  }

  /**
   * One step of a scan that stores each result in place: the scanned prefix
   * grows by the new element, and the rest of the sequence is untouched.
   */
  lemma ScanInPlaceStep<T>(scan: T -> Result<T>, xs: seq<T>, i: nat, done: seq<T>, y: T)
    requires i < |xs| && |done| == i
    requires ScanAll(scan, xs[..i]) == Ok(done)
    requires scan(xs[i]) == Ok(y)
    ensures ScanAll(scan, xs[..i + 1]) == Ok(done + [y])
    ensures (done + xs[i..])[i := y] == (done + [y]) + xs[i + 1..]
  {
    ScanAllStep(scan, xs, i, done, y);
    assert xs[i..][1..] == xs[i + 1..];
  }

  // ---------------------------------------------------------------------
  // Properties of the register and field queries

  /** `fetch_registers` returns its registers in ascending name order. */
  lemma RegistersSorted(t: Tables, peripheralId: int)
    requires RegistersOf(t, peripheralId).Ok?
    ensures var regs := RegistersOf(t, peripheralId).value;
      forall i, j :: 0 <= i < j < |regs| ==> NameLe(regs[i].name, regs[j].name)
  {
    var rows := RegisterRows(t, peripheralId);
    var regs := RegistersOf(t, peripheralId).value;
    OrderByIsPreorder(Name);
    SortBySorted(Where(t.registers, PeripheralId, IntVal(peripheralId)), OrderBy(Name));
    ScanAllOk(ScanRegisterIn(peripheralId), rows);
    forall i, j | 0 <= i < j < |regs| ensures NameLe(regs[i].name, regs[j].name) {
      assert ScanRegisterIn(peripheralId)(rows[i]) == Ok(regs[i]);
      assert ScanRegisterIn(peripheralId)(rows[j]) == Ok(regs[j]);
      assert OrderBy(Name)(rows[i], rows[j]);
    }
  }

  /** A numbered record is the stored row under its id. */
  lemma InNumbered(rows: seq<Row>, rec: Record)
    requires rec in Numbered(rows)
    ensures 1 <= rec.id <= |rows| && rec.row == rows[rec.id - 1]
  {
    var recs := Numbered(rows);
    var k :| 0 <= k < |recs| && recs[k] == rec;
  }

  /** A record selected by `WHERE c = v` is a stored row whose cell `c` holds `v`. */
  lemma InWhere(rows: seq<Row>, c: Column, v: Value, rec: Record)
    requires rec in Where(rows, c, v)
    ensures 1 <= rec.id <= |rows| && rec.row == rows[rec.id - 1] && Cell(rec.row, c) == Some(v)
  {
    FilterMembers(Numbered(rows), Holds(c, v));
    InNumbered(rows, rec);
  }

  /** Register `i` of a successful `fetch_registers` is the scan of the selected row `i`. */
  lemma RegisterFromRow(t: Tables, peripheralId: int, i: nat)
    requires RegistersOf(t, peripheralId).Ok?
    ensures |RegistersOf(t, peripheralId).value| == |RegisterRows(t, peripheralId)|
    ensures i < |RegisterRows(t, peripheralId)| ==>
      ScanRegister(RegisterRows(t, peripheralId)[i]) == Ok(RegistersOf(t, peripheralId).value[i])
  {
    var rows := RegisterRows(t, peripheralId);
    ScanAllOk(ScanRegisterIn(peripheralId), rows);
    if i < |rows| {
      assert ScanRegisterIn(peripheralId)(rows[i]) == Ok(RegistersOf(t, peripheralId).value[i]);
    }
  }

  /** Row `id` of the registers table exists and is stored with that peripheral id. */
  predicate StoredWith(t: Tables, peripheralId: int, id: int) {
    1 <= id <= |t.registers| && Cell(t.registers[id - 1], PeripheralId) == Some(IntVal(peripheralId))
  }

  /** Register `i` of a successful `fetch_registers` is stored with that peripheral id. */
  lemma RegisterBelongs(t: Tables, peripheralId: int, i: nat)
    requires RegistersOf(t, peripheralId).Ok?
    requires i < |RegistersOf(t, peripheralId).value|
    ensures StoredWith(t, peripheralId, RegistersOf(t, peripheralId).value[i].id)
  {
    RegisterFromRow(t, peripheralId, i);
    var rec := RegisterRows(t, peripheralId)[i];
    assert rec in RegisterRows(t, peripheralId);
    SortByKeeps(Where(t.registers, PeripheralId, IntVal(peripheralId)), OrderBy(Name), rec);
    InWhere(t.registers, PeripheralId, IntVal(peripheralId), rec);
  }

  /** Every register `fetch_registers` returns is stored with that peripheral id. */
  lemma RegistersBelong(t: Tables, peripheralId: int)
    requires RegistersOf(t, peripheralId).Ok?
    ensures var regs := RegistersOf(t, peripheralId).value;
      forall i :: 0 <= i < |regs| ==> StoredWith(t, peripheralId, regs[i].id)
  {
    forall i | 0 <= i < |RegistersOf(t, peripheralId).value|
      ensures StoredWith(t, peripheralId, RegistersOf(t, peripheralId).value[i].id)
    {
      RegisterBelongs(t, peripheralId, i);
    }
  }

  /** Every register stored with that peripheral id is returned by `fetch_registers`. */
  lemma RegistersComplete(t: Tables, peripheralId: int, k: nat)
    requires RegistersOf(t, peripheralId).Ok?
    requires k < |t.registers| && Cell(t.registers[k], PeripheralId) == Some(IntVal(peripheralId))
    ensures var regs := RegistersOf(t, peripheralId).value;
      exists i :: 0 <= i < |regs| && regs[i].id == k + 1
  {
    var rows := RegisterRows(t, peripheralId);
    var regs := RegistersOf(t, peripheralId).value;
    var recs := Numbered(t.registers);
    ScanAllOk(ScanRegisterIn(peripheralId), rows);
    assert recs[k] in recs;
    FilterMembers(recs, Holds(PeripheralId, IntVal(peripheralId)));
    SortByKeeps(Where(t.registers, PeripheralId, IntVal(peripheralId)), OrderBy(Name), recs[k]);
    var i :| 0 <= i < |rows| && rows[i] == recs[k];
    assert ScanRegisterIn(peripheralId)(rows[i]) == Ok(regs[i]);
  }

  /** `fetch_fields` returns its fields in ascending bit-offset order. */
  lemma FieldsSorted(t: Tables, registerId: int)
    requires FieldsOf(t, registerId).Ok?
    ensures var fs := FieldsOf(t, registerId).value;
      forall i, j :: 0 <= i < j < |fs| ==> fs[i].bitOffset <= fs[j].bitOffset
  {
    var rows := FieldRows(t, registerId);
    var fs := FieldsOf(t, registerId).value;
    OrderByIsPreorder(BitOffset);
    SortBySorted(Where(t.fields, RegisterId, IntVal(registerId)), OrderBy(BitOffset));
    ScanAllOk(ScanFieldIn(registerId), rows);
    forall i, j | 0 <= i < j < |fs| ensures fs[i].bitOffset <= fs[j].bitOffset {
      assert ScanFieldIn(registerId)(rows[i]) == Ok(fs[i]);
      assert ScanFieldIn(registerId)(rows[j]) == Ok(fs[j]);
      assert OrderBy(BitOffset)(rows[i], rows[j]);
    }
  }

  /** `fetch_fields` returns one field per row stored with that register id. */
  lemma FieldsCount(t: Tables, registerId: int)
    requires FieldsOf(t, registerId).Ok?
    ensures |FieldsOf(t, registerId).value| == |Where(t.fields, RegisterId, IntVal(registerId))|
  {
    ScanAllOk(ScanFieldIn(registerId), FieldRows(t, registerId));
  }

  /** A failing register scan names the peripheral id it was reading. */
  lemma RegistersError(t: Tables, peripheralId: int)
    requires RegistersOf(t, peripheralId).Err?
    ensures IsPrefix(RegisterScanContext(peripheralId), RegistersOf(t, peripheralId).msg)
  {
    var rows := RegisterRows(t, peripheralId);
    ScanAllErr(ScanRegisterIn(peripheralId), rows);
    var i :| 0 <= i < |rows| && ScanRegisterIn(peripheralId)(rows[i]).Err?
             && RegistersOf(t, peripheralId).msg == ScanRegisterIn(peripheralId)(rows[i]).msg;
    var m := RegistersOf(t, peripheralId).msg;
    assert m == RegisterScanContext(peripheralId) + ScanRegister(rows[i]).msg;
    assert m[..|RegisterScanContext(peripheralId)|] == RegisterScanContext(peripheralId);
  }

  /** A failing field scan names the register id it was reading. */
  lemma FieldsError(t: Tables, registerId: int)
    requires FieldsOf(t, registerId).Err?
    ensures IsPrefix(FieldScanContext(registerId), FieldsOf(t, registerId).msg)
  {
    var rows := FieldRows(t, registerId);
    ScanAllErr(ScanFieldIn(registerId), rows);
    var i :| 0 <= i < |rows| && ScanFieldIn(registerId)(rows[i]).Err?
             && FieldsOf(t, registerId).msg == ScanFieldIn(registerId)(rows[i]).msg;
    var m := FieldsOf(t, registerId).msg;
    assert m == FieldScanContext(registerId) + ScanField(rows[i]).msg;
    assert m[..|FieldScanContext(registerId)|] == FieldScanContext(registerId);
  }

  /**
   * A failed read fails with the query error, or else with a scan error or
   * the rows error; never with a rows error when the driver did not fail.
   */
  lemma ReadRowsError<X, Y>(scan: X -> Result<Y>, rows: seq<X>, fault: ReadFault,
                            queryContext: string, rowsContext: string, scanContext: string)
    requires forall x :: scan(x).Err? ==> IsPrefix(scanContext, scan(x).msg)
    requires ReadRows(scan, rows, fault, queryContext, rowsContext).Err?
    ensures var m := ReadRows(scan, rows, fault, queryContext, rowsContext).msg;
      && (fault.QueryFails? ==> m == queryContext + fault.msg)
      && (fault.NoReadFault? ==> IsPrefix(scanContext, m))
      && (fault.RowsFail? ==> IsPrefix(scanContext, m) || m == rowsContext + fault.msg)
  {
    if !fault.QueryFails? {
      var delivered := Delivered(rows, fault);
      if ScanAll(scan, delivered).Err? {
        ScanAllErr(scan, delivered);
      }
    }
  }

  /** A wrapped scan error starts with its context. */
  lemma WrappedPrefix<T>(r: Result<T>, context: string)
    ensures Wrap(r, context).Err? ==> IsPrefix(context, Wrap(r, context).msg)
  {
    if r.Err? {
      assert (context + r.msg)[..|context|] == context;
    }
  }

  /**
   * A failing `fetch_registers` names the peripheral id under the step that
   * failed: the query, a scan, or `rows.Err()`.
   */
  lemma RegistersReadError(t: Tables, peripheralId: int, fault: ReadFault)
    requires RegistersRead(t, peripheralId, fault).Err?
    ensures var m := RegistersRead(t, peripheralId, fault).msg;
      && (fault.QueryFails? ==> m == RegisterQueryContext(peripheralId) + fault.msg)
      && (fault.NoReadFault? ==> IsPrefix(RegisterScanContext(peripheralId), m))
      && (fault.RowsFail? ==> IsPrefix(RegisterScanContext(peripheralId), m)
                              || m == RegisterRowsContext(peripheralId) + fault.msg)
  {
    forall rec ensures ScanRegisterIn(peripheralId)(rec).Err?
      ==> IsPrefix(RegisterScanContext(peripheralId), ScanRegisterIn(peripheralId)(rec).msg)
    {
      WrappedPrefix(ScanRegister(rec), RegisterScanContext(peripheralId));
    }
    ReadRowsError(ScanRegisterIn(peripheralId), RegisterRows(t, peripheralId), fault,
                  RegisterQueryContext(peripheralId), RegisterRowsContext(peripheralId), RegisterScanContext(peripheralId));
  }

  /**
   * A failing `fetch_fields` names the register id under the step that
   * failed; a `rows.Err()` failure is reported, as written, under the name
   * `fetch_registers`.
   */
  lemma FieldsReadError(t: Tables, registerId: int, fault: ReadFault)
    requires FieldsRead(t, registerId, fault).Err?
    ensures var m := FieldsRead(t, registerId, fault).msg;
      && (fault.QueryFails? ==> m == FieldQueryContext(registerId) + fault.msg)
      && (fault.NoReadFault? ==> IsPrefix(FieldScanContext(registerId), m))
      && (fault.RowsFail? ==> IsPrefix(FieldScanContext(registerId), m)
                              || m == "failure in fetch_registers rows for id " + Itoa(registerId) + ": " + fault.msg)
  {
    forall rec ensures ScanFieldIn(registerId)(rec).Err?
      ==> IsPrefix(FieldScanContext(registerId), ScanFieldIn(registerId)(rec).msg)
    {
      WrappedPrefix(ScanField(rec), FieldScanContext(registerId));
    }
    ReadRowsError(ScanFieldIn(registerId), FieldRows(t, registerId), fault,
                  FieldQueryContext(registerId), FieldRowsContext(registerId), FieldScanContext(registerId));
  }

  /**
   * When every row scans, a `rows.Err()` failure, wherever the rows stopped,
   * is the result of `fetch_fields`: the rows already read are dropped.
   */
  lemma FieldsRowsFailure(t: Tables, registerId: int, after: nat, msg: string)
    requires FieldsOf(t, registerId).Ok?
    ensures FieldsRead(t, registerId, RowsFail(after, msg)) == Err(FieldRowsContext(registerId) + msg)
  {
    var rows := FieldRows(t, registerId);
    if after < |rows| {
      ScanAllOk(ScanFieldIn(registerId), rows);
      ScanAllPrefixOk(ScanFieldIn(registerId), rows, after);
    }
  }

  /** Without a driver fault, the reads are the plain scans of the selected rows. */
  lemma FaultFreeReads(t: Tables, id: int)
    ensures RegistersRead(t, id, NoReadFault) == RegistersOf(t, id)
    ensures FieldsRead(t, id, NoReadFault) == FieldsOf(t, id)
  {
  }

  // ---------------------------------------------------------------------
  // Properties of collect_registers

  /** The result keeps the looked-up peripheral's own id, alias, name, base address and description. */
  lemma CollectKeepsIdentity(t: Tables, periph: string)
    requires Collected(t, periph).Ok?
    ensures var c := Collected(t, periph).value;
      PeripheralByName(t, periph) == Ok(c.(registers := None))
  {
  }

  /**
   * The registers are those `fetch_registers` returns for the owner (the
   * stored `derived_from`, never followed further), each with the fields
   * `fetch_fields` returns for it.
   */
  lemma CollectReadsOwner(t: Tables, periph: string)
    requires Collected(t, periph).Ok?
    ensures var c := Collected(t, periph).value;
      && RegistersOf(t, Owner(c)).Ok?
      && c.registers.Some?
      && |c.registers.value| == |RegistersOf(t, Owner(c)).value|
      && forall i :: 0 <= i < |c.registers.value| ==>
           var reg := RegistersOf(t, Owner(c)).value[i];
           FieldsOf(t, reg.id).Ok? && c.registers.value[i] == reg.(fields := Some(FieldsOf(t, reg.id).value))
  {
    var regs := RegistersOf(t, Owner(PeripheralByName(t, periph).value)).value;
    ScanAllOk(AttachFields(t), regs);
  }

  /** Register `i` of a collected peripheral is register `i` of its owner, with its fields. */
  lemma CollectedAt(t: Tables, periph: string, i: nat)
    requires Collected(t, periph).Ok?
    requires i < |Collected(t, periph).value.registers.value|
    ensures var c := Collected(t, periph).value;
      && RegistersOf(t, Owner(c)).Ok?
      && i < |RegistersOf(t, Owner(c)).value|
      && var reg := RegistersOf(t, Owner(c)).value[i];
         FieldsOf(t, reg.id).Ok? && c.registers.value[i] == reg.(fields := Some(FieldsOf(t, reg.id).value))
  {
    var regs := RegistersOf(t, Owner(PeripheralByName(t, periph).value)).value;
    ScanAllOk(AttachFields(t), regs);
    assert AttachFields(t)(regs[i]) == Ok(Collected(t, periph).value.registers.value[i]);
  }

  /**
   * Every collected register is stored under the owner's id: the id a derived
   * peripheral is derived from, or the peripheral's own id.
   */
  lemma CollectOnlyOwner(t: Tables, periph: string)
    requires Collected(t, periph).Ok?
    ensures var c := Collected(t, periph).value;
      forall i :: 0 <= i < |c.registers.value| ==>
        var id := c.registers.value[i].id;
        1 <= id <= |t.registers| && Cell(t.registers[id - 1], PeripheralId) == Some(IntVal(Owner(c)))
  {
    var c := Collected(t, periph).value;
    var owner, got := Owner(c), c.registers.value;
    forall i | 0 <= i < |got| ensures StoredWith(t, owner, got[i].id) {
      CollectedAt(t, periph, i);
      RegisterBelongs(t, owner, i);
      assert got[i].id == RegistersOf(t, owner).value[i].id;
    }
  }

  /** Every register stored under the owner's id is collected. */
  lemma CollectAllOwner(t: Tables, periph: string, k: nat)
    requires Collected(t, periph).Ok?
    requires k < |t.registers|
    requires Cell(t.registers[k], PeripheralId) == Some(IntVal(Owner(Collected(t, periph).value)))
    ensures var c := Collected(t, periph).value;
      exists i :: 0 <= i < |c.registers.value| && c.registers.value[i].id == k + 1
  {
    var c := Collected(t, periph).value;
    CollectReadsOwner(t, periph);
    var regs := RegistersOf(t, Owner(c)).value;
    RegistersComplete(t, Owner(c), k);
    var i :| 0 <= i < |regs| && regs[i].id == k + 1;
    assert c.registers.value[i].id == k + 1;
  }

  /**
   * Registers come back in ascending name order, and every register has its
   * field list, in ascending bit-offset order.
   */
  lemma CollectSorted(t: Tables, periph: string)
    requires Collected(t, periph).Ok?
    ensures var c := Collected(t, periph).value;
      && c.registers.Some?
      && (forall i, j :: 0 <= i < j < |c.registers.value| ==>
            NameLe(c.registers.value[i].name, c.registers.value[j].name))
      && forall i :: 0 <= i < |c.registers.value| ==>
           var fs := c.registers.value[i].fields;
           fs.Some? && forall a, b :: 0 <= a < b < |fs.value| ==> fs.value[a].bitOffset <= fs.value[b].bitOffset
  {
    var c := Collected(t, periph).value;
    CollectReadsOwner(t, periph);
    var regs := RegistersOf(t, Owner(c)).value;
    RegistersSorted(t, Owner(c));
    forall i | 0 <= i < |c.registers.value|
      ensures var fs := c.registers.value[i].fields;
        fs.Some? && forall a, b :: 0 <= a < b < |fs.value| ==> fs.value[a].bitOffset <= fs.value[b].bitOffset
    {
      FieldsSorted(t, regs[i].id);
    }
  }

  /** An unknown name fails with "Peripheral <name> not found: " and the lookup's error. */
  lemma CollectNotFound(t: Tables, periph: string)
    requires PeripheralByName(t, periph).Err?
    ensures Collected(t, periph) == Err("Peripheral " + periph + " not found: " + PeripheralByName(t, periph).msg)
  {
  }

  /** A failing register fetch aborts with an error naming the owner's id. */
  lemma CollectRegistersFail(t: Tables, periph: string)
    requires PeripheralByName(t, periph).Ok?
    requires RegistersOf(t, Owner(PeripheralByName(t, periph).value)).Err?
    ensures Collected(t, periph).Err?
    ensures IsPrefix(RegisterScanContext(Owner(PeripheralByName(t, periph).value)), Collected(t, periph).msg)
  {
    RegistersError(t, Owner(PeripheralByName(t, periph).value));
  }

  /**
   * The first register whose field fetch fails aborts the whole collection,
   * with an error naming that register's id.
   */
  lemma CollectFieldsFail(t: Tables, periph: string, k: nat)
    requires PeripheralByName(t, periph).Ok?
    requires RegistersOf(t, Owner(PeripheralByName(t, periph).value)).Ok?
    requires var regs := RegistersOf(t, Owner(PeripheralByName(t, periph).value)).value;
      && k < |regs|
      && (forall j :: 0 <= j < k ==> FieldsOf(t, regs[j].id).Ok?)
      && FieldsOf(t, regs[k].id).Err?
    ensures var regs := RegistersOf(t, Owner(PeripheralByName(t, periph).value)).value;
      && Collected(t, periph) == Err(FieldsOf(t, regs[k].id).msg)
      && IsPrefix(FieldScanContext(regs[k].id), Collected(t, periph).msg)
  {
    var regs := RegistersOf(t, Owner(PeripheralByName(t, periph).value)).value;
    ScanAllFirstError(AttachFields(t), regs, k);
    FieldsError(t, regs[k].id);
  }

  // ---------------------------------------------------------------------
  // IntPow

  /** `b` to the power `e`. */
  function Pow(b: int, e: nat): int {
    if e == 0 then 1 else b * Pow(b, e - 1)
  }

  lemma {:induction false} PowAdd(b: int, x: nat, y: nat)
    ensures Pow(b, x + y) == Pow(b, x) * Pow(b, y)
    decreases x
  {
    if x > 0 {
      PowAdd(b, x - 1, y);
    }
  }

  lemma {:induction false} PowSquare(b: int, e: nat)
    ensures Pow(b * b, e) == Pow(b, 2 * e)
    decreases e
  {
    if e > 0 {
      PowSquare(b, e - 1);
      PowAdd(b, 2, 2 * (e - 1));
    }
  }

  /** One squaring step: `b^e` is `(b^2)^(e/2)`, times `b` when `e` is odd. */
  lemma PowHalf(b: int, e: nat)
    ensures Pow(b, e) == (if e % 2 == 1 then b else 1) * Pow(b * b, e / 2)
  {
    PowSquare(b, e / 2);
    if e % 2 == 1 {
      assert e == 2 * (e / 2) + 1;
      PowAdd(b, 2 * (e / 2), 1);
    }
  }

  /**
   * `IntPow`: exponentiation by squaring. Go's `exp & 1` and `exp >>= 1` are
   * `exp % 2` and `exp / 2` for a non-negative exponent; a negative one never
   * reaches 0, so the Go loop does not terminate and callers must not pass one.
   */
  method IntPow(base: int, exp: int) returns (result: int)
    requires exp >= 0
    ensures result == Pow(base, exp)
  {
    var b, e := base, exp;
    result := 1;
    while true
      invariant e >= 0
      invariant result * Pow(b, e) == Pow(base, exp)
      decreases e
    {
      PowHalf(b, e);
      if e % 2 == 1 {
        result := result * b;
      }
      e := e / 2;
      if e == 0 {
        break;
      }
      b := b * b;
    }
  }

  lemma {:induction false} PowPositive(n: nat)
    ensures Pow(2, n) >= 1
    ensures n >= 1 ==> Pow(2, n) % 2 == 0
  {
    if n > 0 { PowPositive(n - 1); }
  }

  // ---------------------------------------------------------------------
  // lookupFile and lookupInNearestDir

  /**
   * The file a directory would hold: `path.Join(dir, filename)`, where `dir`
   * is a clean absolute path given as its list of elements (`[]` is `/`).
   */
  function Candidate(dir: seq<string>, filename: string): (p: string)
    ensures |p| > 0 && p[0] == '/'
  {
    "/" + Join(dir + [filename], "/")
  }

  function NotFoundMessage(filename: string, cwd: string): string {
    "database file " + filename + " not found. Starting at: " + cwd
  }

  /**
   * `lookupFile`: the file in this directory if it exists, otherwise look in
   * the parent. `fs` is the set of existing paths; the parent of a clean
   * absolute path drops its last element (`path.Dir`).
   */
  function LookupFile(fs: set<string>, dir: seq<string>, filename: string, cwd: string): Result<string>
    decreases |dir|, 1
  {
    var candidate := Candidate(dir, filename);
    if candidate in fs then Ok(candidate) else LookupInNearestDir(fs, dir, filename, cwd)
  }

  /** `lookupInNearestDir`: fail at the root, otherwise search from the parent directory. */
  function LookupInNearestDir(fs: set<string>, dir: seq<string>, filename: string, cwd: string): Result<string>
    decreases |dir|, 0
  {
    if |dir| == 0 then Err(NotFoundMessage(filename, cwd))
    else LookupFile(fs, dir[..|dir| - 1], filename, cwd)
  }

  /**
   * A found file exists and sits in the nearest enclosing directory that has
   * one: no directory between it and the start directory holds the file.
   */
  lemma {:induction false} LookupFindsNearest(fs: set<string>, dir: seq<string>, filename: string, cwd: string)
    requires LookupFile(fs, dir, filename, cwd).Ok?
    ensures var p := LookupFile(fs, dir, filename, cwd).value;
      p in fs && exists k :: 0 <= k <= |dir| && p == Candidate(dir[..k], filename)
                  && forall j :: k < j <= |dir| ==> Candidate(dir[..j], filename) !in fs
    decreases |dir|
  {
    var p := LookupFile(fs, dir, filename, cwd).value;
    if Candidate(dir, filename) in fs {
      assert dir[..|dir|] == dir;
    } else {
      var parent := dir[..|dir| - 1];
      LookupFindsNearest(fs, parent, filename, cwd);
      var k :| 0 <= k <= |parent| && p == Candidate(parent[..k], filename)
                  && forall j :: k < j <= |parent| ==> Candidate(parent[..j], filename) !in fs;
      assert parent[..k] == dir[..k];
      forall j | k < j <= |dir| ensures Candidate(dir[..j], filename) !in fs {
        if j < |dir| {
          assert parent[..j] == dir[..j];
        } else {
          assert dir[..j] == dir;
        }
      }
    }
  }

  /**
   * The search fails, with the "not found" message, exactly when no directory
   * from the start up to `/` holds the file.
   */
  lemma {:induction false} LookupFailsAtRoot(fs: set<string>, dir: seq<string>, filename: string, cwd: string)
    ensures LookupFile(fs, dir, filename, cwd).Err?
        <==> forall k :: 0 <= k <= |dir| ==> Candidate(dir[..k], filename) !in fs
    ensures LookupFile(fs, dir, filename, cwd).Err? ==>
        LookupFile(fs, dir, filename, cwd).msg == NotFoundMessage(filename, cwd)
    decreases |dir|
  {
    if Candidate(dir, filename) in fs {
      assert dir[..|dir|] == dir;
    } else if |dir| > 0 {
      var parent := dir[..|dir| - 1];
      LookupFailsAtRoot(fs, parent, filename, cwd);
      forall k | 0 <= k <= |parent| ensures parent[..k] == dir[..k] { }
      assert dir[..|dir|] == dir;
    } else {
      assert dir[..0] == dir;
    }
  }
}
