/**
 * The converter (svd2db/svd2db.go): walks a parsed CMSIS-SVD device and fills
 * the store, peripheral by peripheral in document order, normalising each
 * field's bit position to (bit_offset, num_bits) and resolving `derivedFrom`
 * through a name -> id map that is built up as peripherals are inserted.
 *
 * Each step is given twice: as a specification function from the tables
 * before to the tables after (plus the error, if any), and as the imperative
 * method that drives the store the way the Go code does. The methods are
 * proved to have exactly the effect of the functions; the properties of the
 * conversion are then lemmas about the functions.
 */
module Ingest {
  import opened Common
  import opened Text
  import opened Store

  // ---------------------------------------------------------------------
  // The parsed document (the XML decoding itself is not modelled)

  /** A `<field>`: every element is a string, "" when absent. */
  datatype SvdField = SvdField(
    name: string, description: string,
    bitOffset: string, bitWidth: string, bitRange: string,
    lsb: string, msb: string)

  /** A `<register>`. */
  datatype SvdRegister = SvdRegister(
    name: string, description: string, addressOffset: string, resetValue: string,
    fields: seq<SvdField>)

  /** A `<peripheral>`; `derivedFrom` is the attribute, "" when absent. */
  datatype SvdPeripheral = SvdPeripheral(
    name: string, description: string, baseAddress: string, derivedFrom: string,
    registers: seq<SvdRegister>)

  /** The `<device>` root. */
  datatype Device = Device(name: string, description: string, peripherals: seq<SvdPeripheral>)

  /** Why a conversion stopped. */
  datatype IngestError =
    | BadBitOffset(token: string)
    | BadBitWidth(token: string)
    | BadBitRange(bitRange: string)
    | MsbLsbNotHandled
    | NoBitInfo
    /** The bitRange text made Go slice or index out of range: a run-time panic, not a returned error. */
    | BitRangePanic(bitRange: string)
    | NotYetEntered(name: string, derivedFrom: string)
    | InsertFailed(table: TableName, name: string, cause: DbError)
    | CreateFailed(msg: string)

  // ---------------------------------------------------------------------
  // The bit-position normaliser (insertField, lines 193-225)

  datatype BitSpec = Bits(bitOffset: int, numBits: int) | BitError(err: IngestError)

  /**
   * Canonical (bit_offset, num_bits) of a field. bitOffset+bitWidth wins when
   * both are non-empty; otherwise a non-empty bitRange `[hi:lo]` gives
   * (lo, hi - lo + 1), its first and last characters being dropped unchecked
   * and hi < lo accepted; lsb/msb and no information at all are errors.
   */
  function NormalizeBits(f: SvdField): (r: BitSpec)
    ensures r.Bits? ==> (f.bitOffset != "" && f.bitWidth != "") || f.bitRange != ""
    ensures r.Bits? ==> MinInt64 <= r.bitOffset <= MaxInt64
    ensures r == BitError(NoBitInfo)
      <==> (f.bitOffset == "" || f.bitWidth == "") && f.bitRange == "" && (f.lsb == "" || f.msb == "")
  {
    if f.bitOffset != "" && f.bitWidth != "" then
      match Atoi(f.bitOffset)
      case None => BitError(BadBitOffset(f.bitOffset))
      case Some(offset) =>
        match Atoi(f.bitWidth)
        case None => BitError(BadBitWidth(f.bitWidth))
        case Some(width) => Bits(offset, width)
    else if f.bitRange != "" then
      var br := f.bitRange;
      if |br| < 2 then BitError(BitRangePanic(br))
      else
        var parts := Split(br[1..|br| - 1], ':');
        match Atoi(parts[0])
        case None => BitError(BadBitRange(br))
        case Some(hi) =>
          if |parts| < 2 then BitError(BitRangePanic(br))
          else
            match Atoi(parts[1])
            case None => BitError(BadBitRange(br))
            case Some(lo) => Bits(lo, hi - lo + 1)
    else if f.lsb != "" && f.msb != "" then BitError(MsbLsbNotHandled)
    else BitError(NoBitInfo)
  }

  /** bitOffset and bitWidth are used as they are, and win over a bitRange that is also present. */
  lemma OffsetWidthWins(f: SvdField, offset: int, width: int)
    requires MinInt64 <= offset <= MaxInt64 && MinInt64 <= width <= MaxInt64
    requires f.bitOffset == Itoa(offset) && f.bitWidth == Itoa(width)
    ensures NormalizeBits(f) == Bits(offset, width)
  {
    AtoiItoa(offset);
    AtoiItoa(width);
    assert |Itoa(offset)| > 0 && |Itoa(width)| > 0;
  }

  lemma {:induction false} SplitNoSep(a: string, sep: char)
    requires forall i :: 0 <= i < |a| ==> a[i] != sep
    ensures Split(a, sep) == [a]
  {
    if |a| > 0 {
      SplitNoSep(a[1..], sep);
      assert [a[0]] + a[1..] == a;
    }
  }

  lemma {:induction false} SplitTwo(a: string, b: string, sep: char)
    requires forall i :: 0 <= i < |a| ==> a[i] != sep
    requires forall i :: 0 <= i < |b| ==> b[i] != sep
    ensures Split(a + [sep] + b, sep) == [a, b]
  {
    if |a| == 0 {
      assert a + [sep] + b == [sep] + b;
      assert ([sep] + b)[1..] == b;
      SplitNoSep(b, sep);
    } else {
      assert (a + [sep] + b)[1..] == a[1..] + [sep] + b;
      SplitTwo(a[1..], b, sep);
      assert [a[0]] + a[1..] == a;
    }
  }

  lemma ItoaHasNoColon(n: int)
    ensures forall i :: 0 <= i < |Itoa(n)| ==> Itoa(n)[i] != ':'
  {
    var d := Digits(if n < 0 then -n else n);
    assert forall i :: 0 <= i < |d| ==> IsDigit(d[i]);
  }

  /**
   * bitRange `<o>hi:lo<c>` gives (lo, hi - lo + 1) whatever the two enclosing
   * characters are: the brackets are never checked, nor is hi >= lo.
   */
  lemma BitRangeForm(f: SvdField, open: char, hi: int, lo: int, close: char)
    requires !(f.bitOffset != "" && f.bitWidth != "")
    requires MinInt64 <= hi <= MaxInt64 && MinInt64 <= lo <= MaxInt64
    requires f.bitRange == [open] + (Itoa(hi) + [':'] + Itoa(lo)) + [close]
    ensures NormalizeBits(f) == Bits(lo, hi - lo + 1)
  {
    var br := f.bitRange;
    var inner := Itoa(hi) + [':'] + Itoa(lo);
    Enclosed(open, inner, close);
    assert br[1..|br| - 1] == inner;
    ItoaHasNoColon(hi);
    ItoaHasNoColon(lo);
    SplitTwo(Itoa(hi), Itoa(lo), ':');
    var parts := Split(inner, ':');
    AtoiItoa(hi);
    AtoiItoa(lo);
    assert Atoi(parts[0]) == Some(hi) && Atoi(parts[1]) == Some(lo);
  }

  /** The text between the first and last characters. */
  lemma Enclosed(open: char, inner: string, close: char)
    ensures var s := [open] + inner + [close]; |s| >= 2 && s[1..|s| - 1] == inner
  {
  }

  /** The three encodings of bits 16..19 agree: `[19:16]` and bitOffset 16 / bitWidth 4 both give (16, 4). */
  lemma EquivalentEncodings()
    ensures NormalizeBits(SvdField("F", "", "", "", "[19:16]", "", "")) == Bits(16, 4)
    ensures NormalizeBits(SvdField("F", "", "16", "4", "", "", "")) == Bits(16, 4)
    ensures NormalizeBits(SvdField("F", "", "16", "4", "[31:0]", "", "")) == Bits(16, 4)
  {
    BitRangeForm(SvdField("F", "", "", "", "[19:16]", "", ""), '[', 19, 16, ']');
    OffsetWidthWins(SvdField("F", "", "16", "4", "", "", ""), 16, 4);
    OffsetWidthWins(SvdField("F", "", "16", "4", "[31:0]", "", ""), 16, 4);
  }

  /** lsb/msb alone, no bit information, or a hexadecimal token are all rejected. */
  lemma RejectedEncodings(name: string)
    ensures NormalizeBits(SvdField(name, "", "", "", "", "0", "3")) == BitError(MsbLsbNotHandled)
    ensures NormalizeBits(SvdField(name, "", "", "", "", "", "")) == BitError(NoBitInfo)
    ensures NormalizeBits(SvdField(name, "", "0x10", "4", "", "", "")) == BitError(BadBitOffset("0x10"))
  {
    assert !IsDigit("0x10"[1]);
  }

  // ---------------------------------------------------------------------
  // Rows, as the insert maps build them

  function FieldRow(f: SvdField, registerId: int, bitOffset: int, numBits: int): Row {
    var m := map[Name := TextVal(f.name), RegisterId := IntVal(registerId)];
    var m := if f.description != "" then m[Description := TextVal(f.description)] else m;
    m[NumBits := IntVal(numBits)][BitOffset := IntVal(bitOffset)]
  }

  function RegisterRow(r: SvdRegister, peripheralId: int): Row {
    var m := map[Name := TextVal(r.name), PeripheralId := IntVal(peripheralId), AddressOffset := TextVal(r.addressOffset)];
    var m := if r.description != "" then m[Description := TextVal(r.description)] else m;
    if r.resetValue != "" then m[ResetValue := TextVal(r.resetValue)] else m
  }

  function PeripheralRow(p: SvdPeripheral, mpuId: int, derivedFromId: Option<int>): Row {
    var m := map[Name := TextVal(p.name), MpuId := IntVal(mpuId), BaseAddress := TextVal(p.baseAddress)];
    var m := if p.description != "" then m[Description := TextVal(p.description)] else m;
    if derivedFromId.Some? then m[DerivedFromId := IntVal(derivedFromId.value)] else m
  }

  function MpuRow(d: Device): Row {
    map[Name := TextVal(d.name), Description := TextVal(d.description)]
  }

  /** An empty description or reset value leaves its column NULL; a non-empty one is stored. */
  lemma OptionalColumns(f: SvdField, r: SvdRegister, p: SvdPeripheral, id: int, off: int, n: int, d: Option<int>)
    ensures (Description in FieldRow(f, id, off, n)) <==> f.description != ""
    ensures (Description in RegisterRow(r, id)) <==> r.description != ""
    ensures (ResetValue in RegisterRow(r, id)) <==> r.resetValue != ""
    ensures (Description in PeripheralRow(p, id, d)) <==> p.description != ""
    ensures (DerivedFromId in PeripheralRow(p, id, d)) <==> d.Some?
    ensures r.resetValue != "" ==> RegisterRow(r, id)[ResetValue] == TextVal(r.resetValue)
  {
  }

  // ---------------------------------------------------------------------
  // The specification of each ingestion step

  /** The tables after a step, and the error that stopped it, if any. */
  type Outcome = Stepped<Tables, IngestError>

  /** The converter's state between peripherals: the tables and the name -> id map. */
  datatype Progress = Progress(t: Tables, ids: map<string, int>)

  /** insertField: normalise the bits, then insert one fields row; an error writes nothing. */
  function IngestField(t: Tables, f: SvdField, registerId: int): Outcome {
    match NormalizeBits(f)
    case BitError(e) => Stepped(t, Some(e))
    case Bits(offset, width) =>
      var r := InsertOutcome(t, Fields, FieldRow(f, registerId, offset, width), NoFault);
      if r.err.Some? then Stepped(t, Some(InsertFailed(Fields, f.name, r.err.value)))
      else Stepped(r.tables, None)
  }

  function FieldStep(registerId: int): (Tables, SvdField) -> Outcome {
    (t, f) => IngestField(t, f, registerId)
  }

  /** The fields of one register, in document order, stopping at the first error. */
  function IngestFields(t: Tables, fs: seq<SvdField>, registerId: int): Outcome {
    Walk(FieldStep(registerId), t, fs)
  }

  /** insertRegister: one registers row, then its fields under the new id. */
  function IngestRegister(t: Tables, r: SvdRegister, peripheralId: int): Outcome {
    var ins := InsertOutcome(t, Registers, RegisterRow(r, peripheralId), NoFault);
    if ins.err.Some? then Stepped(t, Some(InsertFailed(Registers, r.name, ins.err.value)))
    else IngestFields(ins.tables, r.fields, ins.id)
  }

  function RegisterStep(peripheralId: int): (Tables, SvdRegister) -> Outcome {
    (t, r) => IngestRegister(t, r, peripheralId)
  }

  function IngestRegisters(t: Tables, rs: seq<SvdRegister>, peripheralId: int): Outcome {
    Walk(RegisterStep(peripheralId), t, rs)
  }

  /**
   * insertPeripheral: resolve derivedFrom through the map (a name not yet in
   * it fails before anything is written), insert the row, record its id under
   * its name, and insert its registers unless it is derived.
   */
  function IngestPeripheral(s: Progress, p: SvdPeripheral, mpuId: int): Stepped<Progress, IngestError> {
    if p.derivedFrom != "" && p.derivedFrom !in s.ids then
      Stepped(s, Some(NotYetEntered(p.name, p.derivedFrom)))
    else
      var derived := if p.derivedFrom != "" then Some(s.ids[p.derivedFrom]) else None;
      var ins := InsertOutcome(s.t, Peripherals, PeripheralRow(p, mpuId, derived), NoFault);
      if ins.err.Some? then Stepped(s, Some(InsertFailed(Peripherals, p.name, ins.err.value)))
      else
        var ids := s.ids[p.name := ins.id];
        if derived.Some? then Stepped(Progress(ins.tables, ids), None)
        else
          var o := IngestRegisters(ins.tables, p.registers, ins.id);
          Stepped(Progress(o.state, ids), o.err)
  }

  function PeripheralStep(mpuId: int): (Progress, SvdPeripheral) -> Stepped<Progress, IngestError> {
    (s, p) => IngestPeripheral(s, p, mpuId)
  }

  /** Convert's loop: every peripheral in document order, stopping at the first error. */
  function IngestPeripherals(s: Progress, ps: seq<SvdPeripheral>, mpuId: int): Stepped<Progress, IngestError> {
    Walk(PeripheralStep(mpuId), s, ps)
  }

  /** A whole conversion into a fresh store: the mpus row, then the peripherals with an empty map. */
  function ConvertOutcome(d: Device): Outcome {
    var ins := InsertOutcome(EmptyTables, Mpus, MpuRow(d), NoFault);
    if ins.err.Some? then Stepped(EmptyTables, Some(InsertFailed(Mpus, d.name, ins.err.value)))
    else
      var o := IngestPeripherals(Progress(ins.tables, map[]), d.peripherals, ins.id);
      Stepped(o.state.t, o.err)
  }

  /**
   * The default output name: the input name with the first occurrence of its
   * extension replaced by ".db" (an input without extension gets ".db"
   * prepended, since Go's Replace of "" inserts at the start).
   */
  function OutputName(filename: string, ofile: string): string {
    if ofile == "" then ReplaceFirst(filename, Ext(filename), ".db") else ofile
  }

  // ---------------------------------------------------------------------
  // Properties of the specification

  /** A field whose bits cannot be normalised writes no row. */
  lemma BadFieldWritesNothing(t: Tables, f: SvdField, registerId: int)
    requires NormalizeBits(f).BitError?
    ensures IngestField(t, f, registerId) == Stepped(t, Some(NormalizeBits(f).err))
  {
  }

  /** The row a field gets once its bits are normalised (none when they cannot be). */
  function NormalizedRow(f: SvdField, registerId: int): Row {
    match NormalizeBits(f)
    case Bits(offset, width) => FieldRow(f, registerId, offset, width)
    case BitError(_) => map[]
  }

  /** One field touches only the fields table, and on success appends exactly its row. */
  lemma FieldEffect(t: Tables, f: SvdField, registerId: int)
    ensures var o := IngestField(t, f, registerId);
      && o.state.mpus == t.mpus && o.state.peripherals == t.peripherals && o.state.registers == t.registers
      && (o.err.None? ==> NormalizeBits(f).Bits? && o.state.fields == t.fields + [NormalizedRow(f, registerId)])
  {
  }

  /** Ingesting fields never touches the mpus, peripherals or registers tables. */
  lemma FieldsFrame(t: Tables, fs: seq<SvdField>, registerId: int)
    ensures var o := IngestFields(t, fs, registerId);
      o.state.mpus == t.mpus && o.state.peripherals == t.peripherals && o.state.registers == t.registers
  {
    var inv := (u: Tables) => u.mpus == t.mpus && u.peripherals == t.peripherals && u.registers == t.registers;
    forall u, f | inv(u) ensures inv(FieldStep(registerId)(u, f).state) {
      FieldEffect(u, f, registerId);
    }
    WalkKeeps(FieldStep(registerId), t, fs, inv);
  }

  /**
   * When a register's fields all go in, they are appended in document order,
   * each under the register's id with its normalised bits.
   */
  lemma FieldsInOrder(t: Tables, fs: seq<SvdField>, registerId: int)
    requires IngestFields(t, fs, registerId).err.None?
    ensures IngestFields(t, fs, registerId).state.fields
      == t.fields + seq(|fs|, i requires 0 <= i < |fs| => NormalizedRow(fs[i], registerId))
    ensures forall i :: 0 <= i < |fs| ==> NormalizeBits(fs[i]).Bits?
  {
    var step := FieldStep(registerId);
    forall u, f | step(u, f).err.None?
      ensures NormalizeBits(f).Bits? && step(u, f).state.fields == u.fields + [NormalizedRow(f, registerId)]
    {
      FieldEffect(u, f, registerId);
    }
    WalkAppends(step, t, fs, (u: Tables) => u.fields, (f: SvdField) => NormalizedRow(f, registerId),
                (f: SvdField) => NormalizeBits(f).Bits?);
  }

  /** Ingesting one register leaves mpus and peripherals alone and on success adds exactly its registers row. */
  lemma RegisterEffect(t: Tables, r: SvdRegister, peripheralId: int)
    ensures var o := IngestRegister(t, r, peripheralId);
      && o.state.mpus == t.mpus && o.state.peripherals == t.peripherals
      && (o.err.None? ==> o.state.registers == t.registers + [RegisterRow(r, peripheralId)])
  {
    var ins := InsertOutcome(t, Registers, RegisterRow(r, peripheralId), NoFault);
    if ins.err.None? { FieldsFrame(ins.tables, r.fields, ins.id); }
  }

  /** Ingesting registers never touches the mpus or peripherals tables. */
  lemma RegistersFrame(t: Tables, rs: seq<SvdRegister>, peripheralId: int)
    ensures var o := IngestRegisters(t, rs, peripheralId);
      o.state.mpus == t.mpus && o.state.peripherals == t.peripherals
  {
    var inv := (u: Tables) => u.mpus == t.mpus && u.peripherals == t.peripherals;
    forall u, r | inv(u) ensures inv(RegisterStep(peripheralId)(u, r).state) {
      RegisterEffect(u, r, peripheralId);
    }
    WalkKeeps(RegisterStep(peripheralId), t, rs, inv);
  }

  /** A non-derived peripheral's registers are inserted in document order, all owned by its id. */
  lemma RegistersInOrder(t: Tables, rs: seq<SvdRegister>, peripheralId: int)
    requires IngestRegisters(t, rs, peripheralId).err.None?
    ensures IngestRegisters(t, rs, peripheralId).state.registers
      == t.registers + seq(|rs|, i requires 0 <= i < |rs| => RegisterRow(rs[i], peripheralId))
  {
    var step := RegisterStep(peripheralId);
    forall u, r | step(u, r).err.None?
      ensures step(u, r).state.registers == u.registers + [RegisterRow(r, peripheralId)]
    {
      RegisterEffect(u, r, peripheralId);
    }
    WalkAppends(step, t, rs, (u: Tables) => u.registers, (r: SvdRegister) => RegisterRow(r, peripheralId),
                (r: SvdRegister) => true);
  }

  /** A derivedFrom naming a peripheral not yet inserted fails and writes nothing for this peripheral. */
  lemma ForwardReferenceFails(s: Progress, p: SvdPeripheral, mpuId: int)
    requires p.derivedFrom != "" && p.derivedFrom !in s.ids
    ensures IngestPeripheral(s, p, mpuId) == Stepped(s, Some(NotYetEntered(p.name, p.derivedFrom)))
  {
  }

  /**
   * The first failing peripheral ends the conversion: whatever follows it
   * (`rest`) is never looked at.
   */
  lemma StopsAtFirstError(s: Progress, ps: seq<SvdPeripheral>, k: nat, rest: seq<SvdPeripheral>, mpuId: int)
    requires k < |ps|
    requires IngestPeripherals(s, ps[..k], mpuId).err.None?
    requires IngestPeripheral(IngestPeripherals(s, ps[..k], mpuId).state, ps[k], mpuId).err.Some?
    ensures IngestPeripherals(s, ps[..k + 1] + rest, mpuId)
      == IngestPeripheral(IngestPeripherals(s, ps[..k], mpuId).state, ps[k], mpuId)
  {
    WalkStopsAt(PeripheralStep(mpuId), s, ps, k, rest);
  }

  /** Every name in `ids` denotes the row of `rows` of that name (row i has id i + 1). */
  predicate IdsDenote(rows: seq<Row>, ids: map<string, int>) {
    forall n :: n in ids ==> 1 <= ids[n] <= |rows| && Name in rows[ids[n] - 1] && rows[ids[n] - 1][Name] == TextVal(n)
  }

  /** Every name in the map denotes the peripherals row of that name. */
  predicate IdsValid(s: Progress) {
    IdsDenote(s.t.peripherals, s.ids)
  }

  /** The name column of a row, if set. */
  function NameOf(row: Row): Option<Value> {
    if Name in row then Some(row[Name]) else None
  }

  function NamesOf(rows: seq<Row>): (names: seq<Option<Value>>)
    ensures |names| == |rows|
  {
    seq(|rows|, i requires 0 <= i < |rows| => NameOf(rows[i]))
  }

  /** One peripheral never changes the mpus table. */
  lemma PeripheralKeepsMpus(s: Progress, p: SvdPeripheral, mpuId: int)
    ensures IngestPeripheral(s, p, mpuId).state.t.mpus == s.t.mpus
  {
    if !(p.derivedFrom != "" && p.derivedFrom !in s.ids) {
      var derived := if p.derivedFrom != "" then Some(s.ids[p.derivedFrom]) else None;
      var ins := InsertOutcome(s.t, Peripherals, PeripheralRow(p, mpuId, derived), NoFault);
      if ins.err.None? && derived.None? { RegistersFrame(ins.tables, p.registers, ins.id); }
    }
  }

  /**
   * A successful peripheral, derived or not, adds exactly its own row and
   * enters its new id into the map under its name.
   */
  lemma PeripheralRowAdded(s: Progress, p: SvdPeripheral, mpuId: int)
    requires IngestPeripheral(s, p, mpuId).err.None?
    ensures var o := IngestPeripheral(s, p, mpuId);
      && o.state.ids == s.ids[p.name := |s.t.peripherals| + 1]
      && o.state.t.peripherals
         == s.t.peripherals + [PeripheralRow(p, mpuId, if p.derivedFrom != "" then Some(s.ids[p.derivedFrom]) else None)]
  {
    var derived := if p.derivedFrom != "" then Some(s.ids[p.derivedFrom]) else None;
    var ins := InsertOutcome(s.t, Peripherals, PeripheralRow(p, mpuId, derived), NoFault);
    if derived.None? { RegistersFrame(ins.tables, p.registers, ins.id); }
  }

  /** The names of the peripherals rows grow by this peripheral's name. */
  lemma PeripheralNamed(s: Progress, p: SvdPeripheral, mpuId: int)
    requires IngestPeripheral(s, p, mpuId).err.None?
    ensures NamesOf(IngestPeripheral(s, p, mpuId).state.t.peripherals) == NamesOf(s.t.peripherals) + [Some(TextVal(p.name))]
  {
    PeripheralRowAdded(s, p, mpuId);
  }

  /** Appending a row named `name` and mapping `name` to its id keeps the map valid. */
  lemma AppendKeepsIds(rows: seq<Row>, ids: map<string, int>, row: Row, name: string)
    requires IdsDenote(rows, ids)
    requires Name in row && row[Name] == TextVal(name)
    ensures IdsDenote(rows + [row], ids[name := |rows| + 1])
  {
    var rows' := rows + [row];
    forall n | n in ids && n != name ensures rows'[ids[n] - 1] == rows[ids[n] - 1] {
    }
  }

  /** A successful peripheral keeps the map valid. */
  lemma PeripheralKeepsIds(s: Progress, p: SvdPeripheral, mpuId: int)
    requires IdsValid(s)
    requires IngestPeripheral(s, p, mpuId).err.None?
    ensures IdsValid(IngestPeripheral(s, p, mpuId).state)
  {
    PeripheralRowAdded(s, p, mpuId);
    var derived := if p.derivedFrom != "" then Some(s.ids[p.derivedFrom]) else None;
    AppendKeepsIds(s.t.peripherals, s.ids, PeripheralRow(p, mpuId, derived), p.name);
  }

  /**
   * A derived peripheral is stored with derived_from_id the id of the row
   * named by derivedFrom, and none of its registers or fields are inserted.
   */
  lemma DerivedPeripheral(s: Progress, p: SvdPeripheral, mpuId: int)
    requires IdsValid(s)
    requires p.derivedFrom != ""
    requires IngestPeripheral(s, p, mpuId).err.None?
    ensures var o := IngestPeripheral(s, p, mpuId);
      && var row := o.state.t.peripherals[|s.t.peripherals|];
      && DerivedFromId in row && row[DerivedFromId] == IntVal(s.ids[p.derivedFrom])
      && s.t.peripherals[s.ids[p.derivedFrom] - 1][Name] == TextVal(p.derivedFrom)
      && o.state.t.registers == s.t.registers && o.state.t.fields == s.t.fields
  {
  }

  /** Convert's loop keeps the map valid, from the empty map onwards. */
  lemma PeripheralsKeepMap(s: Progress, ps: seq<SvdPeripheral>, mpuId: int)
    requires IdsValid(s)
    requires IngestPeripherals(s, ps, mpuId).err.None?
    ensures IdsValid(IngestPeripherals(s, ps, mpuId).state)
  {
    forall u, p | IdsValid(u) && PeripheralStep(mpuId)(u, p).err.None?
      ensures IdsValid(PeripheralStep(mpuId)(u, p).state)
    {
      PeripheralKeepsIds(u, p, mpuId);
    }
    WalkKeepsOnSuccess(PeripheralStep(mpuId), s, ps, (u: Progress) => IdsValid(u));
  }

  /**
   * A successful conversion stores the single mpus row and one peripherals
   * row per peripheral, in document order.
   */
  lemma ConvertShape(d: Device)
    requires ConvertOutcome(d).err.None?
    ensures ConvertOutcome(d).state.mpus == [MpuRow(d)]
    ensures NamesOf(ConvertOutcome(d).state.peripherals)
      == seq(|d.peripherals|, i requires 0 <= i < |d.peripherals| => Some(TextVal(d.peripherals[i].name)))
  {
    var ins := InsertOutcome(EmptyTables, Mpus, MpuRow(d), NoFault);
    var s := Progress(ins.tables, map[]);
    var step := PeripheralStep(ins.id);
    forall u, p ensures step(u, p).state.t.mpus == u.t.mpus {
      PeripheralKeepsMpus(u, p, ins.id);
    }
    WalkKeeps(step, s, d.peripherals, (u: Progress) => u.t.mpus == [MpuRow(d)]);
    forall u, p | step(u, p).err.None?
      ensures NamesOf(step(u, p).state.t.peripherals) == NamesOf(u.t.peripherals) + [Some(TextVal(p.name))]
    {
      PeripheralNamed(u, p, ins.id);
    }
    WalkAppends(step, s, d.peripherals, (u: Progress) => NamesOf(u.t.peripherals),
                (p: SvdPeripheral) => Some(TextVal(p.name)), (p: SvdPeripheral) => true);
  }

  /** The registers rows a peripheral with id `id` contributes: none when it is derived. */
  function OwnRegisterRows(p: SvdPeripheral, id: int): seq<Row> {
    if p.derivedFrom != "" then []
    else seq(|p.registers|, j requires 0 <= j < |p.registers| => RegisterRow(p.registers[j], id))
  }

  /** The registers rows of peripherals `ps`, peripheral i having id i + 1, in document order. */
  function AllRegisterRows(ps: seq<SvdPeripheral>): seq<Row>
    decreases |ps|
  {
    if |ps| == 0 then []
    else AllRegisterRows(ps[..|ps| - 1]) + OwnRegisterRows(ps[|ps| - 1], |ps|)
  }

  /** A successful peripheral appends exactly its own registers rows, under its new id. */
  lemma PeripheralRegisters(s: Progress, p: SvdPeripheral, mpuId: int)
    requires IngestPeripheral(s, p, mpuId).err.None?
    ensures IngestPeripheral(s, p, mpuId).state.t.registers
      == s.t.registers + OwnRegisterRows(p, |s.t.peripherals| + 1)
  {
    var derived := if p.derivedFrom != "" then Some(s.ids[p.derivedFrom]) else None;
    var row := PeripheralRow(p, mpuId, derived);
    InsertSuccess(s.t, Peripherals, row, NoFault);
    var ins := InsertOutcome(s.t, Peripherals, row, NoFault);
    assert ins.tables.registers == ins.tables.Rows(Registers) == s.t.Rows(Registers) == s.t.registers;
    assert ins.id == |s.t.peripherals| + 1 by {
      assert s.t.Rows(Peripherals) == s.t.peripherals;
    }
    var own := OwnRegisterRows(p, |s.t.peripherals| + 1);
    if derived.None? {
      RegistersInOrder(ins.tables, p.registers, ins.id);
      assert own == seq(|p.registers|, j requires 0 <= j < |p.registers| => RegisterRow(p.registers[j], ins.id));
    } else {
      assert own == [];
      assert s.t.registers + own == s.t.registers;
    }
  }

  /** Convert's loop over a prefix, from an empty peripherals and registers table. */
  lemma {:induction false} RegistersUpTo(s: Progress, ps: seq<SvdPeripheral>, mpuId: int, k: nat)
    requires s.t.peripherals == [] && s.t.registers == []
    requires k <= |ps|
    requires IngestPeripherals(s, ps[..k], mpuId).err.None?
    ensures |IngestPeripherals(s, ps[..k], mpuId).state.t.peripherals| == k
    ensures IngestPeripherals(s, ps[..k], mpuId).state.t.registers == AllRegisterRows(ps[..k])
  {
    if k > 0 {
      var step := PeripheralStep(mpuId);
      WalkPrefixStep(step, s, ps, k - 1);
      var r := Walk(step, s, ps[..k - 1]);
      if r.err.None? {
        assert Walk(step, s, ps[..k]) == IngestPeripheral(r.state, ps[k - 1], mpuId);
        RegistersUpTo(s, ps, mpuId, k - 1);
        PeripheralRowAdded(r.state, ps[k - 1], mpuId);
        PeripheralRegisters(r.state, ps[k - 1], mpuId);
        assert ps[..k][..k - 1] == ps[..k - 1];
        assert AllRegisterRows(ps[..k])
          == AllRegisterRows(ps[..k - 1]) + OwnRegisterRows(ps[k - 1], k);
      }
    }
  }

  /**
   * After a successful conversion the registers table holds the registers of
   * every non-derived peripheral, peripheral by peripheral in document order,
   * each under the id of its peripheral (the i-th peripheral has id i + 1).
   */
  lemma ConvertRegisters(d: Device)
    requires ConvertOutcome(d).err.None?
    ensures ConvertOutcome(d).state.registers == AllRegisterRows(d.peripherals)
  {
    InsertSuccess(EmptyTables, Mpus, MpuRow(d), NoFault);
    var ins := InsertOutcome(EmptyTables, Mpus, MpuRow(d), NoFault);
    assert d.peripherals[..|d.peripherals|] == d.peripherals;
    RegistersUpTo(Progress(ins.tables, map[]), d.peripherals, ins.id, |d.peripherals|);
  }

  /** With an explicit output name it is used as given. */
  lemma ExplicitOutputName(filename: string, ofile: string)
    requires ofile != ""
    ensures OutputName(filename, ofile) == ofile
  {
  }

  predicate NoDot(s: string) {
    forall i :: 0 <= i < |s| ==> s[i] != '.'
  }

  /** The first `.svd` after a part without any `.` is the one replaced. */
  lemma ReplaceAfterNoDot(a: string, rest: string)
    requires NoDot(a) && |rest| >= 4 && rest[..4] == ".svd"
    ensures ReplaceFirst(a + rest, ".svd", ".db") == a + ".db" + rest[4..]
  {
    var path := a + rest;
    forall j | 0 <= j < |a| ensures !OccursAt(path, ".svd", j) {
      NoOccurrence(path, ".svd", j);
    }
    assert path[|a|..|a| + 4] == ".svd";
    ReplaceFirstAt(path, ".svd", ".db", |a|);
    assert path[..|a|] == a && path[|a| + 4..] == rest[4..];
  }

  /** `chip.svd` becomes `chip.db`. */
  lemma DefaultOutputName(stem: string)
    requires NoDot(stem)
    ensures OutputName(stem + ".svd", "") == stem + ".db"
  {
    ExtOfName(stem, "svd");
    assert stem + "." + "svd" == stem + ".svd";
    ReplaceAfterNoDot(stem, ".svd");
    assert stem + ".db" + ".svd"[4..] == stem + ".db";
  }

  /**
   * Only the first occurrence of the extension is replaced, even when it is
   * inside a directory name: `a.svd.d/chip.svd` becomes `a.db.d/chip.svd`.
   */
  lemma FirstOccurrenceReplaced(a: string, b: string)
    requires NoDot(a)
    ensures OutputName(a + ".svd" + b + ".svd", "") == a + ".db" + b + ".svd"
  {
    var c := a + ".svd" + b;
    SvdExt(c);
    var tail := b + ".svd";
    var rest := ".svd" + tail;
    AppendAssoc(a + ".svd", b, ".svd");
    AppendAssoc(a, ".svd", tail);
    assert rest[4..] == tail;
    ReplaceAfterNoDot(a, rest);
    AppendAssoc(a, ".db", tail);
    AppendAssoc(a + ".db", b, ".svd");
  }

  /** The directory case written out: `a.svd.d/b.svd` becomes `a.db.d/b.svd`. */
  lemma DirectoryExample()
    ensures OutputName("a.svd.d/b.svd", "") == "a.db.d/b.svd"
  {
    var a, b := "a", ".d/b";
    assert a + ".svd" + b + ".svd" == "a.svd.d/b.svd" by {
      assert a + ".svd" + b + ".svd" == ['a', '.', 's', 'v', 'd', '.', 'd', '/', 'b', '.', 's', 'v', 'd'];
    }
    assert a + ".db" + b + ".svd" == "a.db.d/b.svd" by {
      assert a + ".db" + b + ".svd" == ['a', '.', 'd', 'b', '.', 'd', '/', 'b', '.', 's', 'v', 'd'];
    }
    assert NoDot(a);
    FirstOccurrenceReplaced(a, b);
  }

  lemma SvdExt(c: string)
    ensures Ext(c + ".svd") == ".svd"
  {
    ExtOfName(c, "svd");
    assert c + "." + "svd" == c + ".svd";
  }

  /** A name without any `.` has no extension and gets ".db" in front of it. */
  lemma NoExtensionPrefixed(name: string)
    requires NoDot(name)
    ensures OutputName(name, "") == ".db" + name
  {
  }

  /** When the extension occurs only at the end, the default output name swaps it for ".db". */
  lemma OutputNameSwapsExtension(filename: string)
    requires Ext(filename) != ""
    requires IndexOf(filename, Ext(filename)) == Some(|filename| - |Ext(filename)|)
    ensures OutputName(filename, "") == filename[..|filename| - |Ext(filename)|] + ".db"
  {
  }

  // ---------------------------------------------------------------------
  // The imperative converter

  /** insertField. */
  method InsertField(db: Db, registerId: int, f: SvdField) returns (err: Option<IngestError>)
    modifies db
    ensures Stepped(db.Snapshot(), err) == IngestField(old(db.Snapshot()), f, registerId)
  {
    var bits := NormalizeBits(f);
    if bits.BitError? {
      return Some(bits.err);
    }
    var row := FieldRow(f, registerId, bits.bitOffset, bits.numBits);
    NamedRow(row);
    var id, e := db.Insert(Fields, row, NoFault);
    if e.Some? {
      return Some(InsertFailed(Fields, f.name, e.value));
    }
    return None;
  }

  /** insertRegister: the register row, then each field in document order. */
  method InsertRegister(db: Db, peripheralId: int, r: SvdRegister) returns (err: Option<IngestError>)
    modifies db
    ensures Stepped(db.Snapshot(), err) == IngestRegister(old(db.Snapshot()), r, peripheralId)
  {
    var row := RegisterRow(r, peripheralId);
    NamedRow(row);
    var registerId, e := db.Insert(Registers, row, NoFault);
    if e.Some? {
      return Some(InsertFailed(Registers, r.name, e.value));
    }
    ghost var start := db.Snapshot();
    var i := 0;
    while i < |r.fields|
      invariant 0 <= i <= |r.fields|
      invariant IngestFields(start, r.fields, registerId) == IngestFields(db.Snapshot(), r.fields[i..], registerId)
    {
      assert r.fields[i..][0] == r.fields[i] && r.fields[i..][1..] == r.fields[i + 1..];
      err := InsertField(db, registerId, r.fields[i]);
      if err.Some? {
        return;
      }
      i := i + 1;
    }
    return None;
  }

  /** insertPeripheral, with the name -> id map passed in and handed back. */
  method InsertPeripheral(db: Db, ids: map<string, int>, mpuId: int, p: SvdPeripheral)
    returns (ids': map<string, int>, err: Option<IngestError>)
    modifies db
    ensures Stepped(Progress(db.Snapshot(), ids'), err) == IngestPeripheral(Progress(old(db.Snapshot()), ids), p, mpuId)
  {
    var derived: Option<int> := None;
    if p.derivedFrom != "" {
      if p.derivedFrom in ids {
        derived := Some(ids[p.derivedFrom]);
      } else {
        return ids, Some(NotYetEntered(p.name, p.derivedFrom));
      }
    }
    var row := PeripheralRow(p, mpuId, derived);
    NamedRow(row);
    var peripheralId, e := db.Insert(Peripherals, row, NoFault);
    if e.Some? {
      return ids, Some(InsertFailed(Peripherals, p.name, e.value));
    }
    ids' := ids[p.name := peripheralId];
    if derived.None? {
      ghost var start := db.Snapshot();
      var i := 0;
      while i < |p.registers|
        invariant 0 <= i <= |p.registers|
        invariant IngestRegisters(start, p.registers, peripheralId)
          == IngestRegisters(db.Snapshot(), p.registers[i..], peripheralId)
      {
        assert p.registers[i..][0] == p.registers[i] && p.registers[i..][1..] == p.registers[i + 1..];
        err := InsertRegister(db, peripheralId, p.registers[i]);
        if err.Some? {
          return;
        }
        i := i + 1;
      }
    }
    err := None;
  }

  /**
   * Convert, from the parsed document on: pick the output name, create the
   * store (refused when the file exists), insert the mpus row, then every
   * peripheral with a fresh name -> id map. On failure the partly written
   * store is returned with the error, as the file stays on disk.
   */
  method Convert(existing: set<string>, filename: string, ofile: string, device: Device)
    returns (outfile: string, db: Db?, err: Option<IngestError>)
    ensures outfile == OutputName(filename, ofile)
    ensures outfile in existing ==> db == null && err.Some? && err.value.CreateFailed?
    ensures outfile !in existing ==> db != null && fresh(db) && Stepped(db.Snapshot(), err) == ConvertOutcome(device)
  {
    if ofile == "" {
      outfile := ReplaceFirst(filename, Ext(filename), ".db");
    } else {
      outfile := ofile;
    }
    var createErr;
    db, createErr := CreateDb(existing, outfile);
    if createErr.Some? {
      return outfile, null, Some(CreateFailed(createErr.value));
    }
    var mpu := MpuRow(device);
    NamedRow(mpu);
    var mpuId, e := db.Insert(Mpus, mpu, NoFault);
    if e.Some? {
      return outfile, db, Some(InsertFailed(Mpus, device.name, e.value));
    }
    var ids;
    ids, err := InsertPeripherals(db, mpuId, device.peripherals);
  }

  /** Convert's loop over the peripherals, starting from an empty name -> id map. */
  method InsertPeripherals(db: Db, mpuId: int, ps: seq<SvdPeripheral>) returns (ids: map<string, int>, err: Option<IngestError>)
    modifies db
    ensures Stepped(Progress(db.Snapshot(), ids), err) == IngestPeripherals(Progress(old(db.Snapshot()), map[]), ps, mpuId)
  {
    ids := map[];
    ghost var start := db.Snapshot();
    var i := 0;
    while i < |ps|
      invariant 0 <= i <= |ps|
      invariant IngestPeripherals(Progress(start, map[]), ps, mpuId) == IngestPeripherals(Progress(db.Snapshot(), ids), ps[i..], mpuId)
    {
      assert ps[i..][0] == ps[i] && ps[i..][1..] == ps[i + 1..];
      ids, err := InsertPeripheral(db, ids, mpuId, ps[i]);
      if err.Some? {
        return;
      }
      i := i + 1;
    }
    err := None;
  }
}
