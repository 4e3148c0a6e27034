/**
 * `Display` (internal/display.go): print a peripheral, its registers and
 * their fields as readable text. The MPU name that `getMPU` reads and the
 * global `verbose` flag are parameters; the printed lines are collected in
 * order and the call ends with a `Status`.
 */
module Display {
  import opened Common
  import opened Text
  import opened Store
  import opened Query
  import opened Lookup
  import opened Render

  // ---------------------------------------------------------------------
  // The lines

  /** `fmt.Println` puts a space between its operands, so two spaces precede `for MPU:`. */
  function Title(periph: string, mpu: string): string {
    "Registers and fields for Peripheral: " + periph + "  for MPU: " + mpu
  }

  function Unknown(periph: string): string {
    "No peripheral with name like: " + periph
  }

  function BaseLine(p: Peripheral): string {
    p.name + " base address: " + p.baseAddress
  }

  /**
   * The name `fetch_peripheral(id)` leaves in its result, whose error is
   * ignored: `Scan` assigns the columns in order and stops at the first one
   * that fails, so the name is empty unless the row exists and both the
   * `derived_from_id` and the `name` columns scan.
   */
  function AliasName(t: Tables, id: int): string {
    if !(1 <= id <= |t.peripherals|) then ""
    else
      var row := t.peripherals[id - 1];
      if ScanNullInt(row, DerivedFromId).Err? then ""
      else
        var n := ScanText(row, Name);
        if n.Err? then "" else n.value
  }

  function AliasLine(t: Tables, id: int): string {
    "Has the same registers as " + AliasName(t, id)
  }

  /** The description, after ` - `, only when verbose and present. */
  function Described(verbose: bool, d: Option<string>): string {
    if verbose && d.Some? then " - " + d.value else ""
  }

  /** `reset_value.V`: the empty string for a null reset value. */
  function ResetText(r: Register): string {
    if r.resetValue.Some? then r.resetValue.value else ""
  }

  function RegisterLine(r: Register, verbose: bool): string {
    "Register " + r.name + " offset: " + r.addressOffset + ", reset: " + ResetText(r) + Described(verbose, r.description)
  }

  /** `    %v: number bits %v, bit offset: %v, mask: 0x%08X %s`, with the space before the description always there. */
  function FieldLine(f: Field, mask: nat, verbose: bool): string {
    "    " + f.name + ": number bits " + Itoa(f.numBits) + ", bit offset: " + Itoa(f.bitOffset)
      + ", mask: 0x" + Hex08(mask) + " " + Described(verbose, f.description)
  }

  // ---------------------------------------------------------------------
  // What Display prints

  /** One field: its line with the shifted mask, or the hang or panic of computing that mask. */
  function FieldEntry(verbose: bool, lines: seq<string>, f: Field): Stepped<seq<string>, Status> {
    match ShiftedMask(f.numBits, f.bitOffset)
    case MaskStops(st) => Stepped(lines, Some(st))
    case MaskOk(m) => Stepped(lines + [FieldLine(f, m, verbose)], None)
  }

  function FieldStep(verbose: bool): (seq<string>, Field) -> Stepped<seq<string>, Status> {
    (lines: seq<string>, f: Field) => FieldEntry(verbose, lines, f)
  }

  /** One register: its line, then its fields when it has any. */
  function RegisterEntry(verbose: bool, lines: seq<string>, r: Register): Stepped<seq<string>, Status> {
    var headed := lines + [RegisterLine(r, verbose)];
    if r.fields.None? then Stepped(headed, None)
    else Walk(FieldStep(verbose), headed, r.fields.value)
  }

  function RegisterStep(verbose: bool): (seq<string>, Register) -> Stepped<seq<string>, Status> {
    (lines: seq<string>, r: Register) => RegisterEntry(verbose, lines, r)
  }

  /** The register listing after the lines `head`. */
  function Listing(head: seq<string>, regs: seq<Register>, verbose: bool): Printed {
    var w := Walk(RegisterStep(verbose), head, regs);
    Printed(w.state, if w.err.Some? then w.err.value else Done)
  }

  /** The lines before the listing: title, base address, and the alias note of a derived peripheral. */
  function Head(t: Tables, periph: string, mpu: string, p: Peripheral): seq<string> {
    var named := [Title(periph, mpu), BaseLine(p)];
    if p.derivedFrom.Some? then named + [AliasLine(t, p.derivedFrom.value)] else named
  }

  /**
   * What `Display(periph, reg_pat)` prints and returns. The registers are
   * collected again by the name found, not by the pattern given.
   */
  function DisplayOutput(t: Tables, periph: string, regPat: string, mpu: string, verbose: bool): Printed {
    var found := PeripheralByName(t, periph);
    if found.Err? then Printed([Title(periph, mpu)], Failed(Unknown(periph)))
    else
      var p := found.value;
      Shown(Head(t, periph, mpu, p), p.name, Collected(t, p.name), regPat, verbose)
  }

  /** After the head: the collection error, or the listing of the selected registers. */
  function Shown(head: seq<string>, name: string, c: Result<Peripheral>, regPat: string, verbose: bool): Printed
    requires c.Ok? ==> c.value.registers.Some?
  {
    if c.Err? then Printed(head, CollectFailure(name, c.msg))
    else Listing(head, Selected(c.value.registers.value, regPat), verbose)
  }

  // ---------------------------------------------------------------------
  // Display as it runs

  method PrintField(f: Field, verbose: bool, start: seq<string>) returns (lines: seq<string>, stop: Option<Status>)
    ensures Stepped(lines, stop) == FieldEntry(verbose, start, f)
  {
    var m := ComputeShiftedMask(f.numBits, f.bitOffset);
    if m.MaskStops? {
      return start, Some(m.status);
    }
    lines := start + [FieldLine(f, m.mask, verbose)];
    stop := None;
  }

  method PrintFields(fields: seq<Field>, verbose: bool, start: seq<string>) returns (lines: seq<string>, stop: Option<Status>)
    ensures Stepped(lines, stop) == Walk(FieldStep(verbose), start, fields)
  {
    lines := start;
    for i := 0 to |fields|
      invariant Walk(FieldStep(verbose), start, fields[..i]) == Stepped(lines, None)
    {
      WalkPrefixStep(FieldStep(verbose), start, fields, i);
      lines, stop := PrintField(fields[i], verbose, lines);
      if stop.Some? {
        WalkFailedPrefix(FieldStep(verbose), start, fields[..i + 1], fields[i + 1..]);
        assert fields[..i + 1] + fields[i + 1..] == fields;
        return;
      }
    }
    assert fields[..|fields|] == fields;
    stop := None;
  }

  method PrintRegister(r: Register, verbose: bool, start: seq<string>) returns (lines: seq<string>, stop: Option<Status>)
    ensures Stepped(lines, stop) == RegisterEntry(verbose, start, r)
  {
    lines := start + [RegisterLine(r, verbose)];
    stop := None;
    if r.fields.Some? {
      lines, stop := PrintFields(r.fields.value, verbose, lines);
    }
  }

  method PrintListing(head: seq<string>, regs: seq<Register>, verbose: bool) returns (out: seq<string>, st: Status)
    ensures Printed(out, st) == Listing(head, regs, verbose)
  {
    out := head;
    for i := 0 to |regs|
      invariant Walk(RegisterStep(verbose), head, regs[..i]) == Stepped(out, None)
    {
      WalkPrefixStep(RegisterStep(verbose), head, regs, i);
      var stop;
      out, stop := PrintRegister(regs[i], verbose, out);
      if stop.Some? {
        WalkFailedPrefix(RegisterStep(verbose), head, regs[..i + 1], regs[i + 1..]);
        assert regs[..i + 1] + regs[i + 1..] == regs;
        return out, stop.value;
      }
    }
    assert regs[..|regs|] == regs;
    st := Done;
  }

  /** `Display`, with the MPU name and the global `verbose` as parameters. */
  method Display(db: Db, periph: string, regPat: string, mpu: string, verbose: bool) returns (out: seq<string>, st: Status)
    ensures Printed(out, st) == DisplayOutput(db.Snapshot(), periph, regPat, mpu, verbose)
  {
    out := [Title(periph, mpu)];
    var found := PeripheralByName(db.Snapshot(), periph);
    if found.Err? {
      return out, Failed(Unknown(periph));
    }
    var p := found.value;
    out := Head(db.Snapshot(), periph, mpu, p);
    var pr := CollectRegisters(db, p.name);
    if pr.Err? {
      return out, CollectFailure(p.name, pr.msg);
    }
    st := Done;
    if pr.value.registers.Some? {
      var regs := Selected(pr.value.registers.value, regPat);
      out, st := PrintListing(out, regs, verbose);
    }
  }

  // ---------------------------------------------------------------------
  // Properties

  /** The alias name is the name `fetch_peripheral` returns when it succeeds, and empty when the id has no row. */
  lemma AliasNameById(t: Tables, id: int)
    ensures PeripheralById(t, id).Ok? ==> AliasName(t, id) == PeripheralById(t, id).value.name
    ensures !(1 <= id <= |t.peripherals|) ==> AliasName(t, id) == ""
  {
  }

  /** The mask of a field is computed without a hang or a panic. */
  predicate MaskPrints(f: Field) { f.numBits >= 0 && f.bitOffset >= 0 }

  /** The mask printed for a field whose mask is computed. */
  function FieldMask(f: Field): nat {
    match ShiftedMask(f.numBits, f.bitOffset)
    case MaskOk(m) => m
    case MaskStops(_) => 0
  }

  function FieldOut(verbose: bool): Field -> seq<string> {
    (f: Field) => [FieldLine(f, FieldMask(f), verbose)]
  }

  /** Every field of the register has a computable mask. */
  predicate RegisterPrints(r: Register) {
    r.fields.Some? ==> forall j :: 0 <= j < |r.fields.value| ==> MaskPrints(r.fields.value[j])
  }

  /** A register's lines: its own line, then one line per field. */
  function RegisterLines(verbose: bool, r: Register): seq<string> {
    if r.fields.None? then [RegisterLine(r, verbose)]
    else [RegisterLine(r, verbose)] + ConcatMap(FieldOut(verbose), r.fields.value)
  }

  function RegisterOut(verbose: bool): Register -> seq<string> {
    (r: Register) => RegisterLines(verbose, r)
  }

  /** The mask printed for an n-bit field at offset `off` has exactly bits off .. off+n-1 set. */
  lemma FieldMaskBits(f: Field)
    requires MaskPrints(f)
    ensures FieldMask(f) == Ones(f.numBits + f.bitOffset) - Ones(f.bitOffset)
  {
    ShiftedMaskBits(f.numBits, f.bitOffset);
  }

  /** A field whose mask computes prints its line; a negative width never returns and a negative offset panics. */
  lemma FieldEntrySpec(verbose: bool, u: seq<string>, f: Field)
    ensures MaskPrints(f) ==> FieldEntry(verbose, u, f) == Stepped(u + FieldOut(verbose)(f), None)
    ensures f.numBits < 0 ==> FieldEntry(verbose, u, f) == Stepped(u, Some(Hangs))
    ensures f.numBits >= 0 && f.bitOffset < 0
      ==> FieldEntry(verbose, u, f) == Stepped(u, Some(Panicked("negative shift amount")))
  {
    var m := ShiftedMask(f.numBits, f.bitOffset);
    if MaskPrints(f) {
      assert FieldEntry(verbose, u, f) == Stepped(u + [FieldLine(f, m.mask, verbose)], None);
    }
  }

  /** Fields whose masks all compute print one line each, in order. */
  lemma FieldsLayout(verbose: bool, headed: seq<string>, fs: seq<Field>)
    requires forall j :: 0 <= j < |fs| ==> MaskPrints(fs[j])
    ensures Walk(FieldStep(verbose), headed, fs) == Stepped(headed + ConcatMap(FieldOut(verbose), fs), None)
  {
    forall v, i | 0 <= i < |fs| ensures FieldStep(verbose)(v, fs[i]) == Stepped(v + FieldOut(verbose)(fs[i]), None) {
      FieldEntrySpec(verbose, v, fs[i]);
    }
    WalkEmits(FieldStep(verbose), headed, fs, FieldOut(verbose));
  }

  /** The fields stop only in a hang or a panic, and do stop at a mask that does not compute. */
  lemma FieldsStop(verbose: bool, headed: seq<string>, fs: seq<Field>)
    ensures (exists j :: 0 <= j < |fs| && !MaskPrints(fs[j])) ==> Walk(FieldStep(verbose), headed, fs).err.Some?
    ensures Walk(FieldStep(verbose), headed, fs).err.Some? ==> Stops(Walk(FieldStep(verbose), headed, fs).err.value)
  {
    if j :| 0 <= j < |fs| && !MaskPrints(fs[j]) {
      forall v ensures FieldStep(verbose)(v, fs[j]).err.Some? {
        FieldEntrySpec(verbose, v, fs[j]);
      }
      WalkFails(FieldStep(verbose), headed, fs, j);
    }
    forall v, i | 0 <= i < |fs| && FieldStep(verbose)(v, fs[i]).err.Some?
      ensures Stops(FieldStep(verbose)(v, fs[i]).err.value)
    {
      FieldEntrySpec(verbose, v, fs[i]);
    }
    WalkErrors(FieldStep(verbose), headed, fs, Stops);
  }

  /** A register whose masks all compute prints its line and one line per field; otherwise it stops the call. */
  lemma RegisterEntrySpec(verbose: bool, u: seq<string>, r: Register)
    ensures RegisterPrints(r) ==> RegisterEntry(verbose, u, r) == Stepped(u + RegisterLines(verbose, r), None)
    ensures !RegisterPrints(r) ==> RegisterEntry(verbose, u, r).err.Some?
    ensures RegisterEntry(verbose, u, r).err.Some? ==> Stops(RegisterEntry(verbose, u, r).err.value)
  {
    var line := RegisterLine(r, verbose);
    var headed := u + [line];
    if r.fields.Some? {
      var fs := r.fields.value;
      FieldsStop(verbose, headed, fs);
      if RegisterPrints(r) {
        FieldsLayout(verbose, headed, fs);
        AppendAssoc(u, [line], ConcatMap(FieldOut(verbose), fs));
      }
    }
  }

  /** When every mask computes, the listing is each register's lines in turn, and the call returns nil. */
  lemma ListingLayout(head: seq<string>, regs: seq<Register>, verbose: bool)
    requires forall i :: 0 <= i < |regs| ==> RegisterPrints(regs[i])
    ensures Listing(head, regs, verbose) == Printed(head + ConcatMap(RegisterOut(verbose), regs), Done)
  {
    forall u, i | 0 <= i < |regs| ensures RegisterStep(verbose)(u, regs[i]) == Stepped(u + RegisterOut(verbose)(regs[i]), None) {
      RegisterEntrySpec(verbose, u, regs[i]);
    }
    WalkEmits(RegisterStep(verbose), head, regs, RegisterOut(verbose));
  }

  /**
   * The listing never returns an error value: it ends normally exactly when
   * every mask computes, and otherwise in a hang or a panic.
   */
  lemma ListingStatus(head: seq<string>, regs: seq<Register>, verbose: bool)
    ensures Listing(head, regs, verbose).status == Done <==> forall i :: 0 <= i < |regs| ==> RegisterPrints(regs[i])
    ensures Listing(head, regs, verbose).status == Done || Stops(Listing(head, regs, verbose).status)
  {
    var step := RegisterStep(verbose);
    forall u, i | 0 <= i < |regs| && step(u, regs[i]).err.Some? ensures Stops(step(u, regs[i]).err.value) {
      RegisterEntrySpec(verbose, u, regs[i]);
    }
    WalkErrors(step, head, regs, Stops);
    if forall i :: 0 <= i < |regs| ==> RegisterPrints(regs[i]) {
      ListingLayout(head, regs, verbose);
    } else {
      var k :| 0 <= k < |regs| && !RegisterPrints(regs[k]);
      forall u ensures step(u, regs[k]).err.Some? {
        RegisterEntrySpec(verbose, u, regs[k]);
      }
      WalkFails(step, head, regs, k);
    }
  }

  /** Lines printed before a register stay in front of everything it prints, and its own line comes next. */
  lemma RegisterKeeps(verbose: bool, pre: seq<string>, u: seq<string>, r: Register)
    requires pre <= u
    ensures pre <= RegisterEntry(verbose, u, r).state
    ensures u + [RegisterLine(r, verbose)] <= RegisterEntry(verbose, u, r).state
  {
    var headed := u + [RegisterLine(r, verbose)];
    if r.fields.Some? {
      var inv := (v: seq<string>) => headed <= v;
      WalkKeeps(FieldStep(verbose), headed, r.fields.value, inv);
    }
  }

  /** The listing starts with the lines before it, then the first register's line. */
  lemma ListingPrefix(head: seq<string>, regs: seq<Register>, verbose: bool)
    ensures head <= Listing(head, regs, verbose).lines
    ensures |regs| > 0 ==> head + [RegisterLine(regs[0], verbose)] <= Listing(head, regs, verbose).lines
  {
    var step := RegisterStep(verbose);
    var inv := (v: seq<string>) => head <= v;
    forall u, r | inv(u) ensures inv(step(u, r).state) {
      RegisterKeeps(verbose, head, u, r);
    }
    WalkKeeps(step, head, regs, inv);
    if |regs| > 0 {
      var first := head + [RegisterLine(regs[0], verbose)];
      RegisterKeeps(verbose, head, head, regs[0]);
      var r0 := step(head, regs[0]);
      if r0.err.None? {
        var inv1 := (v: seq<string>) => first <= v;
        forall u, r | inv1(u) ensures inv1(step(u, r).state) {
          RegisterKeeps(verbose, first, u, r);
        }
        WalkKeeps(step, r0.state, regs[1..], inv1);
      }
    }
  }

  /** After the head: an error value exactly when the collection failed, otherwise a normal end, a hang or a panic. */
  lemma ShownStatus(head: seq<string>, name: string, c: Result<Peripheral>, regPat: string, verbose: bool)
    requires c.Ok? ==> c.value.registers.Some?
    ensures var o := Shown(head, name, c, regPat, verbose);
      && (c.Err? ==> o == Printed(head, CollectFailure(name, c.msg)))
      && (o.status.Failed? <==> c.Err?)
      && (!o.status.Failed? ==> o.status == Done || Stops(o.status))
      && head <= o.lines
  {
    if c.Ok? {
      var regs := Selected(c.value.registers.value, regPat);
      ListingStatus(head, regs, verbose);
      ListingPrefix(head, regs, verbose);
    }
  }

  /**
   * `Display` fails with an error value exactly when no peripheral matches
   * the name or its registers cannot be collected; otherwise it ends
   * normally or in a hang or a panic, after the title, the base address and
   * any alias note.
   */
  lemma DisplayStatus(t: Tables, periph: string, regPat: string, mpu: string, verbose: bool)
    ensures var o := DisplayOutput(t, periph, regPat, mpu, verbose);
      var found := PeripheralByName(t, periph);
      && (found.Err? ==> o == Printed([Title(periph, mpu)], Failed(Unknown(periph))))
      && (found.Ok? && Collected(t, found.value.name).Err?
          ==> o.status == CollectFailure(found.value.name, Collected(t, found.value.name).msg))
      && (o.status.Failed? <==> found.Err? || Collected(t, found.value.name).Err?)
      && (!o.status.Failed? ==> o.status == Done || Stops(o.status))
      && (found.Ok? ==> Head(t, periph, mpu, found.value) <= o.lines)
  {
    var found := PeripheralByName(t, periph);
    if found.Ok? {
      var p := found.value;
      ShownStatus(Head(t, periph, mpu, p), p.name, Collected(t, p.name), regPat, verbose);
    }
  }

  /** A derived peripheral: its own name and base address, then the name of the one it shares registers with. */
  lemma DisplayAlias(t: Tables, periph: string, regPat: string, mpu: string, verbose: bool, p: Peripheral)
    requires PeripheralByName(t, periph) == Ok(p) && p.derivedFrom.Some?
    ensures var o := DisplayOutput(t, periph, regPat, mpu, verbose);
      |o.lines| >= 3
      && o.lines[0] == Title(periph, mpu) && o.lines[1] == BaseLine(p)
      && o.lines[2] == AliasLine(t, p.derivedFrom.value)
  {
    DisplayStatus(t, periph, regPat, mpu, verbose);
    var head := Head(t, periph, mpu, p);
    var o := DisplayOutput(t, periph, regPat, mpu, verbose);
    assert head <= o.lines;
    assert head == [Title(periph, mpu), BaseLine(p), AliasLine(t, p.derivedFrom.value)];
  }

  /** A peripheral that is not derived has no alias note: its first selected register follows the base address. */
  lemma DisplayFirstRegister(t: Tables, periph: string, regPat: string, mpu: string, verbose: bool)
    requires PeripheralByName(t, periph).Ok?
    requires PeripheralByName(t, periph).value.derivedFrom.None?
    requires Collected(t, PeripheralByName(t, periph).value.name).Ok?
    requires Selected(Collected(t, PeripheralByName(t, periph).value.name).value.registers.value, regPat) != []
    ensures var regs := Selected(Collected(t, PeripheralByName(t, periph).value.name).value.registers.value, regPat);
      var o := DisplayOutput(t, periph, regPat, mpu, verbose);
      |o.lines| >= 3 && o.lines[2] == RegisterLine(regs[0], verbose)
  {
    var p := PeripheralByName(t, periph).value;
    var c := Collected(t, p.name);
    var regs := Selected(c.value.registers.value, regPat);
    var head := Head(t, periph, mpu, p);
    assert DisplayOutput(t, periph, regPat, mpu, verbose) == Listing(head, regs, verbose);
    ListingPrefix(head, regs, verbose);
    assert |head| == 2;
    assert (head + [RegisterLine(regs[0], verbose)])[2] == RegisterLine(regs[0], verbose);
  }

  /**
   * When every mask computes, `Display` prints, after its head, the lines of
   * exactly the registers whose name contains the pattern (ignoring case),
   * in their order, and returns nil.
   */
  lemma DisplayListing(t: Tables, periph: string, regPat: string, mpu: string, verbose: bool)
    requires PeripheralByName(t, periph).Ok?
    requires Collected(t, PeripheralByName(t, periph).value.name).Ok?
    requires var regs := Collected(t, PeripheralByName(t, periph).value.name).value.registers.value;
      forall i :: 0 <= i < |regs| ==> RegisterPrints(regs[i])
    ensures var p := PeripheralByName(t, periph).value;
      var regs := Selected(Collected(t, p.name).value.registers.value, regPat);
      && (forall r :: r in regs <==> r in Collected(t, p.name).value.registers.value && (regPat == "" || Matches(regPat, r)))
      && DisplayOutput(t, periph, regPat, mpu, verbose)
        == Printed(Head(t, periph, mpu, p) + ConcatMap(RegisterOut(verbose), regs), Done)
  {
    var p := PeripheralByName(t, periph).value;
    var all := Collected(t, p.name).value.registers.value;
    var regs := Selected(all, regPat);
    forall i | 0 <= i < |regs| ensures RegisterPrints(regs[i]) {
      assert regs[i] in all;
    }
    ListingLayout(Head(t, periph, mpu, p), regs, verbose);
  }

  /** A one-bit field at bit 3 has the mask `0x00000008`. */
  lemma MaskExample(f: Field, verbose: bool)
    requires f.numBits == 1 && f.bitOffset == 3
    ensures FieldMask(f) == 8
    ensures FieldLine(f, FieldMask(f), verbose) == "    " + f.name + ": number bits " + "1" + ", bit offset: " + "3"
      + ", mask: 0x" + "00000008" + " " + Described(verbose, f.description)
  {
    assert ShiftedMask(1, 3) == MaskOk(8) by {
      assert Pow(2, 1) == 2;
      assert Pow(2, 3) == 8;
    }
    assert Hex08(8) == "00000008" by {
      assert HexDigits(8) == "8";
      assert Repeat("0", 7) == "0000000";
    }
    assert Itoa(1) == "1" && Itoa(3) == "3";
  }

  /**
   * Descriptions appear only when verbose, after ` - `; without verbose a
   * line is the same as for no description; a null reset value prints as
   * the empty string.
   */
  lemma DescriptionsWhenVerbose(r: Register, f: Field, mask: nat, verbose: bool)
    ensures RegisterLine(r, false) == RegisterLine(r.(description := None), true)
    ensures r.description.Some? ==> RegisterLine(r, true) == RegisterLine(r, false) + " - " + r.description.value
    ensures FieldLine(f, mask, false) == FieldLine(f.(description := None), mask, true)
    ensures f.description.Some? ==> FieldLine(f, mask, true) == FieldLine(f, mask, false) + " - " + f.description.value
    ensures RegisterLine(r.(resetValue := None), verbose) == RegisterLine(r.(resetValue := Some("")), verbose)
  {
    var stem := "Register " + r.name + " offset: " + r.addressOffset + ", reset: " + ResetText(r);
    assert RegisterLine(r, false) == stem + "";
    if r.description.Some? {
      AppendAssoc(stem, " - ", r.description.value);
    }
    var fstem := "    " + f.name + ": number bits " + Itoa(f.numBits) + ", bit offset: " + Itoa(f.bitOffset)
      + ", mask: 0x" + Hex08(mask) + " ";
    assert FieldLine(f, mask, false) == fstem + "";
    if f.description.Some? {
      AppendAssoc(fstem, " - ", f.description.value);
    }
  }
}
