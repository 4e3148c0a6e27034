/**
 * `GenForthConsts` and `GenForthRegs` (internal/gen_forth.go): Forth
 * constants for a peripheral, its registers and their bit fields. Masks are
 * printed unshifted, next to the bit offset, as `2constant`s; the structured
 * form lays the registers out with `reg`, in address order.
 */
module GenForth {
  import opened Common
  import opened Text
  import opened Store
  import opened Query
  import opened Lookup
  import opened Render

  /** The Forth definition of `modify-reg`, printed ahead of the constants when support words are asked for. */
  const ModifyRegCode: string :=
    "\n: modify-reg ( value mask pos reg -- )\n    >r tuck         \\ -- value pos mask pos\n"
    + "    lshift r@ bic!  \\ clear mask first\n    lshift r> bis!  \\ set the value bits\n;\n"

  /** The Forth definitions of `registers`, `reg`, `regC`, `end-registers` and `bit`. */
  const LibRegistersCode: string :=
    "\n: registers ( -- )\n    0 ;             \\ offset start\n\n"
    + ": reg\n    <builds         ( offset -- newoffset )\n        dup , cell+\n"
    + "    does>           ( structure-base -- structure-member-address )\n        @ + ;\n\n"
    + ": regC\n    <builds         ( offset -- newoffset )\n        dup , cell+\n"
    + "    does>           ( structure-base stream -- structure-member-address )\n        @ swap $18 * + + ;\n\n"
    + ": end-registers ( -- )\n    drop ;          \\ last offset\n\n"
    + "\\ bit masks\n: bit ( n -- n )\n    1 swap lshift 1-foldable ;\n"

  /** Go's run-time panic for `s[0:k]` on a string shorter than `k`. */
  const SliceBounds: string := "slice bounds out of range"

  /** `strings.Replace(s, "0x", "$", 1)`: the first C hex prefix becomes Forth's. */
  function Dollar(s: string): string { ReplaceFirst(s, "0x", "$") }

  /** With `Addwords` set, the support words come first (one `Print` and one `Println`). */
  function Preamble(addwords: bool, code: string): seq<string> {
    if addwords then [code] else []
  }

  /** `$%08X %v 2constant m_...`: an unshifted mask and its bit offset. */
  function MaskConst(mask: nat, off: int, bf: string): string {
    "  $" + Hex08(mask) + " " + Itoa(off) + " 2constant m_" + bf
  }

  // ---------------------------------------------------------------------
  // GenForthConsts

  /** `1 off lshift constant b_...`: a one-bit field as a shifted bit. */
  function BitConst(off: int, bf: string): string {
    "  1 " + Itoa(off) + " lshift constant b_" + bf
  }

  /** The line of one field, or the hang of `IntPow` for a negative width. */
  function ConstField(stem: string, lines: seq<string>, f: Field): Stepped<seq<string>, Status> {
    var bf := stem + "_" + f.name;
    if f.numBits == 1 then Stepped(lines + [BitConst(f.bitOffset, bf)], None)
    else
      match UnshiftedMask(f.numBits)
      case MaskStops(st) => Stepped(lines, Some(st))
      case MaskOk(m) => Stepped(lines + [MaskConst(m, f.bitOffset, bf)], None)
  }

  function ConstFieldStep(stem: string): (seq<string>, Field) -> Stepped<seq<string>, Status> {
    (lines: seq<string>, f: Field) => ConstField(stem, lines, f)
  }

  function ConstHeader(prefix: string, r: Register): string {
    "  \\ Bitfields for " + prefix + "_" + r.name
  }

  /** One register's section: a comment line, then its fields. */
  function ConstSection(prefix: string, lines: seq<string>, r: Register): Stepped<seq<string>, Status> {
    var headed := lines + [ConstHeader(prefix, r)];
    if r.fields.None? then Stepped(headed, None)
    else Walk(ConstFieldStep(prefix + "_" + r.name), headed, r.fields.value)
  }

  function ConstSectionStep(prefix: string): (seq<string>, Register) -> Stepped<seq<string>, Status> {
    (lines: seq<string>, r: Register) => ConstSection(prefix, lines, r)
  }

  /** `NAME_BASE off + constant pre_REG`: a register's address relative to the base constant. */
  function RegConst(name: string, prefix: string, r: Register): string {
    "  " + name + "_BASE " + Dollar(r.addressOffset) + " + constant " + prefix + "_" + r.name
  }

  function RegConsts(name: string, prefix: string, regs: seq<Register>): (lines: seq<string>)
    ensures |lines| == |regs|
    ensures forall i :: 0 <= i < |regs| ==> lines[i] == RegConst(name, prefix, regs[i])
  {
    seq(|regs|, i requires 0 <= i < |regs| => RegConst(name, prefix, regs[i]))
  }

  /** What `GenForthConsts` prints and returns. */
  function ConstsOutput(t: Tables, periph: string, regPat: string, addwords: bool): Printed {
    var c := Collected(t, periph);
    if c.Err? then Printed([], CollectFailure(periph, c.msg)) else ConstsOf(c.value, regPat, addwords)
  }

  /** The output for a collected peripheral: the three-letter prefix panics on a shorter name. */
  function ConstsOf(p: Peripheral, regPat: string, addwords: bool): Printed {
    ConstsAfter(Preamble(addwords, ModifyRegCode) + [Dollar(p.baseAddress) + " constant " + p.name + "_BASE"], p, regPat)
  }

  /** Everything after the base constant `head`. */
  function ConstsAfter(head: seq<string>, p: Peripheral, regPat: string): Printed {
    if |p.name| < 3 then Printed(head, Panicked(SliceBounds))
    else if p.registers.None? then Printed(head, Done)
    else
      var prefix := ToLower(p.name)[..3];
      var regs := Selected(p.registers.value, regPat);
      var w := Walk(ConstSectionStep(prefix), head + RegConsts(p.name, prefix, regs), regs);
      Printed(w.state, if w.err.Some? then w.err.value else Done)
  }

  /** One field's line as Go computes it: the mask by `IntPow`'s loop. */
  method PrintConstField(stem: string, f: Field, start: seq<string>) returns (lines: seq<string>, stop: Option<Status>)
    ensures Stepped(lines, stop) == ConstFieldStep(stem)(start, f)
  {
    var bf := stem + "_" + f.name;
    if f.numBits == 1 {
      return start + [BitConst(f.bitOffset, bf)], None;
    }
    var m := ComputeUnshiftedMask(f.numBits);
    if m.MaskStops? {
      return start, Some(m.status);
    }
    return start + [MaskConst(m.mask, f.bitOffset, bf)], None;
  }

  method PrintConstFields(stem: string, fields: seq<Field>, start: seq<string>) returns (lines: seq<string>, stop: Option<Status>)
    ensures Stepped(lines, stop) == Walk(ConstFieldStep(stem), start, fields)
  {
    lines := start;
    for i := 0 to |fields|
      invariant Walk(ConstFieldStep(stem), start, fields[..i]) == Stepped(lines, None)
    {
      var before := lines;
      lines, stop := PrintConstField(stem, fields[i], lines);
      WalkAdvance(ConstFieldStep(stem), start, fields, i, before, Stepped(lines, stop));
      if stop.Some? {
        return;
      }
    }
    assert fields[..|fields|] == fields;
    stop := None;
  }

  /** One register's constant section: its header comment, then its fields. */
  method PrintConstSection(prefix: string, r: Register, start: seq<string>) returns (lines: seq<string>, stop: Option<Status>)
    ensures Stepped(lines, stop) == ConstSectionStep(prefix)(start, r)
  {
    lines := start + [ConstHeader(prefix, r)];
    stop := None;
    if r.fields.Some? {
      lines, stop := PrintConstFields(prefix + "_" + r.name, r.fields.value, lines);
    }
  }

  method PrintConstSections(prefix: string, regs: seq<Register>, start: seq<string>) returns (lines: seq<string>, stop: Option<Status>)
    ensures Stepped(lines, stop) == Walk(ConstSectionStep(prefix), start, regs)
  {
    lines := start;
    for i := 0 to |regs|
      invariant Walk(ConstSectionStep(prefix), start, regs[..i]) == Stepped(lines, None)
    {
      var before := lines;
      lines, stop := PrintConstSection(prefix, regs[i], lines);
      WalkAdvance(ConstSectionStep(prefix), start, regs, i, before, Stepped(lines, stop));
      if stop.Some? {
        return;
      }
    }
    assert regs[..|regs|] == regs;
    stop := None;
  }

  method PrintRegConsts(name: string, prefix: string, regs: seq<Register>, start: seq<string>) returns (lines: seq<string>)
    ensures lines == start + RegConsts(name, prefix, regs)
  {
    lines := start;
    for i := 0 to |regs|
      invariant lines == start + RegConsts(name, prefix, regs[..i])
    {
      assert RegConsts(name, prefix, regs[..i + 1]) == RegConsts(name, prefix, regs[..i]) + [RegConst(name, prefix, regs[i])];
      lines := lines + [RegConst(name, prefix, regs[i])];
    }
    assert regs[..|regs|] == regs;
  }

  /** Everything `GenForthConsts` prints once the peripheral is collected. */
  method PrintConsts(p: Peripheral, regPat: string, addwords: bool) returns (out: seq<string>, st: Status)
    ensures Printed(out, st) == ConstsOf(p, regPat, addwords)
  {
    out := Preamble(addwords, ModifyRegCode);
    out := out + [Dollar(p.baseAddress) + " constant " + p.name + "_BASE"];
    if |p.name| < 3 {
      return out, Panicked(SliceBounds);
    }
    var prefix := ToLower(p.name)[..3];
    if p.registers.None? {
      return out, Done;
    }
    var regs := Selected(p.registers.value, regPat);
    out := PrintRegConsts(p.name, prefix, regs, out);
    var stop;
    out, stop := PrintConstSections(prefix, regs, out);
    st := if stop.Some? then stop.value else Done;
  }

  /** `GenForthConsts`, with the global `Addwords` as a parameter. */
  method GenerateConsts(db: Db, periph: string, regPat: string, addwords: bool) returns (out: seq<string>, st: Status)
    ensures Printed(out, st) == ConstsOutput(db.Snapshot(), periph, regPat, addwords)
  {
    var pr := CollectRegisters(db, periph);
    if pr.Err? {
      return [], CollectFailure(periph, pr.msg);
    }
    out, st := PrintConsts(pr.value, regPat, addwords);
  }

  // ---------------------------------------------------------------------
  // Properties shared by both layouts

  /** A C-style hex offset `0x...` is printed with Forth's `$` instead. */
  lemma DollarHex(s: string)
    ensures Dollar("0x" + s) == "$" + s
  {
    assert OccursAt("0x" + s, "0x", 0);
    ReplaceFirstAt("0x" + s, "0x", "$", 0);
    assert ("0x" + s)[2..] == s;
  }

  /** A 4-bit field at bit 8: the mask is printed unshifted, `$0000000F 8`. */
  lemma ForthMaskExample(bf: string)
    ensures UnshiftedMask(4) == MaskOk(15)
    ensures MaskConst(15, 8, bf) == "  $0000000F 8 2constant m_" + bf
  {
    assert Pow(2, 4) == 16;
    assert Hex08(15) == "0000000F" by {
      assert HexDigits(15) == "F";
      assert Repeat("0", 7) == "0000000";
    }
    assert Itoa(8) == "8";
  }

  /** Putting lines in front of the state. */
  function Behind(pre: seq<string>): seq<string> -> seq<string> {
    (u: seq<string>) => pre + u
  }

  // ---------------------------------------------------------------------
  // Properties of GenForthConsts

  /** The line of one field whose width is not negative. */
  function ConstFieldLine(stem: string, f: Field): string
    requires f.numBits >= 0
  {
    var bf := stem + "_" + f.name;
    if f.numBits == 1 then BitConst(f.bitOffset, bf) else MaskConst(Ones(f.numBits), f.bitOffset, bf)
  }

  /**
   * A field of width 1 gives a `lshift constant`, never a `2constant`; a
   * field of another non-negative width gives the all-ones mask of its width
   * and its offset, whatever the offset; only a negative width stops the
   * program, by hanging in `IntPow`.
   */
  lemma ConstFieldSpec(stem: string, u: seq<string>, f: Field)
    ensures f.numBits >= 0 ==> ConstField(stem, u, f) == Stepped(u + [ConstFieldLine(stem, f)], None)
    ensures f.numBits < 0 ==> ConstField(stem, u, f) == Stepped(u, Some(Hangs))
  {
  }

  /** The lines of a section whose widths are all non-negative: one per field. */
  function ConstSectionLines(prefix: string, r: Register): seq<string>
    requires SectionWidthsOk(r)
  {
    var header := [ConstHeader(prefix, r)];
    if r.fields.None? then header
    else
      var fs := r.fields.value;
      header + ConcatMap(ConstFieldOut(prefix + "_" + r.name), fs)
  }

  /** A field's line as a function of the field; nothing for a width that hangs. */
  function ConstFieldOut(stem: string): Field -> seq<string> {
    (f: Field) => if f.numBits >= 0 then [ConstFieldLine(stem, f)] else []
  }

  predicate SectionWidthsOk(r: Register) {
    r.fields.Some? ==> forall j :: 0 <= j < |r.fields.value| ==> r.fields.value[j].numBits >= 0
  }

  /** Fields with non-negative widths are printed one line each, in order. */
  lemma ConstFieldsWalk(stem: string, start: seq<string>, fs: seq<Field>)
    requires forall j :: 0 <= j < |fs| ==> fs[j].numBits >= 0
    ensures Walk(ConstFieldStep(stem), start, fs) == Stepped(start + ConcatMap(ConstFieldOut(stem), fs), None)
  {
    forall u, i | 0 <= i < |fs| ensures ConstFieldStep(stem)(u, fs[i]) == Stepped(u + ConstFieldOut(stem)(fs[i]), None) {
      ConstFieldSpec(stem, u, fs[i]);
    }
    WalkEmits(ConstFieldStep(stem), start, fs, ConstFieldOut(stem));
  }

  lemma ConstSectionSpec(prefix: string, u: seq<string>, r: Register)
    ensures SectionWidthsOk(r) ==> ConstSection(prefix, u, r) == Stepped(u + ConstSectionLines(prefix, r), None)
    ensures !SectionWidthsOk(r) ==> ConstSection(prefix, u, r).err == Some(Hangs)
  {
    var headed := u + [ConstHeader(prefix, r)];
    if r.fields.Some? {
      var fs := r.fields.value;
      var stem := prefix + "_" + r.name;
      if SectionWidthsOk(r) {
        ConstFieldsWalk(stem, headed, fs);
        AppendAssoc(u, [ConstHeader(prefix, r)], ConcatMap(ConstFieldOut(stem), fs));
      } else {
        var j :| 0 <= j < |fs| && fs[j].numBits < 0;
        forall v ensures ConstField(stem, v, fs[j]).err.Some? {
          ConstFieldSpec(stem, v, fs[j]);
        }
        WalkFails(ConstFieldStep(stem), headed, fs, j);
        forall v, i | 0 <= i < |fs| && ConstFieldStep(stem)(v, fs[i]).err.Some?
          ensures ConstFieldStep(stem)(v, fs[i]).err.value == Hangs
        {
          ConstFieldSpec(stem, v, fs[i]);
        }
        WalkErrors(ConstFieldStep(stem), headed, fs, (st: Status) => st == Hangs);
      }
    }
  }

  /**
   * With every width non-negative: the base constant, one address constant
   * per selected register, then one section per selected register, in order.
   */
  lemma ConstsLayout(p: Peripheral, regPat: string, addwords: bool)
    requires |p.name| >= 3 && p.registers.Some?
    requires var regs := Selected(p.registers.value, regPat);
      forall i :: 0 <= i < |regs| ==> SectionWidthsOk(regs[i])
    ensures var prefix := ToLower(p.name)[..3];
      var regs := Selected(p.registers.value, regPat);
      ConstsOf(p, regPat, addwords) == Printed(
        Preamble(addwords, ModifyRegCode) + [Dollar(p.baseAddress) + " constant " + p.name + "_BASE"]
          + RegConsts(p.name, prefix, regs) + ConcatMap(ConstSectionOut(prefix), regs), Done)
  {
    var prefix := ToLower(p.name)[..3];
    var regs := Selected(p.registers.value, regPat);
    forall u, i | 0 <= i < |regs|
      ensures ConstSectionStep(prefix)(u, regs[i]) == Stepped(u + ConstSectionOut(prefix)(regs[i]), None)
    {
      ConstSectionSpec(prefix, u, regs[i]);
    }
    var head := Preamble(addwords, ModifyRegCode) + [Dollar(p.baseAddress) + " constant " + p.name + "_BASE"];
    WalkEmits(ConstSectionStep(prefix), head + RegConsts(p.name, prefix, regs), regs, ConstSectionOut(prefix));
  }

  /** The section lines as a function of the register; nothing for a section that hangs. */
  function ConstSectionOut(prefix: string): Register -> seq<string> {
    (r: Register) => if SectionWidthsOk(r) then ConstSectionLines(prefix, r) else []
  }

  /** A negative width anywhere in the selected registers hangs the program. */
  lemma ConstsHang(p: Peripheral, regPat: string, addwords: bool, k: nat)
    requires |p.name| >= 3 && p.registers.Some?
    requires k < |Selected(p.registers.value, regPat)| && !SectionWidthsOk(Selected(p.registers.value, regPat)[k])
    ensures ConstsOf(p, regPat, addwords).status == Hangs
  {
    var prefix := ToLower(p.name)[..3];
    var regs := Selected(p.registers.value, regPat);
    var start := Preamble(addwords, ModifyRegCode) + [Dollar(p.baseAddress) + " constant " + p.name + "_BASE"]
      + RegConsts(p.name, prefix, regs);
    forall u ensures ConstSectionStep(prefix)(u, regs[k]).err.Some? {
      ConstSectionSpec(prefix, u, regs[k]);
    }
    WalkFails(ConstSectionStep(prefix), start, regs, k);
    forall u, i | 0 <= i < |regs| && ConstSectionStep(prefix)(u, regs[i]).err.Some?
      ensures ConstSectionStep(prefix)(u, regs[i]).err.value == Hangs
    {
      ConstSectionSpec(prefix, u, regs[i]);
    }
    WalkErrors(ConstSectionStep(prefix), start, regs, (st: Status) => st == Hangs);
  }

  /** A name shorter than three characters panics right after the base constant. */
  lemma ConstsShortName(p: Peripheral, regPat: string, addwords: bool)
    requires |p.name| < 3
    ensures ConstsOf(p, regPat, addwords)
      == Printed(Preamble(addwords, ModifyRegCode) + [Dollar(p.baseAddress) + " constant " + p.name + "_BASE"], Panicked(SliceBounds))
  {
  }

  /** Lines already printed stay in front of a field's line. */
  lemma ConstFieldShift(stem: string, pre: seq<string>, v: seq<string>, f: Field)
    ensures ConstField(stem, pre + v, f) == Stepped(pre + ConstField(stem, v, f).state, ConstField(stem, v, f).err)
  {
    ConstFieldSpec(stem, v, f);
    ConstFieldSpec(stem, pre + v, f);
    if f.numBits >= 0 {
      assert (pre + v) + [ConstFieldLine(stem, f)] == pre + (v + [ConstFieldLine(stem, f)]);
    }
  }

  /** Lines already printed stay in front of a register's section. */
  lemma ConstSectionShift(prefix: string, pre: seq<string>, u: seq<string>, r: Register)
    ensures ConstSection(prefix, pre + u, r) == Stepped(pre + ConstSection(prefix, u, r).state, ConstSection(prefix, u, r).err)
  {
    var headed := u + [ConstHeader(prefix, r)];
    assert (pre + u) + [ConstHeader(prefix, r)] == Behind(pre)(headed);
    if r.fields.Some? {
      var stem := prefix + "_" + r.name;
      forall v, f ensures ConstFieldStep(stem)(Behind(pre)(v), f)
        == Stepped(Behind(pre)(ConstFieldStep(stem)(v, f).state), ConstFieldStep(stem)(v, f).err)
      {
        ConstFieldShift(stem, pre, v, f);
      }
      WalkShift(ConstFieldStep(stem), Behind(pre), headed, r.fields.value);
    }
  }

  /** Lines printed before the base constant stay in front of everything after it. */
  lemma ConstsAfterShift(pre: seq<string>, head: seq<string>, p: Peripheral, regPat: string)
    ensures ConstsAfter(pre + head, p, regPat)
      == Printed(pre + ConstsAfter(head, p, regPat).lines, ConstsAfter(head, p, regPat).status)
  {
    if |p.name| >= 3 && p.registers.Some? {
      var prefix := ToLower(p.name)[..3];
      var regs := Selected(p.registers.value, regPat);
      forall u, r ensures ConstSectionStep(prefix)(Behind(pre)(u), r)
        == Stepped(Behind(pre)(ConstSectionStep(prefix)(u, r).state), ConstSectionStep(prefix)(u, r).err)
      {
        ConstSectionShift(prefix, pre, u, r);
      }
      var start := head + RegConsts(p.name, prefix, regs);
      assert Behind(pre)(start) == (pre + head) + RegConsts(p.name, prefix, regs);
      WalkShift(ConstSectionStep(prefix), Behind(pre), start, regs);
    }
  }

  /** Asking for the support words puts `modify-reg` in front and changes nothing else. */
  lemma ConstsPreamble(p: Peripheral, regPat: string)
    ensures ConstsOf(p, regPat, true)
      == Printed([ModifyRegCode] + ConstsOf(p, regPat, false).lines, ConstsOf(p, regPat, false).status)
  {
    var base := [Dollar(p.baseAddress) + " constant " + p.name + "_BASE"];
    assert Preamble(true, ModifyRegCode) + base == [ModifyRegCode] + (Preamble(false, ModifyRegCode) + base);
    ConstsAfterShift([ModifyRegCode], Preamble(false, ModifyRegCode) + base, p, regPat);
  }

  // ---------------------------------------------------------------------
  // GenForthRegs

  /** The printed lines and the running address `addr` of the register layout. */
  datatype Layout = Layout(lines: seq<string>, addr: int)

  function DropLine(a: nat): string { "    drop $" + Hex08(a) }

  function RegLine(prefix: string, r: Register): string { "    reg _" + prefix + r.name }

  /** The text of the `*strconv.NumError` for a failed parse of `s`. */
  function ParseErrorText(s: string, e: ParseOutcome): string {
    "strconv.ParseUint: parsing \"" + s + "\": " + (if e.RangeError? then "value out of range" else "invalid syntax")
  }

  function UnableToParse(offset: string): string
    requires |offset| >= 2
  {
    "Unable to parse hex " + offset + " - " + ParseErrorText(offset[2..], ParseHex32(offset[2..]))
  }

  /**
   * One register of the layout: `address_offset[2:]` parsed as hex; a
   * `drop` resets the address when the offset is not the running one; the
   * register then takes four bytes.
   */
  function RegEntry(prefix: string, s: Layout, r: Register): Stepped<Layout, Status> {
    if |r.addressOffset| < 2 then Stepped(s, Some(Panicked(SliceBounds)))
    else
      var parsed := ParseHex32(r.addressOffset[2..]);
      if !parsed.Parsed? then Stepped(s, Some(Failed(UnableToParse(r.addressOffset))))
      else
        var a := parsed.value;
        var lines := if a != s.addr then s.lines + [DropLine(a)] else s.lines;
        Stepped(Layout(lines + [RegLine(prefix, r)], a + 4), None)
  }

  function RegEntryStep(prefix: string): (Layout, Register) -> Stepped<Layout, Status> {
    (s: Layout, r: Register) => RegEntry(prefix, s, r)
  }

  /**
   * The sort key: `address_offset[2:]` parsed as hex with the error ignored,
   * which leaves 0 after a syntax error and the 32-bit maximum after a range
   * error.
   */
  function OffsetKey(r: Register): nat {
    if |r.addressOffset| < 2 then 0
    else
      match ParseHex32(r.addressOffset[2..])
      case Parsed(a) => a
      case SyntaxError => 0
      case RangeError => MaxUint32
  }

  predicate OffsetLe(a: Register, b: Register) { OffsetKey(a) <= OffsetKey(b) }

  predicate HasShortOffset(regs: seq<Register>) {
    exists i :: 0 <= i < |regs| && |regs[i].addressOffset| < 2
  }

  /** One field: `off bit constant` for a single bit, the unshifted mask and offset otherwise. */
  function RegsField(regName: string, lines: seq<string>, f: Field): Stepped<seq<string>, Status> {
    var bf := regName + "_" + f.name;
    if f.numBits == 1 then Stepped(lines + [BitWord(f.bitOffset, bf)], None)
    else
      match UnshiftedMask(f.numBits)
      case MaskStops(st) => Stepped(lines, Some(st))
      case MaskOk(m) => Stepped(lines + [MaskConst(m, f.bitOffset, bf)], None)
  }

  function BitWord(off: int, bf: string): string {
    "  " + Itoa(off) + " bit constant b_" + bf
  }

  function RegsFieldStep(regName: string): (seq<string>, Field) -> Stepped<seq<string>, Status> {
    (lines: seq<string>, f: Field) => RegsField(regName, lines, f)
  }

  /** One register's section: an empty line and a comment (`\n\\ Bitfields for`), then its fields. */
  function RegsSection(lines: seq<string>, r: Register): Stepped<seq<string>, Status> {
    var headed := lines + ["", "\\ Bitfields for " + r.name];
    if r.fields.None? then Stepped(headed, None)
    else Walk(RegsFieldStep(r.name), headed, r.fields.value)
  }

  /** What `GenForthRegs` prints and returns. */
  function RegsOutput(t: Tables, periph: string, regPat: string, addwords: bool): Printed {
    var c := Collected(t, periph);
    if c.Err? then Printed([], CollectFailure(periph, c.msg)) else RegsOf(c.value, regPat, addwords)
  }

  function RegsOf(p: Peripheral, regPat: string, addwords: bool): Printed {
    RegsAfter(Preamble(addwords, LibRegistersCode) + [Dollar(p.baseAddress) + " constant " + p.name, "  registers"], p, regPat)
  }

  /**
   * Everything after `registers`: the two-letter prefix panics on a shorter
   * name, and `sort.Slice` on two or more registers slices every offset,
   * panicking on one shorter than two characters.
   */
  function RegsAfter(head: seq<string>, p: Peripheral, regPat: string): Printed {
    if |p.name| < 2 then Printed(head, Panicked(SliceBounds))
    else if p.registers.None? then Printed(head, Done)
    else
      var regs := Selected(p.registers.value, regPat);
      if |regs| >= 2 && HasShortOffset(regs) then Printed(head, Panicked(SliceBounds))
      else RegsLayout(head, ToLower(p.name)[..2], SortBy(regs, OffsetLe))
  }

  /** The sorted registers: the layout, `end-registers`, then the field sections. */
  function RegsLayout(head: seq<string>, prefix: string, sorted: seq<Register>): Printed {
    var w := Walk(RegEntryStep(prefix), Layout(head, 0), sorted);
    if w.err.Some? then Printed(w.state.lines, w.err.value)
    else
      var v := Walk(RegsSection, w.state.lines + ["  end-registers"], sorted);
      Printed(v.state, if v.err.Some? then v.err.value else Done)
  }

  /** One register of the layout, as the loop body runs it. */
  method PrintEntry(prefix: string, r: Register, lines0: seq<string>, addr0: int) returns (lines: seq<string>, addr: int, stop: Option<Status>)
    ensures Stepped(Layout(lines, addr), stop) == RegEntry(prefix, Layout(lines0, addr0), r)
  {
    lines, addr := lines0, addr0;
    if |r.addressOffset| < 2 {
      return lines, addr, Some(Panicked(SliceBounds));
    }
    var parsed := ParseHex32(r.addressOffset[2..]);
    if !parsed.Parsed? {
      return lines, addr, Some(Failed(UnableToParse(r.addressOffset)));
    }
    var a := parsed.value;
    if a != addr {
      lines := lines + [DropLine(a)];
      addr := a;
    }
    addr := addr + 4;
    lines := lines + [RegLine(prefix, r)];
    stop := None;
  }

  /** The loop over the sorted registers, with the running address `addr` starting at 0. */
  method PrintEntries(prefix: string, regs: seq<Register>, head: seq<string>) returns (lines: seq<string>, stop: Option<Status>)
    ensures Walk(RegEntryStep(prefix), Layout(head, 0), regs).state.lines == lines
    ensures Walk(RegEntryStep(prefix), Layout(head, 0), regs).err == stop
  {
    lines := head;
    var addr := 0;
    for i := 0 to |regs|
      invariant Walk(RegEntryStep(prefix), Layout(head, 0), regs[..i]) == Stepped(Layout(lines, addr), None)
    {
      WalkPrefixStep(RegEntryStep(prefix), Layout(head, 0), regs, i);
      lines, addr, stop := PrintEntry(prefix, regs[i], lines, addr);
      if stop.Some? {
        WalkFailedPrefix(RegEntryStep(prefix), Layout(head, 0), regs[..i + 1], regs[i + 1..]);
        assert regs[..i + 1] + regs[i + 1..] == regs;
        return;
      }
    }
    assert regs[..|regs|] == regs;
    stop := None;
  }

  method PrintRegsField(regName: string, f: Field, start: seq<string>) returns (lines: seq<string>, stop: Option<Status>)
    ensures Stepped(lines, stop) == RegsFieldStep(regName)(start, f)
  {
    var bf := regName + "_" + f.name;
    if f.numBits == 1 {
      return start + [BitWord(f.bitOffset, bf)], None;
    }
    var m := ComputeUnshiftedMask(f.numBits);
    if m.MaskStops? {
      return start, Some(m.status);
    }
    return start + [MaskConst(m.mask, f.bitOffset, bf)], None;
  }

  method PrintRegsFields(regName: string, fields: seq<Field>, start: seq<string>) returns (lines: seq<string>, stop: Option<Status>)
    ensures Stepped(lines, stop) == Walk(RegsFieldStep(regName), start, fields)
  {
    lines := start;
    for i := 0 to |fields|
      invariant Walk(RegsFieldStep(regName), start, fields[..i]) == Stepped(lines, None)
    {
      var before := lines;
      lines, stop := PrintRegsField(regName, fields[i], lines);
      WalkAdvance(RegsFieldStep(regName), start, fields, i, before, Stepped(lines, stop));
      if stop.Some? {
        return;
      }
    }
    assert fields[..|fields|] == fields;
    stop := None;
  }

  /** One register's bit-field section: a blank line, its header, then its fields. */
  method PrintRegsSection(r: Register, start: seq<string>) returns (lines: seq<string>, stop: Option<Status>)
    ensures Stepped(lines, stop) == RegsSection(start, r)
  {
    lines := start + ["", "\\ Bitfields for " + r.name];
    stop := None;
    if r.fields.Some? {
      lines, stop := PrintRegsFields(r.name, r.fields.value, lines);
    }
  }

  method PrintRegsSections(regs: seq<Register>, start: seq<string>) returns (lines: seq<string>, stop: Option<Status>)
    ensures Stepped(lines, stop) == Walk(RegsSection, start, regs)
  {
    lines := start;
    for i := 0 to |regs|
      invariant Walk(RegsSection, start, regs[..i]) == Stepped(lines, None)
    {
      var before := lines;
      lines, stop := PrintRegsSection(regs[i], lines);
      WalkAdvance(RegsSection, start, regs, i, before, Stepped(lines, stop));
      if stop.Some? {
        return;
      }
    }
    assert regs[..|regs|] == regs;
    stop := None;
  }

  method PrintRegsLayout(head: seq<string>, prefix: string, sorted: seq<Register>) returns (out: seq<string>, st: Status)
    ensures Printed(out, st) == RegsLayout(head, prefix, sorted)
  {
    var stop;
    out, stop := PrintEntries(prefix, sorted, head);
    if stop.Some? {
      return out, stop.value;
    }
    out := out + ["  end-registers"];
    out, stop := PrintRegsSections(sorted, out);
    st := if stop.Some? then stop.value else Done;
  }

  /** Everything `GenForthRegs` prints once the peripheral is collected. */
  method PrintRegs(p: Peripheral, regPat: string, addwords: bool) returns (out: seq<string>, st: Status)
    ensures Printed(out, st) == RegsOf(p, regPat, addwords)
  {
    out := Preamble(addwords, LibRegistersCode);
    out := out + [Dollar(p.baseAddress) + " constant " + p.name, "  registers"];
    if |p.name| < 2 {
      return out, Panicked(SliceBounds);
    }
    var prefix := ToLower(p.name)[..2];
    if p.registers.None? {
      return out, Done;
    }
    var regs := Selected(p.registers.value, regPat);
    if |regs| >= 2 && HasShortOffset(regs) {
      return out, Panicked(SliceBounds);
    }
    out, st := PrintRegsLayout(out, prefix, SortBy(regs, OffsetLe));
  }

  /** `GenForthRegs`, with the global `Addwords` as a parameter. */
  method GenerateRegs(db: Db, periph: string, regPat: string, addwords: bool) returns (out: seq<string>, st: Status)
    ensures Printed(out, st) == RegsOutput(db.Snapshot(), periph, regPat, addwords)
  {
    var pr := CollectRegisters(db, periph);
    if pr.Err? {
      return [], CollectFailure(periph, pr.msg);
    }
    out, st := PrintRegs(pr.value, regPat, addwords);
  }

  // ---------------------------------------------------------------------
  // Properties of GenForthRegs

  lemma OffsetLeIsPreorder()
    ensures TotalPreorder(OffsetLe)
  {
  }

  /**
   * The registers are laid out in ascending numeric offset (by the key of
   * `sort.Slice`), and they are the selected registers, each as often as
   * selected.
   */
  lemma RegsOrder(regs: seq<Register>)
    ensures var sorted := SortBy(regs, OffsetLe);
      && (forall i, j :: 0 <= i < j < |sorted| ==> OffsetKey(sorted[i]) <= OffsetKey(sorted[j]))
      && multiset(sorted) == multiset(regs)
  {
    OffsetLeIsPreorder();
    SortBySorted(regs, OffsetLe);
  }

  /** The offset text has a hex value after its first two characters. */
  predicate Parses(r: Register) {
    |r.addressOffset| >= 2 && ParseHex32(r.addressOffset[2..]).Parsed?
  }

  function Offset(r: Register): nat
    requires Parses(r)
  {
    ParseHex32(r.addressOffset[2..]).value
  }

  /** The running address when register `i` is reached: 0, then four past the previous offset. */
  function AddrBefore(rs: seq<Register>, i: nat): nat
    requires i <= |rs|
    requires i == 0 || Parses(rs[i - 1])
  {
    if i == 0 then 0 else Offset(rs[i - 1]) + 4
  }

  /** Register `i` is preceded by a `drop` exactly when its offset is not the running address. */
  predicate Drops(rs: seq<Register>, i: nat)
    requires i < |rs|
    requires Parses(rs[i]) && (i == 0 || Parses(rs[i - 1]))
  {
    Offset(rs[i]) != AddrBefore(rs, i)
  }

  function EntryLines(prefix: string, rs: seq<Register>, i: nat): seq<string>
    requires i < |rs|
    requires Parses(rs[i]) && (i == 0 || Parses(rs[i - 1]))
  {
    (if Drops(rs, i) then [DropLine(Offset(rs[i]))] else []) + [RegLine(prefix, rs[i])]
  }

  /** The layout lines of the first `k` registers. */
  function EntriesUpTo(prefix: string, rs: seq<Register>, k: nat): seq<string>
    requires k <= |rs|
    requires forall j :: 0 <= j < k ==> Parses(rs[j])
  {
    if k == 0 then [] else EntriesUpTo(prefix, rs, k - 1) + EntryLines(prefix, rs, k - 1)
  }

  /**
   * Over registers whose offsets parse, the layout loop prints, for each
   * register in turn, a `drop` to its offset exactly when the offset differs
   * from the running address, and then its `reg` line.
   */
  lemma EntriesWalk(prefix: string, head: seq<string>, rs: seq<Register>, k: nat)
    requires k <= |rs|
    requires forall j :: 0 <= j < k ==> Parses(rs[j])
    ensures Walk(RegEntryStep(prefix), Layout(head, 0), rs[..k])
      == Stepped(Layout(head + EntriesUpTo(prefix, rs, k), AddrBefore(rs, k)), None)
  {
    var st := (i: nat) => LayoutAt(prefix, head, rs, k, i);
    forall i | 0 <= i < k
      ensures RegEntryStep(prefix)(st(i), rs[i]) == Stepped(st(i + 1), None)
    {
      EntryAdvance(prefix, head, rs, i);
    }
    assert st(0) == Layout(head, 0) by {
      assert head + [] == head;
    }
    WalkFollows(RegEntryStep(prefix), st, rs, k);
  }

  /** The layout after the first `i` of `k` parsing registers (unused past `k`). */
  function LayoutAt(prefix: string, head: seq<string>, rs: seq<Register>, k: nat, i: nat): Layout
    requires k <= |rs|
    requires forall j :: 0 <= j < k ==> Parses(rs[j])
  {
    if i <= k then Layout(head + EntriesUpTo(prefix, rs, i), AddrBefore(rs, i)) else Layout(head, 0)
  }

  /** One more register extends the layout lines by its entry. */
  lemma EntryAdvance(prefix: string, head: seq<string>, rs: seq<Register>, i: nat)
    requires i < |rs|
    requires forall j :: 0 <= j <= i ==> Parses(rs[j])
    ensures RegEntryStep(prefix)(Layout(head + EntriesUpTo(prefix, rs, i), AddrBefore(rs, i)), rs[i])
      == Stepped(Layout(head + EntriesUpTo(prefix, rs, i + 1), AddrBefore(rs, i + 1)), None)
  {
    var before := head + EntriesUpTo(prefix, rs, i);
    EntryStep(prefix, before, rs, i);
    assert before + EntryLines(prefix, rs, i) == head + EntriesUpTo(prefix, rs, i + 1);
  }

  /** The step for register `i`, reached at its running address. */
  lemma EntryStep(prefix: string, before: seq<string>, rs: seq<Register>, i: nat)
    requires i < |rs|
    requires Parses(rs[i]) && (i == 0 || Parses(rs[i - 1]))
    ensures RegEntryStep(prefix)(Layout(before, AddrBefore(rs, i)), rs[i])
      == Stepped(Layout(before + EntryLines(prefix, rs, i), Offset(rs[i]) + 4), None)
  {
    var r := rs[i];
    var a := Offset(r);
    assert RegEntryStep(prefix)(Layout(before, AddrBefore(rs, i)), r)
      == RegEntry(prefix, Layout(before, AddrBefore(rs, i)), r);
    if Drops(rs, i) {
      assert (before + [DropLine(a)]) + [RegLine(prefix, r)] == before + EntryLines(prefix, rs, i);
    } else {
      assert [] + [RegLine(prefix, r)] == [RegLine(prefix, r)];
      assert EntryLines(prefix, rs, i) == [RegLine(prefix, r)];
    }
  }

  /**
   * Registers at 0x00, 0x04 and 0x0C: the first two follow on from address
   * 0 and 0x04, so only the third is preceded by a `drop`, to 0x0C.
   */
  lemma DropExample(prefix: string, r0: Register, r1: Register, r2: Register)
    requires r0.addressOffset == "0x00" && r1.addressOffset == "0x04" && r2.addressOffset == "0x0C"
    ensures Parses(r0) && Parses(r1) && Parses(r2)
    ensures var rs := [r0, r1, r2];
      !Drops(rs, 0) && !Drops(rs, 1) && Drops(rs, 2)
      && EntriesUpTo(prefix, rs, 3) == [RegLine(prefix, r0), RegLine(prefix, r1), DropLine(12), RegLine(prefix, r2)]
  {
    assert r0.addressOffset[2..] == "00" && r1.addressOffset[2..] == "04" && r2.addressOffset[2..] == "0C";
    assert ParseHex32("00") == Parsed(0);
    assert ParseHex32("04") == Parsed(4);
    assert ParseHex32("0C") == Parsed(12);
    var rs := [r0, r1, r2];
    assert EntriesUpTo(prefix, rs, 1) == [RegLine(prefix, r0)];
    assert EntriesUpTo(prefix, rs, 2) == [RegLine(prefix, r0), RegLine(prefix, r1)];
    assert EntryLines(prefix, rs, 2) == [DropLine(12), RegLine(prefix, r2)];
  }

  /**
   * The first offset that does not parse stops the layout: the entries
   * before it are printed and the error names the offset text.
   */
  lemma ParseFailureStops(head: seq<string>, prefix: string, rs: seq<Register>, k: nat)
    requires k < |rs|
    requires forall j :: 0 <= j < k ==> Parses(rs[j])
    requires |rs[k].addressOffset| >= 2 && !Parses(rs[k])
    ensures RegsLayout(head, prefix, rs)
      == Printed(head + EntriesUpTo(prefix, rs, k), Failed(UnableToParse(rs[k].addressOffset)))
  {
    var step := RegEntryStep(prefix);
    EntriesWalk(prefix, head, rs, k);
    assert step(Walk(step, Layout(head, 0), rs[..k]).state, rs[k]).err.Some?;
    WalkStopsAt(step, Layout(head, 0), rs, k, rs[k + 1..]);
    assert rs[..k + 1] + rs[k + 1..] == rs;
  }

  /**
   * When every offset parses, the layout prints every entry, then
   * `end-registers`, and only then the field sections.
   */
  lemma EntriesThenSections(head: seq<string>, prefix: string, rs: seq<Register>)
    requires forall j :: 0 <= j < |rs| ==> Parses(rs[j])
    ensures var v := Walk(RegsSection, head + EntriesUpTo(prefix, rs, |rs|) + ["  end-registers"], rs);
      RegsLayout(head, prefix, rs) == Printed(v.state, if v.err.Some? then v.err.value else Done)
  {
    EntriesWalk(prefix, head, rs, |rs|);
    assert rs[..|rs|] == rs;
  }

  /** A sorted single register is that register. */
  lemma SortSingle(r: Register)
    ensures SortBy([r], OffsetLe) == [r]
  {
    var s := SortBy([r], OffsetLe);
    assert s[0] in multiset(s);
  }

  /**
   * An offset shorter than two characters among the selected registers
   * panics right after `registers`: in `sort.Slice` when there are two or
   * more, in the layout loop when it is the only one.
   */
  lemma RegsShortOffset(head: seq<string>, p: Peripheral, regPat: string)
    requires |p.name| >= 2 && p.registers.Some?
    requires HasShortOffset(Selected(p.registers.value, regPat))
    ensures RegsAfter(head, p, regPat) == Printed(head, Panicked(SliceBounds))
  {
    var regs := Selected(p.registers.value, regPat);
    if |regs| == 1 {
      SortSingle(regs[0]);
      assert regs == [regs[0]];
      assert Walk(RegEntryStep(ToLower(p.name)[..2]), Layout(head, 0), regs).err == Some(Panicked(SliceBounds));
    }
  }

  /** When no register is selected the block is empty: `registers` then `end-registers`. */
  lemma RegsNoneSelected(head: seq<string>, p: Peripheral, regPat: string)
    requires |p.name| >= 2 && p.registers.Some?
    requires Selected(p.registers.value, regPat) == []
    ensures RegsAfter(head, p, regPat) == Printed(head + ["  end-registers"], Done)
  {
    assert SortBy([], OffsetLe) == [];
  }

  /** A name shorter than two characters panics right after `registers`. */
  lemma RegsShortName(p: Peripheral, regPat: string, addwords: bool)
    requires |p.name| < 2
    ensures RegsOf(p, regPat, addwords)
      == Printed(Preamble(addwords, LibRegistersCode) + [Dollar(p.baseAddress) + " constant " + p.name, "  registers"], Panicked(SliceBounds))
  {
  }

  /** A single bit is one `bit constant` word; a wider field is one `2constant` of mask and offset. */
  lemma RegsFieldSpec(regName: string, u: seq<string>, f: Field)
    ensures f.numBits == 1
      ==> RegsField(regName, u, f) == Stepped(u + [BitWord(f.bitOffset, regName + "_" + f.name)], None)
    ensures f.numBits >= 0 && f.numBits != 1
      ==> RegsField(regName, u, f) == Stepped(u + [MaskConst(Pow(2, f.numBits) - 1, f.bitOffset, regName + "_" + f.name)], None)
    ensures f.numBits < 0 ==> RegsField(regName, u, f) == Stepped(u, Some(Hangs))
  {
  }

  /**
   * For a field of width at most 32 the `2constant` line carries the mask in
   * exactly eight hexadecimal digits after `$`, and `ParseUint(_, 16, 32)`
   * reads those digits back as 2^n - 1.
   */
  lemma MaskDigitsReadBack(regName: string, u: seq<string>, f: Field)
    requires 0 <= f.numBits <= 32 && f.numBits != 1
    ensures var o := RegsField(regName, u, f);
      && o.err.None? && |o.state| == |u| + 1
      && var line := o.state[|u|];
         |line| >= 12 && line[..3] == "  $" && line[11] == ' '
         && ParseHex32(line[3..11]) == Parsed(Pow(2, f.numBits) - 1)
  {
    RegsFieldSpec(regName, u, f);
    MaskFits(f.numBits);
    MaskConstDigits(Pow(2, f.numBits) - 1, f.bitOffset, regName + "_" + f.name);
  }

  /** 2^n - 1 fits in 32 bits for n <= 32. */
  lemma {:induction false} MaskFits(n: nat)
    requires n <= 32
    ensures 0 <= Pow(2, n) - 1 <= MaxUint32
    decreases 32 - n
  {
    PowPositive(n);
    if n == 32 {
      PowAdd(2, 16, 16);
      PowAdd(2, 8, 8);
      PowAdd(2, 4, 4);
      assert Pow(2, 4) == 16;
    } else {
      MaskFits(n + 1);
    }
  }

  /** The eight digits after `$` in a `2constant` line read back as its 32-bit mask. */
  lemma MaskConstDigits(m: nat, off: int, bf: string)
    requires m <= MaxUint32
    ensures var line := MaskConst(m, off, bf);
      |line| >= 12 && line[..3] == "  $" && line[11] == ' ' && ParseHex32(line[3..11]) == Parsed(m)
  {
    Hex08Width(m);
    Hex08RoundTrip(m);
    var rest := " " + Itoa(off) + " 2constant m_" + bf;
    assert MaskConst(m, off, bf) == "  $" + Hex08(m) + rest;
    assert ("  $" + Hex08(m) + rest)[3..11] == Hex08(m);
  }

  /** The bit `EN` at offset 5 of `CR`. */
  lemma BitWordExample(u: seq<string>, f: Field)
    requires f.name == "EN" && f.numBits == 1 && f.bitOffset == 5
    ensures RegsField("CR", u, f) == Stepped(u + ["  5 bit constant b_CR_EN"], None)
  {
    RegsFieldSpec("CR", u, f);
    assert Itoa(5) == "5";
    assert "CR" + "_" + "EN" == "CR_EN";
    assert BitWord(5, "CR_EN") == "  5 bit constant b_CR_EN";
  }

  function LayoutBehind(pre: seq<string>): Layout -> Layout {
    (l: Layout) => Layout(pre + l.lines, l.addr)
  }

  lemma RegEntryShift(prefix: string, pre: seq<string>, u: Layout, r: Register)
    ensures RegEntryStep(prefix)(LayoutBehind(pre)(u), r)
      == Stepped(LayoutBehind(pre)(RegEntryStep(prefix)(u, r).state), RegEntryStep(prefix)(u, r).err)
  {
    if Parses(r) {
      var a := Offset(r);
      var lines := if a != u.addr then u.lines + [DropLine(a)] else u.lines;
      assert (if a != u.addr then (pre + u.lines) + [DropLine(a)] else pre + u.lines) == pre + lines;
      assert (pre + lines) + [RegLine(prefix, r)] == pre + (lines + [RegLine(prefix, r)]);
    }
  }

  lemma RegsFieldShift(regName: string, pre: seq<string>, v: seq<string>, f: Field)
    ensures RegsFieldStep(regName)(Behind(pre)(v), f)
      == Stepped(Behind(pre)(RegsFieldStep(regName)(v, f).state), RegsFieldStep(regName)(v, f).err)
  {
    RegsFieldSpec(regName, v, f);
    RegsFieldSpec(regName, pre + v, f);
    var bf := regName + "_" + f.name;
    if f.numBits == 1 {
      assert (pre + v) + [BitWord(f.bitOffset, bf)] == pre + (v + [BitWord(f.bitOffset, bf)]);
    } else if f.numBits >= 0 {
      var line := MaskConst(Pow(2, f.numBits) - 1, f.bitOffset, bf);
      assert (pre + v) + [line] == pre + (v + [line]);
    }
  }

  lemma RegsSectionShift(pre: seq<string>, u: seq<string>, r: Register)
    ensures RegsSection(pre + u, r) == Stepped(pre + RegsSection(u, r).state, RegsSection(u, r).err)
  {
    var headed := u + ["", "\\ Bitfields for " + r.name];
    assert (pre + u) + ["", "\\ Bitfields for " + r.name] == Behind(pre)(headed);
    if r.fields.Some? {
      forall v, f ensures RegsFieldStep(r.name)(Behind(pre)(v), f)
        == Stepped(Behind(pre)(RegsFieldStep(r.name)(v, f).state), RegsFieldStep(r.name)(v, f).err)
      {
        RegsFieldShift(r.name, pre, v, f);
      }
      WalkShift(RegsFieldStep(r.name), Behind(pre), headed, r.fields.value);
    }
  }

  /** Lines printed before the layout stay in front of everything it prints. */
  lemma RegsLayoutShift(pre: seq<string>, head: seq<string>, prefix: string, sorted: seq<Register>)
    ensures RegsLayout(pre + head, prefix, sorted)
      == Printed(pre + RegsLayout(head, prefix, sorted).lines, RegsLayout(head, prefix, sorted).status)
  {
    forall u, r ensures RegEntryStep(prefix)(LayoutBehind(pre)(u), r)
      == Stepped(LayoutBehind(pre)(RegEntryStep(prefix)(u, r).state), RegEntryStep(prefix)(u, r).err)
    {
      RegEntryShift(prefix, pre, u, r);
    }
    WalkShift(RegEntryStep(prefix), LayoutBehind(pre), Layout(head, 0), sorted);
    var w := Walk(RegEntryStep(prefix), Layout(head, 0), sorted);
    if w.err.None? {
      forall u, r ensures RegsSection(Behind(pre)(u), r)
        == Stepped(Behind(pre)(RegsSection(u, r).state), RegsSection(u, r).err)
      {
        RegsSectionShift(pre, u, r);
      }
      var start := w.state.lines + ["  end-registers"];
      assert (pre + w.state.lines) + ["  end-registers"] == Behind(pre)(start);
      WalkShift(RegsSection, Behind(pre), start, sorted);
    }
  }

  lemma RegsAfterShift(pre: seq<string>, head: seq<string>, p: Peripheral, regPat: string)
    ensures RegsAfter(pre + head, p, regPat)
      == Printed(pre + RegsAfter(head, p, regPat).lines, RegsAfter(head, p, regPat).status)
  {
    if |p.name| >= 2 && p.registers.Some? {
      var regs := Selected(p.registers.value, regPat);
      RegsLayoutShift(pre, head, ToLower(p.name)[..2], SortBy(regs, OffsetLe));
    }
  }

  /** Asking for the support words puts the register-definition words in front and changes nothing else. */
  lemma RegsPreamble(p: Peripheral, regPat: string)
    ensures RegsOf(p, regPat, true)
      == Printed([LibRegistersCode] + RegsOf(p, regPat, false).lines, RegsOf(p, regPat, false).status)
  {
    var base := [Dollar(p.baseAddress) + " constant " + p.name, "  registers"];
    assert Preamble(true, LibRegistersCode) + base == [LibRegistersCode] + (Preamble(false, LibRegistersCode) + base);
    RegsAfterShift([LibRegistersCode], Preamble(false, LibRegistersCode) + base, p, regPat);
  }
}
