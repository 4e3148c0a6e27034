/**
 * `GenAsm` (internal/gen_asm.go): assembler `.equ` definitions for a
 * peripheral, its registers and their bit fields. A name ending in `_n`
 * stands for a family (`SPI_n` for SPI0, SPI1, ...), whose base addresses
 * are printed one per numbered member.
 */
module GenAsm {
  import opened Common
  import opened Text
  import opened Store
  import opened Query
  import opened Lookup
  import opened Render

  /**
   * `fetch_peripherals_like(pattern)`, which is not part of this model: the
   * peripherals whose name is LIKE the pattern, in an order the model does
   * not fix, or an error.
   */
  type LikeQuery = string -> Result<seq<Peripheral>>

  /** The regular expression `.*[\d]+$`: the name ends in a digit. */
  predicate IsNumbered(p: Peripheral) { EndsInDigit(p.name) }

  function BaseLine(name: string, base: string): string {
    ".equ " + name + "_BASE, " + base
  }

  /** One base line per peripheral, in order. */
  function BaseLines(ps: seq<Peripheral>): (lines: seq<string>)
    ensures |lines| == |ps|
    ensures forall i :: 0 <= i < |ps| ==> lines[i] == BaseLine(ps[i].name, ps[i].baseAddress)
  {
    seq(|ps|, i requires 0 <= i < |ps| => BaseLine(ps[i].name, ps[i].baseAddress))
  }

  // ---------------------------------------------------------------------
  // The `_n` family expansion

  /**
   * The result of the family step: the base lines printed, the name then
   * given to `collect_registers`, and whether a numbered member was found.
   */
  datatype Expansion = Expansion(lines: seq<string>, target: string, multi: bool)
                     | ExpansionFailed(msg: string)

  /** `strings.Replace(s, "_n", "%", 1)` on a name ending in `_n` is one character shorter. */
  lemma FamilyPatternLength(periph: string)
    requires HasSuffix(periph, "_n")
    ensures |ReplaceFirst(periph, "_n", "%")| == |periph| - 1
  {
    assert OccursAt(periph, "_n", |periph| - 2);
  }

  function Expand(periph: string, like: LikeQuery): (e: Expansion)
    ensures e.Expansion? && e.multi ==> e.target == ReplaceFirst(periph, "_n", "%")
  {
    if !HasSuffix(periph, "_n") then Expansion([], periph, false)
    else
      var pattern := ReplaceFirst(periph, "_n", "%");
      var found := like(pattern);
      if found.Err? then ExpansionFailed("Failed to get peripherals like " + pattern + ": " + found.msg)
      else
        var numbered := Filter(found.value, IsNumbered);
        if |numbered| > 0 then Expansion(BaseLines(numbered), pattern, true)
        else
          FamilyPatternLength(periph);
          Expansion([], pattern[..|pattern| - 1], false)
  }

  /** The loop over the family: a base line for each numbered member, in the order returned. */
  method PrintFamilyBases(pl: seq<Peripheral>) returns (lines: seq<string>, multi: bool)
    ensures lines == BaseLines(Filter(pl, IsNumbered))
    ensures multi <==> |Filter(pl, IsNumbered)| > 0
  {
    lines, multi := [], false;
    for i := 0 to |pl|
      invariant lines == BaseLines(Filter(pl[..i], IsNumbered))
      invariant multi <==> |Filter(pl[..i], IsNumbered)| > 0
    {
      ghost var before := Filter(pl[..i], IsNumbered);
      assert pl[..i + 1] == pl[..i] + [pl[i]];
      FilterSnoc(pl[..i], pl[i], IsNumbered);
      if EndsInDigit(pl[i].name) {
        BaseLinesSnoc(before, pl[i]);
        lines := lines + [BaseLine(pl[i].name, pl[i].baseAddress)];
        multi := true;
      }
    }
    assert pl[..|pl|] == pl;
  }

  lemma BaseLinesSnoc(ps: seq<Peripheral>, p: Peripheral)
    ensures BaseLines(ps + [p]) == BaseLines(ps) + [BaseLine(p.name, p.baseAddress)]
  {
  }

  /** Names that do not end in `_n` are not expanded: no query, no lines, the name as given. */
  lemma NoExpansionWithoutSuffix(periph: string, like: LikeQuery)
    requires !HasSuffix(periph, "_n")
    ensures Expand(periph, like) == Expansion([], periph, false)
  {
  }

  /** For `stem_n`, the first `_n` is the final one: the pattern is `stem%`. */
  lemma FamilyPattern(stem: string)
    requires !Contains(stem, "_n")
    ensures ReplaceFirst(stem + "_n", "_n", "%") == stem + "%"
  {
    var s := stem + "_n";
    forall j | 0 <= j < |stem| ensures !OccursAt(s, "_n", j) {
      if j + 1 < |stem| {
        assert !OccursAt(stem, "_n", j);
        assert s[j..j + 2] == stem[j..j + 2];
      } else {
        assert s[j + 1] == '_';
      }
    }
    assert s[|stem|..|stem| + 2] == "_n";
    ReplaceFirstAt(s, "_n", "%", |stem|);
    assert s[..|stem|] == stem;
  }

  /**
   * The family lines are the base lines of exactly the numbered members of
   * the query result, in the order the query returned them, and the family
   * is in effect (`multi`) exactly when there is one.
   */
  lemma FamilyLines(periph: string, like: LikeQuery)
    requires HasSuffix(periph, "_n")
    requires like(ReplaceFirst(periph, "_n", "%")).Ok?
    ensures var pl := like(ReplaceFirst(periph, "_n", "%")).value;
      && Expand(periph, like).Expansion?
      && Expand(periph, like).lines == BaseLines(Filter(pl, IsNumbered))
      && (Expand(periph, like).multi <==> exists i :: 0 <= i < |pl| && EndsInDigit(pl[i].name))
  {
    var pl := like(ReplaceFirst(periph, "_n", "%")).value;
    var numbered := Filter(pl, IsNumbered);
    FilterMembers(pl, IsNumbered);
    if i :| 0 <= i < |pl| && EndsInDigit(pl[i].name) {
      assert pl[i] in numbered;
    }
    if |numbered| > 0 {
      assert numbered[0] in numbered;
    }
  }

  /**
   * With no numbered member, `stem_n` falls back to the single peripheral
   * `stem`: the `%` is dropped again and no base line has been printed yet.
   */
  lemma FamilyFallback(stem: string, like: LikeQuery)
    requires !Contains(stem, "_n")
    requires like(stem + "%").Ok?
    requires forall i :: 0 <= i < |like(stem + "%").value| ==> !EndsInDigit(like(stem + "%").value[i].name)
    ensures Expand(stem + "_n", like) == Expansion([], stem, false)
  {
    FamilyPattern(stem);
    assert HasSuffix(stem + "_n", "_n");
    var pl := like(stem + "%").value;
    FilterNone(pl, IsNumbered);
    assert (stem + "%")[..|stem|] == stem;
  }

  /** TIM1, TIM2 and TIM10 get a base line; TIMER_AUX does not. */
  lemma TimerFamily(p1: Peripheral, p2: Peripheral, p3: Peripheral, p4: Peripheral)
    requires p1.name == "TIM1" && p2.name == "TIM2" && p3.name == "TIM10" && p4.name == "TIMER_AUX"
    ensures Filter([p1, p2, p3, p4], IsNumbered) == [p1, p2, p3]
  {
    var one: seq<Peripheral> := [p1];
    var two := one + [p2];
    var three := two + [p3];
    assert IsNumbered(p1) && IsNumbered(p2) && IsNumbered(p3) && !IsNumbered(p4);
    FilterSnoc([], p1, IsNumbered);
    assert Filter(one, IsNumbered) == one;
    FilterSnoc(one, p2, IsNumbered);
    FilterSnoc(two, p3, IsNumbered);
    FilterSnoc(three, p4, IsNumbered);
    assert three + [p4] == [p1, p2, p3, p4];
  }

  // ---------------------------------------------------------------------
  // Register and field lines

  function EquLine(r: Register): string {
    "  .equ _" + r.name + ", " + r.addressOffset
  }

  function EquLines(regs: seq<Register>): (lines: seq<string>)
    ensures |lines| == |regs|
    ensures forall i :: 0 <= i < |regs| ==> lines[i] == EquLine(regs[i])
  {
    seq(|regs|, i requires 0 <= i < |regs| => EquLine(regs[i]))
  }

  function SectionHeader(r: Register): string {
    "; Bitfields for _" + r.name
  }

  /** The lines of one field: a bit position for a 1-bit field, a shifted mask and an offset otherwise. */
  function PrintedField(regName: string, lines: seq<string>, f: Field): Stepped<seq<string>, Status> {
    var bf := regName + "_" + f.name;
    if f.numBits == 1 then Stepped(lines + ["  .equ b_" + bf + ", 1<<" + Itoa(f.bitOffset)], None)
    else
      match ShiftedMask(f.numBits, f.bitOffset)
      case MaskStops(st) => Stepped(lines, Some(st))
      case MaskOk(m) =>
        Stepped(lines + ["  .equ m_" + bf + ", 0x" + Hex08(m), "  .equ o_" + bf + ", " + Itoa(f.bitOffset)], None)
  }

  /** The field step of register `regName`'s loop. */
  function FieldStep(regName: string): (seq<string>, Field) -> Stepped<seq<string>, Status> {
    (lines: seq<string>, f: Field) => PrintedField(regName, lines, f)
  }

  /** The lines of one register's section: its header, then its fields. */
  function SectionStep(lines: seq<string>, r: Register): Stepped<seq<string>, Status> {
    var headed := lines + [SectionHeader(r)];
    if r.fields.None? then Stepped(headed, None) else Walk(FieldStep(r.name), headed, r.fields.value)
  }

  /** What `GenAsm` prints and returns. */
  function AsmOutput(t: Tables, periph: string, regPat: string, like: LikeQuery): Printed {
    var e := Expand(periph, like);
    if e.ExpansionFailed? then Printed([], Failed(e.msg)) else AsmCollected(t, e, regPat)
  }

  /** After the family step: collect the registers, print the base line unless a family was printed, then the registers. */
  function AsmCollected(t: Tables, e: Expansion, regPat: string): Printed
    requires e.Expansion?
  {
    var c := Collected(t, e.target);
    if c.Err? then Printed(e.lines, CollectFailure(e.target, c.msg))
    else
      var head := if e.multi then e.lines else e.lines + [BaseLine(c.value.name, c.value.baseAddress)];
      AsmRegisters(head, Selected(c.value.registers.value, regPat), e.target)
  }

  /** The register part: nothing at all when no register is selected. */
  function AsmRegisters(head: seq<string>, regs: seq<Register>, target: string): Printed {
    if |regs| == 0 then Printed(head, Done)
    else
      var w := Walk(SectionStep, head + ["; Registers for " + target] + EquLines(regs), regs);
      Printed(w.state, if w.err.Some? then w.err.value else Done)
  }

  // ---------------------------------------------------------------------
  // The generator as Go runs it

  /** The lines of one field, appended to `start`, or where its mask computation stops. */
  method PrintField(regName: string, f: Field, start: seq<string>) returns (lines: seq<string>, stop: Option<Status>)
    ensures Stepped(lines, stop) == PrintedField(regName, start, f)
  {
    var bf := regName + "_" + f.name;
    if f.numBits == 1 {
      return start + ["  .equ b_" + bf + ", 1<<" + Itoa(f.bitOffset)], None;
    }
    var m := ComputeShiftedMask(f.numBits, f.bitOffset);
    if m.MaskStops? {
      return start, Some(m.status);
    }
    return start + ["  .equ m_" + bf + ", 0x" + Hex08(m.mask), "  .equ o_" + bf + ", " + Itoa(f.bitOffset)], None;
  }

  /** The inner loop over one register's fields, stopping where a mask computation does not return. */
  method PrintFields(regName: string, fields: seq<Field>, start: seq<string>) returns (lines: seq<string>, stop: Option<Status>)
    ensures Stepped(lines, stop) == Walk(FieldStep(regName), start, fields)
  {
    lines := start;
    for i := 0 to |fields|
      invariant Walk(FieldStep(regName), start, fields[..i]) == Stepped(lines, None)
    {
      var before := lines;
      lines, stop := PrintField(regName, fields[i], lines);
      WalkAdvance(FieldStep(regName), start, fields, i, before, Stepped(lines, stop));
      if stop.Some? {
        return;
      }
    }
    assert fields[..|fields|] == fields;
    stop := None;
  }

  /** One register's section: its header, then its bit fields. */
  method PrintSection(r: Register, start: seq<string>) returns (lines: seq<string>, stop: Option<Status>)
    ensures Stepped(lines, stop) == SectionStep(start, r)
  {
    lines := start + [SectionHeader(r)];
    stop := None;
    if r.fields.Some? {
      lines, stop := PrintFields(r.name, r.fields.value, lines);
    }
  }

  /** The outer loop: for each register, its header and then its fields. */
  method PrintSections(regs: seq<Register>, start: seq<string>) returns (lines: seq<string>, stop: Option<Status>)
    ensures Stepped(lines, stop) == Walk(SectionStep, start, regs)
  {
    lines := start;
    for i := 0 to |regs|
      invariant Walk(SectionStep, start, regs[..i]) == Stepped(lines, None)
    {
      var before := lines;
      lines, stop := PrintSection(regs[i], lines);
      WalkAdvance(SectionStep, start, regs, i, before, Stepped(lines, stop));
      if stop.Some? {
        return;
      }
    }
    assert regs[..|regs|] == regs;
    stop := None;
  }

  /** The loop printing one `.equ` per register offset. */
  method PrintEqus(regs: seq<Register>, start: seq<string>) returns (lines: seq<string>)
    ensures lines == start + EquLines(regs)
  {
    lines := start;
    for i := 0 to |regs|
      invariant lines == start + EquLines(regs[..i])
    {
      assert EquLines(regs[..i + 1]) == EquLines(regs[..i]) + [EquLine(regs[i])];
      lines := lines + [EquLine(regs[i])];
    }
    assert regs[..|regs|] == regs;
  }

  /** The family step as Go runs it: query, print the numbered members, or fall back to the stem. */
  method ExpandFamily(periph: string, like: LikeQuery) returns (e: Expansion)
    ensures e == Expand(periph, like)
  {
    if !HasSuffix(periph, "_n") {
      return Expansion([], periph, false);
    }
    var pattern := ReplaceFirst(periph, "_n", "%");
    var pl := like(pattern);
    if pl.Err? {
      return ExpansionFailed("Failed to get peripherals like " + pattern + ": " + pl.msg);
    }
    var lines, multi := PrintFamilyBases(pl.value);
    if !multi {
      FamilyPatternLength(periph);
      pattern := pattern[..|pattern| - 1];
    }
    return Expansion(lines, pattern, multi);
  }

  /** The register part as Go runs it. */
  method PrintRegisters(head: seq<string>, regs: seq<Register>, target: string) returns (out: seq<string>, st: Status)
    ensures Printed(out, st) == AsmRegisters(head, regs, target)
  {
    if |regs| == 0 {
      return head, Done;
    }
    out := PrintEqus(regs, head + ["; Registers for " + target]);
    var stop;
    out, stop := PrintSections(regs, out);
    st := if stop.Some? then stop.value else Done;
  }

  /** Everything after the family step, as Go runs it. */
  method PrintCollected(db: Db, e: Expansion, regPat: string) returns (out: seq<string>, st: Status)
    requires e.Expansion?
    ensures Printed(out, st) == AsmCollected(db.Snapshot(), e, regPat)
  {
    var pr := CollectRegisters(db, e.target);
    if pr.Err? {
      return e.lines, CollectFailure(e.target, pr.msg);
    }
    var head := e.lines;
    if !e.multi {
      head := head + [BaseLine(pr.value.name, pr.value.baseAddress)];
    }
    out, st := PrintRegisters(head, Selected(pr.value.registers.value, regPat), e.target);
  }

  /**
   * `GenAsm`: the lines printed and how the call ends, the same as the
   * description `AsmOutput` whose properties are proved below.
   */
  method Generate(db: Db, periph: string, regPat: string, like: LikeQuery) returns (out: seq<string>, st: Status)
    ensures Printed(out, st) == AsmOutput(db.Snapshot(), periph, regPat, like)
  {
    var e := ExpandFamily(periph, like);
    if e.ExpansionFailed? {
      return [], Failed(e.msg);
    }
    out, st := PrintCollected(db, e, regPat);
  }

  // ---------------------------------------------------------------------
  // What the output looks like

  /** A field whose lines are printed: one bit wide, or a mask computation that returns. */
  predicate FieldPrints(f: Field) { f.numBits == 1 || (f.numBits >= 0 && f.bitOffset >= 0) }

  /** The value with bits off .. off+n-1 set, and no others. */
  function BitRange(n: nat, off: nat): nat {
    ShiftedMaskBits(n, off);
    Pow(2, n + off) - Pow(2, off)
  }

  /** The lines printed for field `f` of register `regName`; none when its mask computation does not return. */
  function FieldLines(regName: string, f: Field): seq<string> {
    var bf := regName + "_" + f.name;
    if f.numBits == 1 then ["  .equ b_" + bf + ", 1<<" + Itoa(f.bitOffset)]
    else if f.numBits < 0 || f.bitOffset < 0 then []
    else ["  .equ m_" + bf + ", 0x" + Hex08(BitRange(f.numBits, f.bitOffset)), "  .equ o_" + bf + ", " + Itoa(f.bitOffset)]
  }

  /** How a field that does not print stops the program. */
  function FieldStop(f: Field): Status {
    if f.numBits < 0 then Hangs else Panicked("negative shift amount")
  }

  /**
   * One field: a 1-bit field prints its bit position whatever the offset; a
   * wider one prints the mask of bits off .. off+n-1 and the offset; a
   * negative width hangs in `IntPow` and a negative offset panics the shift.
   */
  lemma FieldStepSpec(regName: string, u: seq<string>, f: Field)
    ensures PrintedField(regName, u, f)
      == if FieldPrints(f) then Stepped(u + FieldLines(regName, f), None) else Stepped(u, Some(FieldStop(f)))
  {
    if f.numBits != 1 && f.numBits >= 0 && f.bitOffset >= 0 {
      ShiftedMaskBits(f.numBits, f.bitOffset);
    }
  }

  /** The lines of one register's fields, in order. */
  function FieldsLines(regName: string, fs: seq<Field>): seq<string> {
    ConcatMap(FieldOut(regName), fs)
  }

  function FieldOut(regName: string): Field -> seq<string> {
    (f: Field) => FieldLines(regName, f)
  }

  /** One register's section: its header, then its fields' lines. */
  function SectionLines(r: Register): seq<string> {
    if r.fields.None? then [SectionHeader(r)] else [SectionHeader(r)] + FieldsLines(r.name, r.fields.value)
  }

  predicate SectionPrints(r: Register) {
    r.fields.Some? ==> forall j :: 0 <= j < |r.fields.value| ==> FieldPrints(r.fields.value[j])
  }

  /** Fields that all print are printed one after the other, and the walk goes on. */
  lemma FieldsWalk(regName: string, start: seq<string>, fs: seq<Field>)
    requires forall j :: 0 <= j < |fs| ==> FieldPrints(fs[j])
    ensures Walk(FieldStep(regName), start, fs) == Stepped(start + FieldsLines(regName, fs), None)
  {
    forall u, i | 0 <= i < |fs| ensures FieldStep(regName)(u, fs[i]) == Stepped(u + FieldOut(regName)(fs[i]), None) {
      FieldStepSpec(regName, u, fs[i]);
    }
    WalkEmits(FieldStep(regName), start, fs, FieldOut(regName));
  }

  /** A section whose fields all print is printed whole; otherwise the section stops the program. */
  lemma SectionStepSpec(u: seq<string>, r: Register)
    ensures SectionPrints(r) ==> SectionStep(u, r) == Stepped(u + SectionLines(r), None)
    ensures !SectionPrints(r) ==> SectionStep(u, r).err.Some?
  {
    var headed := u + [SectionHeader(r)];
    if r.fields.Some? {
      var fs := r.fields.value;
      if SectionPrints(r) {
        FieldsWalk(r.name, headed, fs);
        AppendAssoc(u, [SectionHeader(r)], FieldsLines(r.name, fs));
      } else {
        var j :| 0 <= j < |fs| && !FieldPrints(fs[j]);
        forall v ensures PrintedField(r.name, v, fs[j]).err.Some? {
          FieldStepSpec(r.name, v, fs[j]);
        }
        WalkFails(FieldStep(r.name), headed, fs, j);
      }
    }
  }

  /** A section that does not print stops with a hang or a panic, never with an error value. */
  lemma SectionErrors(u: seq<string>, r: Register)
    ensures SectionStep(u, r).err.Some? ==> Stops(SectionStep(u, r).err.value)
  {
    if r.fields.Some? {
      forall v, f ensures FieldStep(r.name)(v, f).err.Some? ==> Stops(FieldStep(r.name)(v, f).err.value) {
        FieldStepSpec(r.name, v, f);
      }
      WalkErrors(FieldStep(r.name), u + [SectionHeader(r)], r.fields.value, Stops);
    }
  }

  /**
   * The register part when every field prints: the heading, one `.equ` per
   * register offset, then one section per register, in order.
   */
  lemma RegistersLayout(head: seq<string>, regs: seq<Register>, target: string)
    requires |regs| > 0
    requires forall i :: 0 <= i < |regs| ==> SectionPrints(regs[i])
    ensures AsmRegisters(head, regs, target)
      == Printed(head + ["; Registers for " + target] + EquLines(regs) + ConcatMap(SectionLines, regs), Done)
  {
    forall u, i | 0 <= i < |regs| ensures SectionStep(u, regs[i]) == Stepped(u + SectionLines(regs[i]), None) {
      SectionStepSpec(u, regs[i]);
    }
    WalkEmits(SectionStep, head + ["; Registers for " + target] + EquLines(regs), regs, SectionLines);
  }

  /** A field that does not print ends the whole call in a hang or a panic. */
  lemma RegistersStop(head: seq<string>, regs: seq<Register>, target: string, k: nat)
    requires k < |regs| && !SectionPrints(regs[k])
    ensures Stops(AsmRegisters(head, regs, target).status)
  {
    var start := head + ["; Registers for " + target] + EquLines(regs);
    forall u ensures SectionStep(u, regs[k]).err.Some? {
      SectionStepSpec(u, regs[k]);
    }
    WalkFails(SectionStep, start, regs, k);
    forall u, r ensures SectionStep(u, r).err.Some? ==> Stops(SectionStep(u, r).err.value) {
      SectionErrors(u, r);
    }
    WalkErrors(SectionStep, start, regs, Stops);
  }

  /** A 4-bit field at bit 8 of register CR: mask 0x00000F00, offset 8. */
  lemma MaskExample()
    ensures FieldLines("CR", Field("EN", 4, 8, None)) == ["  .equ m_CR_EN, 0x00000F00", "  .equ o_CR_EN, 8"]
  {
    assert Pow(2, 4) == 16;
    PowAdd(2, 4, 8);
    assert BitRange(4, 8) == 0xF00;
    assert Hex08(0xF00) == "00000F00" by {
      assert HexDigits(0xF) == "F";
      assert HexDigits(0xF0) == "F0";
      assert HexDigits(0xF00) == "F00";
      assert Repeat("0", 5) == "00000";
    }
    assert Itoa(8) == "8";
    var bf := "CR" + "_" + "EN";
    assert bf == "CR_EN";
    assert "  .equ m_" + bf + ", 0x" + "00000F00" == "  .equ m_CR_EN, 0x00000F00";
    assert "  .equ o_" + bf + ", " + "8" == "  .equ o_CR_EN, 8";
  }

  /**
   * A plain name: one base line for the peripheral found, then its register
   * part, headed by the name as given.
   */
  lemma AsmSingle(t: Tables, periph: string, regPat: string, like: LikeQuery)
    requires !HasSuffix(periph, "_n")
    requires Collected(t, periph).Ok?
    ensures var c := Collected(t, periph).value;
      AsmOutput(t, periph, regPat, like)
        == AsmRegisters([BaseLine(c.name, c.baseAddress)], Selected(c.registers.value, regPat), periph)
  {
    var c := Collected(t, periph).value;
    NoExpansionWithoutSuffix(periph, like);
    assert [] + [BaseLine(c.name, c.baseAddress)] == [BaseLine(c.name, c.baseAddress)];
  }

  /**
   * A family with numbered members: their base lines replace the single
   * base line, and the registers are those of the first peripheral LIKE the
   * `%` pattern, under a heading naming the pattern.
   */
  lemma AsmFamily(t: Tables, periph: string, regPat: string, like: LikeQuery)
    requires HasSuffix(periph, "_n")
    requires like(ReplaceFirst(periph, "_n", "%")).Ok?
    requires |Filter(like(ReplaceFirst(periph, "_n", "%")).value, IsNumbered)| > 0
    requires Collected(t, ReplaceFirst(periph, "_n", "%")).Ok?
    ensures var pattern := ReplaceFirst(periph, "_n", "%");
      var c := Collected(t, pattern).value;
      AsmOutput(t, periph, regPat, like)
        == AsmRegisters(BaseLines(Filter(like(pattern).value, IsNumbered)), Selected(c.registers.value, regPat), pattern)
  {
  }

  /** When the pattern matches no register name, only the base line(s) are printed. */
  lemma AsmNoneSelected(t: Tables, periph: string, regPat: string, like: LikeQuery)
    requires Expand(periph, like).Expansion?
    requires Collected(t, Expand(periph, like).target).Ok?
    requires var regs := Collected(t, Expand(periph, like).target).value.registers.value;
      regPat != "" && forall i :: 0 <= i < |regs| ==> !Matches(regPat, regs[i])
    ensures var e := Expand(periph, like);
      var c := Collected(t, e.target).value;
      AsmOutput(t, periph, regPat, like)
        == Printed(if e.multi then e.lines else e.lines + [BaseLine(c.name, c.baseAddress)], Done)
  {
    var regs := Collected(t, Expand(periph, like).target).value.registers.value;
    FilterNone(regs, (r: Register) => Matches(regPat, r));
  }

  /**
   * The two error returns: a failed family query prints nothing; a failed
   * collection leaves the family lines already printed.
   */
  lemma AsmErrors(t: Tables, periph: string, regPat: string, like: LikeQuery)
    ensures var pattern := ReplaceFirst(periph, "_n", "%");
      HasSuffix(periph, "_n") && like(pattern).Err? ==>
        AsmOutput(t, periph, regPat, like)
          == Printed([], Failed("Failed to get peripherals like " + pattern + ": " + like(pattern).msg))
    ensures var e := Expand(periph, like);
      e.Expansion? && Collected(t, e.target).Err? ==>
        AsmOutput(t, periph, regPat, like)
          == Printed(e.lines, CollectFailure(e.target, Collected(t, e.target).msg))
  {
  }
}
