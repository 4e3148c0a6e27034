/**
 * What the three printers (internal/gen_asm.go, internal/gen_forth.go,
 * internal/display.go) share: the register filter, the field masks
 * computed with `IntPow`, and the lines printed as a walk that stops at a
 * panic or a loop that never ends.
 */
module Render {
  import opened Common
  import opened Text
  import opened Query
  import opened Lookup

  /** The error every printer returns when `collect_registers` fails for the peripheral `periph`. */
  function CollectFailure(periph: string, msg: string): Status {
    Failed("Failed to collect registers for peripheral " + periph + ": " + msg)
  }

  // ---------------------------------------------------------------------
  // The register filter

  /** The `slices.DeleteFunc` test, negated: the lower-cased name contains the lower-cased pattern. */
  predicate Matches(regPat: string, r: Register) {
    Contains(ToLower(r.name), ToLower(regPat))
  }

  /**
   * `if reg_pat != "" { regs = slices.DeleteFunc(regs, ...) }`: the registers
   * whose name contains the pattern, ignoring case, in their original order.
   */
  function Selected(regs: seq<Register>, regPat: string): (kept: seq<Register>)
    ensures forall r :: r in kept <==> r in regs && (regPat == "" || Matches(regPat, r))
    ensures regPat == "" ==> kept == regs
  {
    if regPat == "" then regs
    else
      FilterMembers(regs, (r: Register) => Matches(regPat, r));
      Filter(regs, (r: Register) => Matches(regPat, r))
  }

  /** The filter looks at lower-cased text only: the case of the pattern does not matter. */
  lemma SelectedIgnoresCase(regs: seq<Register>, regPat: string)
    requires regPat != ""
    ensures Selected(regs, regPat) == Selected(regs, ToLower(regPat))
  {
    assert ToLower(ToLower(regPat)) == ToLower(regPat);
    assert ToLower(regPat) != "";
    FilterCongruent(regs, (r: Register) => Matches(regPat, r), (r: Register) => Matches(ToLower(regPat), r));
  }

  // ---------------------------------------------------------------------
  // Masks

  /** `IntPow(2, n) - 1`: the value of an n-bit field with every bit set. */
  function Ones(n: nat): nat {
    PowPositive(n);
    Pow(2, n) - 1
  }

  /** Where a mask computation ends: a value, or a stop (a hang or a panic). */
  datatype MaskValue = MaskOk(mask: nat) | MaskStops(status: Status)

  /** The ways a mask computation can keep the program from returning. */
  predicate Stops(st: Status) { st.Hangs? || st.Panicked? }

  /** `IntPow(2, n) - 1`, which never returns for a negative `n`. */
  function UnshiftedMask(n: int): (m: MaskValue)
    ensures n >= 0 <==> m.MaskOk?
  {
    if n < 0 then MaskStops(Hangs) else MaskOk(Ones(n))
  }

  /** `(IntPow(2, n) - 1) << off`; Go panics on a negative shift count. */
  function ShiftedMask(n: int, off: int): (m: MaskValue)
    ensures n >= 0 && off >= 0 <==> m.MaskOk?
  {
    if n < 0 then MaskStops(Hangs)
    else if off < 0 then MaskStops(Panicked("negative shift amount"))
    else PowPositive(off); MaskOk(Ones(n) * Pow(2, off))
  }

  /** The mask computation as Go runs it: the power by `IntPow`'s loop, then the shift. */
  method ComputeShiftedMask(n: int, off: int) returns (m: MaskValue)
    ensures m == ShiftedMask(n, off)
  {
    if n < 0 {
      return MaskStops(Hangs);
    }
    var p := IntPow(2, n);
    if off < 0 {
      return MaskStops(Panicked("negative shift amount"));
    }
    PowPositive(n);
    PowPositive(off);
    return MaskOk((p - 1) * Pow(2, off));
  }

  /** `IntPow(2, n) - 1` as Go runs it. */
  method ComputeUnshiftedMask(n: int) returns (m: MaskValue)
    ensures m == UnshiftedMask(n)
  {
    if n < 0 {
      return MaskStops(Hangs);
    }
    var p := IntPow(2, n);
    PowPositive(n);
    return MaskOk(p - 1);
  }

  /**
   * The shifted mask of an n-bit field at offset `off` sets exactly bits
   * off .. off+n-1: it is all ones below bit n+off minus all ones below bit
   * off, and adding 2^off to it carries into bit n+off.
   */
  lemma ShiftedMaskBits(n: nat, off: nat)
    ensures ShiftedMask(n, off).MaskOk?
    ensures ShiftedMask(n, off).mask == Ones(n + off) - Ones(off)
    ensures ShiftedMask(n, off).mask + Pow(2, off) == Pow(2, n + off)
  {
    PowAdd(2, n, off);
    PowPositive(off);
  }
}
