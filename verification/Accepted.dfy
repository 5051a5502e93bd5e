/** Which instruction words the decoder accepts, class by class, in each contract. */
module Accepted {
  import opened Words
  import opened Decode
  import opened Fields

  /** May a store stand here: with consent to write, and last in its block. */
  predicate StoreHere(last: bool, mode: Mode) { mode == MemoryHits && last }

  // ------------------------------------------------------------ Thumb

  /** The Thumb instructions of each kind that have a translation: branches last in a block; all arithmetic, but none that writes
      the PC; loads and final stores behind the caches; and under the flat contract SP-relative words. */
  predicate ThumbTaken(insn: Word, last: bool, mode: Mode) {
    var top4, top5, top6, top8 := Field(insn, 12, 4), Field(insn, 11, 5), Field(insn, 10, 6), Field(insn, 8, 8);
    var toPc := Field(insn, 0, 3) == 7 && Bit(insn, 7);
    match top4
    case 0 => true
    case 1 => true
    case 2 => true
    case 3 => true
    case 4 =>
      if top6 == 0x10 then true
      else if top8 == 0x47 then last && !(Bit(insn, 7) && Field(insn, 3, 4) == 15)
      else if top6 == 0x11 then top8 == 0x45 || !toPc
      else mode != Flat
    case 5 => mode != Flat && (Field(insn, 9, 3) > 2 || StoreHere(last, mode))
    case 6 => mode != Flat && (Bit(insn, 11) || StoreHere(last, mode))
    case 7 => mode != Flat && (Bit(insn, 11) || StoreHere(last, mode))
    case 8 => mode != Flat && (Bit(insn, 11) || StoreHere(last, mode))
    case 9 => mode == Flat || Bit(insn, 11) || StoreHere(last, mode)
    case 10 => true
    case 11 => top8 == 0xb0
    case 13 => Field(insn, 8, 4) < 14 && last
    case 14 => top5 == 0x1c && last
    case _ => false
  }

  lemma ThumbAccepted(insn: Word, i: nat, insns: nat, pc: Word, mode: Mode)
    requires insn < 0x1_0000
    ensures DecodeThumb(insn, i, insns, pc, mode).Some? <==> ThumbTaken(insn, i + 1 == insns, mode)
  {
    TopFields(insn);
    HighRegister(insn);
    hide Field, Bit, Wrap, Signed, ThumbAlu, ThumbAccessImm, ThumbAccessReg, ThumbShift, ThumbDpReg;
  }

  lemma TopFields(insn: Word)
    requires insn < 0x1_0000
    ensures var t := Field(insn, 8, 8);
            && Field(insn, 13, 3) == t / 32 && Field(insn, 12, 4) == t / 16 && Field(insn, 11, 5) == t / 8 && Field(insn, 10, 6) == t / 4
            && Field(insn, 8, 4) == t % 16 && Field(insn, 8, 2) == t % 4 && Field(insn, 9, 3) == t / 2 % 8
            && (Bit(insn, 11) <==> t / 8 % 2 == 1) && (Bit(insn, 12) <==> t / 16 % 2 == 1)
  {
    hide Field, Pow2;
    ThumbFields(insn);
    Pow2Small();
    SubField(insn, 8, 8, 0, 2);
    SubField(insn, 8, 8, 3, 1);
    SubField(insn, 8, 8, 4, 1);
  }

  lemma HighRegister(insn: Word)
    ensures Field(insn, 0, 3) + 8 * Field(insn, 7, 1) == 15 <==> Field(insn, 0, 3) == 7 && Bit(insn, 7)
  {
  }

  // ------------------------------------------------------------ ARM

  /** Data processing: every opcode, with an immediate, a register shifted by an immediate or a register shifted by a register.
      Only a result written to the PC, a compare that sets no flags, and the PC beside a register shift are left out. */
  predicate DataTaken(insn: Word) {
    var opcode, rd := Field(insn, 21, 4), Field(insn, 12, 4);
    var compare := 8 <= opcode <= 11;
    var byRegister := !Bit(insn, 25) && Bit(insn, 4);
    && (if compare then Bit(insn, 20) else rd != 15)
    && (byRegister ==> !Bit(insn, 7) && rd != 15 && Field(insn, 16, 4) != 15 && Field(insn, 0, 4) != 15 && Field(insn, 8, 4) != 15)
  }

  lemma OpcodeBits(insn: Word)
    ensures Field(insn, 21, 4) / 8 == Field(insn, 24, 1) && Field(insn, 21, 4) / 4 % 2 == Field(insn, 23, 1)
    ensures Field(insn, 26, 2) == 0 ==> (Field(insn, 25, 3) == 0 <==> !Bit(insn, 25))
  {
    hide Field, Pow2;
    Pow2Small();
    SubField(insn, 21, 4, 3, 1);
    SubField(insn, 21, 4, 2, 1);
    SubField(insn, 25, 3, 1, 2);
    SubField(insn, 25, 3, 0, 1);
  }

  lemma DataAccepted(insn: Word, i: nat, pc: Word)
    requires Field(insn, 26, 2) == 0
    ensures IsArmDp(insn) && DecodeArmDp(insn, i, pc).Some? <==> DataTaken(insn)
  {
    OpcodeBits(insn);
    CompactPlain(insn);
    hide Field, Wrap, Rotated;
  }

  /** A plain register operand is not shifted by a register. */
  lemma CompactPlain(insn: Word)
    ensures Field(insn, 4, 8) == 0 ==> !Bit(insn, 4)
  {
    hide Field, Pow2;
    Pow2Small();
    SubField(insn, 4, 8, 0, 1);
  }

  /** Single loads and stores: behind the caches every addressing mode of a final store and offset loads that leave base and PC
      alone, with an immediate or a shifted register offset; under the flat contract words of the low registers at an immediate
      offset. */
  predicate SingleTaken(insn: Word, last: bool, mode: Mode) {
    var load, byte, pre, back := Bit(insn, 20), Bit(insn, 22), Bit(insn, 24), Bit(insn, 21);
    var rd, rn := Field(insn, 12, 4), Field(insn, 16, 4);
    if mode == Flat then !Bit(insn, 25) && pre && !byte && !back && rd < 8 && rn < 8
    else
      && (if load then pre && !back && rd != 15
          else StoreHere(last, mode) && ((pre && !back) || (rn != 15 && rn != rd)) && !(byte && rd == 15))
      && (Bit(insn, 25) ==> !Bit(insn, 4) && Field(insn, 0, 4) != 15)
  }

  lemma SingleAccepted(insn: Word, i: nat, insns: nat, pc: Word, mode: Mode)
    ensures DecodeArmSingleTransfer(insn, i, insns, pc, mode).Some? <==> SingleTaken(insn, i + 1 == insns, mode)
  {
    hide Field, Bit, Wrap;
  }

  /** Block transfers, behind the caches: any nonempty list and mode with a base that is neither the PC nor, when written back,
      in the list; loads without the PC anywhere, stores last. */
  predicate BlockTaken(insn: Word, last: bool, mode: Mode) {
    var load, rn := Bit(insn, 20), Field(insn, 16, 4);
    && mode != Flat && !Bit(insn, 22) && rn != 15
    && (exists r: nat :: r < 16 && Bit(insn, r))
    && (Bit(insn, 21) ==> !Bit(insn, rn))
    && (if load then !Bit(insn, 15) else StoreHere(last, mode))
  }

  lemma {:induction false} SomeRegister(insn: Word, n: nat)
    ensures Regs(insn, n) != [] <==> exists r: nat :: r < n && Bit(insn, r)
  {
    hide Bit;
    if n > 0 {
      SomeRegister(insn, n - 1);
    }
  }

  lemma BlockAccepted(insn: Word, i: nat, insns: nat, mode: Mode)
    ensures DecodeArmBlockTransfer(insn, i, insns, mode).Some? <==> BlockTaken(insn, i + 1 == insns, mode)
  {
    SomeRegister(insn, 16);
    hide Bit, Field, Regs, Commits;
  }

  /** VFP moves between core and VFP registers: single registers, halves of a double, and the system registers there are. */
  predicate CoreMoveTaken(insn: Word) {
    var opc1, load, vn, rt := Field(insn, 21, 3), Bit(insn, 20), Field(insn, 16, 4), Field(insn, 12, 4);
    && Field(insn, 0, 4) == 0 && Field(insn, 5, 2) == 0
    && (if !Bit(insn, 8) then opc1 == 0 || (opc1 == 7 && !Bit(insn, 7)) else opc1 <= 1 && !Bit(insn, 7))
    && (if opc1 == 7 then (if load then vn == 1 || (rt != 15 && (vn == 0 || vn == 8)) else rt != 15 && (vn == 1 || vn == 8)) else rt != 15)
  }

  /** Two-register moves, into a pair that exists. */
  predicate PairMoveTaken(insn: Word) {
    && Field(insn, 6, 2) == 0 && Field(insn, 12, 4) != 15 && Field(insn, 16, 4) != 15
    && (if Bit(insn, 8) then Field(insn, 5, 1) == 0 else !(Field(insn, 0, 4) == 15 && Field(insn, 5, 1) == 1))
  }

  /** VLDR, VSTR, and VSTM of a run of registers that exists. */
  predicate TransferTaken(insn: Word, writes: bool) {
    var pre, up, back, load, dbl := Bit(insn, 24), Bit(insn, 23), Bit(insn, 21), Bit(insn, 20), Bit(insn, 8);
    var first, n := 2 * Field(insn, 12, 4) + Field(insn, 22, 1), Field(insn, 0, 8);
    && (dbl ==> Field(insn, 22, 1) == 0)
    && if pre && !back then load || writes
       else !load && writes && Field(insn, 16, 4) != 15 && pre != up && n != 0 && (dbl ==> n % 2 == 0) && first + n <= 32
  }

  /** All arithmetic but square root and conversions, and of the rest moves, signs, comparisons and widening. */
  predicate ComputeTaken(insn: Word) {
    var family, opc2, top, dbl := Field(insn, 23, 1) * 4 + Field(insn, 21, 1) * 2 + Field(insn, 20, 1), Field(insn, 16, 4), Bit(insn, 7), Bit(insn, 8);
    var d, n, m := Field(insn, 22, 1), Field(insn, 7, 1), Field(insn, 5, 1);
    if family != 7 then (family < 4 || (family == 4 && !Bit(insn, 6))) && (dbl ==> d == 0 && n == 0 && m == 0)
    else
      && Bit(insn, 6)
      && (opc2 == 0 || (opc2 == 1 && !top) || opc2 == 4 || (opc2 == 5 && Field(insn, 0, 4) == 0 && m == 0) || (opc2 == 7 && top && !dbl && d == 0))
      && (dbl ==> d == 0 && m == 0)
  }

  predicate VfpTaken(insn: Word, writes: bool) {
    && Field(insn, 9, 3) == 5
    && if Field(insn, 24, 4) == 14 then (if Bit(insn, 4) then CoreMoveTaken(insn) else ComputeTaken(insn))
       else if Field(insn, 21, 7) == 0x62 then PairMoveTaken(insn)
       else Field(insn, 25, 3) == 6 && TransferTaken(insn, writes)
  }

  lemma CoreMoveAccepted(insn: Word)
    ensures DecodeVfpCoreMove(insn).Some? <==> CoreMoveTaken(insn)
  {
    hide Field, Bit;
  }

  lemma PairMoveAccepted(insn: Word)
    ensures DecodeVfpPairMove(insn).Some? <==> PairMoveTaken(insn)
  {
    hide Field, Bit;
  }

  lemma TransferAccepted(insn: Word, pcv: Word, writes: bool)
    ensures DecodeVfpTransfer(insn, pcv, writes).Some? <==> TransferTaken(insn, writes)
  {
    hide Field, Bit, Wrap;
  }

  lemma ComputeAccepted(insn: Word)
    ensures DecodeVfpData(insn).Some? <==> ComputeTaken(insn)
  {
    hide Field, Bit;
  }

  lemma VfpAccepted(insn: Word, pcv: Word, writes: bool)
    ensures DecodeVfp(insn, pcv, writes).Some? <==> VfpTaken(insn, writes)
  {
    CoreMoveAccepted(insn);
    PairMoveAccepted(insn);
    TransferAccepted(insn, pcv, writes);
    ComputeAccepted(insn);
    VfpClasses(insn);
    hide Field, Bit, DecodeVfpCoreMove, DecodeVfpPairMove, DecodeVfpTransfer, DecodeVfpData;
    hide CoreMoveTaken, PairMoveTaken, TransferTaken, ComputeTaken;
  }

  /** Two-register moves share the transfers' coprocessor space. */
  lemma VfpClasses(insn: Word)
    ensures Field(insn, 24, 4) == 14 ==> Field(insn, 21, 7) != 0x62 && Field(insn, 25, 3) != 6
  {
    hide Field, Pow2;
    Pow2Small();
    SubField(insn, 21, 7, 3, 4);
    SubField(insn, 24, 4, 1, 3);
  }

  /** An ARM word is translated exactly if it is conditional and: a branch that ends its block; a VFP instruction, behind the
      caches; or a transfer or data-processing instruction of the kinds above. */
  predicate ArmTaken(insn: Word, last: bool, mode: Mode) {
    && Field(insn, 28, 4) != 15
    && if Field(insn, 25, 3) == 5 then last
       else if IsArmBx(insn) then last && !(Bit(insn, 5) && Field(insn, 0, 4) == 15)
       else if mode != Flat && VfpTaken(insn, mode == MemoryHits) then true
       else if Field(insn, 25, 3) == 4 then BlockTaken(insn, last, mode)
       else if Field(insn, 26, 2) == 1 then SingleTaken(insn, last, mode)
       else Field(insn, 26, 2) == 0 && DataTaken(insn)
  }

  lemma ArmAccepted(insn: Word, i: nat, insns: nat, pc: Word, mode: Mode)
    ensures DecodeArm(insn, i, insns, pc, mode).Some? <==> ArmTaken(insn, i + 1 == insns, mode)
  {
    hide Field, Bit, Wrap, VfpTaken, BlockTaken, SingleTaken, DataTaken, IsArmBx, IsArmDp, DecodeVfp, DecodeArmBlockTransfer;
    hide DecodeArmSingleTransfer, DecodeArmDp, Guarded;
    VfpAccepted(insn, Wrap(pc + i * 4 + 8), mode == MemoryHits);
    BlockAccepted(insn, i, insns, mode);
    SingleAccepted(insn, i, insns, pc, mode);
    DpClass(insn);
    if Field(insn, 26, 2) == 0 {
      DataAccepted(insn, i, pc);
    }
  }

  lemma DpClass(insn: Word)
    ensures IsArmDp(insn) ==> Field(insn, 26, 2) == 0
  {
    hide Field;
  }
}
