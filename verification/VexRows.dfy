/**
  What the opcodes of the VEX table do (libblink/blink/avx.c), row by row: which register is a
  source, which encodings are undefined, how many lanes run, and what the registers hold afterwards.
 */
module VexRows {

  import opened Vex

  const UNARY := Attr(false, false, false, false, false, false, false, false, false, false, false, false, false, false, false)
  const ALIGNED := UNARY.(align := true)
  const FROM_MEMORY := UNARY.(mem := true)
  const ALIGNED_FROM_MEMORY := UNARY.(align := true, mem := true)
  const NARROW := UNARY.(l0 := true)
  const STORE := UNARY.(store := true, align := true)
  const STORE_TO_MEMORY := UNARY.(store := true, align := true, mem := true)
  const STORE_NARROW := UNARY.(store := true, l0 := true)
  const STORE_HALF := UNARY.(store := true, l0 := true, mem := true)
  const ARITH := UNARY.(v := true)
  const ARITH_OR_SCALAR := UNARY.(v := true, scalar := true)
  const ARITH_NARROW := UNARY.(v := true, l0 := true)
  const CONVERT := UNARY.(v := true, lig := true, gpr := true)
  const INSERT := UNARY.(v := true, l0 := true, gpr := true)
  const SHIFT := UNARY.(v := true, count := true)
  const SCALAR := UNARY.(vs := true, scalar := true)
  const MOVE := UNARY.(vs := true, scalar := true, movs := true)
  const MOVE_BACK := UNARY.(vs := true, scalar := true, movs := true, store := true)
  const MOVE_HALF := UNARY.(vn := true, memOsz := true)
  const COMPARE := UNARY.(nodest := true, lig := true)
  const EXTRACT := UNARY.(nodest := true, l0 := true, regOnly := true)

  /** Packed arithmetic (14, 54, 60 and their like; 58 and 5C when not scalar): each lane from vvvv and r/m. */
  method Arithmetic(m: Machine, f: Handler, a: Attr, n: Insn) returns (r: Result)
    requires m.Valid() && !m.active && (a == ARITH || (a == ARITH_OR_SCALAR && !n.rep))
    modifies m, m.xmm, m.ymmh
    ensures
      var x := old(m.Regs());
      var low := f(0, x[n.v].low, if n.regform then x[n.r].low else ZERO);
      var high := f(1, x[n.v].high, if n.regform then x[n.r].high else ZERO);
      && !r.Undefined? && !r.Misaligned?
      && (r.Ok? <==> low.Done? && (n.ymm ==> high.Done? && (!n.regform ==> n.reserved)))
      && m.Regs() == if r.Ok? then x[n.d := Ymm(low.result, if n.ymm then high.result else ZERO)] else x
  {
    r := m.OpVexAs(f, a, n);
  }

  /** Arithmetic of one lane only: the scalar forms of 58 and 5C, 2A whose source is a general register, C4 and 44. */
  method ArithmeticOfOne(m: Machine, f: Handler, a: Attr, n: Insn) returns (r: Result)
    requires m.Valid() && !m.active
    requires (a == ARITH_OR_SCALAR && n.rep) || a == CONVERT || a == INSERT || a == ARITH_NARROW
    modifies m, m.xmm, m.ymmh
    ensures
      var x := old(m.Regs());
      var isVector := n.regform && a != CONVERT && a != INSERT;
      var low := f(0, x[n.v].low, if isVector then x[n.r].low else ZERO);
      && (r.Undefined? <==> n.ymm && (a == INSERT || a == ARITH_NARROW)) && !r.Misaligned?
      && (r.Ok? <==> !r.Undefined? && low.Done?)
      && m.Regs() == if r.Ok? then x[n.d := Ymm(low.result, ZERO)] else x
  {
    r := m.OpVexAs(f, a, n);
  }

  /** A shift by a count in r/m (D1 to D3, F1 to F3): the count's low lane counts for both. */
  method ShiftByCount(m: Machine, f: Handler, n: Insn) returns (r: Result)
    requires m.Valid() && !m.active
    modifies m, m.xmm, m.ymmh
    ensures
      var x := old(m.Regs());
      var count := if n.regform then x[n.r].low else ZERO;
      var low, high := f(0, x[n.v].low, count), f(1, x[n.v].high, count);
      && !r.Undefined? && !r.Misaligned?
      && (r.Ok? <==> low.Done? && (n.ymm ==> high.Done?))
      && m.Regs() == if r.Ok? then x[n.d := Ymm(low.result, if n.ymm then high.result else ZERO)] else x
  {
    r := m.OpVexAs(f, SHIFT, n);
  }

  /** 51 to 53 with F3 or F2, and 10 between registers: one lane whatever VEX.L says, from vvvv and r/m. */
  method ScalarForm(m: Machine, f: Handler, a: Attr, n: Insn) returns (r: Result)
    requires m.Valid() && !m.active && n.rep && (a == SCALAR || (a == MOVE && n.regform))
    modifies m, m.xmm, m.ymmh
    ensures
      var x := old(m.Regs());
      var low := f(0, x[n.v].low, if n.regform then x[n.r].low else ZERO);
      && !r.Undefined? && !r.Misaligned?
      && (r.Ok? <==> low.Done?)
      && m.Regs() == if r.Ok? then x[n.d := Ymm(low.result, ZERO)] else x
  {
    r := m.OpVexAs(f, a, n);
  }

  /** The loads of 10 with F3 or F2: vvvv must be zero, and the destination merges into itself. */
  method ScalarLoad(m: Machine, f: Handler, n: Insn) returns (r: Result)
    requires m.Valid() && !m.active && n.rep && !n.regform
    modifies m, m.xmm, m.ymmh
    ensures
      var x := old(m.Regs());
      var low := f(0, x[n.d].low, ZERO);
      && (r.Undefined? <==> n.v != 0) && !r.Misaligned?
      && (r.Ok? <==> n.v == 0 && low.Done?)
      && m.Regs() == if r.Ok? then x[n.d := Ymm(low.result, ZERO)] else x
  {
    r := m.OpVexAs(f, MOVE, n);
  }

  /**
    Two operands: the packed forms of 10 and 51 to 53, 12 and 16 with F3 or F2, 28, 5B, 6F, 70, F0
    and 6E. vvvv must be zero; an aligned move of no prefix or 66 checks its memory's address.
   */
  method TwoOperands(m: Machine, f: Handler, a: Attr, n: Insn) returns (r: Result)
    requires m.Valid() && !m.active
    requires || ((a == SCALAR || a == MOVE) && !n.rep) || (a == MOVE_HALF && n.rep)
             || a in {UNARY, ALIGNED, FROM_MEMORY, ALIGNED_FROM_MEMORY, NARROW}
    modifies m, m.xmm, m.ymmh
    ensures
      var x := old(m.Regs());
      var low := f(0, x[n.d].low, if n.regform then x[n.r].low else ZERO);
      var high := f(1, x[n.d].high, if n.regform then x[n.r].high else ZERO);
      && (r.Undefined? <==>
            || n.v != 0
            || (n.ymm && a == NARROW)
            || (n.regform && (a == FROM_MEMORY || a == ALIGNED_FROM_MEMORY || (a == MOVE_HALF && n.osz))))
      && (r.Misaligned? <==>
            !r.Undefined? && (a == ALIGNED || a == ALIGNED_FROM_MEMORY) && !n.rep && !n.regform && !n.aligned)
      && (r.Ok? <==> !r.Undefined? && !r.Misaligned? && low.Done? && (n.ymm ==> high.Done? && (!n.regform ==> n.reserved)))
      && m.Regs() == if r.Ok? then x[n.d := Ymm(low.result, if n.ymm then high.result else ZERO)] else x
  {
    r := m.OpVexAs(f, a, n);
  }

  /** 12 and 16 of no prefix or 66: half a lane merges into vvvv; there is no wide form, and with 66 no register one. */
  method MoveHalf(m: Machine, f: Handler, n: Insn) returns (r: Result)
    requires m.Valid() && !m.active && !n.rep
    modifies m, m.xmm, m.ymmh
    ensures
      var x := old(m.Regs());
      var low := f(0, x[n.v].low, if n.regform then x[n.r].low else ZERO);
      && (r.Undefined? <==> n.ymm || (n.regform && n.osz)) && !r.Misaligned?
      && (r.Ok? <==> !r.Undefined? && low.Done?)
      && m.Regs() == if r.Ok? then x[n.d := Ymm(low.result, ZERO)] else x
  {
    r := m.OpVexAs(f, MOVE_HALF, n);
  }

  /** 11 with F3 or F2 between registers: r/m takes the low element of reg, and the rest of vvvv. */
  method ScalarMoveBack(m: Machine, f: Handler, n: Insn) returns (r: Result)
    requires m.Valid() && !m.active && n.rep && n.regform
    modifies m, m.xmm, m.ymmh
    ensures
      var x := old(m.Regs());
      var low := f(0, x[n.v].low, x[n.d].low);
      && !r.Undefined? && !r.Misaligned?
      && (r.Ok? <==> low.Done?)
      && m.Regs() == if r.Ok? then x[n.r := Ymm(low.result, ZERO)] else x
  {
    r := m.OpVexAs(f, MOVE_BACK, n);
  }

  /** The stores to a register: 11, 29, 7F and D6, from reg to r/m. */
  method StoreToRegister(m: Machine, f: Handler, a: Attr, n: Insn) returns (r: Result)
    requires m.Valid() && !m.active && n.regform
    requires (a == MOVE_BACK && !n.rep) || a == STORE || a == STORE_NARROW
    modifies m, m.xmm, m.ymmh
    ensures
      var x := old(m.Regs());
      var low, high := f(0, x[n.r].low, x[n.d].low), f(1, x[n.r].high, x[n.d].high);
      && (r.Undefined? <==> n.v != 0 || (n.ymm && a == STORE_NARROW)) && !r.Misaligned?
      && (r.Ok? <==> !r.Undefined? && low.Done? && (n.ymm ==> high.Done?))
      && m.Regs() == if r.Ok? then x[n.r := Ymm(low.result, if n.ymm then high.result else ZERO)] else x
  {
    r := m.OpVexAs(f, a, n);
  }

  /**
    The stores to memory: 11, 13, 17, 29, 2B, 7F, D6 and E7. What goes out is reg, lane by lane,
    and no register changes.
   */
  method StoreToMemory(m: Machine, f: Handler, a: Attr, n: Insn) returns (r: Result)
    requires m.Valid() && !m.active && !n.regform
    requires a in {MOVE_BACK, STORE, STORE_TO_MEMORY, STORE_NARROW, STORE_HALF}
    modifies m, m.xmm, m.ymmh
    ensures
      var x := old(m.Regs());
      var wide := n.ymm && !(a == MOVE_BACK && n.rep);
      var low, high := f(0, ZERO, x[n.d].low), f(1, ZERO, x[n.d].high);
      && (r.Undefined? <==> n.v != 0 || (n.ymm && (a == STORE_NARROW || a == STORE_HALF)))
      && (r.Misaligned? <==> !r.Undefined? && (a == STORE || a == STORE_TO_MEMORY) && !n.rep && !n.aligned)
      && (r.Ok? <==> !r.Undefined? && !r.Misaligned? && low.Done? && (wide ==> high.Done? && n.reserved))
      && (r.Ok? ==> r.outs == if wide then [low.result, high.result] else [low.result])
      && m.Regs() == x
  {
    r := m.OpVexAs(f, a, n);
  }

  /** 13, 17, 2B and E7 have no register form, and F0 and 2A of the second map none either. */
  method OnlyMemory(m: Machine, f: Handler, a: Attr, n: Insn) returns (r: Result)
    requires m.Valid() && !m.active && n.regform
    requires a in {STORE_TO_MEMORY, STORE_HALF, FROM_MEMORY, ALIGNED_FROM_MEMORY}
    modifies m, m.xmm, m.ymmh
    ensures r.Undefined? && m.Regs() == old(m.Regs())
  {
    r := m.OpVexAs(f, a, n);
  }

  /** Comparisons and moves to general registers (2C to 2F, C5, F7): reg and r/m are only read. */
  method ToGeneral(m: Machine, f: Handler, a: Attr, n: Insn) returns (r: Result)
    requires m.Valid() && !m.active && (a == COMPARE || a == EXTRACT)
    modifies m, m.xmm, m.ymmh
    ensures
      var x := old(m.Regs());
      var low := f(0, x[n.d].low, if n.regform then x[n.r].low else ZERO);
      && (r.Undefined? <==> n.v != 0 || (a == EXTRACT && (n.ymm || !n.regform))) && !r.Misaligned?
      && (r.Ok? <==> !r.Undefined? && low.Done?)
      && (r.Ok? ==> r.outs == [low.result])
      && m.Regs() == x
  {
    r := m.OpVexAs(f, a, n);
  }
}
