/**
  AVX on top of the legacy SSE handlers (libblink/blink/avx.c).

  A three-operand, 256-bit VEX instruction is run by calling a two-operand, 128-bit handler once
  per lane. The handler itself is not part of this model: it is any function of the pass and of
  the two lanes it is handed, and it may fault. What it reads from memory, from a general register
  or from its immediate is fixed for a given pass, so that is inside the function.
 */
module Vex {

  /** Half a lane: eight bytes. */
  type Half = h: nat | h < 0x1_0000_0000_0000_0000

  /** A 128-bit lane. */
  datatype Lane = Lane(lo: Half, hi: Half)

  /** A whole vector register: the xmm half and the ymmh half. */
  datatype Ymm = Ymm(low: Lane, high: Lane) {
    function At(h: nat): Lane {
      if h == 0 then low else high
    }
  }

  const ZERO := Lane(0, 0)

  /** A handler's end: what it put in its destination, there also when it faulted half way. */
  datatype Outcome = Done(result: Lane) | Fault(partial: Lane)

  /** Pass, destination operand as the handler finds it, operand it only reads. */
  type Handler = (nat, Lane, Lane) -> Outcome

  /** A handler that reads one operand only. */
  type Converter = (nat, Lane) -> Outcome

  /** The handler faults, if it does, before it writes: its destination still holds `lane`. */
  ghost predicate ReadsFirst(g: Converter, lane: Lane) {
    forall source :: g(0, source).Fault? ==> g(0, source).partial == lane
  }

  type Reg = i: nat | i < 16

  /** The properties of a VEX opcode that decide how it is run. */
  datatype Attr = Attr(
    v: bool, vs: bool, vn: bool, l0: bool, lig: bool, nodest: bool, store: bool, align: bool,
    count: bool, mem: bool, memOsz: bool, regOnly: bool, scalar: bool, movs: bool, gpr: bool)
  {
    /**
      A general register r/m operand only goes with opcodes that load it (2A and C4), and an
      opcode without a vector destination stores nothing to its r/m operand.
     */
    predicate WellFormed() {
      && (gpr ==> !count && !store)
      && !(nodest && store)
    }
  }

  /**
    A decoded instruction: VEX.L, whether it has an F3 or F2 prefix, whether it has a 66 prefix,
    its three register fields, whether r/m is a register, whether a memory operand is aligned as
    the aligned moves want it, and whether its 32 bytes can all be accessed.
   */
  datatype Insn = Insn(ymm: bool, rep: bool, osz: bool, d: Reg, v: Reg, r: Reg, regform: bool,
                       aligned: bool, reserved: bool)

  /**
    How an instruction ends. `outs` is what went to memory or to the general registers, one lane a
    pass; a fault in the second pass comes after the first pass's went out.
   */
  datatype Result = Undefined | Misaligned | Faulted(outs: seq<Lane>) | Ok(outs: seq<Lane>)

  // ---------------------------------------------------------------------------------------------
  // What an instruction means
  // ---------------------------------------------------------------------------------------------

  function Lanes(a: Attr, n: Insn): (lanes: nat)
    ensures lanes == 1 || lanes == 2
  {
    if n.ymm && !a.lig && !(a.scalar && n.rep) then 2 else 1
  }

  predicate NamesVvvv(a: Attr, n: Insn) {
    && (a.v || (a.vs && n.rep) || (a.vn && !n.rep))
    && !(a.movs && !n.regform)
  }

  /** The encodings that raise #UD. */
  predicate IsUndefined(a: Attr, n: Insn) {
    || (Lanes(a, n) == 2 && a.l0)
    || (Lanes(a, n) == 2 && a.vn && !n.rep)
    || (!n.regform && a.regOnly)
    || (n.regform && (a.mem || (a.memOsz && n.osz)))
    || (!NamesVvvv(a, n) && n.v != 0)
  }

  /** Whether both lanes' memory is checked before the first lane is run. */
  predicate Whole(a: Attr, n: Insn) {
    Lanes(a, n) == 2 && !n.regform && !a.count
  }

  predicate HasDestination(a: Attr, n: Insn) {
    !a.nodest && (a.store ==> n.regform)
  }

  function Destination(a: Attr, n: Insn): Reg {
    if a.store then n.r else n.d
  }

  /**
    Whether the operand the handler only reads is copied to a scratch register: a shared count is,
    and so is an operand that is also the destination when the first source is about to be copied
    over it.
   */
  predicate NeedsScratch(a: Attr, n: Insn) {
    && n.regform
    && (a.count ||
        (&& NamesVvvv(a, n) && HasDestination(a, n)
         && (if a.store then n.d else n.r) == Destination(a, n) && n.v != Destination(a, n)
         && !a.gpr))
  }

  /** The first source of lane `h`: vvvv when it is named, or what the destination held. */
  function FirstSource(regs: seq<Ymm>, a: Attr, n: Insn, h: nat): Lane
    requires |regs| == 16
  {
    if HasDestination(a, n) then
      if NamesVvvv(a, n) then regs[n.v].At(h) else regs[Destination(a, n)].At(h)
    else if a.nodest then regs[n.d].At(h)
    else ZERO
  }

  /** The second source of lane `h`; a count in a register is its low lane for both. */
  function SecondSource(regs: seq<Ymm>, a: Attr, n: Insn, h: nat): Lane
    requires |regs| == 16
  {
    var pass := if a.count && n.regform then 0 else h;
    if a.store then regs[n.d].At(pass)
    else if n.regform && !a.gpr then regs[n.r].At(pass)
    else ZERO
  }

  function LaneOutcome(f: Handler, regs: seq<Ymm>, a: Attr, n: Insn, h: nat): Outcome
    requires |regs| == 16
  {
    f(h, FirstSource(regs, a, n, h), SecondSource(regs, a, n, h))
  }

  /** Whether no lane faults. */
  predicate AllDone(f: Handler, regs: seq<Ymm>, a: Attr, n: Insn)
    requires |regs| == 16
  {
    && LaneOutcome(f, regs, a, n, 0).Done?
    && (Lanes(a, n) == 2 ==> LaneOutcome(f, regs, a, n, 1).Done?)
  }

  /** The register file after an instruction none of whose lanes faulted. */
  function Executed(f: Handler, regs: seq<Ymm>, a: Attr, n: Insn): (after: seq<Ymm>)
    requires |regs| == 16
    requires AllDone(f, regs, a, n)
    ensures |after| == 16
  {
    if !HasDestination(a, n) then regs
    else
      var low := LaneOutcome(f, regs, a, n, 0).result;
      var high := if Lanes(a, n) == 2 then LaneOutcome(f, regs, a, n, 1).result else ZERO;
      regs[Destination(a, n) := Ymm(low, high)]
  }

  /** What an instruction without a vector destination hands to memory or the general registers. */
  function External(f: Handler, regs: seq<Ymm>, a: Attr, n: Insn): (outs: seq<Lane>)
    requires |regs| == 16
    requires AllDone(f, regs, a, n)
  {
    if HasDestination(a, n) then []
    else
      [LaneOutcome(f, regs, a, n, 0).result]
      + if Lanes(a, n) == 2 then [LaneOutcome(f, regs, a, n, 1).result] else []
  }

  /** What had left when a lane faulted. */
  function Escaped(f: Handler, regs: seq<Ymm>, a: Attr, n: Insn): seq<Lane>
    requires |regs| == 16
  {
    var low := LaneOutcome(f, regs, a, n, 0);
    if HasDestination(a, n) || low.Fault? then [] else [low.result]
  }

  /** A store faults on its memory alone, so not once that memory was reserved. */
  ghost predicate StoresSafely(f: Handler, a: Attr, n: Insn) {
    a.store && !n.regform && n.reserved ==> forall h, x, y :: f(h, x, y).Done?
  }

  // ---------------------------------------------------------------------------------------------
  // The register file, and the log that undoes an instruction
  // ---------------------------------------------------------------------------------------------

  datatype Kept = Kept(reg: Reg, low: Lane, high: Lane)

  class Machine {
    const xmm: array<Lane>
    const ymmh: array<Lane>
    var active: bool
    var undo: seq<Kept>

    ghost predicate Valid() {
      xmm.Length == 16 && ymmh.Length == 16 && xmm != ymmh
    }

    constructor ()
      ensures Valid() && fresh(xmm) && fresh(ymmh)
      ensures !active && undo == []
      ensures Regs() == seq(16, _ => Ymm(ZERO, ZERO))
    {
      xmm := new Lane[16](_ => ZERO);
      ymmh := new Lane[16](_ => ZERO);
      active, undo := false, [];
    }

    ghost function Regs(): (regs: seq<Ymm>)
      reads xmm, ymmh
      requires Valid()
      ensures |regs| == 16
      ensures forall i :: 0 <= i < 16 ==> regs[i] == Ymm(xmm[i], ymmh[i])
    {
      seq(16, i requires 0 <= i < 16 && Valid() reads xmm, ymmh => Ymm(xmm[i], ymmh[i]))
    }

    method SwapLanes(i: Reg)
      requires Valid()
      modifies xmm, ymmh
      ensures Regs() == old(Regs())[i := Ymm(old(ymmh[i]), old(xmm[i]))]
    {
      var t := xmm[i];
      xmm[i] := ymmh[i];
      ymmh[i] := t;
    }

    /** The registers an instruction names, swapped one after the other. */
    method SwapEach(regs: seq<Reg>)
      requires Valid()
      requires Distinct(regs)
      modifies xmm, ymmh
      ensures Regs() == Swapped(old(Regs()), regs)
    {
      for k := 0 to |regs|
        invariant Regs() == Swapped(old(Regs()), regs[..k])
      {
        assert regs[..k + 1] == regs[..k] + [regs[k]];
        SwapLanes(regs[k]);
      }
      assert regs[..|regs|] == regs;
    }

    /** What the log holds of the file it was written from. */
    ghost predicate Logs(regs: seq<Ymm>)
      reads this
      requires |regs| == 16
    {
      forall k :: 0 <= k < |undo| ==> regs[undo[k].reg] == Ymm(undo[k].low, undo[k].high)
    }

    ghost function Logged(): set<Reg>
      reads this
    {
      set k | 0 <= k < |undo| :: undo[k].reg
    }

    /** Logs a register that is not in the log yet; there is room for four. */
    method KeepVex(i: Reg)
      requires Valid()
      requires |undo| < 4
      requires Logs(Regs())
      modifies this`undo
      ensures |undo| <= old(|undo|) + 1
      ensures undo == if i in old(Logged()) then old(undo) else old(undo) + [Kept(i, xmm[i], ymmh[i])]
      ensures Logs(Regs())
      ensures Logged() == old(Logged()) + {i}
    {
      for k := 0 to |undo|
        invariant forall j :: 0 <= j < k ==> undo[j].reg != i
        invariant undo == old(undo)
      {
        if undo[k].reg == i {
          return;
        }
      }
      undo := undo + [Kept(i, xmm[i], ymmh[i])];
      assert undo[|undo| - 1].reg == i;
      assert forall j :: 0 <= j < old(|undo|) ==> undo[j] == old(undo)[j];
    }

    method BeginVex(regs: seq<Reg>)
      requires Valid()
      requires |regs| <= 4
      modifies this
      ensures active
      ensures Logs(Regs())
      ensures Logged() == set i | i in regs
    {
      undo := [];
      for k := 0 to |regs|
        invariant |undo| <= k
        invariant Logs(Regs())
        invariant Logged() == set i | i in regs[..k]
      {
        assert regs[..k + 1] == regs[..k] + [regs[k]];
        KeepVex(regs[k]);
      }
      assert regs[..|regs|] == regs;
      active := true;
    }

    /** Puts every logged register back, whatever was done to those alone. */
    method UndoVex(ghost before: seq<Ymm>)
      requires Valid()
      requires |before| == 16 && Logs(before)
      requires forall i: Reg :: i !in Logged() ==> Regs()[i] == before[i]
      modifies this, xmm, ymmh
      ensures Regs() == before
      ensures !active && undo == []
    {
      for k := 0 to |undo|
        invariant undo == old(undo)
        invariant forall i: Reg :: i !in Logged() ==> Regs()[i] == before[i]
        invariant forall j :: 0 <= j < k ==> Regs()[undo[j].reg] == before[undo[j].reg]
      {
        var kept := undo[k];
        assert before[kept.reg] == Ymm(kept.low, kept.high);
        xmm[kept.reg] := kept.low;
        ymmh[kept.reg] := kept.high;
      }
      forall i: Reg ensures Regs()[i] == before[i] {
        if i in Logged() {
          var k :| 0 <= k < |undo| && undo[k].reg == i;
        }
      }
      active, undo := false, [];
    }

    // -------------------------------------------------------------------------------------------
    // Legacy handlers run as VEX instructions
    // -------------------------------------------------------------------------------------------

    /**
      Calls a legacy handler with its register fields `reg` and `rm`: what it returns when it has
      no vector destination, and otherwise what it leaves there.
     */
    method CallLegacy(f: Handler, h: nat, a: Attr, n: Insn, reg: Reg, rm: Reg) returns (o: Outcome)
      requires Valid()
      modifies xmm
      ensures
        var dest := if a.store then rm else reg;
        && o == f(h, if HasDestination(a, n) then old(xmm[dest])
                     else if a.nodest then old(xmm[reg]) else ZERO,
                  if a.store then old(xmm[reg])
                  else if n.regform && !a.gpr then old(xmm[rm]) else ZERO)
        && xmm[..] == if HasDestination(a, n)
                      then old(xmm[..])[dest := if o.Done? then o.result else o.partial]
                      else old(xmm[..])
    {
      var dest := if a.store then rm else reg;
      var other := if a.store then xmm[reg] else if n.regform && !a.gpr then xmm[rm] else ZERO;
      if HasDestination(a, n) {
        o := f(h, xmm[dest], other);
        xmm[dest] := if o.Done? then o.result else o.partial;
      } else {
        o := f(h, if a.nodest then xmm[reg] else ZERO, other);
      }
    }

    /** The lowest register that is none of the three. */
    method Scratch(p: Reg, q: Reg, r: Reg) returns (y: Reg)
      ensures y != p && y != q && y != r
    {
      var own := {p, q, r};
      var k := 0;
      while k in own
        invariant k <= 3
        invariant k >= 1 ==> 0 in own
        invariant k >= 2 ==> 1 in own
        invariant k == 3 ==> 2 in own
        decreases 4 - k
      {
        k := k + 1;
      }
      y := k;
    }

    /**
      One pass: the lanes the pass is for are all in the xmm file. `y` is the scratch register, and
      -1 where none is needed.
     */
    method Pass(f: Handler, h: nat, a: Attr, n: Insn, usev: bool, y: int, count: Lane)
      returns (o: Outcome)
      requires Valid() && a.WellFormed()
      requires usev == (HasDestination(a, n) && NamesVvvv(a, n))
      requires -1 <= y < 16 && y != n.d && y != n.v && y != n.r
      requires y >= 0 <==> NeedsScratch(a, n)
      modifies xmm
      ensures
        var x := old(xmm[..]);
        var first := if HasDestination(a, n) then if usev then x[n.v] else x[Destination(a, n)]
                     else if a.nodest then x[n.d] else ZERO;
        var second := if a.count && n.regform then count
                      else if a.store then x[n.d] else if n.regform && !a.gpr then x[n.r] else ZERO;
        && o == f(h, first, second)
        && (o.Done? ==>
              xmm[..] == if HasDestination(a, n) then x[Destination(a, n) := o.result] else x)
        && (o.Fault? ==>
              forall i: Reg :: i != y && (HasDestination(a, n) ==> i != Destination(a, n)) ==> xmm[i] == x[i])
    {
      var reg, rm := n.d, n.r;
      var saved := ZERO;
      if y >= 0 {
        var value := if a.count then count else xmm[if a.store then n.d else n.r];
        saved := xmm[y];
        xmm[y] := value;
        if a.store {
          reg := y;
        } else {
          rm := y;
        }
      }
      var bind := Destination(a, n);
      if usev && n.v != bind {
        xmm[bind] := xmm[n.v];
      }
      o := CallLegacy(f, h, a, n, reg, rm);
      if o.Fault? {
        return;
      }
      if y >= 0 {
        xmm[y] := saved;
      }
    }

    /** The registers an instruction can touch, each once. */
    method Touched(a: Attr, n: Insn, usev: bool, y: int) returns (regs: seq<Reg>)
      requires -1 <= y < 16 && y != n.d && y != n.v && y != n.r
      ensures |regs| <= 4 && Distinct(regs)
      ensures forall i: Reg :: i in regs <==>
        i == n.d || (usev && i == n.v) || (n.regform && !a.gpr && i == n.r) || i == y
    {
      regs := [n.d];
      if usev && n.v != n.d {
        regs := regs + [n.v];
      }
      if n.regform && n.r != n.d && !(usev && n.r == n.v) && !a.gpr {
        regs := regs + [n.r];
      }
      if y >= 0 {
        regs := regs + [y];
      }
    }

    /** The first pass works on the low lanes where they are. */
    method LowPass(f: Handler, a: Attr, n: Insn, usev: bool, y: int, count: Lane) returns (o: Outcome)
      requires Valid() && a.WellFormed()
      requires usev == (HasDestination(a, n) && NamesVvvv(a, n))
      requires -1 <= y < 16 && y != n.d && y != n.v && y != n.r
      requires y >= 0 <==> NeedsScratch(a, n)
      requires count == xmm[if a.store then n.d else n.r]
      modifies xmm
      ensures o == LaneOutcome(f, old(Regs()), a, n, 0)
      ensures o.Done? ==> Regs() == WithLow(old(Regs()), a, n, o.result)
      ensures o.Fault? ==> forall i: Reg :: i != y && (HasDestination(a, n) ==> i != Destination(a, n))
                                            ==> Regs()[i] == old(Regs())[i]
    {
      ghost var before := Regs();
      assert forall i: Reg :: xmm[..][i] == before[i].low;
      o := Pass(f, 0, a, n, usev, y, count);
    }

    /** The second pass swaps the high lanes in, and back once the handler is done. */
    method HighPass(f: Handler, a: Attr, n: Insn, usev: bool, y: int, count: Lane, regs: seq<Reg>)
      returns (o: Outcome)
      requires Valid() && a.WellFormed()
      requires usev == (HasDestination(a, n) && NamesVvvv(a, n))
      requires -1 <= y < 16 && y != n.d && y != n.v && y != n.r
      requires y >= 0 <==> NeedsScratch(a, n)
      requires Distinct(regs)
      requires forall i: Reg :: i in regs <==>
        i == n.d || (usev && i == n.v) || (n.regform && !a.gpr && i == n.r) || i == y
      modifies xmm, ymmh
      ensures
        var x := old(Regs());
        var second := if a.count && n.regform then count else SecondSource(x, a, n, 1);
        && o == f(1, FirstSource(x, a, n, 1), second)
        && (o.Done? ==> Regs() == WithHigh(x, a, n, o.result))
        && (o.Fault? ==> forall i: Reg :: i !in regs ==> Regs()[i] == x[i])
    {
      ghost var before := Regs();
      SwapEach(regs);
      ghost var mid := Regs();
      assert forall i: Reg :: xmm[..][i] == mid[i].low;
      o := Pass(f, 1, a, n, usev, y, count);
      if o.Fault? {
        return;
      }
      assert Regs() == WithLow(mid, a, n, o.result);
      SwapEach(regs);
    }

    /** Both passes over a file whose touched registers are logged; a fault undoes them. */
    method RunPasses(f: Handler, a: Attr, n: Insn, usev: bool, y: int, regs: seq<Reg>) returns (r: Result)
      requires Valid() && a.WellFormed()
      requires usev == (HasDestination(a, n) && NamesVvvv(a, n))
      requires -1 <= y < 16 && y != n.d && y != n.v && y != n.r
      requires y >= 0 <==> NeedsScratch(a, n)
      requires Distinct(regs)
      requires forall i: Reg :: i in regs <==>
        i == n.d || (usev && i == n.v) || (n.regform && !a.gpr && i == n.r) || i == y
      requires Logs(Regs()) && Logged() == set i | i in regs
      modifies this, xmm, ymmh
      ensures !active
      ensures
        var x := old(Regs());
        if AllDone(f, x, a, n) then r == Ok(External(f, x, a, n)) && Regs() == Executed(f, x, a, n)
        else r == Faulted(Escaped(f, x, a, n)) && Regs() == x
    {
      ghost var before := Regs();
      var count := xmm[if a.store then n.d else n.r];
      var low := LowPass(f, a, n, usev, y, count);
      if low.Fault? {
        UndoVex(before);
        return Faulted([]);
      }
      var outs := if HasDestination(a, n) then [] else [low.result];
      if Lanes(a, n) == 2 {
        LowKeepsHigh(before, a, n, low.result);
        var high := HighPass(f, a, n, usev, y, count, regs);
        if high.Fault? {
          UndoVex(before);
          return Faulted(outs);
        }
        outs := if HasDestination(a, n) then [] else outs + [high.result];
      } else if HasDestination(a, n) {
        ymmh[Destination(a, n)] := ZERO;
      }
      active := false;
      r := Ok(outs);
    }

    /** Keeps what the instruction can touch, then runs it. */
    method RunLanes(f: Handler, a: Attr, n: Insn) returns (r: Result)
      requires Valid() && a.WellFormed()
      modifies this, xmm, ymmh
      ensures !active
      ensures
        var x := old(Regs());
        if AllDone(f, x, a, n) then r == Ok(External(f, x, a, n)) && Regs() == Executed(f, x, a, n)
        else r == Faulted(Escaped(f, x, a, n)) && Regs() == x
    {
      var usev := NamesVvvv(a, n) && HasDestination(a, n);
      var y: int := -1;
      if NeedsScratch(a, n) {
        y := Scratch(n.d, n.v, n.r);
      }
      var regs := Touched(a, n, usev, y);
      BeginVex(regs);
      r := RunPasses(f, a, n, usev, y, regs);
    }

    /** Runs a legacy handler as the VEX instruction `a` describes. */
    method OpVexAs(f: Handler, a: Attr, n: Insn) returns (r: Result)
      requires Valid() && a.WellFormed()
      requires !active
      modifies this, xmm, ymmh
      ensures !active
      ensures r.Undefined? <==> IsUndefined(a, n)
      ensures r.Misaligned? <==> !IsUndefined(a, n) && a.align && !n.rep && !n.regform && !n.aligned
      ensures r.Ok? <==>
        && !IsUndefined(a, n)
        && (a.align && !n.rep && !n.regform ==> n.aligned)
        && (Whole(a, n) ==> n.reserved)
        && AllDone(f, old(Regs()), a, n)
      ensures r.Ok? ==> Regs() == Executed(f, old(Regs()), a, n)
      ensures r.Ok? ==> r.outs == External(f, old(Regs()), a, n)
      ensures !r.Ok? ==> Regs() == old(Regs())
      ensures r.Faulted? && a.store && !a.count && StoresSafely(f, a, n) ==> r.outs == []
    {
      if IsUndefined(a, n) {
        return Undefined;
      }
      if a.align && !n.rep && !n.regform && !n.aligned {
        return Misaligned;
      }
      if Whole(a, n) && !n.reserved {
        return Faulted([]);
      }
      r := RunLanes(f, a, n);
    }

    // -------------------------------------------------------------------------------------------
    // Instructions whose lanes are not the handler's
    // -------------------------------------------------------------------------------------------

    /** Calls a handler that turns the lane in xmm[src] into one in xmm[dest]. */
    method CallConverter(g: Converter, h: nat, dest: Reg, src: Reg, regform: bool) returns (o: Outcome)
      requires Valid()
      modifies xmm
      ensures o == g(h, if regform then old(xmm[src]) else ZERO)
      ensures Regs() == old(Regs())[dest :=
        Ymm(if o.Done? then o.result else o.partial, old(Regs())[dest].high)]
    {
      o := g(h, if regform then xmm[src] else ZERO);
      xmm[dest] := if o.Done? then o.result else o.partial;
    }

    /** Shifts what r/m holds by a constant, lane by lane, into the register vvvv names. */
    method OpVexShiftImm(g: Converter, n: Insn) returns (r: Result)
      requires Valid() && !active
      modifies this, xmm, ymmh
      ensures !active
      ensures r.Undefined? <==> !n.regform
      ensures
        var x := old(Regs());
        var low, high := g(0, x[n.r].low), g(1, x[n.r].high);
        && (r.Ok? <==> n.regform && low.Done? && (n.ymm ==> high.Done?))
        && Regs() == if r.Ok? then x[n.v := Ymm(low.result, if n.ymm then high.result else ZERO)] else x
    {
      if !n.regform {
        return Undefined;
      }
      ghost var before := Regs();
      BeginVex(if n.v == n.r then [n.v] else [n.v, n.r]);
      if n.v != n.r {
        xmm[n.v] := xmm[n.r];
      }
      var o := CallConverter(g, 0, n.v, n.v, true);
      if o.Fault? {
        UndoVex(before);
        return Faulted([]);
      }
      ghost var low := o.result;
      assert Regs() == before[n.v := Ymm(low, before[n.v].high)];
      if n.ymm {
        var regs: seq<Reg> := if n.r != n.v then [n.v, n.r] else [n.v];
        SwapEach(regs);
        assert xmm[n.r] == before[n.r].high && Regs()[n.v].high == low;
        if n.v != n.r {
          xmm[n.v] := xmm[n.r];
        }
        o := CallConverter(g, 1, n.v, n.v, true);
        if o.Fault? {
          UndoVex(before);
          return Faulted([]);
        }
        SwapEach(regs);
      } else {
        ymmh[n.v] := ZERO;
      }
      active := false;
      r := Ok([]);
    }

    /**
      Conversions to wider elements: each half of the source's low lane becomes a lane of its own.
      The 128-bit form logs nothing: a fault there changes nothing exactly when the handler had
      written nothing, which every conversion keeps to.
     */
    method OpVexWiden(g: Converter, n: Insn) returns (r: Result)
      requires Valid() && !active
      modifies this, xmm, ymmh
      ensures !active
      ensures r.Undefined? <==> n.v != 0
      ensures
        var x := old(Regs());
        var source := if n.regform then x[n.r].low else ZERO;
        var whole := g(0, source);
        var low, high := g(0, Lane(source.lo, 0)), g(1, Lane(source.hi, 0));
        && (r.Ok? <==> n.v == 0 && if n.ymm then low.Done? && high.Done? else whole.Done?)
        && Regs() ==
           if r.Ok? then x[n.d := if n.ymm then Ymm(low.result, high.result) else Ymm(whole.result, ZERO)]
           else if r.Faulted? && !n.ymm then x[n.d := Ymm(whole.partial, x[n.d].high)]
           else x
      ensures r.Faulted? && !n.ymm ==>
        var o := g(0, if n.regform then old(xmm[n.r]) else ZERO);
        Regs() == old(Regs()) <==> o.partial == old(xmm[n.d])
      ensures !r.Ok? && ReadsFirst(g, old(xmm[n.d])) ==> Regs() == old(Regs())
    {
      if n.v != 0 {
        return Undefined;
      }
      if !n.ymm {
        var o := CallConverter(g, 0, n.d, n.r, n.regform);
        if o.Fault? {
          return Faulted([]);
        }
        ymmh[n.d] := ZERO;
        return Ok([]);
      }
      r := WidenBoth(g, n);
    }

    /** Converts half a lane, handed over in the scratch register when it is a register's. */
    method WidenHalf(g: Converter, h: nat, d: Reg, y: Reg, regform: bool, half: Half) returns (o: Outcome)
      requires Valid() && y != d
      modifies xmm
      ensures o == g(h, if regform then Lane(half, 0) else ZERO)
      ensures
        var x := old(Regs());
        Regs() == x[d := Ymm(if o.Done? then o.result else o.partial, x[d].high)]
                   [y := Ymm(if regform then Lane(half, 0) else x[y].low, x[y].high)]
    {
      if regform {
        xmm[y] := Lane(half, 0);
      }
      o := CallConverter(g, h, d, y, regform);
    }

    /** Both halves in turn; a fault leaves whatever the passes did to the two registers. */
    method WidenPasses(g: Converter, n: Insn, y: Reg) returns (done: bool)
      requires Valid() && y != n.d && y != n.r
      modifies xmm, ymmh
      ensures
        var x := old(Regs());
        var source := if n.regform then x[n.r].low else ZERO;
        var low, high := g(0, Lane(source.lo, 0)), g(1, Lane(source.hi, 0));
        && (done <==> low.Done? && high.Done?)
        && (done ==> Regs() == x[n.d := Ymm(low.result, high.result)])
        && forall i: Reg :: i != n.d && i != y ==> Regs()[i] == x[i]
    {
      var source := xmm[n.r];
      var saved := xmm[y];
      var o := WidenHalf(g, 0, n.d, y, n.regform, source.lo);
      if o.Fault? {
        return false;
      }
      SwapLanes(n.d);
      o := WidenHalf(g, 1, n.d, y, n.regform, source.hi);
      if o.Fault? {
        return false;
      }
      SwapLanes(n.d);
      xmm[y] := saved;
      done := true;
    }

    method WidenBoth(g: Converter, n: Insn) returns (r: Result)
      requires Valid()
      modifies this, xmm, ymmh
      ensures !active
      ensures
        var x := old(Regs());
        var source := if n.regform then x[n.r].low else ZERO;
        var low, high := g(0, Lane(source.lo, 0)), g(1, Lane(source.hi, 0));
        if low.Done? && high.Done? then
          r == Ok([]) && Regs() == x[n.d := Ymm(low.result, high.result)]
        else
          r == Faulted([]) && Regs() == x
    {
      var y := Scratch(n.d, n.d, n.r);
      ghost var before := Regs();
      var regs: seq<Reg> := if n.regform then [n.d, y, n.r] else [n.d, y];
      BeginVex(regs);
      assert n.d in regs && y in regs;
      var done := WidenPasses(g, n, y);
      if done {
        active := false;
        r := Ok([]);
      } else {
        UndoVex(before);
        r := Faulted([]);
      }
    }

    /**
      Conversions to narrower elements: what two lanes of the source become lies side by side in
      the destination's low lane.
     */
    method OpVexNarrow(g: Converter, n: Insn) returns (r: Result)
      requires Valid() && !active
      modifies this, xmm, ymmh
      ensures !active
      ensures r.Undefined? <==> n.v != 0
      ensures
        var x := old(Regs());
        var low := g(0, if n.regform then x[n.r].low else ZERO);
        var high := g(1, if n.regform then x[n.r].high else ZERO);
        && (r.Ok? <==> n.v == 0 && low.Done? && (n.ymm ==> high.Done?))
        && Regs() ==
           if r.Ok? then
             x[n.d := Ymm(if n.ymm then Lane(low.result.lo, high.result.lo) else low.result, ZERO)]
           else if r.Faulted? && !n.ymm then x[n.d := Ymm(low.partial, x[n.d].high)]
           else x
      ensures r.Faulted? && !n.ymm ==>
        var o := g(0, if n.regform then old(xmm[n.r]) else ZERO);
        Regs() == old(Regs()) <==> o.partial == old(xmm[n.d])
      ensures !r.Ok? && ReadsFirst(g, old(xmm[n.d])) ==> Regs() == old(Regs())
    {
      if n.v != 0 {
        return Undefined;
      }
      if !n.ymm {
        var o := CallConverter(g, 0, n.d, n.r, n.regform);
        if o.Fault? {
          return Faulted([]);
        }
        r := Ok([]);
      } else {
        r := NarrowBoth(g, n);
        if r.Faulted? {
          return;
        }
      }
      ymmh[n.d] := ZERO;
    }

    method NarrowBoth(g: Converter, n: Insn) returns (r: Result)
      requires Valid()
      modifies this, xmm, ymmh
      ensures !active
      ensures
        var x := old(Regs());
        var low := g(0, if n.regform then x[n.r].low else ZERO);
        var high := g(1, if n.regform then x[n.r].high else ZERO);
        if low.Done? && high.Done? then
          && r == Ok([])
          && Regs() == x[n.d := Ymm(Lane(low.result.lo, high.result.lo), x[n.d].high)]
        else
          r == Faulted([]) && Regs() == x
    {
      var y := Scratch(n.d, n.d, n.r);
      ghost var before := Regs();
      var regs: seq<Reg> := [n.d, y, n.r];
      BeginVex(regs);
      assert n.d in regs && y in regs && n.r in regs;
      var o := CallConverter(g, 0, n.d, n.r, n.regform);
      if o.Done? {
        ghost var low := o.result;
        var saved := xmm[y];
        if n.regform {
          SwapLanes(n.r);
        }
        o := CallConverter(g, 1, y, n.r, n.regform);
        if o.Done? {
          if n.regform {
            SwapLanes(n.r);
          }
          xmm[n.d] := Lane(xmm[n.d].lo, xmm[y].lo);
          xmm[y] := saved;
          active := false;
          assert Regs() == before[n.d := Ymm(Lane(low.lo, o.result.lo), before[n.d].high)];
          return Ok([]);
        }
      }
      UndoVex(before);
      r := Faulted([]);
    }
  }

  ghost function WithLow(x: seq<Ymm>, a: Attr, n: Insn, lane: Lane): (w: seq<Ymm>)
    requires |x| == 16
    ensures |w| == 16
  {
    if HasDestination(a, n) then x[Destination(a, n) := Ymm(lane, x[Destination(a, n)].high)] else x
  }

  lemma LowKeepsHigh(x: seq<Ymm>, a: Attr, n: Insn, lane: Lane)
    requires |x| == 16
    ensures FirstSource(WithLow(x, a, n, lane), a, n, 1) == FirstSource(x, a, n, 1)
    ensures !(a.count && n.regform) ==>
      SecondSource(WithLow(x, a, n, lane), a, n, 1) == SecondSource(x, a, n, 1)
  {
  }

  ghost function WithHigh(x: seq<Ymm>, a: Attr, n: Insn, lane: Lane): (w: seq<Ymm>)
    requires |x| == 16
    ensures |w| == 16
  {
    if HasDestination(a, n) then x[Destination(a, n) := Ymm(x[Destination(a, n)].low, lane)] else x
  }

  ghost predicate Distinct(regs: seq<Reg>) {
    forall j, k :: 0 <= j < k < |regs| ==> regs[j] != regs[k]
  }

  ghost function Swapped(file: seq<Ymm>, regs: seq<Reg>): (s: seq<Ymm>)
    requires |file| == 16
    ensures |s| == 16
  {
    seq(16, i requires 0 <= i < 16 =>
      if i in regs then Ymm(file[i].high, file[i].low) else file[i])
  }
}
