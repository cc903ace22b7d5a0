/**
 * The coprocessor of solutions/day23.py: the interpreter `sim` for
 * `set/sub/mul/jnz`, which counts the `mul` instructions it executes, and
 * `find_h`, which counts the composite numbers among 107900, 107917, ...,
 * 124900 (what the puzzle's program computes in register h).
 */
module Coprocessor {
  import opened PyLib
  import opened RegisterBank

  type Instr = seq<string>
  type Program = seq<Instr>

  /** The interpreter's variables: the index `i`, the register store and `count`. */
  datatype Cpu = Cpu(pc: int, store: Store, muls: nat)

  datatype Step = Next(c: Cpu) | Fault(exc: Exc)

  /** `set`, `sub` and `mul`: the instructions that write register `instr[1]`. */
  predicate Writes(op: string) {
    op == "set" || op == "sub" || op == "mul"
  }

  /** One pass of the loop body of `sim`, at an index inside the program. */
  function CpuExec(prog: Program, c: Cpu): Step
    requires 0 <= c.pc < |prog|
  {
    var instr := prog[c.pc];
    if |instr| == 0 then Fault(IndexError)
    else
      var op := instr[0];
      if Writes(op) then
        if |instr| < 3 then Fault(IndexError)
        else
          var x, y := Lookup(c.store, instr[1]), Resolve(c.store, instr[2]);
          var v := if op == "set" then y else if op == "sub" then x - y else x * y;
          Next(c.(pc := c.pc + 1, store := c.store[instr[1] := v],
                  muls := if op == "mul" then c.muls + 1 else c.muls))
      else if op == "jnz" then
        if |instr| < 2 then Fault(IndexError)
        else if Resolve(c.store, instr[1]) != 0 then
          if |instr| < 3 then Fault(IndexError)
          else Next(c.(pc := c.pc + Resolve(c.store, instr[2])))
        else Next(c.(pc := c.pc + 1))
      else Fault(RuntimeError)
  }

  datatype Outcome = Exited(count: nat) | Failed(exc: Exc) | OutOfFuel

  /** At most `fuel` passes of the loop, with the outcome and the last state. */
  function CpuRun(prog: Program, c: Cpu, fuel: nat): (Outcome, Cpu)
    decreases fuel
  {
    if !(0 <= c.pc < |prog|) then (Exited(c.muls), c)
    else if fuel == 0 then (OutOfFuel, c)
    else
      match CpuExec(prog, c)
      case Next(c') => CpuRun(prog, c', fuel - 1)
      case Fault(e) => (Failed(e), c)
  }

  /** The number of `mul` instructions the run executes. */
  function MulsExecuted(prog: Program, c: Cpu, fuel: nat): nat
    decreases fuel
  {
    if !(0 <= c.pc < |prog|) || fuel == 0 then 0
    else
      match CpuExec(prog, c)
      case Next(c') => (if prog[c.pc][0] == "mul" then 1 else 0) + MulsExecuted(prog, c', fuel - 1)
      case Fault(_) => 0
  }

  /** `sim`: runs the program against `regs`, changing its store in place. */
  method Sim(regs: Registers, prog: Program, fuel: nat) returns (out: Outcome)
    modifies regs
    ensures out == CpuRun(prog, Cpu(0, old(regs.store), 0), fuel).0
    ensures regs.store == CpuRun(prog, Cpu(0, old(regs.store), 0), fuel).1.store
  {
    ghost var goal := CpuRun(prog, Cpu(0, regs.store, 0), fuel);
    var count := 0;
    var i := 0;
    var left := fuel;
    while 0 <= i < |prog|
      invariant CpuRun(prog, Cpu(i, regs.store, count), left) == goal
      decreases left
    {
      if left == 0 {
        return OutOfFuel;
      }
      left := left - 1;
      var instr := prog[i];
      if |instr| == 0 {
        return Failed(IndexError);
      }
      var op := instr[0];
      if Writes(op) {
        if |instr| < 3 {
          return Failed(IndexError);
        }
        var y := regs.Get(instr[2]);
        var x := Lookup(regs.store, instr[1]);
        if op == "set" {
          regs.store := regs.store[instr[1] := y];
        } else if op == "sub" {
          regs.store := regs.store[instr[1] := x - y];
        } else {
          regs.store := regs.store[instr[1] := x * y];
          count := count + 1;
        }
      } else if op == "jnz" {
        if |instr| < 2 {
          return Failed(IndexError);
        }
        if regs.Get(instr[1]) != 0 {
          if |instr| < 3 {
            return Failed(IndexError);
          }
          i := i + regs.Get(instr[2]);
          continue;
        }
      } else {
        return Failed(RuntimeError);
      }
      i := i + 1;
    }
    return Exited(count);
  }

  /** `set/sub/mul x y` write register x only and move to the next instruction. */
  lemma WritesOnlyTarget(prog: Program, c: Cpu)
    requires 0 <= c.pc < |prog| && |prog[c.pc]| >= 3 && Writes(prog[c.pc][0])
    ensures CpuExec(prog, c).Next? && CpuExec(prog, c).c.pc == c.pc + 1
    ensures forall k :: k != prog[c.pc][1] ==> Lookup(CpuExec(prog, c).c.store, k) == Lookup(c.store, k)
    ensures var x, y := Lookup(c.store, prog[c.pc][1]), Resolve(c.store, prog[c.pc][2]);
            Lookup(CpuExec(prog, c).c.store, prog[c.pc][1]) ==
              match prog[c.pc][0] case "set" => y case "sub" => x - y case _ => x * y
  {
  }

  /** `jnz x y` adds `get(y)` to the index exactly when `get(x) != 0`, and 1 otherwise. */
  lemma JnzJumps(prog: Program, c: Cpu)
    requires 0 <= c.pc < |prog| && |prog[c.pc]| >= 3 && prog[c.pc][0] == "jnz"
    ensures CpuExec(prog, c).Next?
    ensures CpuExec(prog, c).c.store == c.store && CpuExec(prog, c).c.muls == c.muls
    ensures CpuExec(prog, c).c.pc ==
              if Resolve(c.store, prog[c.pc][1]) != 0 then c.pc + Resolve(c.store, prog[c.pc][2]) else c.pc + 1
  {
  }

  /** Any opcode other than set/sub/mul/jnz raises RuntimeError. */
  lemma UnknownOpcodeRaises(prog: Program, c: Cpu)
    requires 0 <= c.pc < |prog| && |prog[c.pc]| >= 1
    requires !Writes(prog[c.pc][0]) && prog[c.pc][0] != "jnz"
    ensures CpuExec(prog, c) == Fault(RuntimeError)
  {
  }

  /**
   * A normal end happens exactly when the index leaves `[0, len)`, and the
   * count returned is the number of `mul` instructions executed.
   */
  lemma {:induction false} CountIsMulsExecuted(prog: Program, c: Cpu, fuel: nat)
    requires CpuRun(prog, c, fuel).0.Exited?
    ensures !(0 <= CpuRun(prog, c, fuel).1.pc < |prog|)
    ensures CpuRun(prog, c, fuel).0.count == c.muls + MulsExecuted(prog, c, fuel)
    decreases fuel
  {
    if 0 <= c.pc < |prog| {
      match CpuExec(prog, c)
      case Next(c') => CountIsMulsExecuted(prog, c', fuel - 1);
      case Fault(_) =>
    }
  }

  // ----------------------------------------------------------------
  // find_h

  predicate Divides(d: int, x: int)
    requires d > 0
  {
    x % d == 0
  }

  /** `x` has a divisor in `[2, x)`: the test the inner loop of `find_h` makes. */
  predicate IsComposite(x: int) {
    exists d :: 2 <= d < x && Divides(d, x)
  }

  /** The values `range(107900, 124900 + 1, 17)` takes. */
  function Candidates(): (xs: seq<int>)
    ensures |xs| == 1001
    ensures xs[0] == 107900 && xs[|xs| - 1] == 124900
    ensures forall k :: 0 <= k < |xs| - 1 ==> xs[k + 1] == xs[k] + 17
  {
    seq(1001, k => 107900 + 17 * k)
  }

  /** The inner loop: looks for a divisor of `x` in `[2, x)` and stops at the first one. */
  method HasDivisor(x: int) returns (found: bool)
    ensures found == IsComposite(x)
  {
    var i := 2;
    found := false;
    while i < x
      invariant 2 <= i && (x >= 2 ==> i <= x)
      invariant forall d :: 2 <= d < i ==> !Divides(d, x)
    {
      if x % i == 0 {
        assert Divides(i, x);
        return true;
      }
      i := i + 1;
    }
  }

  /** `find_h`: the number of composite candidates, each counted once thanks to the `break`. */
  method FindH() returns (h: nat)
    ensures h == CountIf(Candidates(), IsComposite)
    ensures h <= 1001
  {
    var xs := Candidates();
    h := 0;
    var k := 0;
    while k < |xs|
      invariant 0 <= k <= |xs|
      invariant h == CountIf(xs[..k], IsComposite)
    {
      var found := HasDivisor(xs[k]);
      if found {
        h := h + 1;
      }
      assert xs[..k + 1][..k] == xs[..k];
      k := k + 1;
    }
    assert xs[..k] == xs;
  }

  /** The first candidate, 107900 = 2 * 53950, is composite, so `find_h` is at least 1. */
  lemma FirstCandidateComposite()
    ensures IsComposite(Candidates()[0])
  {
    assert Divides(2, 107900);
  }
}
