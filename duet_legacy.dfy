/**
 * The older sound interpreter of day18.py (`sim_instructions`).
 *
 * It runs the same instruction set as the interpreter in solutions/day18.py
 * with three differences: the loop tests only `i < len`, so a negative index
 * reads from the end of the program (or raises IndexError below `-len`);
 * `rcv x` with `get(x) == 0` does not move the index, so the loop repeats that
 * instruction forever; and leaving the program returns `last_snd` instead of 0.
 */
module DuetLegacy {
  import opened PyLib
  import opened RegisterBank
  import Duet

  /** One pass of the loop body, at an index the loop test lets through. */
  function LegacyExec(prog: Duet.Program, m: Duet.Machine): Duet.Step
    requires m.pc < |prog|
  {
    match At(prog, m.pc)
    case Raise(e) => Duet.Fault(e)
    case Ok(instr) =>
      if |instr| == 0 then Duet.Fault(IndexError)
      else
        var op := instr[0];
        if op == "snd" then
          if |instr| < 2 then Duet.Fault(IndexError)
          else Duet.Next(m.(pc := m.pc + 1, lastSnd := Lookup(m.store, instr[1])))
        else if Duet.IsArith(op) then
          if |instr| < 3 then Duet.Fault(IndexError)
          else
            match Duet.ArithValue(op, Lookup(m.store, instr[1]), Resolve(m.store, instr[2]))
            case Ok(v) => Duet.Next(m.(pc := m.pc + 1, store := m.store[instr[1] := v]))
            case Raise(e) => Duet.Fault(e)
        else if op == "rcv" then
          if |instr| < 2 then Duet.Fault(IndexError)
          else if Resolve(m.store, instr[1]) != 0 then Duet.Recover(m.lastSnd)
          else Duet.Next(m)
        else if op == "jgz" then
          if |instr| < 2 then Duet.Fault(IndexError)
          else if Resolve(m.store, instr[1]) > 0 then
            if |instr| < 3 then Duet.Fault(IndexError)
            else Duet.Next(m.(pc := m.pc + Resolve(m.store, instr[2])))
          else Duet.Next(m.(pc := m.pc + 1))
        else Duet.Fault(RuntimeError)
  }

  /** At most `fuel` passes of the loop, with the outcome and the machine in which the run stopped. */
  function LegacyRun(prog: Duet.Program, m: Duet.Machine, fuel: nat): (Duet.Outcome, Duet.Machine)
    decreases fuel
  {
    if m.pc >= |prog| then (Duet.Exited, m)
    else if fuel == 0 then (Duet.OutOfFuel, m)
    else
      match LegacyExec(prog, m)
      case Next(m') => LegacyRun(prog, m', fuel - 1)
      case Recover(f) => (Duet.Recovered(f), m)
      case Fault(e) => (Duet.Failed(e), m)
  }

  /**
   * `sim_instructions` of day18.py: runs the program against `regs`, changing
   * its store in place; `value` is what the function returns on a normal end.
   */
  method SimInstructions(regs: Registers, prog: Duet.Program, fuel: nat) returns (out: Duet.Outcome, value: int)
    modifies regs
    ensures out == LegacyRun(prog, Duet.Start(old(regs.store)), fuel).0
    ensures regs.store == LegacyRun(prog, Duet.Start(old(regs.store)), fuel).1.store
    ensures value == LegacyRun(prog, Duet.Start(old(regs.store)), fuel).1.lastSnd
  {
    ghost var goal := LegacyRun(prog, Duet.Start(regs.store), fuel);
    var lastSnd := 0;
    var i := 0;
    var left := fuel;
    while i < |prog|
      invariant LegacyRun(prog, Duet.Machine(i, regs.store, lastSnd), left) == goal
      decreases left
    {
      if left == 0 {
        return Duet.OutOfFuel, lastSnd;
      }
      var s := Perform(regs, prog, i, lastSnd);
      match s
      case Recover(f) => return Duet.Recovered(f), lastSnd;
      case Fault(e) => return Duet.Failed(e), lastSnd;
      case Next(m) => i, lastSnd := m.pc, m.lastSnd;
      left := left - 1;
    }
    return Duet.Exited, lastSnd;
  }

  /** One pass of the loop body of `sim_instructions` at index `i`, changing the store in place. */
  method Perform(regs: Registers, prog: Duet.Program, i: int, lastSnd: int) returns (s: Duet.Step)
    requires i < |prog|
    modifies regs
    ensures s == LegacyExec(prog, Duet.Machine(i, old(regs.store), lastSnd))
    ensures regs.store == if s.Next? then s.m.store else old(regs.store)
  {
    var k := PyIndex(|prog|, i);
    if k.None? {
      return Duet.Fault(IndexError);
    }
    var instr := prog[k.value];
    if |instr| == 0 {
      return Duet.Fault(IndexError);
    }
    var op := instr[0];
    if op == "snd" {
      if |instr| < 2 {
        return Duet.Fault(IndexError);
      }
      return Duet.Next(Duet.Machine(i + 1, regs.store, Lookup(regs.store, instr[1])));
    } else if Duet.IsArith(op) {
      if |instr| < 3 {
        return Duet.Fault(IndexError);
      }
      var x, y := Lookup(regs.store, instr[1]), regs.Get(instr[2]);
      if op == "set" {
        regs.store := regs.store[instr[1] := y];
      } else if op == "add" {
        regs.store := regs.store[instr[1] := x + y];
      } else if op == "mul" {
        regs.store := regs.store[instr[1] := x * y];
      } else {
        if y == 0 {
          return Duet.Fault(ZeroDivisionError);
        }
        regs.store := regs.store[instr[1] := FloorMod(x, y)];
      }
      return Duet.Next(Duet.Machine(i + 1, regs.store, lastSnd));
    } else if op == "rcv" {
      if |instr| < 2 {
        return Duet.Fault(IndexError);
      }
      var x := regs.Get(instr[1]);
      if x != 0 {
        return Duet.Recover(lastSnd);
      }
      return Duet.Next(Duet.Machine(i, regs.store, lastSnd));
    } else if op == "jgz" {
      if |instr| < 2 {
        return Duet.Fault(IndexError);
      }
      var x := regs.Get(instr[1]);
      if x > 0 {
        if |instr| < 3 {
          return Duet.Fault(IndexError);
        }
        var y := regs.Get(instr[2]);
        return Duet.Next(Duet.Machine(i + y, regs.store, lastSnd));
      }
      return Duet.Next(Duet.Machine(i + 1, regs.store, lastSnd));
    } else {
      return Duet.Fault(RuntimeError);
    }
  }

  // ----------------------------------------------------------------
  // Properties of one instruction

  /** `set/add/mul/mod x y` writes register x only and moves to the next instruction. */
  lemma ArithWritesOnlyTarget(prog: Duet.Program, m: Duet.Machine)
    requires 0 <= m.pc < |prog|
    requires |prog[m.pc]| >= 3 && Duet.IsArith(prog[m.pc][0])
    requires !(prog[m.pc][0] == "mod" && Resolve(m.store, prog[m.pc][2]) == 0)
    ensures LegacyExec(prog, m).Next?
    ensures LegacyExec(prog, m).m.pc == m.pc + 1 && LegacyExec(prog, m).m.lastSnd == m.lastSnd
    ensures forall k :: k != prog[m.pc][1] ==> Lookup(LegacyExec(prog, m).m.store, k) == Lookup(m.store, k)
  {
  }

  /** `rcv x` with `get(x) == 0` leaves the machine exactly as it was: a fixed point of the loop. */
  lemma RcvZeroIsFixedPoint(prog: Duet.Program, m: Duet.Machine)
    requires m.pc < |prog| && At(prog, m.pc).Ok?
    requires var instr := At(prog, m.pc).value; |instr| >= 2 && instr[0] == "rcv"
    ensures Resolve(m.store, At(prog, m.pc).value[1]) == 0 ==> LegacyExec(prog, m) == Duet.Next(m)
    ensures Resolve(m.store, At(prog, m.pc).value[1]) != 0 ==> LegacyExec(prog, m) == Duet.Recover(m.lastSnd)
  {
  }

  /** `jgz x y` adds `get(y)` to the index when `get(x) > 0`, and 1 otherwise. */
  lemma JgzJumps(prog: Duet.Program, m: Duet.Machine)
    requires m.pc < |prog| && At(prog, m.pc).Ok?
    requires var instr := At(prog, m.pc).value; |instr| >= 3 && instr[0] == "jgz"
    ensures LegacyExec(prog, m).Next?
    ensures LegacyExec(prog, m).m.store == m.store && LegacyExec(prog, m).m.lastSnd == m.lastSnd
    ensures LegacyExec(prog, m).m.pc ==
              if Resolve(m.store, At(prog, m.pc).value[1]) > 0 then m.pc + Resolve(m.store, At(prog, m.pc).value[2])
              else m.pc + 1
  {
  }

  /** The same step taken `delta` positions further along the program. */
  function ShiftPc(s: Duet.Step, delta: int): Duet.Step {
    if s.Next? then Duet.Next(s.m.(pc := s.m.pc + delta)) else s
  }

  /**
   * A negative index runs the instruction `len + i` from the end, staying
   * `len` below where that instruction would leave the index; one below
   * `-len` raises IndexError.
   */
  lemma NegativeIndexWraps(prog: Duet.Program, m: Duet.Machine)
    requires m.pc < 0
    ensures m.pc < -|prog| ==> LegacyExec(prog, m) == Duet.Fault(IndexError)
    ensures -|prog| <= m.pc ==>
              LegacyExec(prog, m) == ShiftPc(LegacyExec(prog, m.(pc := |prog| + m.pc)), -|prog|)
  {
  }

  /** `snd x` reads the store directly: a literal operand that was never written as a register sends 0. */
  lemma SndLiteralReadsZero(prog: Duet.Program, m: Duet.Machine)
    requires 0 <= m.pc < |prog| && |prog[m.pc]| >= 2 && prog[m.pc][0] == "snd"
    requires ParseInt(prog[m.pc][1]).Some? && prog[m.pc][1] !in m.store
    ensures LegacyExec(prog, m) == Duet.Next(m.(pc := m.pc + 1, lastSnd := 0))
  {
  }

  /** Any opcode outside snd/set/add/mul/mod/rcv/jgz raises RuntimeError. */
  lemma UnknownOpcodeRaises(prog: Duet.Program, m: Duet.Machine)
    requires 0 <= m.pc < |prog| && |prog[m.pc]| >= 1
    requires var op := prog[m.pc][0]; op != "snd" && !Duet.IsArith(op) && op != "rcv" && op != "jgz"
    ensures LegacyExec(prog, m) == Duet.Fault(RuntimeError)
  {
  }

  // ----------------------------------------------------------------
  // Properties of whole runs

  /** Once the run reaches `rcv x` with `get(x) == 0` it never returns, however much fuel it gets. */
  lemma {:induction false} RcvZeroNeverReturns(prog: Duet.Program, m: Duet.Machine, fuel: nat)
    requires m.pc < |prog| && At(prog, m.pc).Ok?
    requires var instr := At(prog, m.pc).value; |instr| >= 2 && instr[0] == "rcv" && Resolve(m.store, instr[1]) == 0
    ensures LegacyRun(prog, m, fuel) == (Duet.OutOfFuel, m)
    decreases fuel
  {
    if fuel > 0 {
      RcvZeroIsFixedPoint(prog, m);
      RcvZeroNeverReturns(prog, m, fuel - 1);
    }
  }

  /**
   * A normal return by leaving the program happens at an index at or past the
   * end, and the value returned is `last_snd` of that moment.
   */
  lemma {:induction false} ExitedPastEnd(prog: Duet.Program, m: Duet.Machine, fuel: nat)
    requires LegacyRun(prog, m, fuel).0 == Duet.Exited
    ensures LegacyRun(prog, m, fuel).1.pc >= |prog|
    ensures m.pc >= |prog| ==> LegacyRun(prog, m, fuel).1 == m
    decreases fuel
  {
    if m.pc < |prog| && fuel > 0 {
      match LegacyExec(prog, m)
      case Next(m') => ExitedPastEnd(prog, m', fuel - 1);
      case Recover(_) =>
      case Fault(_) =>
    }
  }

  /**
   * On programs whose indices stay inside `[0, len)` until they leave past the
   * end and that hold no `rcv` stalling on 0, the two interpreters agree
   * step by step; so the difference is confined to negative indices, `rcv 0`
   * and the value returned on exit.
   */
  lemma SameStepInsideProgram(prog: Duet.Program, m: Duet.Machine)
    requires 0 <= m.pc < |prog|
    requires !(|prog[m.pc]| >= 2 && prog[m.pc][0] == "rcv" && Resolve(m.store, prog[m.pc][1]) == 0)
    ensures LegacyExec(prog, m) == Duet.Exec(prog, m)
  {
  }
}
