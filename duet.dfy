/**
 * The single-program sound interpreter of solutions/day18.py (`sim_instructions`).
 *
 * A program is the list of token lists read from the input; operands are taken
 * from an instruction only when the instruction needs them, and resolved as a
 * literal or a register at every use. `snd x` remembers `store[x]` (a direct
 * register read, so a literal operand is looked up as a name), `rcv x` stops
 * the run with the last remembered value when `get(x) != 0`, and leaving the
 * program returns 0.
 */
module Duet {
  import opened PyLib
  import opened RegisterBank

  type Instr = seq<string>
  type Program = seq<Instr>

  /** The interpreter's variables: the index `i`, the register store and `last_snd`. */
  datatype Machine = Machine(pc: int, store: Store, lastSnd: int)

  function Start(store: Store): Machine {
    Machine(0, store, 0)
  }

  /** What one instruction does: go on, stop with a recovered frequency, or raise. */
  datatype Step = Next(m: Machine) | Recover(freq: int) | Fault(exc: Exc)

  predicate IsArith(op: string) {
    op == "set" || op == "add" || op == "mul" || op == "mod"
  }

  /**
   * The new value of register x for `set/add/mul/mod x y`, given its old value
   * and the resolved operand; `mod` by zero raises ZeroDivisionError and `mod`
   * is Python's floor modulo.
   */
  function ArithValue(op: string, x: int, y: int): (r: Result<int>)
    requires IsArith(op)
    ensures r.Raise? <==> op == "mod" && y == 0
    ensures r.Raise? ==> r.exc == ZeroDivisionError
    ensures op == "set" ==> r == Ok(y)
    ensures op == "add" ==> r == Ok(x + y)
    ensures op == "mul" ==> r == Ok(x * y)
    ensures op == "mod" && y > 0 ==> r.Ok? && 0 <= r.value < y
  {
    if op == "set" then Ok(y)
    else if op == "add" then Ok(x + y)
    else if op == "mul" then Ok(x * y)
    else if y == 0 then Raise(ZeroDivisionError)
    else Ok(FloorMod(x, y))
  }

  /** One pass of the `while` body of `sim_instructions`, at an index inside the program. */
  function Exec(prog: Program, m: Machine): Step
    requires 0 <= m.pc < |prog|
  {
    var instr := prog[m.pc];
    if |instr| == 0 then Fault(IndexError)
    else
      var op := instr[0];
      if op == "snd" then
        if |instr| < 2 then Fault(IndexError)
        else Next(m.(pc := m.pc + 1, lastSnd := Lookup(m.store, instr[1])))
      else if IsArith(op) then
        if |instr| < 3 then Fault(IndexError)
        else
          match ArithValue(op, Lookup(m.store, instr[1]), Resolve(m.store, instr[2]))
          case Ok(v) => Next(m.(pc := m.pc + 1, store := m.store[instr[1] := v]))
          case Raise(e) => Fault(e)
      else if op == "rcv" then
        if |instr| < 2 then Fault(IndexError)
        else if Resolve(m.store, instr[1]) != 0 then Recover(m.lastSnd)
        else Next(m.(pc := m.pc + 1))
      else if op == "jgz" then
        if |instr| < 2 then Fault(IndexError)
        else if Resolve(m.store, instr[1]) > 0 then
          if |instr| < 3 then Fault(IndexError)
          else Next(m.(pc := m.pc + Resolve(m.store, instr[2])))
        else Next(m.(pc := m.pc + 1))
      else Fault(RuntimeError)
  }

  /** How a run ends; `Recovered` and `Exited` are the two normal returns. */
  datatype Outcome = Recovered(freq: int) | Exited | Failed(exc: Exc) | OutOfFuel

  /** The value `sim_instructions` returns for a normal end: the frequency, or 0 on leaving the program. */
  function Answer(o: Outcome): int
    requires o.Recovered? || o.Exited?
  {
    if o.Recovered? then o.freq else 0
  }

  /**
   * At most `fuel` instructions of the run from `m`, with the outcome and the
   * machine in which the run stopped (the one whose instruction raised or recovered).
   */
  function Run(prog: Program, m: Machine, fuel: nat): (Outcome, Machine)
    decreases fuel
  {
    if !(0 <= m.pc < |prog|) then (Exited, m)
    else if fuel == 0 then (OutOfFuel, m)
    else
      match Exec(prog, m)
      case Next(m') => Run(prog, m', fuel - 1)
      case Recover(f) => (Recovered(f), m)
      case Fault(e) => (Failed(e), m)
  }

  /** The values read by the `snd` instructions the run executes, in order. */
  function Sounds(prog: Program, m: Machine, fuel: nat): seq<int>
    decreases fuel
  {
    if !(0 <= m.pc < |prog|) || fuel == 0 then []
    else
      match Exec(prog, m)
      case Next(m') =>
        (if prog[m.pc][0] == "snd" then [m'.lastSnd] else []) + Sounds(prog, m', fuel - 1)
      case _ => []
  }

  /** `sim_instructions`: runs the program against `regs`, changing its store in place. */
  method SimInstructions(regs: Registers, prog: Program, fuel: nat) returns (out: Outcome)
    modifies regs
    ensures out == Run(prog, Start(old(regs.store)), fuel).0
    ensures regs.store == Run(prog, Start(old(regs.store)), fuel).1.store
  {
    ghost var goal := Run(prog, Start(regs.store), fuel);
    var lastSnd := 0;
    var i := 0;
    var left := fuel;
    while 0 <= i < |prog|
      invariant Run(prog, Machine(i, regs.store, lastSnd), left) == goal
      decreases left
    {
      if left == 0 {
        return OutOfFuel;
      }
      var s := Perform(regs, prog, i, lastSnd);
      match s
      case Recover(f) => return Recovered(f);
      case Fault(e) => return Failed(e);
      case Next(m) => i, lastSnd := m.pc, m.lastSnd;
      left := left - 1;
    }
    return Exited;
  }

  /** One pass of the `while` body of `sim_instructions` at index `i`, changing the store in place. */
  method Perform(regs: Registers, prog: Program, i: int, lastSnd: int) returns (s: Step)
    requires 0 <= i < |prog|
    modifies regs
    ensures s == Exec(prog, Machine(i, old(regs.store), lastSnd))
    ensures regs.store == if s.Next? then s.m.store else old(regs.store)
  {
    var instr := prog[i];
    if |instr| == 0 {
      return Fault(IndexError);
    }
    var op := instr[0];
    if op == "snd" {
      if |instr| < 2 {
        return Fault(IndexError);
      }
      return Next(Machine(i + 1, regs.store, Lookup(regs.store, instr[1])));
    } else if IsArith(op) {
      if |instr| < 3 {
        return Fault(IndexError);
      }
      var y := regs.Get(instr[2]);
      var x := Lookup(regs.store, instr[1]);
      if op == "set" {
        regs.store := regs.store[instr[1] := y];
      } else if op == "add" {
        regs.store := regs.store[instr[1] := x + y];
      } else if op == "mul" {
        regs.store := regs.store[instr[1] := x * y];
      } else {
        if y == 0 {
          return Fault(ZeroDivisionError);
        }
        regs.store := regs.store[instr[1] := FloorMod(x, y)];
      }
      return Next(Machine(i + 1, regs.store, lastSnd));
    } else if op == "rcv" {
      if |instr| < 2 {
        return Fault(IndexError);
      }
      var x := regs.Get(instr[1]);
      if x != 0 {
        return Recover(lastSnd);
      }
      return Next(Machine(i + 1, regs.store, lastSnd));
    } else if op == "jgz" {
      if |instr| < 2 {
        return Fault(IndexError);
      }
      var x := regs.Get(instr[1]);
      if x > 0 {
        if |instr| < 3 {
          return Fault(IndexError);
        }
        var y := regs.Get(instr[2]);
        return Next(Machine(i + y, regs.store, lastSnd));
      }
      return Next(Machine(i + 1, regs.store, lastSnd));
    } else {
      return Fault(RuntimeError);
    }
  }

  // ----------------------------------------------------------------
  // Properties of one instruction

  /** `set/add/mul/mod x y` writes register x only, and moves to the next instruction. */
  lemma ArithWritesOnlyTarget(prog: Program, m: Machine)
    requires 0 <= m.pc < |prog|
    requires |prog[m.pc]| >= 3 && IsArith(prog[m.pc][0])
    requires !(prog[m.pc][0] == "mod" && Resolve(m.store, prog[m.pc][2]) == 0)
    ensures Exec(prog, m).Next?
    ensures Exec(prog, m).m.pc == m.pc + 1 && Exec(prog, m).m.lastSnd == m.lastSnd
    ensures forall k :: k != prog[m.pc][1] ==> Lookup(Exec(prog, m).m.store, k) == Lookup(m.store, k)
  {
  }

  /** `rcv x` stops the run with `last_snd` exactly when `get(x) != 0`; otherwise it only moves on. */
  lemma RcvStopsIff(prog: Program, m: Machine)
    requires 0 <= m.pc < |prog|
    requires |prog[m.pc]| >= 2 && prog[m.pc][0] == "rcv"
    ensures Exec(prog, m).Recover? <==> Resolve(m.store, prog[m.pc][1]) != 0
    ensures Exec(prog, m).Recover? ==> Exec(prog, m).freq == m.lastSnd
    ensures Exec(prog, m).Next? ==> Exec(prog, m).m == m.(pc := m.pc + 1)
  {
  }

  /** `jgz x y` adds `get(y)` to the index when `get(x) > 0`, and 1 otherwise. */
  lemma JgzJumps(prog: Program, m: Machine)
    requires 0 <= m.pc < |prog|
    requires |prog[m.pc]| >= 3 && prog[m.pc][0] == "jgz"
    ensures Exec(prog, m).Next?
    ensures Exec(prog, m).m.store == m.store && Exec(prog, m).m.lastSnd == m.lastSnd
    ensures Exec(prog, m).m.pc ==
              if Resolve(m.store, prog[m.pc][1]) > 0 then m.pc + Resolve(m.store, prog[m.pc][2])
              else m.pc + 1
  {
  }

  /** Any opcode outside snd/set/add/mul/mod/rcv/jgz raises RuntimeError. */
  lemma UnknownOpcodeRaises(prog: Program, m: Machine)
    requires 0 <= m.pc < |prog|
    requires |prog[m.pc]| >= 1
    requires var op := prog[m.pc][0]; op != "snd" && !IsArith(op) && op != "rcv" && op != "jgz"
    ensures Exec(prog, m) == Fault(RuntimeError)
  {
  }

  // ----------------------------------------------------------------
  // Properties of whole runs

  /** The run exits normally only from an index outside `[0, len)`, and the answer is then 0. */
  lemma {:induction false} ExitedOutsideProgram(prog: Program, m: Machine, fuel: nat)
    requires Run(prog, m, fuel).0 == Exited
    ensures !(0 <= Run(prog, m, fuel).1.pc < |prog|)
    ensures Answer(Run(prog, m, fuel).0) == 0
    decreases fuel
  {
    if 0 <= m.pc < |prog| && fuel > 0 {
      match Exec(prog, m)
      case Next(m') => ExitedOutsideProgram(prog, m', fuel - 1);
      case Recover(_) =>
      case Fault(_) =>
    }
  }

  /**
   * A recovered frequency is the value read by the latest `snd` executed before the
   * `rcv`, or the initial `last_snd` (0 for `Start`) when no `snd` ran.
   */
  lemma {:induction false} RecoveredIsLatestSound(prog: Program, m: Machine, fuel: nat)
    requires Run(prog, m, fuel).0.Recovered?
    ensures var s := Sounds(prog, m, fuel);
            Run(prog, m, fuel).0.freq == if s == [] then m.lastSnd else s[|s| - 1]
    decreases fuel
  {
    match Exec(prog, m)
    case Next(m') =>
      RecoveredIsLatestSound(prog, m', fuel - 1);
    case Recover(_) =>
    case Fault(_) =>
  }

  /** Running with more fuel than a finished run needed changes nothing: the model is deterministic. */
  lemma {:induction false} MoreFuelSameEnd(prog: Program, m: Machine, fuel: nat, more: nat)
    requires Run(prog, m, fuel).0 != OutOfFuel
    requires fuel <= more
    ensures Run(prog, m, more) == Run(prog, m, fuel)
    decreases fuel
  {
    if 0 <= m.pc < |prog| {
      match Exec(prog, m)
      case Next(m') => MoreFuelSameEnd(prog, m', fuel - 1, more - 1);
      case Recover(_) =>
      case Fault(_) =>
    }
  }
}
