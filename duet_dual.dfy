/**
 * The two-program scheduler of solutions/day18.py (`sim_dual`).
 *
 * Programs 0 and 1 run the same instruction list with their own register
 * stores. `queue[p]` holds the values program p has sent and not yet had
 * received; `rcv` in program p pops the front of `queue[1 - p]`. One program
 * runs at a time: it gives way when it waits on an empty queue or leaves the
 * program, and the run stops on the two deadlock rules or when both are done.
 * The answer is the number of `snd` instructions program 1 executed.
 *
 * Three details of the code are kept as written: there is no error for an
 * unknown opcode here (it is skipped like a no-op); a taken `jgz` skips the
 * bounds check, so the next fetch uses Python indexing (a negative index
 * counts from the end, anything else out of range raises IndexError); and
 * after a program is marked done, `reg` is bound to the peer's `Registers`
 * object rather than its store, so the peer's next register write raises
 * TypeError (`regBroken`) until a blocking `rcv` rebinds it.
 */
module DuetScheduler {
  import opened PyLib
  import opened RegisterBank
  import Duet

  /** A program id, 0 or 1. */
  type Pid = p: nat | p < 2

  function Other(p: Pid): Pid {
    1 - p
  }

  /** A two-entry dictionary keyed by program id. */
  datatype Pair<T> = Pair(zero: T, one: T) {
    function Get(p: Pid): T {
      if p == 0 then zero else one
    }

    function With(p: Pid, v: T): (r: Pair<T>)
      ensures r.Get(p) == v && r.Get(Other(p)) == Get(Other(p))
    {
      if p == 0 then Pair(v, one) else Pair(zero, v)
    }
  }

  /** The per-program status: `'g'` running, `'r'` waiting on `rcv`, `'d'` done. */
  datatype Status = Go | Waiting | Done

  /** Every variable of `sim_dual`'s loop. */
  datatype Dual = Dual(
    prog: Pid,
    i: int,
    stores: Pair<Store>,
    ind: Pair<int>,
    state: Pair<Status>,
    queue: Pair<seq<int>>,
    sent: nat,
    regBroken: bool)

  /** The state before the loop: program 0 at index 0, both running, both queues empty. */
  function Init(store0: Store, store1: Store): Dual {
    Dual(0, 0, Pair(store0, store1), Pair(0, 0), Pair(Go, Go), Pair([], []), 0, false)
  }

  /** One pass of the loop: go on, `break`, or raise. */
  datatype DualStep = Continue(d: Dual) | Break(d: Dual) | Crash(exc: Exc)

  /** Writes register `x` of the running program. */
  function Write(d: Dual, x: string, v: int): Dual {
    d.(stores := d.stores.With(d.prog, d.stores.Get(d.prog)[x := v]))
  }

  /**
   * `i += 1` and the bounds check at the bottom of the loop: leaving the program
   * stops the run if the peer is done, and otherwise marks this program done
   * and resumes the peer at its saved index.
   */
  function Advance(prog: Duet.Program, d: Dual): DualStep {
    var i := d.i + 1;
    var p := d.prog;
    if 0 <= i < |prog| then Continue(d.(i := i))
    else if d.state.Get(Other(p)) == Done then Break(d.(i := i))
    else
      Continue(d.(ind := d.ind.With(p, i), state := d.state.With(p, Done),
                  prog := Other(p), i := d.ind.Get(Other(p)), regBroken := true))
  }

  /** `rcv` found its queue empty and the run goes on: save the index, wait, switch. */
  function Yield(d: Dual): Dual {
    var p := d.prog;
    d.(ind := d.ind.With(p, d.i), state := d.state.With(p, Waiting),
       prog := Other(p), i := d.ind.Get(Other(p)), regBroken := false)
  }

  /** `rcv` with nothing to receive: the instruction that may block or stop the run. */
  predicate Blocks(instr: Duet.Instr, d: Dual) {
    |instr| > 0 && instr[0] == "rcv" && |d.queue.Get(Other(d.prog))| == 0
  }

  /** A `jgz` whose jump is taken: the instruction that moves the index without the bounds check. */
  predicate Jumps(instr: Duet.Instr, d: Dual) {
    |instr| >= 2 && instr[0] == "jgz" && Resolve(d.stores.Get(d.prog), instr[1]) > 0
  }

  /**
   * What any other instruction does before `i += 1`: the new state, or the
   * exception it raises. Operands are evaluated in Python's order, which
   * decides between IndexError and TypeError when `reg` is the wrong object.
   */
  function Effect(instr: Duet.Instr, d: Dual): (r: Result<Dual>)
    requires |instr| > 0 && !Blocks(instr, d) && !Jumps(instr, d)
    ensures r.Ok? ==> r.value.prog == d.prog && r.value.i == d.i && r.value.ind == d.ind
    ensures r.Ok? ==> r.value.regBroken == d.regBroken
    ensures r.Ok? && r.value.stores != d.stores ==> !d.regBroken
  {
    var op := instr[0];
    var p := d.prog;
    var store := d.stores.Get(p);
    if op == "snd" then
      if |instr| < 2 then Raise(IndexError)
      else
        Ok(d.(sent := if p == 1 then d.sent + 1 else d.sent,
              queue := d.queue.With(p, d.queue.Get(p) + [Resolve(store, instr[1])])))
    else if op == "set" then
      // the right-hand side `instr[2]` is evaluated before the target
      if |instr| < 3 then Raise(IndexError)
      else if d.regBroken then Raise(TypeError)
      else Ok(Write(d, instr[1], Resolve(store, instr[2])))
    else if Duet.IsArith(op) then
      // `reg[x] op= ...` reads `reg[x]` before evaluating `instr[2]`
      if |instr| < 2 then Raise(IndexError)
      else if d.regBroken then Raise(TypeError)
      else if |instr| < 3 then Raise(IndexError)
      else
        match Duet.ArithValue(op, Lookup(store, instr[1]), Resolve(store, instr[2]))
        case Ok(v) => Ok(Write(d, instr[1], v))
        case Raise(e) => Raise(e)
    else if op == "rcv" then
      var q := d.queue.Get(Other(p));
      if |instr| < 2 then Raise(IndexError)
      else if d.regBroken then Raise(TypeError)
      else Ok(Write(d.(state := d.state.With(p, Go), queue := d.queue.With(Other(p), q[1..])), instr[1], q[0]))
    else if op == "jgz" && |instr| < 2 then Raise(IndexError)
    else Ok(d)
  }

  /** One pass of the loop body of `sim_dual`. */
  function DualExec(prog: Duet.Program, d: Dual): DualStep {
    match At(prog, d.i)
    case Raise(e) => Crash(e)
    case Ok(instr) =>
      var p := d.prog;
      if |instr| == 0 then Crash(IndexError)
      else if Blocks(instr, d) then
        if d.state.Get(Other(p)) == Done then Break(d)
        else if |d.queue.Get(p)| == 0 && d.state.Get(Other(p)) == Waiting then Break(d)
        else Continue(Yield(d))
      else if Jumps(instr, d) then
        if |instr| < 3 then Crash(IndexError)
        else Continue(d.(i := d.i + Resolve(d.stores.Get(p), instr[2])))
      else
        match Effect(instr, d)
        case Ok(d') => Advance(prog, d')
        case Raise(e) => Crash(e)
  }

  datatype DualOutcome = Stopped(sent: nat) | Failed(exc: Exc) | OutOfFuel

  /** At most `fuel` passes of the loop, with the outcome and the last state. */
  function DualRun(prog: Duet.Program, d: Dual, fuel: nat): (DualOutcome, Dual)
    decreases fuel
  {
    if fuel == 0 then (OutOfFuel, d)
    else
      match DualExec(prog, d)
      case Continue(d') => DualRun(prog, d', fuel - 1)
      case Break(d') => (Stopped(d'.sent), d')
      case Crash(e) => (Failed(e), d)
  }

  /** The opcode at index `i` under Python indexing, or "" when there is none. */
  function Opcode(prog: Duet.Program, i: int): string {
    match At(prog, i)
    case Ok(instr) => if |instr| > 0 then instr[0] else ""
    case Raise(_) => ""
  }

  /** The number of `snd` instructions program `who` executes during the run. */
  function Sends(prog: Duet.Program, d: Dual, fuel: nat, who: Pid): nat
    decreases fuel
  {
    if fuel == 0 then 0
    else
      match DualExec(prog, d)
      case Continue(d') =>
        (if d.prog == who && Opcode(prog, d.i) == "snd" then 1 else 0)
        + Sends(prog, d', fuel - 1, who)
      case Break(_) =>
        if d.prog == who && Opcode(prog, d.i) == "snd" then 1 else 0
      case Crash(_) => 0
  }

  /** Writes register `x` of program `p` in its `Registers` object. */
  method WriteReg(regs0: Registers, regs1: Registers, p: Pid, x: string, v: int)
    requires regs0 != regs1
    modifies regs0, regs1
    ensures Pair(regs0.store, regs1.store) ==
            Pair(old(regs0.store), old(regs1.store)).With(p, Pair(old(regs0.store), old(regs1.store)).Get(p)[x := v])
  {
    if p == 0 {
      regs0.store := regs0.store[x := v];
    } else {
      regs1.store := regs1.store[x := v];
    }
  }

  /** `sim_dual`: runs both programs, writing their registers in place. */
  method SimDual(regs0: Registers, regs1: Registers, prog: Duet.Program, fuel: nat) returns (out: DualOutcome)
    requires regs0 != regs1
    modifies regs0, regs1
    ensures out == DualRun(prog, Init(old(regs0.store), old(regs1.store)), fuel).0
    ensures var fin := DualRun(prog, Init(old(regs0.store), old(regs1.store)), fuel).1;
            regs0.store == fin.stores.zero && regs1.store == fin.stores.one
  {
    ghost var goal := DualRun(prog, Init(regs0.store, regs1.store), fuel);
    var sent, p: Pid := 0, 0;
    var ind, state, queue := Pair(0, 0), Pair(Go, Go), Pair([], []);
    var i, broken := 0, false;
    var left := fuel;
    while true
      invariant DualRun(prog, Dual(p, i, Pair(regs0.store, regs1.store), ind, state, queue, sent, broken), left) == goal
      decreases left
    {
      if left == 0 {
        return OutOfFuel;
      }
      var halt;
      halt, p, i, ind, state, queue, sent, broken := Pass(regs0, regs1, prog, p, i, ind, state, queue, sent, broken);
      if halt.Some? {
        return halt.value;
      }
      left := left - 1;
    }
  }

  /**
   * One pass of the loop body: either the loop goes on with the returned
   * variables, or `halt` holds what `sim_dual` returns or raises.
   */
  method Pass(regs0: Registers, regs1: Registers, prog: Duet.Program, p: Pid, i: int, ind: Pair<int>,
              state: Pair<Status>, queue: Pair<seq<int>>, sent: nat, broken: bool)
    returns (halt: Option<DualOutcome>, p': Pid, i': int, ind': Pair<int>, state': Pair<Status>,
             queue': Pair<seq<int>>, sent': nat, broken': bool)
    requires regs0 != regs1
    modifies regs0, regs1
    ensures var step := DualExec(prog, Dual(p, i, Pair(old(regs0.store), old(regs1.store)), ind, state, queue, sent, broken));
            match step
            case Continue(d') =>
              halt == None && d' == Dual(p', i', Pair(regs0.store, regs1.store), ind', state', queue', sent', broken')
            case Break(d') =>
              halt == Some(Stopped(d'.sent)) && d'.stores == Pair(regs0.store, regs1.store)
            case Crash(e) =>
              halt == Some(Failed(e)) && regs0.store == old(regs0.store) && regs1.store == old(regs1.store)
  {
    ghost var d := Dual(p, i, Pair(regs0.store, regs1.store), ind, state, queue, sent, broken);
    p', i', ind', state', queue', sent', broken' := p, i, ind, state, queue, sent, broken;
    var k := PyIndex(|prog|, i);
    if k.None? {
      return Some(Failed(IndexError)), p', i', ind', state', queue', sent', broken';
    }
    var instr := prog[k.value];
    if |instr| == 0 {
      return Some(Failed(IndexError)), p', i', ind', state', queue', sent', broken';
    }
    var op := instr[0];
    var regs := if p == 0 then regs0 else regs1;
    if op == "rcv" && |queue.Get(Other(p))| == 0 {
      if state.Get(Other(p)) == Done {
        return Some(Stopped(sent)), p', i', ind', state', queue', sent', broken';
      }
      if |queue.Get(p)| == 0 && state.Get(Other(p)) == Waiting {
        return Some(Stopped(sent)), p', i', ind', state', queue', sent', broken';
      }
      ind', state' := ind.With(p, i), state.With(p, Waiting);
      p' := Other(p);
      i', broken' := ind'.Get(p'), false;
      return None, p', i', ind', state', queue', sent', broken';
    }
    if op == "jgz" && |instr| >= 2 && regs.Get(instr[1]) > 0 {
      if |instr| < 3 {
        return Some(Failed(IndexError)), p', i', ind', state', queue', sent', broken';
      }
      i' := i + regs.Get(instr[2]);
      return None, p', i', ind', state', queue', sent', broken';
    }
    var ok, exc;
    ok, exc, queue', state', sent' := Perform(regs0, regs1, instr, p, i, ind, state, queue, sent, broken);
    if !ok {
      return Some(Failed(exc)), p', i', ind', state', queue', sent', broken';
    }
    i' := i + 1;
    if !(0 <= i' < |prog|) {
      if state'.Get(Other(p)) == Done {
        return Some(Stopped(sent')), p', i', ind', state', queue', sent', broken';
      }
      ind', state' := ind.With(p, i'), state'.With(p, Done);
      p' := Other(p);
      i', broken' := ind'.Get(p'), true;
    }
    halt := None;
  }

  /**
   * The body of the loop for an instruction that ends with `i += 1`, up to that
   * statement: it updates the registers in place and returns the new queues,
   * statuses and count, or `ok == false` with the exception raised.
   */
  method Perform(regs0: Registers, regs1: Registers, instr: Duet.Instr, p: Pid, i: int, ind: Pair<int>,
                 state: Pair<Status>, queue: Pair<seq<int>>, sent: nat, broken: bool)
    returns (ok: bool, exc: Exc, queue': Pair<seq<int>>, state': Pair<Status>, sent': nat)
    requires regs0 != regs1
    requires var d := Dual(p, i, Pair(regs0.store, regs1.store), ind, state, queue, sent, broken);
             |instr| > 0 && !Blocks(instr, d) && !Jumps(instr, d)
    modifies regs0, regs1
    ensures var r := Effect(instr, Dual(p, i, Pair(old(regs0.store), old(regs1.store)), ind, state, queue, sent, broken));
            && ok == r.Ok?
            && (!ok ==> exc == r.exc && regs0.store == old(regs0.store) && regs1.store == old(regs1.store))
            && (ok ==> r.value == Dual(p, i, Pair(regs0.store, regs1.store), ind, state', queue', sent', broken))
  {
    ok, exc, queue', state', sent' := true, IndexError, queue, state, sent;
    var op := instr[0];
    var regs := if p == 0 then regs0 else regs1;
    if op == "snd" {
      if |instr| < 2 {
        return false, IndexError, queue, state, sent;
      }
      if p == 1 {
        sent' := sent + 1;
      }
      queue' := queue.With(p, queue.Get(p) + [regs.Get(instr[1])]);
    } else if op == "set" {
      if |instr| < 3 {
        return false, IndexError, queue, state, sent;
      }
      if broken {
        return false, TypeError, queue, state, sent;
      }
      WriteReg(regs0, regs1, p, instr[1], regs.Get(instr[2]));
    } else if Duet.IsArith(op) {
      if |instr| < 2 {
        return false, IndexError, queue, state, sent;
      }
      if broken {
        return false, TypeError, queue, state, sent;
      }
      if |instr| < 3 {
        return false, IndexError, queue, state, sent;
      }
      var x, y := Lookup(regs.store, instr[1]), regs.Get(instr[2]);
      var v;
      if op == "add" {
        v := x + y;
      } else if op == "mul" {
        v := x * y;
      } else {
        if y == 0 {
          return false, ZeroDivisionError, queue, state, sent;
        }
        v := FloorMod(x, y);
      }
      WriteReg(regs0, regs1, p, instr[1], v);
    } else if op == "rcv" {
      var q := queue.Get(Other(p));
      state' := state.With(p, Go);
      queue' := queue.With(Other(p), q[1..]);
      if |instr| < 2 {
        return false, IndexError, queue, state, sent;
      }
      if broken {
        return false, TypeError, queue, state, sent;
      }
      WriteReg(regs0, regs1, p, instr[1], q[0]);
    } else if op == "jgz" && |instr| < 2 {
      return false, IndexError, queue, state, sent;
    }
  }

  // ----------------------------------------------------------------
  // Properties of one pass

  /** `snd x` by program p appends `get(x)` to the back of `queue[p]`; only program 1's sends are counted. */
  lemma SndAppends(instr: Duet.Instr, d: Dual)
    requires |instr| >= 2 && instr[0] == "snd"
    ensures Effect(instr, d).Ok?
    ensures var d' := Effect(instr, d).value;
            && d'.queue.Get(d.prog) == d.queue.Get(d.prog) + [Resolve(d.stores.Get(d.prog), instr[1])]
            && d'.queue.Get(Other(d.prog)) == d.queue.Get(Other(d.prog))
            && d'.sent == d.sent + (if d.prog == 1 then 1 else 0)
            && d'.stores == d.stores && d'.state == d.state
  {
  }

  /** `rcv x` by program p with a value waiting pops the front of `queue[1 - p]` into register x and marks p running. */
  lemma RcvPopsFront(instr: Duet.Instr, d: Dual)
    requires |instr| >= 2 && instr[0] == "rcv"
    requires |d.queue.Get(Other(d.prog))| > 0 && !d.regBroken
    ensures !Blocks(instr, d) && Effect(instr, d).Ok?
    ensures var d' := Effect(instr, d).value;
            var q := d.queue.Get(Other(d.prog));
            && d'.queue.Get(Other(d.prog)) == q[1..]
            && d'.queue.Get(d.prog) == d.queue.Get(d.prog)
            && Lookup(d'.stores.Get(d.prog), instr[1]) == q[0]
            && d'.stores.Get(Other(d.prog)) == d.stores.Get(Other(d.prog))
            && d'.state.Get(d.prog) == Go
            && d'.sent == d.sent
  {
  }

  /**
   * While `reg` is bound to the wrong object, every register write raises
   * TypeError; the instruction's own IndexError comes first where Python
   * evaluates the missing operand first.
   */
  lemma BrokenWriteRaises(instr: Duet.Instr, d: Dual)
    requires |instr| >= 3 && d.regBroken && !Blocks(instr, d) && !Jumps(instr, d)
    requires Duet.IsArith(instr[0]) || instr[0] == "rcv"
    ensures Effect(instr, d) == Raise(TypeError)
  {
  }

  /**
   * `rcv` on an empty queue stops the run exactly when the peer is done, or the
   * peer waits and this program's own outgoing queue is empty; otherwise this
   * program saves its index, waits, and the peer resumes at its saved index.
   */
  lemma RcvEmptyQueue(prog: Duet.Program, d: Dual)
    requires At(prog, d.i).Ok? && Blocks(At(prog, d.i).value, d)
    ensures DualExec(prog, d).Break? <==>
              d.state.Get(Other(d.prog)) == Done ||
              (|d.queue.Get(d.prog)| == 0 && d.state.Get(Other(d.prog)) == Waiting)
    ensures DualExec(prog, d).Break? ==> DualExec(prog, d).d == d
    ensures DualExec(prog, d).Continue? ==>
              var d' := DualExec(prog, d).d;
              && d'.prog == Other(d.prog)
              && d'.i == d.ind.Get(Other(d.prog))
              && d'.ind.Get(d.prog) == d.i
              && d'.state.Get(d.prog) == Waiting
              && d'.queue == d.queue && d'.stores == d.stores && d'.sent == d.sent
              && !d'.regBroken
  {
  }

  /**
   * `i += 1` inside the program goes on with the same program; stepping past
   * either end stops the run if the peer is already done, and otherwise marks
   * this program done and resumes the peer at its saved index.
   */
  lemma AdvanceRule(prog: Duet.Program, d: Dual)
    ensures 0 <= d.i + 1 < |prog| ==> Advance(prog, d) == Continue(d.(i := d.i + 1))
    ensures !(0 <= d.i + 1 < |prog|) ==>
              (Advance(prog, d).Break? <==> d.state.Get(Other(d.prog)) == Done)
    ensures !(0 <= d.i + 1 < |prog|) && Advance(prog, d).Continue? ==>
              var d' := Advance(prog, d).d;
              && d'.prog == Other(d.prog)
              && d'.state.Get(d.prog) == Done
              && d'.i == d.ind.Get(Other(d.prog))
              && d'.queue == d.queue && d'.stores == d.stores && d'.sent == d.sent
              && d'.regBroken
  {
  }

  /** `sim_dual` has no branch for an opcode outside the known seven: such an instruction changes nothing before the pc moves on. */
  lemma UnknownOpcodeSkipped(instr: Duet.Instr, d: Dual)
    requires |instr| >= 1
    requires var op := instr[0]; op != "snd" && !Duet.IsArith(op) && op != "rcv" && op != "jgz"
    ensures Effect(instr, d) == Ok(d)
  {
  }

  // ----------------------------------------------------------------
  // Properties of whole runs

  /** The answer counts exactly the `snd` instructions executed by program 1. */
  lemma {:induction false} SentCountsProgramOne(prog: Duet.Program, d: Dual, fuel: nat)
    requires DualRun(prog, d, fuel).0.Stopped?
    ensures DualRun(prog, d, fuel).0.sent == d.sent + Sends(prog, d, fuel, 1)
    decreases fuel
  {
    ExecSent(prog, d);
    match DualExec(prog, d)
    case Continue(d') =>
      SentCountsProgramOne(prog, d', fuel - 1);
    case Break(_) =>
    case Crash(_) =>
  }

  /** A pass that does not raise adds one to `sent` exactly when program 1 runs `snd`. */
  lemma ExecSent(prog: Duet.Program, d: Dual)
    ensures var bump := if d.prog == 1 && Opcode(prog, d.i) == "snd" then 1 else 0;
            match DualExec(prog, d)
            case Continue(d') => d'.sent == d.sent + bump
            case Break(d') => d'.sent == d.sent + bump
            case Crash(_) => true
  {
  }

  /** The instruction at index `i` (Python indexing) is a `rcv`. */
  predicate AtRcv(prog: Duet.Program, i: int) {
    At(prog, i).Ok? && |At(prog, i).value| > 0 && At(prog, i).value[0] == "rcv"
  }

  /**
   * Deadlock is detected: when both queues are empty, the running program is
   * at a `rcv` and the peer's saved index is a `rcv` too, the run stops within
   * two passes with the count it had, instead of switching back and forth.
   * A peer already done or waiting stops it in the first pass; a running
   * peer is resumed, finds its own queue empty as well and stops it.
   */
  lemma DeadlockStops(prog: Duet.Program, d: Dual, fuel: nat)
    requires fuel >= 2
    requires d.queue == Pair([], [])
    requires AtRcv(prog, d.i) && AtRcv(prog, d.ind.Get(Other(d.prog)))
    ensures DualRun(prog, d, fuel).0 == Stopped(d.sent)
  {
    var p := d.prog;
    assert Blocks(At(prog, d.i).value, d);
    if d.state.Get(Other(p)) == Go {
      var d1 := Yield(d);
      assert DualExec(prog, d) == Continue(d1);
      assert d1.state.Get(Other(d1.prog)) == Waiting;
      assert Blocks(At(prog, d1.i).value, d1);
      assert DualExec(prog, d1) == Break(d1);
    }
  }
}
