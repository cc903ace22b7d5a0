/**
 * The jump-offset maze of day05.py and its copy 17/day05.py (`follow_plain`,
 * `follow_strange`): starting at index 0, read the offset in the current
 * cell, change that cell in place, jump by the offset read and count the
 * step, until the index leaves the list.
 */
module JumpMaze {
  import opened PyLib

  /** `follow_plain` always adds 1 to the cell it leaves; `follow_strange` takes 1 from offsets of 3 or more. */
  datatype Rule = Plain | Strange

  function Bump(rule: Rule, v: int): (r: int)
    ensures r == v + 1 || r == v - 1
  {
    if rule == Strange && v >= 3 then v - 1 else v + 1
  }

  /** The list, the index `i` and the step count `steps`. */
  datatype Walker = Walker(cells: seq<int>, pc: int, steps: nat)

  /** One pass of the loop body, at an index inside the list. */
  function Jump(rule: Rule, w: Walker): (r: Walker)
    requires 0 <= w.pc < |w.cells|
    ensures |r.cells| == |w.cells| && r.steps == w.steps + 1
    ensures r.pc == w.pc + w.cells[w.pc]
  {
    var v := w.cells[w.pc];
    Walker(w.cells[w.pc := Bump(rule, v)], w.pc + v, w.steps + 1)
  }

  datatype Exit = Exited(steps: nat) | OutOfFuel

  /** At most `fuel` jumps, with the outcome and the walker at the end. */
  function Walk(rule: Rule, w: Walker, fuel: nat): (r: (Exit, Walker))
    ensures |r.1.cells| == |w.cells|
    decreases fuel
  {
    if !(0 <= w.pc < |w.cells|) then (Exited(w.steps), w)
    else if fuel == 0 then (OutOfFuel, w)
    else Walk(rule, Jump(rule, w), fuel - 1)
  }

  function Begin(cells: seq<int>): Walker {
    Walker(cells, 0, 0)
  }

  /** `follow_plain(instructions)`, rewriting the list in place. */
  method FollowPlain(instructions: array<int>, fuel: nat) returns (out: Exit)
    modifies instructions
    ensures out == Walk(Plain, Begin(old(instructions[..])), fuel).0
    ensures instructions[..] == Walk(Plain, Begin(old(instructions[..])), fuel).1.cells
  {
    ghost var goal := Walk(Plain, Begin(instructions[..]), fuel);
    var steps := 0;
    var i := 0;
    var left := fuel;
    while 0 <= i < instructions.Length
      invariant Walk(Plain, Walker(instructions[..], i, steps), left) == goal
      decreases left
    {
      if left == 0 {
        return OutOfFuel;
      }
      var val := instructions[i];
      instructions[i] := instructions[i] + 1;
      i := i + val;
      steps := steps + 1;
      left := left - 1;
    }
    return Exited(steps);
  }

  /** `follow_strange(instructions)`, rewriting the list in place. */
  method FollowStrange(instructions: array<int>, fuel: nat) returns (out: Exit)
    modifies instructions
    ensures out == Walk(Strange, Begin(old(instructions[..])), fuel).0
    ensures instructions[..] == Walk(Strange, Begin(old(instructions[..])), fuel).1.cells
  {
    ghost var goal := Walk(Strange, Begin(instructions[..]), fuel);
    var steps := 0;
    var i := 0;
    var left := fuel;
    while 0 <= i < instructions.Length
      invariant Walk(Strange, Walker(instructions[..], i, steps), left) == goal
      decreases left
    {
      if left == 0 {
        return OutOfFuel;
      }
      var val := instructions[i];
      if val >= 3 {
        instructions[i] := instructions[i] - 1;
      } else {
        instructions[i] := instructions[i] + 1;
      }
      i := i + val;
      steps := steps + 1;
      left := left - 1;
    }
    return Exited(steps);
  }

  // ----------------------------------------------------------------
  // Properties

  /** A jump changes only the cell it leaves, by the rule, and keeps the length. */
  lemma JumpChangesOneCell(rule: Rule, w: Walker)
    requires 0 <= w.pc < |w.cells|
    ensures Jump(rule, w).cells[w.pc] == (if rule == Strange && w.cells[w.pc] >= 3 then w.cells[w.pc] - 1 else w.cells[w.pc] + 1)
    ensures forall k :: 0 <= k < |w.cells| && k != w.pc ==> Jump(rule, w).cells[k] == w.cells[k]
  {
  }

  /** An empty list is left at once: 0 steps, whatever the fuel. */
  lemma EmptyListNoSteps(rule: Rule, fuel: nat)
    ensures Walk(rule, Begin([]), fuel) == (Exited(0), Begin([]))
  {
  }

  /** The walk stops only outside `[0, len)`, and it stops with the step count it reached. */
  lemma {:induction false} ExitOutside(rule: Rule, w: Walker, fuel: nat)
    requires Walk(rule, w, fuel).0.Exited?
    ensures var (e, last) := Walk(rule, w, fuel);
            && !(0 <= last.pc < |last.cells|)
            && e.steps == last.steps
            && w.steps <= last.steps <= w.steps + fuel
    decreases fuel
  {
    if 0 <= w.pc < |w.cells| {
      ExitOutside(rule, Jump(rule, w), fuel - 1);
    }
  }

  /** Under `follow_plain` the offsets only grow, and their sum grows by exactly the number of steps. */
  lemma {:induction false} PlainSum(w: Walker, fuel: nat)
    ensures var last := Walk(Plain, w, fuel).1;
            && Sum(last.cells) == Sum(w.cells) + (last.steps - w.steps)
            && forall k :: 0 <= k < |w.cells| ==> last.cells[k] >= w.cells[k]
    decreases fuel
  {
    if 0 <= w.pc < |w.cells| && fuel > 0 {
      var w' := Jump(Plain, w);
      SumUpdate(w.cells, w.pc, w.cells[w.pc] + 1);
      PlainSum(w', fuel - 1);
    }
  }

  /** Under `follow_strange` a cell never exceeds the larger of its first value and 3. */
  lemma {:induction false} StrangeBounded(w: Walker, fuel: nat, bound: seq<int>)
    requires |bound| == |w.cells|
    requires forall k :: 0 <= k < |w.cells| ==> w.cells[k] <= bound[k] && 3 <= bound[k]
    ensures var last := Walk(Strange, w, fuel).1;
            forall k :: 0 <= k < |last.cells| ==> last.cells[k] <= bound[k]
    decreases fuel
  {
    if 0 <= w.pc < |w.cells| && fuel > 0 {
      StrangeBounded(Jump(Strange, w), fuel - 1, bound);
    }
  }
}
