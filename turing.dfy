/**
 * The Turing machine of solutions/day25.py. The tape is a `defaultdict(int)`
 * from position to value, blank (0) everywhere at the start; the machine
 * starts in state `'a'` at position 0. Each step reads the value under the
 * head, and the `states` table gives, for that state and value, the value
 * to write, the move (+1 or -1) and the next state. After the given number
 * of steps, `follow_yaml` returns the sum of the tape's values, the
 * diagnostic checksum.
 */
module Turing {
  import opened PyLib

  /** `(write, move, state)`: one entry of the `states` table. */
  datatype Action = Action(write: int, move: int, next: char)

  /** `states`: for each state, the action on reading 0 and the action on reading 1. */
  const Table: map<char, seq<Action>> := map[
    'a' := [Action(1, 1, 'b'), Action(0, -1, 'b')],
    'b' := [Action(1, -1, 'c'), Action(0, 1, 'e')],
    'c' := [Action(1, 1, 'e'), Action(0, -1, 'd')],
    'd' := [Action(1, -1, 'a'), Action(1, -1, 'a')],
    'e' := [Action(0, 1, 'a'), Action(0, 1, 'f')],
    'f' := [Action(1, 1, 'e'), Action(1, 1, 'a')]
  ]

  /** The tape, the head's position and the current state. */
  datatype Machine = Machine(tape: map<int, int>, pos: int, state: char)

  /** `tape = defaultdict(int); pos, state = 0, 'a'`. */
  const Blank := Machine(map[], 0, 'a')

  /** `tape[pos]` on a `defaultdict(int)`: 0 for a cell never written. */
  function Read(tape: map<int, int>, pos: int): int {
    if pos in tape then tape[pos] else 0
  }

  /** `states[state][val]`: KeyError for an unknown state, IndexError for a value the pair cannot index. */
  function Rule(state: char, val: int): Result<Action> {
    if state !in Table then Raise(KeyError) else At(Table[state], val)
  }

  /** One step: write, move and change state as the table says for the value under the head. */
  function Step(m: Machine): Result<Machine> {
    match Rule(m.state, Read(m.tape, m.pos))
    case Raise(e) => Raise(e)
    case Ok(a) => Ok(Machine(m.tape[m.pos := a.write], m.pos + a.move, a.next))
  }

  /** The machine after `n` steps from `m`, stopping at the first exception. */
  function Run(m: Machine, n: nat): Result<Machine> {
    if n == 0 then Ok(m)
    else
      var prev := Run(m, n - 1);
      if prev.Raise? then prev else Step(prev.value)
  }

  /** A machine the table can always step: a known state, and a tape of zeros and ones. */
  predicate Good(m: Machine) {
    m.state in Table && forall k :: k in m.tape ==> m.tape[k] == 0 || m.tape[k] == 1
  }

  /** The cells holding 1. */
  function Ones(tape: map<int, int>): set<int> {
    set k | k in tape && tape[k] == 1
  }

  /**
   * `follow_yaml()` with `steps` in place of 12861455: runs the machine from
   * the blank tape and returns `sum(tape.values())`, which is the number of
   * cells holding 1 on the tape it leaves.
   */
  method FollowYaml(steps: nat) returns (checksum: int)
    ensures Run(Blank, steps).Ok? && checksum == |Ones(Run(Blank, steps).value.tape)|
  {
    var tape: map<int, int> := map[];
    var pos, state := 0, 'a';
    for i := 0 to steps
      invariant Run(Blank, i) == Ok(Machine(tape, pos, state))
      invariant Good(Machine(tape, pos, state))
    {
      StepGood(Machine(tape, pos, state));
      var val := if pos in tape then tape[pos] else 0;
      var action := Table[state][val];
      tape := tape[pos := action.write];
      pos := pos + action.move;
      state := action.next;
    }
    checksum := SumValues(tape);
  }

  /** `sum(tape.values())`: on a tape of zeros and ones, the number of cells holding 1. */
  method SumValues(tape: map<int, int>) returns (total: int)
    ensures (forall k :: k in tape ==> tape[k] == 0 || tape[k] == 1) ==> total == |Ones(tape)|
  {
    total := 0;
    var rest := tape.Keys;
    ghost var binary := forall k :: k in tape ==> tape[k] == 0 || tape[k] == 1;
    while rest != {}
      invariant rest <= tape.Keys
      invariant binary ==> total == |Ones(tape) - rest|
      decreases rest
    {
      ghost var some := SomeElement(rest);
      var k :| k in rest;
      if binary {
        OnesTake(tape, rest, k);
      }
      total := total + tape[k];
      rest := rest - {k};
    }
    assert Ones(tape) - {} == Ones(tape);
  }

  // ----------------------------------------------------------------
  // Properties

  /** Every action of the table writes 0 or 1, moves one cell, and names a state of the table; each state has one action per value. */
  lemma TableWellFormed()
    ensures forall s :: s in Table ==> |Table[s]| == 2
    ensures forall s, v :: s in Table && 0 <= v < 2 ==>
              var a := Table[s][v];
              (a.write == 0 || a.write == 1) && (a.move == 1 || a.move == -1) && a.next in Table
  {
    assert Table.Keys == {'a', 'b', 'c', 'd', 'e', 'f'};
  }

  /**
   * A machine of a known state on a tape of zeros and ones steps without
   * error, by the table's entry for the value under the head: that cell
   * gets the written value, no other cell changes, and the head moves by
   * one cell to the next state; the machine stays one the table can step.
   */
  lemma StepGood(m: Machine)
    requires Good(m)
    ensures var val := Read(m.tape, m.pos);
            && (val == 0 || val == 1)
            && Step(m).Ok?
            && var a, next := Table[m.state][val], Step(m).value;
               && next.tape == m.tape[m.pos := a.write]
               && next.pos == m.pos + a.move && (next.pos == m.pos + 1 || next.pos == m.pos - 1)
               && next.state == a.next
               && Good(next)
  {
    TableWellFormed();
    var val := Read(m.tape, m.pos);
    assert Rule(m.state, val) == Ok(Table[m.state][val]);
  }

  /**
   * From the blank tape the machine never raises; after `n` steps the tape
   * holds only zeros and ones, the head is at most `n` cells from 0, and
   * every written cell is less than `n` cells from 0.
   */
  lemma {:induction false} RunGood(n: nat)
    ensures Run(Blank, n).Ok? && Good(Run(Blank, n).value)
    ensures Abs(Run(Blank, n).value.pos) <= n
    ensures forall k :: k in Run(Blank, n).value.tape ==> Abs(k) < n
  {
    if n > 0 {
      RunGood(n - 1);
      StepGood(Run(Blank, n - 1).value);
    }
  }

  /** Each step sets at most one more cell to 1, so the checksum is at most the number of steps. */
  lemma {:induction false} OnesBound(n: nat)
    ensures Run(Blank, n).Ok? && |Ones(Run(Blank, n).value.tape)| <= n
  {
    if n > 0 {
      OnesBound(n - 1);
      RunGood(n - 1);
      OnesStep(Run(Blank, n - 1).value);
    }
  }

  /** One step adds at most one cell holding 1. */
  lemma OnesStep(m: Machine)
    requires Good(m)
    ensures Step(m).Ok? && |Ones(Step(m).value.tape)| <= |Ones(m.tape)| + 1
  {
    StepGood(m);
    OnesWrite(m.tape, m.pos, Table[m.state][Read(m.tape, m.pos)].write);
  }

  /** Writing one cell adds at most that cell to the cells holding 1. */
  lemma OnesWrite(tape: map<int, int>, pos: int, w: int)
    ensures |Ones(tape[pos := w])| <= |Ones(tape)| + 1
  {
    var before, after := Ones(tape), Ones(tape[pos := w]);
    assert after <= before + {pos};
    SubsetCard(after, before + {pos});
  }

  /** A subset is no larger. */
  lemma {:induction false} SubsetCard(a: set<int>, b: set<int>)
    requires a <= b
    ensures |a| <= |b|
    decreases |b|
  {
    if a != {} {
      var x := SomeElement(a);
      SubsetCard(a - {x}, b - {x});
    }
  }

  /** Moving the key `k` from the cells still to sum to the summed ones adds `tape[k]` to their count, on a tape of zeros and ones. */
  lemma OnesTake(tape: map<int, int>, rest: set<int>, k: int)
    requires rest <= tape.Keys && k in rest
    requires tape[k] == 0 || tape[k] == 1
    ensures |Ones(tape) - (rest - {k})| == |Ones(tape) - rest| + tape[k]
  {
    var ones := Ones(tape);
    if tape[k] == 1 {
      assert ones - (rest - {k}) == (ones - rest) + {k};
    } else {
      assert ones - (rest - {k}) == ones - rest;
    }
  }
}
