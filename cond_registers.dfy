/**
 * The conditional register machine of day08.py: each instruction
 * `reg op val if c_reg c_op c_val` adds (`inc`) or subtracts (`dec`) `val`
 * from `reg` when the comparison of `c_reg` with `c_val` holds. `modify`
 * applies the instructions to a register dictionary in place and returns
 * either the largest final value (part 'a') or the largest value an `inc`
 * ever produced, starting from 0 (any other part).
 */
module CondRegisters {
  import opened PyLib

  /** The six comparison operators `eval` is given here. */
  predicate IsComparison(op: string) {
    op == "<" || op == ">" || op == "<=" || op == ">=" || op == "==" || op == "!="
  }

  /** `eval("registers[c_reg]" + c_op + c_val)` for a comparison operator. */
  function Compare(lhs: int, op: string, rhs: int): bool
    requires IsComparison(op)
  {
    if op == "<" then lhs < rhs
    else if op == ">" then lhs > rhs
    else if op == "<=" then lhs <= rhs
    else if op == ">=" then lhs >= rhs
    else if op == "==" then lhs == rhs
    else lhs != rhs
  }

  /** A 7-token instruction whose condition is a comparison with an integer literal. */
  predicate Supported(inst: seq<string>) {
    |inst| == 7 ==> IsComparison(inst[5]) && ParseInt(inst[6]).Some?
  }

  /**
   * A token Python 3 compiles as a decimal integer literal, after an optional
   * sign: a non-zero literal may not start with `0`, so `05` and `-007` are
   * refused while `0`, `00` and `-0` are accepted.
   */
  predicate IsDecimalLiteral(tok: string) {
    if |tok| > 0 && (tok[0] == '-' || tok[0] == '+') then IsUnsignedDecimal(tok[1..]) else IsUnsignedDecimal(tok)
  }

  predicate IsUnsignedDecimal(digits: string) {
    |digits| > 0 && (digits[0] != '0' || forall k :: 0 <= k < |digits| ==> digits[k] == '0')
  }

  /** The register dictionary and `overall_max`. */
  datatype Machine = Machine(regs: map<string, int>, best: int)

  /** The condition of a 7-token instruction whose condition register exists. */
  predicate Holds(m: Machine, inst: seq<string>)
    requires |inst| == 7 && Supported(inst) && inst[4] in m.regs
  {
    Compare(m.regs[inst[4]], inst[5], ParseInt(inst[6]).value)
  }

  /** One pass of the loop body. */
  function Step(m: Machine, inst: seq<string>): Result<Machine>
    requires Supported(inst)
  {
    if |inst| != 7 then Raise(ValueError)
    else if !IsDecimalLiteral(inst[6]) then Raise(SyntaxError)
    else
      var reg, op, val, cReg := inst[0], inst[1], inst[2], inst[4];
      if cReg !in m.regs then Raise(KeyError)
      else if !Holds(m, inst) then Ok(m)
      else if op != "inc" && op != "dec" then Raise(RuntimeError)
      else if reg !in m.regs then Raise(KeyError)
      else if ParseInt(val).None? then Raise(ValueError)
      else if op == "inc" then
        var v := m.regs[reg] + ParseInt(val).value;
        Ok(Machine(m.regs[reg := v], if v > m.best then v else m.best))
      else Ok(m.(regs := m.regs[reg := m.regs[reg] - ParseInt(val).value]))
  }

  /** The instructions in order: the exception that stopped them, if any, and the machine at that point. */
  function Run(m: Machine, insts: seq<seq<string>>): (Option<Exc>, Machine)
    requires forall i :: 0 <= i < |insts| ==> Supported(insts[i])
    decreases |insts|
  {
    if insts == [] then (None, m)
    else
      var next := Step(m, insts[0]);
      if next.Raise? then (Some(next.exc), m) else Run(next.value, insts[1..])
  }

  /** `max` of a non-empty set of values. */
  ghost function MaxValue(values: set<int>): (top: int)
    requires values != {}
    ensures top in values && forall v :: v in values ==> v <= top
  {
    MaxExists(values);
    var top :| top in values && forall v :: v in values ==> v <= top;
    top
  }

  lemma {:induction false} MaxExists(values: set<int>)
    requires values != {}
    ensures exists top :: top in values && forall v :: v in values ==> v <= top
    decreases |values|
  {
    var x := SomeElement(values);
    if values != {x} {
      MaxExists(values - {x});
      var top :| top in values - {x} && forall v :: v in values - {x} ==> v <= top;
      var best := if x > top then x else top;
      forall v | v in values ensures v <= best {
        if v != x {
          assert v in values - {x};
        }
      }
    }
  }

  /** What `modify` returns once every instruction ran. */
  ghost function Answer(m: Machine, part: string): Result<int> {
    if part == "a" then
      if |m.regs| == 0 then Raise(ValueError) else Ok(MaxValue(m.regs.Values))
    else Ok(m.best)
  }

  /** The register dictionary `modify` works on. */
  class Registers {
    var values: map<string, int>

    constructor(values: map<string, int>)
      ensures this.values == values
    {
      this.values := values;
    }
  }

  /** `modify(instructions, registers, part)`, updating `registers` in place. */
  method Modify(instructions: seq<seq<string>>, registers: Registers, part: string) returns (r: Result<int>)
    requires forall i :: 0 <= i < |instructions| ==> Supported(instructions[i])
    modifies registers
    ensures var (exc, m) := Run(Machine(old(registers.values), 0), instructions);
            && registers.values == m.regs
            && r == if exc.Some? then Raise(exc.value) else Answer(m, part)
  {
    ghost var goal := Run(Machine(registers.values, 0), instructions);
    var overallMax := 0;
    for t := 0 to |instructions|
      invariant Run(Machine(registers.values, overallMax), instructions[t..]) == goal
    {
      var inst := instructions[t];
      assert instructions[t..][1..] == instructions[t + 1..];
      if |inst| != 7 {
        return Raise(ValueError);
      }
      var reg, op, val, cReg, cOp, cVal := inst[0], inst[1], inst[2], inst[4], inst[5], inst[6];
      if !IsDecimalLiteral(cVal) {
        return Raise(SyntaxError);
      }
      if cReg !in registers.values {
        return Raise(KeyError);
      }
      if Compare(registers.values[cReg], cOp, ParseInt(cVal).value) {
        if op == "inc" {
          if reg !in registers.values {
            return Raise(KeyError);
          }
          var v := ParseInt(val);
          if v.None? {
            return Raise(ValueError);
          }
          registers.values := registers.values[reg := registers.values[reg] + v.value];
          overallMax := if registers.values[reg] > overallMax then registers.values[reg] else overallMax;
        } else if op == "dec" {
          if reg !in registers.values {
            return Raise(KeyError);
          }
          var v := ParseInt(val);
          if v.None? {
            return Raise(ValueError);
          }
          registers.values := registers.values[reg := registers.values[reg] - v.value];
        } else {
          return Raise(RuntimeError);
        }
      }
    }
    if part == "a" {
      if |registers.values| == 0 {
        return Raise(ValueError);
      }
      var top := LargestValue(registers.values.Values);
      return Ok(top);
    }
    return Ok(overallMax);
  }

  /** `max(list(registers.values()))`. */
  method LargestValue(values: set<int>) returns (top: int)
    requires values != {}
    ensures top == MaxValue(values)
  {
    ghost var pick := SomeElement(values);
    var first :| first in values;
    top := first;
    var left := values - {first};
    while left != {}
      invariant left <= values && top in values
      invariant forall v :: v in values - left ==> v <= top
      decreases |left|
    {
      ghost var candidate := SomeElement(left);
      var v :| v in left;
      if v > top {
        top := v;
      }
      assert values - (left - {v}) == (values - left) + {v};
      left := left - {v};
    }
    assert values - left == values;
  }

  // ----------------------------------------------------------------
  // The registers set up by the reader

  /** `registers[line[0]], registers[line[4]] = 0, 0` for every line; a line of fewer than 5 tokens raises IndexError. */
  function InitialRegisters(lines: seq<seq<string>>): (r: Result<map<string, int>>)
    ensures r.Ok? <==> forall i :: 0 <= i < |lines| ==> |lines[i]| >= 5
    ensures r.Ok? ==> forall i :: 0 <= i < |lines| ==> lines[i][0] in r.value && lines[i][4] in r.value
    ensures r.Ok? ==> forall k :: k in r.value ==> r.value[k] == 0
    decreases |lines|
  {
    if lines == [] then Ok(map[])
    else
      var n := |lines| - 1;
      var init := InitialRegisters(lines[..n]);
      assert forall i :: 0 <= i < n ==> lines[..n][i] == lines[i];
      if init.Raise? then init
      else if |lines[n]| < 5 then Raise(IndexError)
      else Ok(init.value[lines[n][0] := 0][lines[n][4] := 0])
  }

  // ----------------------------------------------------------------
  // Properties

  /** A step changes at most the target register, keeps the set of registers, and changes nothing when the condition fails. */
  lemma StepFrame(m: Machine, inst: seq<string>)
    requires Supported(inst) && Step(m, inst).Ok?
    ensures var m' := Step(m, inst).value;
            && m'.regs.Keys == m.regs.Keys
            && (forall k :: k in m.regs && k != inst[0] ==> m'.regs[k] == m.regs[k])
            && (!Holds(m, inst) ==> m' == m)
  {
  }

  /** RuntimeError is raised only for an instruction whose condition holds and whose operation is neither `inc` nor `dec`. */
  lemma RuntimeErrorOnlyWhenTaken(m: Machine, inst: seq<string>)
    requires Supported(inst) && Step(m, inst) == Raise(RuntimeError)
    ensures |inst| == 7 && inst[4] in m.regs && Holds(m, inst) && inst[1] != "inc" && inst[1] != "dec"
  {
  }

  /** An unknown operation behind a false condition is skipped without error, once the condition compiles. */
  lemma UnknownOpSkipped(m: Machine, inst: seq<string>)
    requires |inst| == 7 && Supported(inst) && inst[4] in m.regs && !Holds(m, inst)
    ensures Step(m, inst) == if IsDecimalLiteral(inst[6]) then Ok(m) else Raise(SyntaxError)
  {
  }

  /**
   * `eval` compiles the condition before it reads any register, so a literal
   * with a leading zero raises SyntaxError whatever the registers hold, and
   * SyntaxError has no other cause.
   */
  lemma SyntaxErrorIff(m: Machine, inst: seq<string>)
    requires Supported(inst)
    ensures Step(m, inst) == Raise(SyntaxError) <==> |inst| == 7 && !IsDecimalLiteral(inst[6])
  {
  }

  /** `a inc 1 if a < 05` does not run: `registers[c_reg]<05` is not Python 3. */
  lemma LeadingZeroRaises(m: Machine)
    ensures var inst := ["a", "inc", "1", "if", "a", "<", "05"];
            Supported(inst) && Step(m, inst) == Raise(SyntaxError)
  {
    var inst := ["a", "inc", "1", "if", "a", "<", "05"];
    assert inst[6] == "05" && inst[5] == "<";
    assert ParseInt("05") == Some(5) by {
      assert "05"[..1] == "0" && "0"[..0] == [];
    }
    var lit := inst[6];
    assert lit[0] == '0' && lit[1] == '5' && |lit| == 2;
    assert !IsUnsignedDecimal(lit);
  }

  /** A `dec` by a negative amount, which raises its register. */
  predicate NegativeDec(inst: seq<string>) {
    |inst| == 7 && inst[1] == "dec" && ParseInt(inst[2]).Some? && ParseInt(inst[2]).value < 0
  }

  /** A step other than a `dec` by a negative amount keeps every register at or below `overall_max` once they all are. */
  lemma StepKeepsBound(m: Machine, inst: seq<string>)
    requires Supported(inst) && Step(m, inst).Ok? && !NegativeDec(inst)
    requires forall k :: k in m.regs ==> m.regs[k] <= m.best
    ensures var m' := Step(m, inst).value;
            forall k :: k in m'.regs ==> m'.regs[k] <= m'.best
  {
  }

  /**
   * `overall_max` never falls and the set of registers never changes; without
   * `dec` by a negative amount, once `overall_max` bounds every register it
   * keeps doing so.
   */
  lemma {:induction false} RunKeepsBound(m: Machine, insts: seq<seq<string>>)
    requires forall i :: 0 <= i < |insts| ==> Supported(insts[i])
    ensures Run(m, insts).1.best >= m.best
    ensures Run(m, insts).1.regs.Keys == m.regs.Keys
    ensures (forall i :: 0 <= i < |insts| ==> !NegativeDec(insts[i])) && (forall k :: k in m.regs ==> m.regs[k] <= m.best) ==>
            forall k :: k in Run(m, insts).1.regs ==> Run(m, insts).1.regs[k] <= Run(m, insts).1.best
    decreases |insts|
  {
    if insts != [] {
      var next := Step(m, insts[0]);
      if next.Ok? {
        StepFrame(m, insts[0]);
        if !NegativeDec(insts[0]) && forall k :: k in m.regs ==> m.regs[k] <= m.best {
          StepKeepsBound(m, insts[0]);
        }
        assert forall i :: 0 <= i < |insts| - 1 ==> insts[1..][i] == insts[i + 1];
        RunKeepsBound(next.value, insts[1..]);
      }
    }
  }

  /** Part 'b' is never negative; from all-zero registers and without `dec` by a negative amount it is at least part 'a'. */
  lemma PartBDominates(regs: map<string, int>, insts: seq<seq<string>>)
    requires forall i :: 0 <= i < |insts| ==> Supported(insts[i]) && !NegativeDec(insts[i])
    requires |regs| > 0 && forall k :: k in regs ==> regs[k] == 0
    ensures var (exc, m) := Run(Machine(regs, 0), insts);
            && Answer(m, "b").value >= 0
            && Answer(m, "a").Ok? && Answer(m, "a").value <= Answer(m, "b").value
  {
    RunKeepsBound(Machine(regs, 0), insts);
    var m := Run(Machine(regs, 0), insts).1;
    var k := SomeElement(regs.Keys);
    assert k in m.regs;
  }

  /**
   * As written, `overall_max` misses values reached through `dec` by a
   * negative amount: `a dec -5 if a == 0` takes `a` from 0 to 5, yet part
   * 'b' answers 0 while part 'a' answers 5.
   */
  lemma NegativeDecMissed()
    ensures var inst := ["a", "dec", "-5", "if", "a", "==", "0"];
            && Supported(inst) && NegativeDec(inst)
            && var m := Run(Machine(map["a" := 0], 0), [inst]).1;
               m.regs == map["a" := 5] && Answer(m, "b") == Ok(0) && Answer(m, "a") == Ok(5)
  {
    var inst := ["a", "dec", "-5", "if", "a", "==", "0"];
    assert ParseInt("0") == Some(0) by {
      assert "0"[..0] == [];
    }
    assert ParseInt("-5") == Some(-5) by {
      assert "-5"[1..] == "5" && "5"[..0] == [];
    }
    var m0 := Machine(map["a" := 0], 0);
    assert inst[2] == "-5" && inst[6] == "0" && inst[4] == "a" && inst[5] == "==";
    assert Holds(m0, inst);
    assert inst[1] != "inc";
    assert map["a" := 0]["a" := 0 - -5] == map["a" := 5];
    assert Step(m0, inst) == Ok(Machine(map["a" := 5], 0));
    assert [inst][1..] == [];
    var regs := map["a" := 5];
    assert regs["a"] in regs.Values;
    forall v | v in regs.Values ensures v == 5 {
      var k :| k in regs && regs[k] == v;
    }
  }

  // ----------------------------------------------------------------
  // The evidently intended running maximum

  /** One step with `overall_max` following every write, `dec` included. */
  function StepTracked(m: Machine, inst: seq<string>): Result<Machine>
    requires Supported(inst)
  {
    var r := Step(m, inst);
    if r.Raise? || |inst| != 7 || inst[0] !in r.value.regs then r
    else
      var v := r.value.regs[inst[0]];
      Ok(r.value.(best := if v > r.value.best then v else r.value.best))
  }

  function RunTracked(m: Machine, insts: seq<seq<string>>): (Option<Exc>, Machine)
    requires forall i :: 0 <= i < |insts| ==> Supported(insts[i])
    decreases |insts|
  {
    if insts == [] then (None, m)
    else
      var next := StepTracked(m, insts[0]);
      if next.Raise? then (Some(next.exc), m) else RunTracked(next.value, insts[1..])
  }

  /** With the tracked maximum every step keeps all registers at or below it. */
  lemma StepTrackedKeepsBound(m: Machine, inst: seq<string>)
    requires Supported(inst) && StepTracked(m, inst).Ok?
    requires forall k :: k in m.regs ==> m.regs[k] <= m.best
    ensures var m' := StepTracked(m, inst).value;
            m'.best >= m.best && m'.regs.Keys == m.regs.Keys && forall k :: k in m'.regs ==> m'.regs[k] <= m'.best
  {
    StepFrame(m, inst);
  }

  lemma {:induction false} RunTrackedKeepsBound(m: Machine, insts: seq<seq<string>>)
    requires forall i :: 0 <= i < |insts| ==> Supported(insts[i])
    requires forall k :: k in m.regs ==> m.regs[k] <= m.best
    ensures var m' := RunTracked(m, insts).1;
            m'.best >= m.best && m'.regs.Keys == m.regs.Keys && forall k :: k in m'.regs ==> m'.regs[k] <= m'.best
    decreases |insts|
  {
    if insts != [] {
      var next := StepTracked(m, insts[0]);
      if next.Ok? {
        StepTrackedKeepsBound(m, insts[0]);
        assert forall i :: 0 <= i < |insts| - 1 ==> insts[1..][i] == insts[i + 1];
        RunTrackedKeepsBound(next.value, insts[1..]);
      }
    }
  }

  /** With the tracked maximum, part 'b' is at least part 'a' for every program, negative amounts included. */
  lemma TrackedPartBDominates(regs: map<string, int>, insts: seq<seq<string>>)
    requires forall i :: 0 <= i < |insts| ==> Supported(insts[i])
    requires |regs| > 0 && forall k :: k in regs ==> regs[k] == 0
    ensures var (exc, m) := RunTracked(Machine(regs, 0), insts);
            && Answer(m, "b").value >= 0
            && Answer(m, "a").Ok? && Answer(m, "a").value <= Answer(m, "b").value
  {
    RunTrackedKeepsBound(Machine(regs, 0), insts);
    var m := RunTracked(Machine(regs, 0), insts).1;
    var k := SomeElement(regs.Keys);
    assert k in m.regs;
  }

  /** With every named register set up, no instruction raises KeyError. */
  lemma {:induction false} NoKeyError(m: Machine, insts: seq<seq<string>>)
    requires forall i :: 0 <= i < |insts| ==> Supported(insts[i])
    requires forall i :: 0 <= i < |insts| && |insts[i]| == 7 ==> insts[i][0] in m.regs && insts[i][4] in m.regs
    ensures Run(m, insts).0 != Some(KeyError)
    decreases |insts|
  {
    if insts != [] {
      var next := Step(m, insts[0]);
      if next.Ok? {
        StepFrame(m, insts[0]);
        assert forall i :: 0 <= i < |insts| - 1 ==> insts[1..][i] == insts[i + 1];
        NoKeyError(next.value, insts[1..]);
      }
    }
  }

  /** The registers the reader sets up are enough: running its own lines never raises KeyError. */
  lemma ReaderRegistersSuffice(lines: seq<seq<string>>)
    requires forall i :: 0 <= i < |lines| ==> Supported(lines[i])
    requires InitialRegisters(lines).Ok?
    ensures Run(Machine(InitialRegisters(lines).value, 0), lines).0 != Some(KeyError)
  {
    NoKeyError(Machine(InitialRegisters(lines).value, 0), lines);
  }
}
