/**
 * The duelling generators of solutions/day15.py. Each generator keeps one
 * value and replaces it by `value * factor % 2147483647` (16807 for `gen_a`,
 * 48271 for `gen_b`); in part 'b' it yields only values that are multiples
 * of 4 (`gen_a`) or 8 (`gen_b`), otherwise every value. `count_matches`
 * draws one value from each generator per round and counts the rounds
 * whose values agree in their low 16 bits.
 */
module Generators {
  import opened PyLib

  const Modulus := 2147483647
  const FactorA := 16807
  const FactorB := 48271

  /** One generator transform, `value * factor % 2147483647` (floor and Euclidean modulo agree for a positive modulus). */
  function Advance(value: int, factor: int): (r: int)
    ensures 0 <= r < Modulus
  {
    (value * factor) % Modulus
  }

  /** The generator transform applied `k` times. */
  function Iterate(value: int, factor: int, k: nat): int {
    if k == 0 then value else Advance(Iterate(value, factor, k - 1), factor)
  }

  /** What a generator demands of a value before yielding it: a multiple of `multiple` in part 'b', nothing otherwise. */
  function Multiple(part: string, m: nat): (r: nat)
    requires m >= 1
    ensures r >= 1
  {
    if part == "b" then m else 1
  }

  /**
   * The next yield from state `value`: keep transforming until a value is a
   * multiple of `multiple`, at most `fuel` times. The yielded value is also
   * the generator's new state.
   */
  function NextYield(value: int, factor: int, multiple: nat, fuel: nat): (r: (Option<int>, int))
    requires multiple >= 1
    ensures r.0.Some? ==> r.0.value == r.1
    decreases fuel
  {
    if fuel == 0 then (None, value)
    else
      var v := Advance(value, factor);
      if v % multiple == 0 then (Some(v), v) else NextYield(v, factor, multiple, fuel - 1)
  }

  /** A running `gen_a` or `gen_b`: its current value, its factor and the multiple it filters for. */
  class Generator {
    var value: int
    const factor: int
    const multiple: nat

    constructor(seed: int, factor: int, multiple: nat)
      requires multiple >= 1
      ensures value == seed && this.factor == factor && this.multiple == multiple
    {
      value := seed;
      this.factor := factor;
      this.multiple := multiple;
    }

    /** `next(gen)`: the `while True` loop up to the next `yield`, with at most `fuel` transforms. */
    method Next(fuel: nat) returns (r: Option<int>)
      requires multiple >= 1
      modifies this
      ensures (r, value) == NextYield(old(value), factor, multiple, fuel)
    {
      var left := fuel;
      while left > 0
        invariant NextYield(value, factor, multiple, left) == NextYield(old(value), factor, multiple, fuel)
        decreases left
      {
        value := (value * factor) % 2147483647;
        if value % multiple == 0 {
          return Some(value);
        }
        left := left - 1;
      }
      return None;
    }
  }

  /** `gen_a(a, part)`. */
  method GenA(a: int, part: string) returns (g: Generator)
    ensures fresh(g) && g.value == a && g.factor == FactorA && g.multiple == Multiple(part, 4)
  {
    g := new Generator(a, 16807, if part == "b" then 4 else 1);
  }

  /** `gen_b(b, part)`. */
  method GenB(b: int, part: string) returns (g: Generator)
    ensures fresh(g) && g.value == b && g.factor == FactorB && g.multiple == Multiple(part, 8)
  {
    g := new Generator(b, 48271, if part == "b" then 8 else 1);
  }

  /** The rounds `count_matches` plays for a part: 40 000 000 for 'a', 5 000 000 for 'b'. */
  function Rounds(part: string): Result<nat> {
    if part == "a" then Ok(40000000)
    else if part == "b" then Ok(5000000)
    else Raise(RuntimeError)
  }

  /** `a & 0xFFFF` for the non-negative values the generators yield. */
  function Low16(v: int): int {
    v % 0x1_0000
  }

  /** The two generators' values. */
  datatype Pair = Pair(a: int, b: int)

  datatype Tally = Counted(count: nat) | Failed(exc: Exc) | OutOfFuel

  /**
   * `count` plus the matches of the next `left` rounds, each yield searched
   * with at most `fuel` transforms; with the generators' values afterwards.
   */
  function Play(count: nat, p: Pair, fa: int, ma: nat, fb: int, mb: nat, left: nat, fuel: nat): (r: (Tally, Pair))
    requires ma >= 1 && mb >= 1
    ensures !r.0.Failed?
    decreases left
  {
    if left == 0 then (Counted(count), p)
    else
      var (ya, a') := NextYield(p.a, fa, ma, fuel);
      var (yb, b') := NextYield(p.b, fb, mb, fuel);
      if ya.None? then (OutOfFuel, Pair(a', p.b))
      else if yb.None? then (OutOfFuel, Pair(a', b'))
      else
        var hit := if Low16(ya.value) == Low16(yb.value) then 1 else 0;
        Play(count + hit, Pair(a', b'), fa, ma, fb, mb, left - 1, fuel)
  }

  /** `count_matches(ag, bg, part)` on the generators' values and settings. */
  function Matches(part: string, p: Pair, fa: int, ma: nat, fb: int, mb: nat, fuel: nat): (Tally, Pair)
    requires ma >= 1 && mb >= 1
  {
    var rounds := Rounds(part);
    if rounds.Raise? then (Failed(rounds.exc), p)
    else Play(0, p, fa, ma, fb, mb, rounds.value, fuel)
  }

  /** `count_matches(ag, bg, part)`, drawing from both generators in place. */
  method CountMatches(ag: Generator, bg: Generator, part: string, fuel: nat) returns (r: Tally)
    requires ag != bg && ag.multiple >= 1 && bg.multiple >= 1
    modifies ag, bg
    ensures (r, Pair(ag.value, bg.value))
            == Matches(part, Pair(old(ag.value), old(bg.value)), ag.factor, ag.multiple, bg.factor, bg.multiple, fuel)
  {
    var count := 0;
    var i;
    if part == "a" {
      i := 40000000;
    } else if part == "b" {
      i := 5000000;
    } else {
      return Failed(RuntimeError);
    }
    ghost var goal := Play(0, Pair(ag.value, bg.value), ag.factor, ag.multiple, bg.factor, bg.multiple, i, fuel);
    for t := 0 to i
      invariant Play(count, Pair(ag.value, bg.value), ag.factor, ag.multiple, bg.factor, bg.multiple, i - t, fuel) == goal
    {
      var a := ag.Next(fuel);
      if a.None? {
        return OutOfFuel;
      }
      var b := bg.Next(fuel);
      if b.None? {
        return OutOfFuel;
      }
      if a.value % 0x1_0000 == b.value % 0x1_0000 {
        count := count + 1;
      }
    }
    return Counted(count);
  }

  // ----------------------------------------------------------------
  // Properties

  /** Transforming once and then `k` times is transforming `k + 1` times. */
  lemma {:induction false} IterateShift(value: int, factor: int, k: nat)
    ensures Iterate(Advance(value, factor), factor, k) == Iterate(value, factor, k + 1)
  {
    if k > 0 {
      IterateShift(value, factor, k - 1);
    }
  }

  /** After `k` transforms the value is a multiple of `multiple`, and after none of the fewer transforms from 1 on was it. */
  predicate FirstMultipleAt(value: int, factor: int, multiple: nat, k: nat)
    requires multiple >= 1
  {
    && Iterate(value, factor, k) % multiple == 0
    && forall j :: 1 <= j < k ==> Iterate(value, factor, j) % multiple != 0
  }

  /** The first multiple after `k + 1` transforms from `value` is the first after `k` from the next value, and back. */
  lemma FirstMultipleShift(value: int, factor: int, multiple: nat, k: nat)
    requires multiple >= 1 && k >= 1 && Advance(value, factor) % multiple != 0
    ensures FirstMultipleAt(value, factor, multiple, k + 1) <==> FirstMultipleAt(Advance(value, factor), factor, multiple, k)
  {
    var v0 := Advance(value, factor);
    IterateShift(value, factor, k);
    assert Iterate(value, factor, 1) == v0;
    forall j | 1 <= j < k ensures Iterate(v0, factor, j) == Iterate(value, factor, j + 1) {
      IterateShift(value, factor, j);
    }
    if FirstMultipleAt(v0, factor, multiple, k) {
      forall j | 1 <= j < k + 1 ensures Iterate(value, factor, j) % multiple != 0 {
        if j > 1 {
          assert Iterate(v0, factor, j - 1) % multiple != 0;
        }
      }
    }
    if FirstMultipleAt(value, factor, multiple, k + 1) {
      forall j | 1 <= j < k ensures Iterate(v0, factor, j) % multiple != 0 {
        assert Iterate(value, factor, j + 1) % multiple != 0;
      }
    }
  }

  /**
   * A yield is the first multiple of `multiple` in generation order: the
   * value after some `k` transforms, with none of the earlier values a
   * multiple; it lies in `[0, 2147483647)`.
   */
  lemma {:induction false} NextYieldIsFirstMultiple(value: int, factor: int, multiple: nat, fuel: nat)
    requires multiple >= 1 && NextYield(value, factor, multiple, fuel).0.Some?
    ensures var v := NextYield(value, factor, multiple, fuel).0.value;
            && 0 <= v < Modulus
            && exists k :: 1 <= k <= fuel && v == Iterate(value, factor, k) && FirstMultipleAt(value, factor, multiple, k)
    decreases fuel
  {
    var v0 := Advance(value, factor);
    var v := NextYield(value, factor, multiple, fuel).0.value;
    assert Iterate(value, factor, 1) == v0;
    if v0 % multiple == 0 {
      assert FirstMultipleAt(value, factor, multiple, 1);
    } else {
      assert NextYield(value, factor, multiple, fuel) == NextYield(v0, factor, multiple, fuel - 1);
      NextYieldIsFirstMultiple(v0, factor, multiple, fuel - 1);
      var k :| 1 <= k <= fuel - 1 && v == Iterate(v0, factor, k) && FirstMultipleAt(v0, factor, multiple, k);
      FirstMultipleShift(value, factor, multiple, k);
      IterateShift(value, factor, k);
      assert 1 <= k + 1 <= fuel && v == Iterate(value, factor, k + 1);
    }
  }

  /** Conversely, a first multiple within `fuel` transforms is what the generator yields. */
  lemma {:induction false} FirstMultipleIsYielded(value: int, factor: int, multiple: nat, fuel: nat, k: nat)
    requires multiple >= 1 && 1 <= k <= fuel && FirstMultipleAt(value, factor, multiple, k)
    ensures NextYield(value, factor, multiple, fuel).0 == Some(Iterate(value, factor, k))
    decreases fuel
  {
    var v0 := Advance(value, factor);
    assert Iterate(value, factor, 1) == v0;
    if k > 1 {
      assert v0 % multiple != 0;
      FirstMultipleShift(value, factor, multiple, k - 1);
      IterateShift(value, factor, k - 1);
      FirstMultipleIsYielded(v0, factor, multiple, fuel - 1, k - 1);
    }
  }

  /** Outside part 'b' a generator yields every value: one transform per `next`. */
  lemma YieldsEveryValue(value: int, factor: int, part: string, m: nat, fuel: nat)
    requires part != "b" && m >= 1 && fuel >= 1
    ensures NextYield(value, factor, Multiple(part, m), fuel).0 == Some(Advance(value, factor))
  {
  }

  /** In part 'b', `gen_a` yields only multiples of 4 and `gen_b` only multiples of 8. */
  lemma PartBMultiples(a: int, b: int, fuel: nat)
    ensures NextYield(a, FactorA, Multiple("b", 4), fuel).0.Some? ==> NextYield(a, FactorA, Multiple("b", 4), fuel).0.value % 4 == 0
    ensures NextYield(b, FactorB, Multiple("b", 8), fuel).0.Some? ==> NextYield(b, FactorB, Multiple("b", 8), fuel).0.value % 8 == 0
  {
    if NextYield(a, FactorA, 4, fuel).0.Some? {
      NextYieldIsFirstMultiple(a, FactorA, 4, fuel);
      var k :| 1 <= k <= fuel && NextYield(a, FactorA, 4, fuel).0.value == Iterate(a, FactorA, k) && FirstMultipleAt(a, FactorA, 4, k);
    }
    if NextYield(b, FactorB, 8, fuel).0.Some? {
      NextYieldIsFirstMultiple(b, FactorB, 8, fuel);
      var k :| 1 <= k <= fuel && NextYield(b, FactorB, 8, fuel).0.value == Iterate(b, FactorB, k) && FirstMultipleAt(b, FactorB, 8, k);
    }
  }

  /** Each round adds at most one match. */
  lemma {:induction false} PlayBound(count: nat, p: Pair, fa: int, ma: nat, fb: int, mb: nat, left: nat, fuel: nat)
    requires ma >= 1 && mb >= 1
    ensures var r := Play(count, p, fa, ma, fb, mb, left, fuel).0;
            r.Counted? ==> count <= r.count <= count + left
    decreases left
  {
    if left > 0 {
      var (ya, a') := NextYield(p.a, fa, ma, fuel);
      var (yb, b') := NextYield(p.b, fb, mb, fuel);
      if ya.Some? && yb.Some? {
        var hit := if Low16(ya.value) == Low16(yb.value) then 1 else 0;
        PlayBound(count + hit, Pair(a', b'), fa, ma, fb, mb, left - 1, fuel);
      }
    }
  }

  /**
   * `count_matches` raises RuntimeError exactly for a part other than 'a'
   * or 'b'; otherwise a count it returns is at most the number of rounds.
   */
  lemma MatchesBound(part: string, p: Pair, fa: int, ma: nat, fb: int, mb: nat, fuel: nat)
    requires ma >= 1 && mb >= 1
    ensures var r := Matches(part, p, fa, ma, fb, mb, fuel).0;
            && (r.Failed? <==> part != "a" && part != "b")
            && (r.Failed? ==> r.exc == RuntimeError)
            && (r.Counted? ==> r.count <= Rounds(part).value)
  {
    if Rounds(part).Ok? {
      PlayBound(0, p, fa, ma, fb, mb, Rounds(part).value, fuel);
    }
  }
}
