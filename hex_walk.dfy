/**
 * The hexagonal walk of day11.py in cube coordinates: `run` follows a list
 * of directions from the origin and records every position reached;
 * `find_dist` is the hexagonal distance `(|x| + |y| + |z|) // 2`; part 'a'
 * reports the distance of the last position and part 'b' the largest
 * distance along the path.
 */
module HexWalk {
  import opened PyLib

  datatype Cube = Cube(x: int, y: int, z: int)

  const Origin := Cube(0, 0, 0)

  function Plus(a: Cube, b: Cube): Cube {
    Cube(a.x + b.x, a.y + b.y, a.z + b.z)
  }

  /** The six directions of the hexagonal grid. */
  datatype Dir = N | NE | SE | S | SW | NW

  /** The direction a step names; any other string is illegal. */
  function ParseDir(step: string): Option<Dir> {
    if step == "n" then Some(N)
    else if step == "ne" then Some(NE)
    else if step == "se" then Some(SE)
    else if step == "s" then Some(S)
    else if step == "sw" then Some(SW)
    else if step == "nw" then Some(NW)
    else None
  }

  function Name(d: Dir): string {
    match d
    case N => "n"
    case NE => "ne"
    case SE => "se"
    case S => "s"
    case SW => "sw"
    case NW => "nw"
  }

  /** The change of coordinates for a direction: two coordinates move by one, in opposite senses. */
  function Delta(d: Dir): (r: Cube)
    ensures r.x + r.y + r.z == 0
  {
    match d
    case N => Cube(0, 1, -1)
    case NE => Cube(1, 0, -1)
    case SE => Cube(1, -1, 0)
    case S => Cube(0, -1, 1)
    case SW => Cube(-1, 0, 1)
    case NW => Cube(-1, 1, 0)
  }

  predicate IsDirection(step: string) {
    ParseDir(step).Some?
  }

  /** The position a path ends at: its last entry, or the origin for no steps. */
  function End(path: seq<Cube>): Cube {
    if path == [] then Origin else path[|path| - 1]
  }

  /** `run(steps)`: the list of positions, or RuntimeError at an illegal direction. */
  function Walk(steps: seq<string>): Result<seq<Cube>>
    decreases |steps|
  {
    if steps == [] then Ok([])
    else
      var before := Walk(steps[..|steps| - 1]);
      var d := ParseDir(steps[|steps| - 1]);
      if before.Raise? then before
      else if d.None? then Raise(RuntimeError)
      else Ok(before.value + [Plus(End(before.value), Delta(d.value))])
  }

  /** `run(steps)`, appending one tuple per step. */
  method Run(steps: seq<string>) returns (r: Result<seq<Cube>>)
    ensures r == Walk(steps)
  {
    var path: seq<Cube> := [];
    var x, y, z := 0, 0, 0;
    for t := 0 to |steps|
      invariant Walk(steps[..t]) == Ok(path)
      invariant End(path) == Cube(x, y, z)
    {
      ghost var here := Cube(x, y, z);
      var step := steps[t];
      if step == "n" {
        y := y + 1;
        z := z - 1;
      } else if step == "ne" {
        x := x + 1;
        z := z - 1;
      } else if step == "se" {
        x := x + 1;
        y := y - 1;
      } else if step == "s" {
        y := y - 1;
        z := z + 1;
      } else if step == "sw" {
        x := x - 1;
        z := z + 1;
      } else if step == "nw" {
        x := x - 1;
        y := y + 1;
      } else {
        IllegalStepRaises(steps, t);
        return Raise(RuntimeError);
      }
      assert ParseDir(step).Some? && Cube(x, y, z) == Plus(here, Delta(ParseDir(step).value));
      WalkNext(steps, t);
      path := path + [Cube(x, y, z)];
    }
    assert steps[..|steps|] == steps;
    return Ok(path);
  }

  /** `find_dist(final)`; the sum is never negative, so `//` is plain division. */
  function Dist(c: Cube): nat {
    (Abs(c.x) + Abs(c.y) + Abs(c.z)) / 2
  }

  /** Part 'a' without the reader: the distance of `path[len(path) - 1]`, IndexError on an empty path. */
  function FinalDist(path: seq<Cube>): (r: Result<nat>)
    ensures r.Ok? <==> path != []
    ensures r.Ok? ==> r.value == Dist(End(path))
  {
    if path == [] then Raise(IndexError) else Ok(Dist(path[|path| - 1]))
  }

  /** The largest distance over a non-empty path. */
  function Farthest(path: seq<Cube>): nat
    requires path != []
    decreases |path|
  {
    if |path| == 1 then Dist(path[0])
    else
      var rest := Farthest(path[..|path| - 1]);
      var last := Dist(path[|path| - 1]);
      if last > rest then last else rest
  }

  /** Part 'b' without the reader: `max_dist` over the path, IndexError at `path[0]` on an empty path. */
  method MaxDist(path: seq<Cube>) returns (r: Result<nat>)
    ensures r == if path == [] then Raise(IndexError) else Ok(Farthest(path))
  {
    if |path| == 0 {
      return Raise(IndexError);
    }
    var maxDist := Dist(path[0]);
    for t := 1 to |path|
      invariant maxDist == Farthest(path[..t])
    {
      assert path[..t + 1][..t] == path[..t];
      var d := Dist(path[t]);
      maxDist := if maxDist > d then maxDist else d;
    }
    assert path[..|path|] == path;
    return Ok(maxDist);
  }

  // ----------------------------------------------------------------
  // Properties

  predicate Balanced(c: Cube) {
    c.x + c.y + c.z == 0
  }

  /** The prefix one step longer: the walk so far moved by the next direction. */
  lemma WalkNext(steps: seq<string>, t: nat)
    requires t < |steps|
    ensures var before, d := Walk(steps[..t]), ParseDir(steps[t]);
            Walk(steps[..t + 1]) == if before.Raise? then before
                                    else if d.None? then Raise(RuntimeError)
                                    else Ok(before.value + [Plus(End(before.value), Delta(d.value))])
  {
    assert steps[..t + 1][..t] == steps[..t];
  }

  /** `run` on one more step: the walk so far moved by that step's direction. */
  lemma WalkAppend(steps: seq<string>, step: string)
    ensures var before, d := Walk(steps), ParseDir(step);
            Walk(steps + [step]) == if before.Raise? then before
                                    else if d.None? then Raise(RuntimeError)
                                    else Ok(before.value + [Plus(End(before.value), Delta(d.value))])
  {
    assert (steps + [step])[..|steps|] == steps;
  }

  /** The first illegal direction ends the whole walk with RuntimeError. */
  lemma IllegalStepRaises(steps: seq<string>, t: nat)
    requires t < |steps| && Walk(steps[..t]).Ok? && !IsDirection(steps[t])
    ensures Walk(steps) == Raise(RuntimeError)
  {
    WalkNext(steps, t);
    WalkRaisesOnward(steps, t + 1);
  }

  /** Once a prefix raises, every longer prefix raises the same exception. */
  lemma {:induction false} WalkRaisesOnward(steps: seq<string>, t: nat)
    requires t <= |steps| && Walk(steps[..t]).Raise?
    ensures Walk(steps) == Walk(steps[..t])
    decreases |steps| - t
  {
    if t < |steps| {
      assert steps[..t + 1][..t] == steps[..t];
      WalkRaisesOnward(steps, t + 1);
    } else {
      assert steps[..t] == steps;
    }
  }

  /** The position before step `k`: the origin, or entry `k - 1`. */
  function Before(path: seq<Cube>, k: nat): Cube
    requires k <= |path|
  {
    if k == 0 then Origin else path[k - 1]
  }

  /** `path` records `steps`: one entry per step, each the position before it moved by that step's direction. */
  predicate Traces(steps: seq<string>, path: seq<Cube>) {
    && |path| == |steps|
    && forall k :: 0 <= k < |path| ==> Moved(steps, path, k)
  }

  /** Entry `k` is the position before it moved by the legal direction `steps[k]`. */
  predicate Moved(steps: seq<string>, path: seq<Cube>, k: nat)
    requires k < |path| && k < |steps|
  {
    IsDirection(steps[k]) && path[k] == Plus(Before(path, k), Delta(ParseDir(steps[k]).value))
  }

  /** A recorded path keeps `x + y + z == 0` at every position. */
  lemma {:induction false} TracesBalanced(steps: seq<string>, path: seq<Cube>, k: nat)
    requires Traces(steps, path) && k < |path|
    ensures Balanced(path[k])
  {
    assert Moved(steps, path, k);
    if k > 0 {
      TracesBalanced(steps, path, k - 1);
    }
  }

  /** Recording one more legal step extends a recorded path by the position it reaches. */
  lemma TracesAppend(steps: seq<string>, path: seq<Cube>, step: string)
    requires Traces(steps, path) && IsDirection(step)
    ensures Traces(steps + [step], path + [Plus(End(path), Delta(ParseDir(step).value))])
  {
    var steps', path' := steps + [step], path + [Plus(End(path), Delta(ParseDir(step).value))];
    forall k | 0 <= k < |path'|
      ensures Moved(steps', path', k)
    {
      if k < |path| {
        assert Moved(steps, path, k);
        assert path'[k] == path[k] && steps'[k] == steps[k] && Before(path', k) == Before(path, k);
      } else {
        assert Before(path', k) == End(path);
      }
    }
  }

  /**
   * `run` raises RuntimeError exactly when some direction is illegal, and
   * otherwise returns the path that records the steps.
   */
  lemma {:induction false} WalkShape(steps: seq<string>)
    ensures Walk(steps).Raise? <==> exists k :: 0 <= k < |steps| && !IsDirection(steps[k])
    ensures Walk(steps).Raise? ==> Walk(steps).exc == RuntimeError
    ensures Walk(steps).Ok? ==> Traces(steps, Walk(steps).value)
    decreases |steps|
  {
    if steps != [] {
      var init, last := steps[..|steps| - 1], steps[|steps| - 1];
      assert init + [last] == steps;
      WalkAppend(init, last);
      WalkShape(init);
      assert forall k :: 0 <= k < |init| ==> init[k] == steps[k];
      if Walk(steps).Ok? {
        TracesAppend(init, Walk(init).value, last);
      }
    }
  }

  function Largest(c: Cube): nat {
    var a, b, d := Abs(c.x), Abs(c.y), Abs(c.z);
    if a >= b && a >= d then a else if b >= d then b else d
  }

  /** On balanced coordinates the distance is the largest absolute coordinate. */
  lemma DistIsLargest(c: Cube)
    requires Balanced(c)
    ensures Dist(c) == Largest(c)
  {
  }

  /** Moving each coordinate by at most 1 moves the largest absolute coordinate by at most 1. */
  lemma LargestShift(c: Cube, c': Cube)
    requires -1 <= c'.x - c.x <= 1 && -1 <= c'.y - c.y <= 1 && -1 <= c'.z - c.z <= 1
    ensures Largest(c) - 1 <= Largest(c') <= Largest(c) + 1
  {
  }

  /** One step moves the distance by at most 1. */
  lemma StepMovesDistByOne(c: Cube, d: Dir)
    requires Balanced(c)
    ensures Dist(c) - 1 <= Dist(Plus(c, Delta(d))) <= Dist(c) + 1
  {
    var c' := Plus(c, Delta(d));
    DistIsLargest(c);
    DistIsLargest(c');
    LargestShift(c, c');
  }

  /** After k + 1 steps the distance is at most k + 1. */
  lemma {:induction false} DistAtMostSteps(steps: seq<string>, path: seq<Cube>, k: nat)
    requires Traces(steps, path) && k < |path|
    ensures Dist(path[k]) <= k + 1
  {
    TracesBalanced(steps, path, k);
    assert Moved(steps, path, k);
    if k == 0 {
      StepMovesDistByOne(Origin, ParseDir(steps[0]).value);
    } else {
      TracesBalanced(steps, path, k - 1);
      DistAtMostSteps(steps, path, k - 1);
      StepMovesDistByOne(path[k - 1], ParseDir(steps[k]).value);
    }
  }

  /** The direction that undoes `d`. */
  function Opposite(d: Dir): (r: Dir)
    ensures Delta(r) == Cube(-Delta(d).x, -Delta(d).y, -Delta(d).z)
  {
    match d
    case N => S
    case S => N
    case NE => SW
    case SW => NE
    case SE => NW
    case NW => SE
  }

  /** Each direction's own string names it. */
  lemma ParseName(d: Dir)
    ensures ParseDir(Name(d)) == Some(d)
  {
  }

  /**
   * A step followed by one in the opposite direction (`n` then `s`, say)
   * returns to where the walk was.
   */
  lemma BackAndForth(steps: seq<string>, there: string, back: string)
    requires Walk(steps).Ok? && IsDirection(there)
    requires ParseDir(back) == Some(Opposite(ParseDir(there).value))
    ensures var more := steps + [there, back];
            && Walk(more).Ok?
            && |Walk(more).value| == |Walk(steps).value| + 2
            && End(Walk(more).value) == End(Walk(steps).value)
  {
    var one := steps + [there];
    var d := ParseDir(there).value;
    WalkAppend(steps, there);
    WalkAppend(one, back);
    assert one + [back] == steps + [there, back];
    var mid := End(Walk(one).value);
    assert mid == Plus(End(Walk(steps).value), Delta(d));
    assert Plus(mid, Delta(Opposite(d))) == End(Walk(steps).value);
  }

  /** From the origin, a step and its opposite end at distance 0. */
  lemma BackHome(there: string, back: string)
    requires IsDirection(there)
    requires ParseDir(back) == Some(Opposite(ParseDir(there).value))
    ensures Walk([there, back]).Ok? && FinalDist(Walk([there, back]).value) == Ok(0)
  {
    var none: seq<string> := [];
    assert Walk(none) == Ok([]);
    BackAndForth(none, there, back);
    assert none + [there, back] == [there, back];
    assert End(Walk([there, back]).value) == Origin;
    assert Dist(Origin) == 0;
  }

  /** Part 'b' is at least part 'a', and it is the distance of some position on the path. */
  lemma {:induction false} FarthestBounds(path: seq<Cube>)
    requires path != []
    ensures exists k :: 0 <= k < |path| && Farthest(path) == Dist(path[k])
    ensures forall k :: 0 <= k < |path| ==> Dist(path[k]) <= Farthest(path)
    ensures Farthest(path) >= FinalDist(path).value
    decreases |path|
  {
    if |path| > 1 {
      var init := path[..|path| - 1];
      FarthestBounds(init);
      var j :| 0 <= j < |init| && Farthest(init) == Dist(init[j]);
      if Farthest(path) == Farthest(init) {
        assert Farthest(path) == Dist(path[j]);
      } else {
        assert Farthest(path) == Dist(path[|path| - 1]);
      }
    } else {
      assert Farthest(path) == Dist(path[0]);
    }
  }

  /** For a legal non-empty walk: part 'a' <= part 'b' <= the number of steps. */
  lemma PartsBounded(steps: seq<string>)
    requires Walk(steps).Ok? && steps != []
    ensures var path := Walk(steps).value;
            path != [] && FinalDist(path).value <= Farthest(path) <= |steps|
  {
    WalkShape(steps);
    var path := Walk(steps).value;
    FarthestBounds(path);
    var j :| 0 <= j < |path| && Farthest(path) == Dist(path[j]);
    DistAtMostSteps(steps, path, j);
  }
}
