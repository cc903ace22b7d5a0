/**
 * The virus carrier of solutions/day22.py. The grid is a `defaultdict(int)`
 * from `(row, column)` to a node status (0 clean, 1 weakened, 2 infected,
 * 3 flagged), centred on `(0, 0)`; the carrier starts there facing up,
 * `(-1, 0)`. Each burst turns according to the current node's status,
 * changes that node, and moves one node forward. `simple_infection` knows
 * only clean and infected nodes, `complex_infection` all four; both count
 * the bursts that infect a node.
 */
module Virus {
  import opened PyLib

  /** A grid node or a direction, as `(row, column)`. */
  type Pos = (int, int)

  /** `to_left`: the direction after a left turn. */
  const ToLeft: map<Pos, Pos> := map[(0, -1) := (1, 0), (1, 0) := (0, 1), (0, 1) := (-1, 0), (-1, 0) := (0, -1)]

  /** `to_right`, built by inverting `to_left`: the direction after a right turn. */
  const ToRight: map<Pos, Pos> := map[(1, 0) := (0, -1), (0, 1) := (1, 0), (-1, 0) := (0, 1), (0, -1) := (-1, 0)]

  /** `statuses[v]`; a value outside 0..3 is a KeyError. */
  function Status(v: int): (r: Result<char>)
    ensures r.Ok? <==> 0 <= v <= 3
    ensures r.Raise? ==> r.exc == KeyError
  {
    if v == 0 then Ok('c')
    else if v == 1 then Ok('w')
    else if v == 2 then Ok('i')
    else if v == 3 then Ok('f')
    else Raise(KeyError)
  }

  /** `grid[p]` on a `defaultdict(int)`: 0 for a node never written. */
  function Cell(grid: map<Pos, int>, p: Pos): int {
    if p in grid then grid[p] else 0
  }

  // ----------------------------------------------------------------
  // The grid

  /** The node `(row - rows // 2, col - cols // 2)` is within a `rows` by `cols` input. */
  predicate InWindow(p: Pos, rows: nat, cols: nat) {
    0 <= p.0 + rows / 2 < rows && 0 <= p.1 + cols / 2 < cols
  }

  /** `int(c == '#') * 2`. */
  function Paint(c: char): int {
    if c == '#' then 2 else 0
  }

  /** Every row is at least as long as the first, which sets the number of columns. */
  predicate Rectangular(data: seq<seq<char>>) {
    |data| > 0 && forall k :: 0 <= k < |data| ==> |data[k]| >= |data[0]|
  }

  /** The status `init_grid` gives the node `p`: the input character it is centred on. */
  function InitCell(data: seq<seq<char>>, p: Pos): int
    requires Rectangular(data) && InWindow(p, |data|, |data[0]|)
  {
    Paint(data[p.0 + |data| / 2][p.1 + |data[0]| / 2])
  }

  /**
   * `init_grid(data)`: the input centred on `(0, 0)`, `#` infected and
   * anything else clean. An empty input fails at `data[0]`; a row shorter
   * than the first fails when the column loop reaches its end.
   */
  method InitGrid(data: seq<seq<char>>) returns (r: Result<map<Pos, int>>)
    ensures r.Raise? ==> r.exc == IndexError
    ensures r.Ok? <==> Rectangular(data)
    ensures r.Ok? ==> forall p :: p in r.value <==> InWindow(p, |data|, |data[0]|)
    ensures r.Ok? ==> forall p :: p in r.value ==> InWindow(p, |data|, |data[0]|) && r.value[p] == InitCell(data, p)
  {
    if |data| == 0 {
      return Raise(IndexError);
    }
    var rows, cols := |data|, |data[0]|;
    var grid: map<Pos, int> := map[];
    for row := 0 to rows
      invariant forall k :: 0 <= k < row ==> |data[k]| >= cols
      invariant forall p :: p in grid <==> InWindow(p, rows, cols) && p.0 + rows / 2 < row
      invariant forall p :: p in grid ==> InWindow(p, rows, cols) && p.0 + rows / 2 < row && grid[p] == Paint(data[p.0 + rows / 2][p.1 + cols / 2])
    {
      for col := 0 to cols
        invariant col <= |data[row]|
        invariant forall p :: p in grid <==> InWindow(p, rows, cols) && (p.0 + rows / 2 < row || (p.0 + rows / 2 == row && p.1 + cols / 2 < col))
        invariant forall p :: p in grid ==> InWindow(p, rows, cols) && (p.0 + rows / 2 < row || (p.0 + rows / 2 == row && p.1 + cols / 2 < col)) && grid[p] == Paint(data[p.0 + rows / 2][p.1 + cols / 2])
      {
        if col >= |data[row]| {
          return Raise(IndexError);
        }
        grid := grid[(row - rows / 2, col - cols / 2) := Paint(data[row][col])];
      }
    }
    return Ok(grid);
  }

  // ----------------------------------------------------------------
  // Bursts

  /** The grid, the carrier's node and direction, and the number of infecting bursts so far. */
  datatype Carrier = Carrier(grid: map<Pos, int>, pos: Pos, dir: Pos, count: int)

  /** The carrier at the start of either run. */
  function Start(grid: map<Pos, int>): (c: Carrier)
    ensures c.dir in ToLeft
  {
    Carrier(grid, (0, 0), (-1, 0), 0)
  }

  /** Write `v` to the current node, face `dir`, step one node forward. */
  function Advance(c: Carrier, dir: Pos, count: int, v: int): Carrier {
    Carrier(c.grid[c.pos := v], (c.pos.0 + dir.0, c.pos.1 + dir.1), dir, count)
  }

  /**
   * One burst of `simple_infection` as written. The second test looks up
   * `statuses[grid[curr_pos] == 'i']`: an int never equals a string, so the
   * key is `False`, which is the key 0, and `statuses[0]` is the non-empty,
   * so true, `'c'`. Every status other than clean therefore turns right,
   * and the RuntimeError branch is never reached.
   */
  function SimpleBurst(c: Carrier): (r: Result<Carrier>)
    requires c.dir in ToLeft
    ensures r.Ok? ==> r.value.dir in ToLeft
  {
    var v := Cell(c.grid, c.pos);
    var s := Status(v);
    if s.Raise? then Raise(s.exc)
    else if s.value == 'c' then Ok(Advance(c, ToLeft[c.dir], c.count + 1, FloorMod(v + 2, 4)))
    else if Status(0).Ok? then Ok(Advance(c, ToRight[c.dir], c.count, FloorMod(v + 2, 4)))
    else Raise(RuntimeError)
  }

  /** `n` bursts of `simple_infection`, stopping at the first exception. */
  function SimpleRun(c: Carrier, n: nat): (r: Result<Carrier>)
    requires c.dir in ToLeft
    ensures r.Ok? ==> r.value.dir in ToLeft
  {
    if n == 0 then Ok(c)
    else
      var prev := SimpleRun(c, n - 1);
      if prev.Raise? then prev else SimpleBurst(prev.value)
  }

  /** `simple_infection(grid)` with `bursts` in place of 10000: the count, and the grid it leaves. */
  method SimpleInfection(grid: map<Pos, int>, bursts: nat) returns (r: Result<Carrier>)
    ensures r == SimpleRun(Start(grid), bursts)
  {
    var g, pos, dir, count := grid, (0, 0), (-1, 0), 0;
    for i := 0 to bursts
      invariant dir in ToLeft
      invariant SimpleRun(Start(grid), i) == Ok(Carrier(g, pos, dir, count))
    {
      var next := SimpleStep(Carrier(g, pos, dir, count));
      if next.Raise? {
        SimpleRunRaised(Start(grid), i + 1, bursts);
        return next;
      }
      g, pos, dir, count := next.value.grid, next.value.pos, next.value.dir, next.value.count;
    }
    return Ok(Carrier(g, pos, dir, count));
  }

  /** The body of the loop of `simple_infection`: one burst, updating the grid, the direction, the position and the count. */
  method SimpleStep(c: Carrier) returns (r: Result<Carrier>)
    requires c.dir in ToLeft
    ensures r == SimpleBurst(c)
  {
    SimpleBurstStep(c);
    var g, pos, dir, count := c.grid, c.pos, c.dir, c.count;
    var v := if pos in g then g[pos] else 0;
    if v == 0 {
      dir := ToLeft[dir];
      count := count + 1;
    } else if 1 <= v <= 3 {
      dir := ToRight[dir];
    } else {
      return Raise(KeyError);
    }
    g := g[pos := (v + 2) % 4];
    pos := (pos.0 + dir.0, pos.1 + dir.1);
    return Ok(Carrier(g, pos, dir, count));
  }

  /** The simple burst as written by the current node's value, as the loop of `simple_infection` computes it. */
  lemma SimpleBurstStep(c: Carrier)
    requires c.dir in ToLeft
    ensures var v := Cell(c.grid, c.pos);
            SimpleBurst(c) ==
              if v < 0 || v > 3 then Raise(KeyError)
              else
                var dir := if v == 0 then ToLeft[c.dir] else ToRight[c.dir];
                Ok(Carrier(c.grid[c.pos := (v + 2) % 4], (c.pos.0 + dir.0, c.pos.1 + dir.1), dir, c.count + if v == 0 then 1 else 0))
  {
  }

  /** One burst of `complex_infection`. */
  function ComplexBurst(c: Carrier): (r: Result<Carrier>)
    requires c.dir in ToLeft
    ensures r.Ok? ==> r.value.dir in ToLeft
  {
    var v := Cell(c.grid, c.pos);
    var s := Status(v);
    if s.Raise? then Raise(s.exc)
    else if s.value == 'c' then Ok(Advance(c, ToLeft[c.dir], c.count, FloorMod(v + 1, 4)))
    else if s.value == 'w' then Ok(Advance(c, c.dir, c.count + 1, FloorMod(v + 1, 4)))
    else if s.value == 'i' then Ok(Advance(c, ToRight[c.dir], c.count, FloorMod(v + 1, 4)))
    else if s.value == 'f' then Ok(Advance(c, ToRight[ToRight[c.dir]], c.count, FloorMod(v + 1, 4)))
    else Raise(RuntimeError)
  }

  /** `n` bursts of `complex_infection`, stopping at the first exception. */
  function ComplexRun(c: Carrier, n: nat): (r: Result<Carrier>)
    requires c.dir in ToLeft
    ensures r.Ok? ==> r.value.dir in ToLeft
  {
    if n == 0 then Ok(c)
    else
      var prev := ComplexRun(c, n - 1);
      if prev.Raise? then prev else ComplexBurst(prev.value)
  }

  /** `complex_infection(grid)` with `bursts` in place of 10000000: the count, and the grid it leaves. */
  method ComplexInfection(grid: map<Pos, int>, bursts: nat) returns (r: Result<Carrier>)
    ensures r == ComplexRun(Start(grid), bursts)
  {
    var g, pos, dir, count := grid, (0, 0), (-1, 0), 0;
    for i := 0 to bursts
      invariant dir in ToLeft
      invariant ComplexRun(Start(grid), i) == Ok(Carrier(g, pos, dir, count))
    {
      var next := ComplexStep(Carrier(g, pos, dir, count));
      if next.Raise? {
        ComplexRunRaised(Start(grid), i + 1, bursts);
        return next;
      }
      g, pos, dir, count := next.value.grid, next.value.pos, next.value.dir, next.value.count;
    }
    return Ok(Carrier(g, pos, dir, count));
  }

  /** The body of the loop of `complex_infection`: one burst, updating the grid, the direction, the position and the count. */
  method ComplexStep(c: Carrier) returns (r: Result<Carrier>)
    requires c.dir in ToLeft
    ensures r == ComplexBurst(c)
  {
    ComplexBurstStep(c);
    var g, pos, dir, count := c.grid, c.pos, c.dir, c.count;
    var v := if pos in g then g[pos] else 0;
    if v == 0 {
      dir := ToLeft[dir];
    } else if v == 1 {
      count := count + 1;
    } else if v == 2 {
      dir := ToRight[dir];
    } else if v == 3 {
      dir := ToRight[ToRight[dir]];
    } else {
      return Raise(KeyError);
    }
    g := g[pos := (v + 1) % 4];
    pos := (pos.0 + dir.0, pos.1 + dir.1);
    return Ok(Carrier(g, pos, dir, count));
  }

  /** The complex burst by the current node's value, as the loop of `complex_infection` computes it. */
  lemma ComplexBurstStep(c: Carrier)
    requires c.dir in ToLeft
    ensures var v := Cell(c.grid, c.pos);
            ComplexBurst(c) ==
              if v < 0 || v > 3 then Raise(KeyError)
              else
                var dir := if v == 0 then ToLeft[c.dir] else if v == 1 then c.dir else if v == 2 then ToRight[c.dir] else ToRight[ToRight[c.dir]];
                Ok(Carrier(c.grid[c.pos := (v + 1) % 4], (c.pos.0 + dir.0, c.pos.1 + dir.1), dir, c.count + if v == 1 then 1 else 0))
  {
  }

  // ----------------------------------------------------------------
  // The intended simple burst

  /**
   * The simple burst as evidently intended: clean turns left and infects,
   * infected turns right and cleans, and a weakened or flagged node, which
   * the simple automaton does not know, raises RuntimeError.
   */
  function SimpleBurstIntended(c: Carrier): (r: Result<Carrier>)
    requires c.dir in ToLeft
    ensures r.Ok? ==> r.value.dir in ToLeft
  {
    var v := Cell(c.grid, c.pos);
    var s := Status(v);
    if s.Raise? then Raise(s.exc)
    else if s.value == 'c' then Ok(Advance(c, ToLeft[c.dir], c.count + 1, FloorMod(v + 2, 4)))
    else if s.value == 'i' then Ok(Advance(c, ToRight[c.dir], c.count, FloorMod(v + 2, 4)))
    else Raise(RuntimeError)
  }

  function SimpleRunIntended(c: Carrier, n: nat): (r: Result<Carrier>)
    requires c.dir in ToLeft
    ensures r.Ok? ==> r.value.dir in ToLeft
  {
    if n == 0 then Ok(c)
    else
      var prev := SimpleRunIntended(c, n - 1);
      if prev.Raise? then prev else SimpleBurstIntended(prev.value)
  }

  // ----------------------------------------------------------------
  // Properties

  /** `to_right` undoes `to_left` and the other way round: it is the inverted table. */
  lemma TurnsInverse()
    ensures ToRight.Keys == ToLeft.Keys == {(0, -1), (1, 0), (0, 1), (-1, 0)}
    ensures forall d :: d in ToLeft ==> ToLeft[d] in ToRight && ToRight[ToLeft[d]] == d
    ensures forall d :: d in ToRight ==> ToRight[d] in ToLeft && ToLeft[ToRight[d]] == d
  {
    assert ToLeft.Keys == {(0, -1), (1, 0), (0, 1), (-1, 0)};
    assert ToRight.Keys == {(0, -1), (1, 0), (0, 1), (-1, 0)};
  }

  /** Four left turns, or four right turns, face the carrier the way it started; two right turns reverse it. */
  lemma TurnsCycle(d: Pos)
    requires d in ToLeft
    ensures ToLeft[ToLeft[ToLeft[ToLeft[d]]]] == d
    ensures ToRight[ToRight[ToRight[ToRight[d]]]] == d
    ensures ToRight[ToRight[d]] == (-d.0, -d.1)
  {
  }

  /** Every direction is one node up, down, left or right. */
  lemma DirectionsAreUnit(d: Pos)
    requires d in ToLeft || d in ToRight
    ensures Abs(d.0) + Abs(d.1) == 1 && d in ToRight
  {
  }

  /** Every node holds a status of the simple automaton: clean or infected. */
  predicate Binary(grid: map<Pos, int>) {
    forall p :: p in grid ==> grid[p] == 0 || grid[p] == 2
  }

  /** Every node holds one of the four statuses. */
  predicate Quad(grid: map<Pos, int>) {
    forall p :: p in grid ==> 0 <= grid[p] <= 3
  }

  /** `init_grid` builds a grid of clean and infected nodes only. */
  lemma InitGridBinary(data: seq<seq<char>>, grid: map<Pos, int>)
    requires Rectangular(data)
    requires forall p :: p in grid ==> InWindow(p, |data|, |data[0]|) && grid[p] == InitCell(data, p)
    ensures Binary(grid) && Quad(grid)
  {
  }

  /**
   * On a grid of clean and infected nodes a simple burst flips the current
   * node (clean to infected, infected to clean), counts exactly when it
   * infects, turns left on clean and right on infected, leaves every other
   * node alone, and moves the carrier to a neighbouring node.
   */
  lemma SimpleBurstFlips(c: Carrier)
    requires c.dir in ToLeft && Binary(c.grid)
    ensures var r, v := SimpleBurst(c), Cell(c.grid, c.pos);
            && r.Ok?
            && r.value.grid == c.grid[c.pos := 2 - v]
            && Binary(r.value.grid)
            && r.value.count == c.count + (if r.value.grid[c.pos] == 2 then 1 else 0)
            && r.value.dir == (if v == 0 then ToLeft[c.dir] else ToRight[c.dir])
            && Abs(r.value.pos.0 - c.pos.0) + Abs(r.value.pos.1 - c.pos.1) == 1
  {
    var v := Cell(c.grid, c.pos);
    var dir := if v == 0 then ToLeft[c.dir] else ToRight[c.dir];
    assert v == 0 || v == 2;
    assert FloorMod(v + 2, 4) == 2 - v;
    assert SimpleBurst(c) == Ok(Advance(c, dir, c.count + (if v == 0 then 1 else 0), 2 - v));
    BinaryUpdate(c.grid, c.pos, 2 - v);
    DirectionsAreUnit(dir);
  }

  /** Writing a clean or infected status keeps a grid of clean and infected nodes. */
  lemma BinaryUpdate(grid: map<Pos, int>, p: Pos, x: int)
    requires Binary(grid) && (x == 0 || x == 2)
    ensures Binary(grid[p := x])
  {
  }

  /** Writing one of the four statuses keeps a grid of the four statuses. */
  lemma QuadUpdate(grid: map<Pos, int>, p: Pos, x: int)
    requires Quad(grid) && 0 <= x <= 3
    ensures Quad(grid[p := x])
  {
  }

  /** From a grid of clean and infected nodes, the simple run never raises, and the grid stays so. */
  lemma {:induction false} SimpleRunBinary(c: Carrier, n: nat)
    requires c.dir in ToLeft && Binary(c.grid)
    ensures SimpleRun(c, n).Ok? && Binary(SimpleRun(c, n).value.grid)
  {
    if n > 0 {
      SimpleRunBinary(c, n - 1);
      SimpleBurstFlips(SimpleRun(c, n - 1).value);
    }
  }

  /** Once a run has raised it stays raised: the exception ends the loop. */
  lemma {:induction false} SimpleRunRaised(c: Carrier, i: nat, n: nat)
    requires c.dir in ToLeft && i <= n && SimpleRun(c, i).Raise?
    ensures SimpleRun(c, n) == SimpleRun(c, i)
    decreases n
  {
    if i < n {
      SimpleRunRaised(c, i, n - 1);
    }
  }

  /** The count grows by at most one per burst. */
  lemma {:induction false} SimpleCountBound(c: Carrier, n: nat)
    requires c.dir in ToLeft && SimpleRun(c, n).Ok?
    ensures c.count <= SimpleRun(c, n).value.count <= c.count + n
  {
    if n > 0 {
      SimpleCountBound(c, n - 1);
    }
  }

  /**
   * A complex burst moves the current node one status on (clean, weakened,
   * infected, flagged, clean), counts exactly when the node becomes
   * infected, turns left on clean, keeps the direction on weakened, turns
   * right on infected and reverses on flagged; other nodes are left alone
   * and the carrier moves to a neighbouring node.
   */
  lemma ComplexBurstCycles(c: Carrier)
    requires c.dir in ToLeft && Quad(c.grid)
    ensures var r, v := ComplexBurst(c), Cell(c.grid, c.pos);
            && r.Ok?
            && r.value.grid == c.grid[c.pos := if v == 3 then 0 else v + 1]
            && Quad(r.value.grid)
            && r.value.count == c.count + (if r.value.grid[c.pos] == 2 then 1 else 0)
            && r.value.dir == (if v == 0 then ToLeft[c.dir] else if v == 1 then c.dir else if v == 2 then ToRight[c.dir] else (-c.dir.0, -c.dir.1))
            && Abs(r.value.pos.0 - c.pos.0) + Abs(r.value.pos.1 - c.pos.1) == 1
  {
    var v := Cell(c.grid, c.pos);
    var w := if v == 3 then 0 else v + 1;
    TurnsCycle(c.dir);
    var dir := if v == 0 then ToLeft[c.dir] else if v == 1 then c.dir else if v == 2 then ToRight[c.dir] else (-c.dir.0, -c.dir.1);
    assert 0 <= v <= 3;
    ComplexBurstStep(c);
    assert ComplexBurst(c) == Ok(Advance(c, dir, c.count + (if v == 1 then 1 else 0), w));
    QuadUpdate(c.grid, c.pos, w);
    DirectionsAreUnit(dir);
  }

  /** From a grid of the four statuses, the complex run never raises, and the grid stays so. */
  lemma {:induction false} ComplexRunQuad(c: Carrier, n: nat)
    requires c.dir in ToLeft && Quad(c.grid)
    ensures ComplexRun(c, n).Ok? && Quad(ComplexRun(c, n).value.grid)
  {
    if n > 0 {
      ComplexRunQuad(c, n - 1);
      ComplexBurstCycles(ComplexRun(c, n - 1).value);
    }
  }

  lemma {:induction false} ComplexRunRaised(c: Carrier, i: nat, n: nat)
    requires c.dir in ToLeft && i <= n && ComplexRun(c, i).Raise?
    ensures ComplexRun(c, n) == ComplexRun(c, i)
    decreases n
  {
    if i < n {
      ComplexRunRaised(c, i, n - 1);
    }
  }

  /** The count grows by at most one per burst. */
  lemma {:induction false} ComplexCountBound(c: Carrier, n: nat)
    requires c.dir in ToLeft && ComplexRun(c, n).Ok?
    ensures c.count <= ComplexRun(c, n).value.count <= c.count + n
  {
    if n > 0 {
      ComplexCountBound(c, n - 1);
    }
  }

  /** The counterexample for the simple burst as written: a weakened node turns right instead of raising RuntimeError. */
  lemma WeakenedTurnsRight()
    ensures var c := Start(map[(0, 0) := 1]);
            && SimpleRun(c, 1) == Ok(Carrier(map[(0, 0) := 3], (0, 1), (0, 1), 0))
            && SimpleRunIntended(c, 1) == Raise(RuntimeError)
  {
    var c := Start(map[(0, 0) := 1]);
    assert Cell(c.grid, c.pos) == 1 && Status(1) == Ok('w') && FloorMod(3, 4) == 3;
    assert ToRight[(-1, 0)] == (0, 1);
    assert c.grid[(0, 0) := 3] == map[(0, 0) := 3];
    assert SimpleBurst(c) == Ok(Carrier(map[(0, 0) := 3], (0, 1), (0, 1), 0));
    assert SimpleRun(c, 0) == Ok(c);
    assert SimpleRunIntended(c, 0) == Ok(c);
  }

  /** On grids of clean and infected nodes, such as every grid `init_grid` builds, the run as written is the intended one. */
  lemma {:induction false} SimpleAgreesOnBinary(c: Carrier, n: nat)
    requires c.dir in ToLeft && Binary(c.grid)
    ensures SimpleRun(c, n) == SimpleRunIntended(c, n)
  {
    if n > 0 {
      SimpleAgreesOnBinary(c, n - 1);
      SimpleRunBinary(c, n - 1);
    }
  }
}
