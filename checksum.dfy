/**
 * The spreadsheet checksums of day02.py: `convert` reads every cell as an
 * integer, `total_checksum` adds up the spread (largest minus smallest) of
 * each row, and `even_row_sum` adds `y // x` over the pairs `x <= y` of each
 * sorted row where `x` divides `y`.
 */
module Checksum {
  import opened PyLib

  // ----------------------------------------------------------------
  // convert

  /** `list(map(int, row))`: every cell read as an integer; ValueError when one is not. */
  function ConvertRow(row: seq<string>): (r: Result<seq<int>>)
    ensures r.Ok? <==> forall k :: 0 <= k < |row| ==> ParseInt(row[k]).Some?
    ensures r.Ok? ==> |r.value| == |row| && forall k :: 0 <= k < |row| ==> ParseInt(row[k]) == Some(r.value[k])
    ensures r.Raise? ==> r.exc == ValueError
    decreases |row|
  {
    if row == [] then Ok([])
    else
      var init := ConvertRow(row[..|row| - 1]);
      var last := ParseInt(row[|row| - 1]);
      assert forall k :: 0 <= k < |row| - 1 ==> row[..|row| - 1][k] == row[k];
      if init.Raise? then init
      else if last.None? then Raise(ValueError)
      else Ok(init.value + [last.value])
  }

  /** `convert(spreadsheet)`: the same rows, cell by cell as integers; ValueError when a cell is not one. */
  function Convert(sheet: seq<seq<string>>): (r: Result<seq<seq<int>>>)
    ensures r.Ok? <==> forall i :: 0 <= i < |sheet| ==> ConvertRow(sheet[i]).Ok?
    ensures r.Ok? ==> |r.value| == |sheet| && forall i :: 0 <= i < |sheet| ==> ConvertRow(sheet[i]) == Ok(r.value[i])
    ensures r.Raise? ==> r.exc == ValueError
    decreases |sheet|
  {
    if sheet == [] then Ok([])
    else
      var init := Convert(sheet[..|sheet| - 1]);
      var last := ConvertRow(sheet[|sheet| - 1]);
      assert forall i :: 0 <= i < |sheet| - 1 ==> sheet[..|sheet| - 1][i] == sheet[i];
      if init.Raise? then init
      else if last.Raise? then Raise(last.exc)
      else Ok(init.value + [last.value])
  }

  /** The sheet written out with `str`, cell by cell. */
  function Render(grid: seq<seq<int>>): (sheet: seq<seq<string>>)
    ensures |sheet| == |grid|
    ensures forall i :: 0 <= i < |grid| ==> |sheet[i]| == |grid[i]|
  {
    seq(|grid|, i requires 0 <= i < |grid| => seq(|grid[i]|, k requires 0 <= k < |grid[i]| => IntToString(grid[i][k])))
  }

  /** Reading back a written-out sheet gives the numbers back. */
  lemma ConvertRender(grid: seq<seq<int>>)
    ensures Convert(Render(grid)) == Ok(grid)
  {
    var sheet := Render(grid);
    forall i | 0 <= i < |grid| ensures ConvertRow(sheet[i]) == Ok(grid[i]) {
      forall k | 0 <= k < |grid[i]| ensures ParseInt(sheet[i][k]) == Some(grid[i][k]) {
        ParseIntToString(grid[i][k]);
      }
      var r := ConvertRow(sheet[i]);
      assert r.Ok?;
      assert forall k :: 0 <= k < |grid[i]| ==> r.value[k] == grid[i][k];
      assert r.value == grid[i];
    }
    var r := Convert(sheet);
    assert r.Ok?;
    assert forall i :: 0 <= i < |grid| ==> r.value[i] == grid[i];
    assert r.value == grid;
  }

  // ----------------------------------------------------------------
  // total_checksum

  /** What a row adds: `max(vals, default=0) - min(vals, default=0)`. */
  function Spread(row: seq<int>): int {
    if row == [] then 0 else Max(row) - Min(row)
  }

  /** The sum of the row spreads. */
  function Checksum(sheet: seq<seq<int>>): int {
    if sheet == [] then 0 else Checksum(sheet[..|sheet| - 1]) + Spread(sheet[|sheet| - 1])
  }

  /** `total_checksum(spreadsheet)`. */
  method TotalChecksum(sheet: seq<seq<int>>) returns (checksum: int)
    ensures checksum == Checksum(sheet)
  {
    checksum := 0;
    for t := 0 to |sheet|
      invariant checksum == Checksum(sheet[..t])
    {
      assert sheet[..t + 1][..t] == sheet[..t];
      var vals := sheet[t];
      var hi := if |vals| == 0 then 0 else Max(vals);
      var lo := if |vals| == 0 then 0 else Min(vals);
      checksum := checksum + (hi - lo);
    }
    assert sheet[..|sheet|] == sheet;
  }

  /** A row's spread is never negative, and it is 0 exactly when all its cells are equal. */
  lemma SpreadZero(row: seq<int>)
    ensures Spread(row) >= 0
    ensures Spread(row) == 0 <==> forall i, j :: 0 <= i < |row| && 0 <= j < |row| ==> row[i] == row[j]
  {
    if row != [] && Spread(row) != 0 {
      var i, j :| 0 <= i < |row| && 0 <= j < |row| && row[i] == Max(row) && row[j] == Min(row);
      assert row[i] != row[j];
    }
  }

  /** The checksum is never negative, and it is 0 when every row holds a single value. */
  lemma {:induction false} ChecksumNonNegative(sheet: seq<seq<int>>)
    ensures Checksum(sheet) >= 0
    ensures (forall t, i, j :: 0 <= t < |sheet| && 0 <= i < |sheet[t]| && 0 <= j < |sheet[t]| ==> sheet[t][i] == sheet[t][j])
            ==> Checksum(sheet) == 0
    decreases |sheet|
  {
    if sheet != [] {
      var n := |sheet| - 1;
      assert forall t :: 0 <= t < n ==> sheet[..n][t] == sheet[t];
      ChecksumNonNegative(sheet[..n]);
      SpreadZero(sheet[n]);
    }
  }

  // ----------------------------------------------------------------
  // even_row_sum

  predicate Ascending(s: seq<int>) {
    forall i, j :: 0 <= i < j < |s| ==> s[i] <= s[j]
  }

  /** `x` put into its place in an ascending list. */
  function Insert(x: int, s: seq<int>): (r: seq<int>)
    requires Ascending(s)
    ensures Ascending(r) && multiset(r) == multiset(s) + multiset{x}
    decreases |s|
  {
    if s == [] || x <= s[0] then [x] + s
    else
      var rest := Insert(x, s[1..]);
      InsertBehindHead(x, s, rest);
      [s[0]] + rest
  }

  /** Putting the head of `s` back in front of the insertion into the tail keeps the order. */
  lemma InsertBehindHead(x: int, s: seq<int>, rest: seq<int>)
    requires |s| > 0 && Ascending(s) && s[0] < x
    requires Ascending(rest) && multiset(rest) == multiset(s[1..]) + multiset{x}
    ensures Ascending([s[0]] + rest) && multiset([s[0]] + rest) == multiset(s) + multiset{x}
  {
    assert s == [s[0]] + s[1..];
    forall k | 0 <= k < |rest| ensures s[0] <= rest[k] {
      assert rest[k] in multiset(rest);
      assert rest[k] == x || rest[k] in s[1..];
    }
  }

  /** `sorted(vals)`: the same cells in ascending order. */
  function Sort(s: seq<int>): (r: seq<int>)
    ensures Ascending(r) && multiset(r) == multiset(s)
    decreases |s|
  {
    if s == [] then []
    else
      assert s == [s[0]] + s[1..];
      Insert(s[0], Sort(s[1..]))
  }

  /** `(s[i], s[k])` for k = j, j + 1, ... */
  function Row(s: seq<int>, i: nat, j: nat): seq<(int, int)>
    requires i < j <= |s|
    decreases |s| - j
  {
    if j == |s| then [] else [(s[i], s[j])] + Row(s, i, j + 1)
  }

  /** The pairs `itertools.combinations(s, 2)` yields once the first element has reached position i. */
  function Rest(s: seq<int>, i: nat): seq<(int, int)>
    requires i <= |s|
    decreases |s| - i
  {
    if i == |s| then [] else Row(s, i, i + 1) + Rest(s, i + 1)
  }

  /** `itertools.combinations(s, 2)`: every pair of positions i < j, in order. */
  function Combinations(s: seq<int>): seq<(int, int)> {
    Rest(s, 0)
  }

  /** What a pair adds: `y // x` when `y % x == 0`; a zero `x` raises ZeroDivisionError. */
  function PairTerm(x: int, y: int): Result<int> {
    if x == 0 then Raise(ZeroDivisionError)
    else if FloorMod(y, x) == 0 then Ok(FloorDiv(y, x))
    else Ok(0)
  }

  /** The running sum over the pairs, stopping at the first exception. */
  function Run(acc: Result<int>, ps: seq<(int, int)>): Result<int>
    decreases |ps|
  {
    if ps == [] || acc.Raise? then acc
    else
      var term := PairTerm(ps[0].0, ps[0].1);
      Run(if term.Raise? then term else Ok(acc.value + term.value), ps[1..])
  }

  /** The running sum over the rows, each through its sorted pairs. */
  function Rows(acc: Result<int>, sheet: seq<seq<int>>): Result<int>
    decreases |sheet|
  {
    if sheet == [] then acc else Rows(Run(acc, Combinations(Sort(sheet[0]))), sheet[1..])
  }

  function EvenSum(sheet: seq<seq<int>>): Result<int> {
    Rows(Ok(0), sheet)
  }

  /** An exception, once raised, is the result. */
  lemma {:induction false} RowsRaised(e: Exc, sheet: seq<seq<int>>)
    ensures Rows(Raise(e), sheet) == Raise(e)
    decreases |sheet|
  {
    if sheet != [] {
      RowsRaised(e, sheet[1..]);
    }
  }

  /** Taking the pair `(s[i], s[j])` off the front of what remains. */
  lemma PairStep(s: seq<int>, i: nat, j: nat, acc: int)
    requires i < j < |s|
    ensures var term := PairTerm(s[i], s[j]);
            Run(Ok(acc), Row(s, i, j) + Rest(s, i + 1))
            == if term.Raise? then term else Run(Ok(acc + term.value), Row(s, i, j + 1) + Rest(s, i + 1))
  {
    var tail := Row(s, i, j + 1) + Rest(s, i + 1);
    assert Row(s, i, j) + Rest(s, i + 1) == [(s[i], s[j])] + tail;
    assert ([(s[i], s[j])] + tail)[1..] == tail;
  }

  /** The two loops of `even_row_sum` over the pairs of one sorted row, starting from the sum `acc`. */
  method SumPairs(vals: seq<int>, acc: int) returns (r: Result<int>)
    ensures r == Run(Ok(acc), Combinations(vals))
  {
    ghost var goal := Run(Ok(acc), Combinations(vals));
    var rowSum := acc;
    for i := 0 to |vals|
      invariant Run(Ok(rowSum), Rest(vals, i)) == goal
    {
      for j := i + 1 to |vals|
        invariant Run(Ok(rowSum), Row(vals, i, j) + Rest(vals, i + 1)) == goal
      {
        var x, y := vals[i], vals[j];
        PairStep(vals, i, j, rowSum);
        if x == 0 {
          return Raise(ZeroDivisionError);
        }
        if FloorMod(y, x) == 0 {
          rowSum := rowSum + FloorDiv(y, x);
        }
      }
      assert Row(vals, i, |vals|) + Rest(vals, i + 1) == Rest(vals, i + 1);
    }
    return Ok(rowSum);
  }

  /** `even_row_sum(spreadsheet)`. */
  method EvenRowSum(sheet: seq<seq<int>>) returns (r: Result<int>)
    ensures r == EvenSum(sheet)
  {
    var rowSum := 0;
    for t := 0 to |sheet|
      invariant Rows(Ok(rowSum), sheet[t..]) == EvenSum(sheet)
    {
      assert sheet[t..][1..] == sheet[t + 1..];
      var row := SumPairs(Sort(sheet[t]), rowSum);
      if row.Raise? {
        RowsRaised(row.exc, sheet[t + 1..]);
        return row;
      }
      rowSum := row.value;
    }
    return Ok(rowSum);
  }

  // ----------------------------------------------------------------
  // Properties of even_row_sum

  lemma {:induction false} RowLength(s: seq<int>, i: nat, j: nat)
    requires i < j <= |s|
    ensures |Row(s, i, j)| == |s| - j
    decreases |s| - j
  {
    if j < |s| {
      RowLength(s, i, j + 1);
    }
  }

  /** Every pair of `Row(s, i, j)` is `(s[i], s[k])` for some k >= j. */
  lemma {:induction false} RowPairs(s: seq<int>, i: nat, j: nat)
    requires i < j <= |s|
    ensures |Row(s, i, j)| == |s| - j
    ensures forall m :: 0 <= m < |s| - j ==> Row(s, i, j)[m] == (s[i], s[j + m])
    decreases |s| - j
  {
    if j < |s| {
      RowPairs(s, i, j + 1);
      var tail := Row(s, i, j + 1);
      forall m | 0 <= m < |s| - j ensures Row(s, i, j)[m] == (s[i], s[j + m]) {
        if m > 0 {
          assert Row(s, i, j)[m] == tail[m - 1];
        }
      }
    }
  }

  /** In an ascending list every pair is in order, and both its elements come from the list. */
  lemma {:induction false} RestOrdered(s: seq<int>, i: nat)
    requires i <= |s| && Ascending(s)
    ensures forall p :: p in Rest(s, i) ==> p.0 <= p.1 && p.0 in s && p.1 in s
    decreases |s| - i
  {
    if i < |s| {
      RowPairs(s, i, i + 1);
      RestOrdered(s, i + 1);
    }
  }

  lemma {:induction false} RestCount(s: seq<int>, i: nat)
    requires i <= |s|
    ensures |Rest(s, i)| == Triangle(|s| - i)
    decreases |s| - i
  {
    if i < |s| {
      var m := |s| - i;
      RowLength(s, i, i + 1);
      RestCount(s, i + 1);
      assert |Rest(s, i)| == (m - 1) + |Rest(s, i + 1)|;
      assert Triangle(m) == Triangle(m - 1) + (m - 1);
    }
  }

  /** 0 + 1 + ... + (m - 1). */
  function Triangle(m: nat): (t: nat)
    ensures 2 * t == m * (m - 1)
  {
    if m == 0 then 0 else Triangle(m - 1) + (m - 1)
  }

  /** `combinations(s, 2)` yields `len(s) * (len(s) - 1) / 2` pairs. */
  lemma CombinationsCount(s: seq<int>)
    ensures 2 * |Combinations(s)| == |s| * (|s| - 1)
  {
    RestCount(s, 0);
  }

  /** Pairs of positive numbers never raise and never lower the sum. */
  lemma {:induction false} RunPositive(a: int, ps: seq<(int, int)>)
    requires forall p :: p in ps ==> p.0 > 0 && p.1 > 0
    ensures Run(Ok(a), ps).Ok? && Run(Ok(a), ps).value >= a
    decreases |ps|
  {
    if ps != [] {
      var x, y := ps[0].0, ps[0].1;
      assert ps[0] in ps;
      assert forall p :: p in ps[1..] ==> p in ps;
      RunPositive(a + PairTerm(x, y).value, ps[1..]);
    }
  }

  /** On a sheet of positive cells the row sum is defined and not negative. */
  lemma {:induction false} PositiveCellsOk(a: int, sheet: seq<seq<int>>)
    requires forall t, k :: 0 <= t < |sheet| && 0 <= k < |sheet[t]| ==> sheet[t][k] > 0
    ensures Rows(Ok(a), sheet).Ok? && Rows(Ok(a), sheet).value >= a
    decreases |sheet|
  {
    if sheet != [] {
      var vals := Sort(sheet[0]);
      RestOrdered(vals, 0);
      forall p | p in Combinations(vals) ensures p.0 > 0 && p.1 > 0 {
        assert p.0 in multiset(sheet[0]) && p.1 in multiset(sheet[0]);
      }
      RunPositive(a, Combinations(vals));
      PositiveCellsOk(Run(Ok(a), Combinations(vals)).value, sheet[1..]);
    }
  }

  /** Whatever comes before, a row of at least two non-negative cells holding a 0 raises ZeroDivisionError. */
  lemma ZeroRowRaises(acc: Result<int>, row: seq<int>)
    requires acc.Ok? || acc == Raise(ZeroDivisionError)
    requires |row| >= 2 && 0 in row && forall k :: 0 <= k < |row| ==> row[k] >= 0
    ensures Run(acc, Combinations(Sort(row))) == Raise(ZeroDivisionError)
  {
    var s := Sort(row);
    assert s[0] == 0 by {
      assert s[0] in multiset(row);
      assert 0 in multiset(s);
    }
    var tail := Row(s, 0, 2) + Rest(s, 1);
    assert Combinations(s) == [(s[0], s[1])] + tail;
    assert ([(s[0], s[1])] + tail)[1..] == tail;
  }

  /** The only exception the row sum raises is ZeroDivisionError. */
  lemma {:induction false} RunRaisesZeroDivision(acc: Result<int>, ps: seq<(int, int)>)
    requires acc.Ok? || acc == Raise(ZeroDivisionError)
    ensures Run(acc, ps).Ok? || Run(acc, ps) == Raise(ZeroDivisionError)
    decreases |ps|
  {
    if ps != [] && acc.Ok? {
      var term := PairTerm(ps[0].0, ps[0].1);
      RunRaisesZeroDivision(if term.Raise? then term else Ok(acc.value + term.value), ps[1..]);
    }
  }

  /**
   * With non-negative cells, `even_row_sum` raises ZeroDivisionError as soon
   * as some row of two or more cells holds a 0, whatever the other rows.
   */
  lemma {:induction false} ZeroCellRaises(acc: Result<int>, sheet: seq<seq<int>>, t: nat)
    requires acc.Ok? || acc == Raise(ZeroDivisionError)
    requires t < |sheet| && |sheet[t]| >= 2 && 0 in sheet[t]
    requires forall k :: 0 <= k < |sheet[t]| ==> sheet[t][k] >= 0
    ensures Rows(acc, sheet) == Raise(ZeroDivisionError)
    decreases t
  {
    var next := Run(acc, Combinations(Sort(sheet[0])));
    if t == 0 {
      ZeroRowRaises(acc, sheet[0]);
      RowsRaised(ZeroDivisionError, sheet[1..]);
    } else {
      RunRaisesZeroDivision(acc, Combinations(Sort(sheet[0])));
      ZeroCellRaises(next, sheet[1..], t - 1);
    }
  }
}
