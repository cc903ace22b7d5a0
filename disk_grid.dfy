/**
 * The disk grid of solutions/day14.py: `hash` builds 128 rows, each the knot
 * hash of `"<key>-<row>"` (64 rounds over `0..255` with `curr` and `skip`
 * carried between rounds, then `dense_hash` and `hex_dense`) expanded to four
 * bits per hex digit, and `count_filled` counts the 1 entries.
 */
module DiskGrid {
  import opened PyLib
  import opened KnotHash

  /** The lengths for row i: the character codes of `"<key>-<i>"` followed by 17, 31, 73, 47, 23. */
  function RowKey(key: string, i: int): (r: seq<int>)
    ensures |r| == |key| + 1 + |IntToString(i)| + 5
    ensures r[..|key|] == GenLengths(key)[..|key|]
    ensures r[|key|] == '-' as int
    ensures r[|r| - 5..] == Suffix
  {
    GenLengths(key + "-" + IntToString(i))
  }

  /** `count` successive calls of `knot_hash`, each starting where the previous one left `curr` and `skip`. */
  function Rounds(lengths: seq<int>, k: Knot, count: nat): Result<Knot>
    decreases count
  {
    if count == 0 then Ok(k)
    else
      match KnotSpec(lengths, k)
      case Ok(k') => Rounds(lengths, k', count - 1)
      case Raise(e) => Raise(e)
  }

  /** `"{:04b}".format(v)` read back digit by digit: the four bits of a hex digit, most significant first. */
  function Bits4(v: nat): (r: seq<int>)
    requires v < 16
    ensures |r| == 4
    ensures forall k :: 0 <= k < 4 ==> r[k] == 0 || r[k] == 1
    ensures 8 * r[0] + 4 * r[1] + 2 * r[2] + r[3] == v
  {
    [v / 8, v / 4 % 2, v / 2 % 2, v % 2]
  }

  /** The bits of a hex string; `int(x, 16)` raises ValueError on a character that is not a hex digit. */
  function RowBits(hex: string): Result<seq<int>> {
    if hex == [] then Ok([])
    else
      match RowBits(hex[..|hex| - 1])
      case Raise(e) => Raise(e)
      case Ok(bits) =>
        match HexValue(hex[|hex| - 1])
        case None => Raise(ValueError)
        case Some(v) => Ok(bits + Bits4(v))
  }

  /** The bits of the knot hash of `lengths`, or the exception computing them raises. */
  function LengthsRow(lengths: seq<int>): Result<seq<int>> {
    match Rounds(lengths, Knot(GenList(256), 0, 0), 64)
    case Raise(e) => Raise(e)
    case Ok(k) =>
      match DenseSpec(k.nums)
      case Raise(e) => Raise(e)
      case Ok(dense) => RowBits(HexDense(dense))
  }

  /** Row i of the grid, or the exception computing it raises. */
  function KnotRow(key: string, i: int): Result<seq<int>> {
    LengthsRow(RowKey(key, i))
  }

  predicate IsBits(row: seq<int>) {
    forall k :: 0 <= k < |row| ==> row[k] == 0 || row[k] == 1
  }

  predicate AllBytes(s: seq<int>) {
    forall k :: 0 <= k < |s| ==> 0 <= s[k] < 256
  }

  /** A string of hex digits gives four bits per digit. */
  lemma {:induction false} RowBitsOk(hex: string)
    requires forall k :: 0 <= k < |hex| ==> HexValue(hex[k]).Some?
    ensures RowBits(hex).Ok? && |RowBits(hex).value| == 4 * |hex| && IsBits(RowBits(hex).value)
    decreases |hex|
  {
    if hex != [] {
      RowBitsOk(hex[..|hex| - 1]);
    }
  }

  /** The rounds on a list of 256 bytes never raise and keep 256 bytes. */
  lemma {:induction false} RoundsKeepBytes(lengths: seq<int>, k: Knot, count: nat)
    requires |k.nums| == 256 && AllBytes(k.nums)
    ensures Rounds(lengths, k, count).Ok?
    ensures |Rounds(lengths, k, count).value.nums| == 256 && AllBytes(Rounds(lengths, k, count).value.nums)
    decreases count
  {
    if count > 0 {
      KnotSpecOk(lengths, k);
      KnotSpecFacts(lengths, k);
      var k' := KnotSpec(lengths, k).value;
      assert AllBytes(k'.nums) by {
        forall j | 0 <= j < |k'.nums| ensures 0 <= k'.nums[j] < 256 {
          assert k'.nums[j] in k'.nums;
        }
      }
      RoundsKeepBytes(lengths, k', count - 1);
    }
  }

  /** Every row is 128 entries, each 0 or 1, and computing it never raises. */
  lemma LengthsRowBits(lengths: seq<int>)
    ensures LengthsRow(lengths).Ok?
    ensures |LengthsRow(lengths).value| == 128 && IsBits(LengthsRow(lengths).value)
  {
    RoundsKeepBytes(lengths, Knot(GenList(256), 0, 0), 64);
    var k := Rounds(lengths, Knot(GenList(256), 0, 0), 64).value;
    DenseBytes(k.nums);
    var dense := DenseSpec(k.nums).value;
    HexDenseBytes(dense);
    RowBitsOk(HexDense(dense));
  }

  /** The innermost loop of `hash`: four bits per hex digit, appended in order. */
  method ExpandBits(hex: string) returns (line: seq<int>)
    requires forall k :: 0 <= k < |hex| ==> HexValue(hex[k]).Some?
    ensures RowBits(hex).Ok? && line == RowBits(hex).value
  {
    line := [];
    for c := 0 to |hex|
      invariant RowBits(hex[..c]).Ok? && line == RowBits(hex[..c]).value
    {
      assert hex[..c + 1][..c] == hex[..c];
      line := line + Bits4(HexValue(hex[c]).value);
    }
    assert hex[..|hex|] == hex;
  }

  /** The 64 rounds of one row, in place on `row`. */
  method RowRounds(hashKey: seq<int>, row: array<int>)
    requires row.Length == 256 && AllBytes(row[..])
    modifies row
    ensures Rounds(hashKey, Knot(old(row[..]), 0, 0), 64).Ok?
    ensures row[..] == Rounds(hashKey, Knot(old(row[..]), 0, 0), 64).value.nums
  {
    ghost var goal := Rounds(hashKey, Knot(row[..], 0, 0), 64);
    RoundsKeepBytes(hashKey, Knot(row[..], 0, 0), 64);
    var curr, skip := 0, 0;
    for round := 0 to 64
      invariant Rounds(hashKey, Knot(row[..], curr, skip), 64 - round) == goal
    {
      KnotSpecOk(hashKey, Knot(row[..], curr, skip));
      var res := KnotHashRounds(hashKey, row, curr, skip);
      curr, skip := res.value.0, res.value.1;
    }
  }

  /** The body of the outer loop of `hash` once the lengths are built: 64 rounds, dense hash, hex, bits. */
  method HashLengths(hashKey: seq<int>) returns (line: seq<int>)
    ensures LengthsRow(hashKey) == Ok(line)
  {
    var row := new int[256](j => j);
    assert row[..] == GenList(256);
    RowRounds(hashKey, row);
    RoundsKeepBytes(hashKey, Knot(GenList(256), 0, 0), 64);
    DenseBytes(row[..]);
    var dense := DenseHash(row[..]);
    HexDenseBytes(dense.value);
    var hex := HexDense(dense.value);
    line := ExpandBits(hex);
  }

  /** The first n rows of the grid for `key`. */
  function Rows(key: string, n: nat): (g: seq<seq<int>>)
    ensures |g| == n
  {
    if n == 0 then []
    else
      var row := KnotRow(key, n - 1);
      Rows(key, n - 1) + [if row.Ok? then row.value else []]
  }

  /** Row i of the grid is the knot-hash row of `key-i`: 128 entries, each 0 or 1. */
  lemma RowAt(key: string, n: nat, i: nat)
    requires i < n
    ensures KnotRow(key, i).Ok? && Rows(key, n)[i] == KnotRow(key, i).value
    ensures |Rows(key, n)[i]| == 128 && IsBits(Rows(key, n)[i])
  {
    LengthsRowBits(RowKey(key, i));
    RowsIndex(key, n, i);
  }

  /** Row i of the first n rows is the knot-hash row of `key-i` when that row is defined. */
  lemma {:induction false} RowsIndex(key: string, n: nat, i: nat)
    requires i < n && KnotRow(key, i).Ok?
    ensures Rows(key, n)[i] == KnotRow(key, i).value
    decreases n
  {
    if i < n - 1 {
      RowsIndex(key, n - 1, i);
    }
  }

  /** `hash(key)`: the 128 rows. */
  method Hash(key: string) returns (grid: seq<seq<int>>)
    ensures grid == Rows(key, 128)
  {
    grid := [];
    for i := 0 to 128
      invariant grid == Rows(key, i)
    {
      var line := HashLengths(RowKey(key, i));
      grid := grid + [line];
    }
  }

  /** The number of 1 entries over all rows. */
  function Filled(grid: seq<seq<int>>): nat {
    if grid == [] then 0 else Filled(grid[..|grid| - 1]) + Occurrences(grid[|grid| - 1], 1)
  }

  /** `count_filled`, with its accumulator loop. */
  method CountFilled(grid: seq<seq<int>>) returns (filled: nat)
    ensures filled == Filled(grid)
  {
    filled := 0;
    for r := 0 to |grid|
      invariant filled == Filled(grid[..r])
    {
      assert grid[..r + 1][..r] == grid[..r];
      filled := filled + Occurrences(grid[r], 1);
    }
    assert grid[..|grid|] == grid;
  }

  /** A grid of rows of at most w entries has at most `rows * w` filled squares; 16384 for the disk. */
  lemma {:induction false} FilledBound(grid: seq<seq<int>>, w: nat)
    requires forall r :: 0 <= r < |grid| ==> |grid[r]| <= w
    ensures Filled(grid) <= |grid| * w
    decreases |grid|
  {
    if grid != [] {
      FilledBound(grid[..|grid| - 1], w);
      assert Filled(grid) <= (|grid| - 1) * w + w;
    }
  }
}
