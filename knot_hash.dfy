/**
 * The knot hash of solutions/day10.py: `gen_list`, `gen_lengths`, the
 * circular reversal rounds of `knot_hash` (in place on the list), the 16-way
 * XOR folding of `dense_hash`, and the hexadecimal rendering of `hex_dense`.
 */
module KnotHash {
  import opened PyLib

  /** `gen_list(n)`: the list `0, 1, ..., n - 1` (empty for n <= 0). */
  function GenList(n: int): (r: seq<int>)
    ensures |r| == if n < 0 then 0 else n
    ensures forall i :: 0 <= i < |r| ==> r[i] == i
  {
    seq(if n < 0 then 0 else n, i => i)
  }

  /** The fixed lengths appended to every input. */
  const Suffix: seq<int> := [17, 31, 73, 47, 23]

  /** `gen_lengths(chars)`: the character codes of `chars` followed by 17, 31, 73, 47, 23. */
  function GenLengths(chars: string): (r: seq<int>)
    ensures |r| == |chars| + 5
    ensures forall i :: 0 <= i < |chars| ==> r[i] == chars[i] as int
    ensures r[|chars|..] == Suffix
  {
    seq(|chars|, i requires 0 <= i < |chars| => chars[i] as int) + Suffix
  }

  // ----------------------------------------------------------------
  // One length: the circular reversal

  /** `sub` before reversal: the entries at circular positions `curr, curr + 1, ..., curr + m - 1`. */
  function Window(nums: seq<int>, curr: int, m: nat): (w: seq<int>)
    requires |nums| > 0
    ensures |w| == m
  {
    seq(m, i requires 0 <= i < m => nums[(curr + i) % |nums|])
  }

  function Reverse(s: seq<int>): (r: seq<int>)
    ensures |r| == |s|
    ensures multiset(r) == multiset(s)
  {
    if s == [] then []
    else
      assert s == s[..|s| - 1] + [s[|s| - 1]];
      [s[|s| - 1]] + Reverse(s[..|s| - 1])
  }

  lemma {:induction false} ReverseAt(s: seq<int>, i: nat)
    requires i < |s|
    ensures Reverse(s)[i] == s[|s| - 1 - i]
    decreases |s|
  {
    if i > 0 {
      ReverseAt(s[..|s| - 1], i - 1);
    }
  }

  /** The second inner loop: writes `vals[i]` at position `(curr + i) % n` for i = 0, 1, ... in turn. */
  function WriteBack(nums: seq<int>, curr: int, vals: seq<int>): (r: seq<int>)
    requires |nums| > 0
    ensures |r| == |nums|
    decreases |vals|
  {
    if vals == [] then nums
    else WriteBack(nums, curr, vals[..|vals| - 1])[(curr + |vals| - 1) % |nums| := vals[|vals| - 1]]
  }

  /** What one length `L` does to the list (a negative length reads and writes nothing). */
  function Twist(nums: seq<int>, curr: int, L: int): (r: seq<int>)
    requires |nums| > 0
    ensures |r| == |nums|
  {
    var m := if L < 0 then 0 else L;
    WriteBack(nums, curr, Reverse(Window(nums, curr, m)))
  }

  // ----------------------------------------------------------------
  // The rounds

  /** The three values `knot_hash` returns: the list, `curr` and `skip`. */
  datatype Knot = Knot(nums: seq<int>, curr: int, skip: int)

  /**
   * `knot_hash(lengths, nums, curr, skip)`; with an empty list the first
   * `% len(nums)` raises ZeroDivisionError.
   */
  function KnotSpec(lengths: seq<int>, k: Knot): Result<Knot>
    decreases |lengths|
  {
    if lengths == [] then Ok(k)
    else if |k.nums| == 0 then Raise(ZeroDivisionError)
    else
      var L := lengths[0];
      KnotSpec(lengths[1..], Knot(Twist(k.nums, k.curr, L), (k.curr + L + k.skip) % |k.nums|, k.skip + 1))
  }

  /** `knot_hash`: rewrites `nums` in place and returns the new `curr` and `skip`. */
  method KnotHashRounds(lengths: seq<int>, nums: array<int>, curr0: int, skip0: int) returns (r: Result<(int, int)>)
    modifies nums
    ensures var spec := KnotSpec(lengths, Knot(old(nums[..]), curr0, skip0));
            && r.Ok? == spec.Ok?
            && (r.Ok? ==> nums[..] == spec.value.nums && r.value == (spec.value.curr, spec.value.skip))
            && (r.Raise? ==> r.exc == spec.exc)
  {
    ghost var goal := KnotSpec(lengths, Knot(nums[..], curr0, skip0));
    var n := nums.Length;
    var curr, skip := curr0, skip0;
    for t := 0 to |lengths|
      invariant KnotSpec(lengths[t..], Knot(nums[..], curr, skip)) == goal
    {
      if n == 0 {
        return Raise(ZeroDivisionError);
      }
      var L := lengths[t];
      var m := if L < 0 then 0 else L;
      var sub := ReadWindow(nums, curr, m);
      sub := Reverse(sub);
      WriteWindow(nums, curr, sub);
      assert lengths[t..][1..] == lengths[t + 1..];
      curr := (curr + L + skip) % n;
      skip := skip + 1;
    }
    return Ok((curr, skip));
  }

  /** The first inner loop: collects `sub`. */
  method ReadWindow(nums: array<int>, curr: int, m: nat) returns (sub: seq<int>)
    requires nums.Length > 0
    ensures sub == Window(nums[..], curr, m)
  {
    sub := [];
    for i := 0 to m
      invariant sub == Window(nums[..], curr, i)
    {
      sub := sub + [nums[(curr + i) % nums.Length]];
    }
  }

  /** The second inner loop: writes `sub` back, in order. */
  method WriteWindow(nums: array<int>, curr: int, sub: seq<int>)
    requires nums.Length > 0
    modifies nums
    ensures nums[..] == WriteBack(old(nums[..]), curr, sub)
  {
    for i := 0 to |sub|
      invariant nums[..] == WriteBack(old(nums[..]), curr, sub[..i])
    {
      nums[(curr + i) % nums.Length] := sub[i];
      assert sub[..i + 1][..i] == sub[..i];
    }
    assert sub[..|sub|] == sub;
  }

  // ----------------------------------------------------------------
  // Modular arithmetic used by the index formula

  lemma {:induction false} MulAtLeast(n: int, d: int)
    requires n > 0 && d >= 1
    ensures n * d >= n
    decreases d
  {
    if d > 1 {
      MulAtLeast(n, d - 1);
      assert n * d == n * (d - 1) + n;
    }
  }

  /** Division with remainder is unique. */
  lemma ModUnique(x: int, n: int, k: int, r: int)
    requires n > 0 && 0 <= r < n && x == n * k + r
    ensures x % n == r
  {
    var q, m := x / n, x % n;
    assert x == n * q + m;
    var d := k - q;
    assert n * d == n * k - n * q;
    assert n * d == m - r;
    if d >= 1 {
      MulAtLeast(n, d);
    } else if d <= -1 {
      MulAtLeast(n, -d);
    }
    assert d == 0;
  }

  /** Position `(curr + j) % n` is `p` exactly when `p` lies `j` steps after `curr` around the circle. */
  lemma ModOffset(curr: int, n: int, j: int, p: int)
    requires n > 0 && 0 <= j < n && 0 <= p < n
    ensures (curr + j) % n == p <==> (p - curr) % n == j
  {
    var q := (curr + j) / n;
    if (curr + j) % n == p {
      assert curr + j == n * q + p;
      ModUnique(p - curr, n, -q, j);
    }
    var q' := (p - curr) / n;
    if (p - curr) % n == j {
      assert p - curr == n * q' + j;
      ModUnique(curr + j, n, -q', p);
    }
  }

  // ----------------------------------------------------------------
  // Properties of one length

  /** The offset of position `p` from `curr` around a circle of `n`. */
  function Offset(p: int, curr: int, n: int): (j: int)
    requires n > 0
    ensures 0 <= j < n
  {
    (p - curr) % n
  }

  /** With at most n values, position p receives the value written at its offset, if any. */
  lemma {:induction false} WriteBackAt(nums: seq<int>, curr: int, vals: seq<int>, p: int)
    requires |nums| > 0 && |vals| <= |nums| && 0 <= p < |nums|
    ensures var j := Offset(p, curr, |nums|);
            WriteBack(nums, curr, vals)[p] == if j < |vals| then vals[j] else nums[p]
    decreases |vals|
  {
    if vals != [] {
      var n, m := |nums|, |vals| - 1;
      WriteBackAt(nums, curr, vals[..m], p);
      ModOffset(curr, n, m, p);
    }
  }

  /**
   * For 0 <= L <= n one length reverses the entries at circular positions
   * `curr ... curr + L - 1` and leaves every other position unchanged.
   */
  lemma TwistAt(nums: seq<int>, curr: int, L: int, p: int)
    requires 0 <= L <= |nums| && 0 <= p < |nums|
    ensures var n, j := |nums|, Offset(p, curr, |nums|);
            Twist(nums, curr, L)[p] == if j < L then nums[(curr + (L - 1 - j)) % n] else nums[p]
  {
    var n, w := |nums|, Window(nums, curr, L);
    assert Twist(nums, curr, L) == WriteBack(nums, curr, Reverse(w));
    var j := Offset(p, curr, n);
    WriteBackAt(nums, curr, Reverse(w), p);
    if j < L {
      ReverseAt(w, j);
      assert w[L - 1 - j] == nums[(curr + (L - 1 - j)) % n];
    }
  }

  /** Every value in the list after one length was in the list before, whatever the length. */
  lemma {:induction false} WriteBackDrawsFrom(nums: seq<int>, curr: int, vals: seq<int>, x: int)
    requires |nums| > 0
    requires forall v :: v in vals ==> v in nums
    requires x in WriteBack(nums, curr, vals)
    ensures x in nums
    decreases |vals|
  {
    if vals != [] {
      var prev := WriteBack(nums, curr, vals[..|vals| - 1]);
      var k := (curr + |vals| - 1) % |nums|;
      if x != vals[|vals| - 1] {
        var i :| 0 <= i < |prev[k := vals[|vals| - 1]]| && prev[k := vals[|vals| - 1]][i] == x;
        assert prev[i] == x;
        WriteBackDrawsFrom(nums, curr, vals[..|vals| - 1], x);
      }
    }
  }

  lemma TwistDrawsFrom(nums: seq<int>, curr: int, L: int, x: int)
    requires |nums| > 0 && x in Twist(nums, curr, L)
    ensures x in nums
  {
    var w := Window(nums, curr, if L < 0 then 0 else L);
    forall v | v in Reverse(w) ensures v in nums {
      assert v in multiset(Reverse(w));
      var i :| 0 <= i < |w| && w[i] == v;
    }
    WriteBackDrawsFrom(nums, curr, Reverse(w), x);
  }

  /** Rotating left by c: the entry at position `(c + k) % n` moves to k. */
  function RotateLeft(s: seq<int>, c: nat): (r: seq<int>)
    requires c < |s|
    ensures multiset(r) == multiset(s)
  {
    assert s == s[..c] + s[c..];
    s[c..] + s[..c]
  }

  function RotateRight(s: seq<int>, c: nat): (r: seq<int>)
    requires c < |s|
    ensures multiset(r) == multiset(s)
  {
    var d := |s| - c;
    assert s == s[..d] + s[d..];
    s[d..] + s[..d]
  }

  /** Reversing the first L entries keeps the same entries. */
  function ReversePrefix(s: seq<int>, L: nat): (r: seq<int>)
    requires L <= |s|
    ensures |r| == |s|
    ensures multiset(r) == multiset(s)
  {
    assert s == s[..L] + s[L..];
    Reverse(s[..L]) + s[L..]
  }

  /** Adding less than n to a position `c` in `[0, n)` wraps around at most once. */
  lemma ModShift(curr: int, n: int, k: int)
    requires n > 0 && 0 <= k < n
    ensures (curr + k) % n == if curr % n + k < n then curr % n + k else curr % n + k - n
  {
    var c := curr % n;
    assert curr == n * (curr / n) + c;
    if c + k < n {
      ModUnique(curr + k, n, curr / n, c + k);
    } else {
      ModUnique(curr + k, n, curr / n + 1, c + k - n);
    }
  }

  lemma OffsetFromRemainder(p: int, curr: int, n: int)
    requires n > 0 && 0 <= p < n
    ensures Offset(p, curr, n) == if p >= curr % n then p - curr % n else p - curr % n + n
  {
    var c := curr % n;
    assert curr == n * (curr / n) + c;
    if p >= c {
      ModUnique(p - curr, n, -(curr / n), p - c);
    } else {
      ModUnique(p - curr, n, -(curr / n) - 1, p - c + n);
    }
  }

  lemma RotateLeftAt(s: seq<int>, c: nat, k: nat)
    requires c < |s| && k < |s|
    ensures RotateLeft(s, c)[k] == if c + k < |s| then s[c + k] else s[c + k - |s|]
  {
  }

  lemma RotateRightAt(u: seq<int>, c: nat, p: nat)
    requires c < |u| && p < |u|
    ensures RotateRight(u, c)[p] == if p >= c then u[p - c] else u[p - c + |u|]
  {
  }

  lemma ReversePrefixAt(t: seq<int>, L: nat, j: nat)
    requires L <= |t| && j < |t|
    ensures ReversePrefix(t, L)[j] == if j < L then t[L - 1 - j] else t[j]
  {
    if j < L {
      ReverseAt(t[..L], j);
    }
  }

  /** Position p of the list rotated right by c comes from offset `j` of the rotated-back list. */
  lemma RotateBackAt(u: seq<int>, curr: int, p: int)
    requires |u| > 0 && 0 <= p < |u|
    ensures RotateRight(u, curr % |u|)[p] == u[Offset(p, curr, |u|)]
  {
    OffsetFromRemainder(p, curr, |u|);
    RotateRightAt(u, curr % |u|, p);
  }

  /** Offset k of the list rotated left by `curr % n` holds the entry at `(curr + k) % n`. */
  lemma RotateFromAt(nums: seq<int>, curr: int, k: nat)
    requires |nums| > 0 && k < |nums|
    ensures RotateLeft(nums, curr % |nums|)[k] == nums[(curr + k) % |nums|]
  {
    ModShift(curr, |nums|, k);
    RotateLeftAt(nums, curr % |nums|, k);
  }

  /** Position p of the list rotated, reversed on its first L entries and rotated back. */
  lemma RotationAt(nums: seq<int>, curr: int, L: int, p: int)
    requires |nums| > 0 && 0 <= L <= |nums| && 0 <= p < |nums|
    ensures var n, j := |nums|, Offset(p, curr, |nums|);
            RotateRight(ReversePrefix(RotateLeft(nums, curr % n), L), curr % n)[p] ==
              if j < L then nums[(curr + (L - 1 - j)) % n] else nums[p]
  {
    var n := |nums|;
    var t := RotateLeft(nums, curr % n);
    var u := ReversePrefix(t, L);
    var j := Offset(p, curr, n);
    RotateBackAt(u, curr, p);
    ReversePrefixAt(t, L, j);
    if j < L {
      RotateFromAt(nums, curr, L - 1 - j);
    } else {
      RotateFromAt(nums, curr, j);
      ModOffset(curr, n, j, p);
    }
  }

  /**
   * For 0 <= L <= n one length is a rotation left by `curr`, a reversal of the
   * first L entries and a rotation back; so it only rearranges the list.
   */
  lemma TwistPermutesWithin(nums: seq<int>, curr: int, L: int)
    requires |nums| > 0 && 0 <= L <= |nums|
    ensures multiset(Twist(nums, curr, L)) == multiset(nums)
  {
    var c := curr % |nums|;
    var r := RotateRight(ReversePrefix(RotateLeft(nums, c), L), c);
    forall p | 0 <= p < |nums| ensures Twist(nums, curr, L)[p] == r[p] {
      RotationAt(nums, curr, L, p);
      TwistAt(nums, curr, L, p);
    }
    assert Twist(nums, curr, L) == r;
  }

  /** Writing `a` and then `b` from where `a` stopped is writing `a + b`. */
  lemma {:induction false} WriteBackAppend(nums: seq<int>, curr: int, a: seq<int>, b: seq<int>)
    requires |nums| > 0
    ensures WriteBack(nums, curr, a + b) == WriteBack(WriteBack(nums, curr, a), curr + |a|, b)
    decreases |b|
  {
    if b == [] {
      assert a + b == a;
    } else {
      var m := |b| - 1;
      assert (a + b)[..|a + b| - 1] == a + b[..m];
      WriteBackAppend(nums, curr, a, b[..m]);
    }
  }

  /** The writes of `vals` split at any index into the writes before and after it. */
  lemma WriteBackSplit(nums: seq<int>, curr: int, vals: seq<int>, d: nat)
    requires |nums| > 0 && d <= |vals|
    ensures WriteBack(nums, curr, vals) == WriteBack(WriteBack(nums, curr, vals[..d]), curr + d, vals[d..])
  {
    assert vals == vals[..d] + vals[d..];
    WriteBackAppend(nums, curr, vals[..d], vals[d..]);
  }

  /** Exactly n writes cover every position once: the values land rotated right by `curr`. */
  lemma WriteBackFull(nums: seq<int>, curr: int, vals: seq<int>)
    requires |nums| > 0 && |vals| == |nums|
    ensures WriteBack(nums, curr, vals) == RotateRight(vals, curr % |vals|)
  {
    forall p | 0 <= p < |nums|
      ensures WriteBack(nums, curr, vals)[p] == RotateRight(vals, curr % |vals|)[p]
    {
      WriteBackAt(nums, curr, vals, p);
      RotateBackAt(vals, curr, p);
    }
  }

  /** The window of n entries from `curr` is the list rotated left by `curr`. */
  lemma WindowFull(nums: seq<int>, curr: int)
    requires |nums| > 0
    ensures multiset(Window(nums, curr, |nums|)) == multiset(nums)
  {
    var n := |nums|;
    var front := Window(nums, curr, n);
    forall k | 0 <= k < n ensures front[k] == RotateLeft(nums, curr % n)[k] {
      RotateFromAt(nums, curr, k);
    }
    assert front == RotateLeft(nums, curr % n);
  }

  /** The last n reversed values of a longer window are the reversed window of n entries. */
  lemma ReversedTail(nums: seq<int>, curr: int, L: int)
    requires |nums| > 0 && L > |nums|
    ensures Reverse(Window(nums, curr, L))[L - |nums|..] == Reverse(Window(nums, curr, |nums|))
  {
    var n, d := |nums|, L - |nums|;
    var w, front := Window(nums, curr, L), Window(nums, curr, n);
    var tail := Reverse(w)[d..];
    forall t | 0 <= t < n ensures tail[t] == Reverse(front)[t] {
      ReverseAt(w, d + t);
      ReverseAt(front, t);
    }
  }

  /** With at least n values to write, the list ends up holding exactly the last n of them. */
  lemma LastWritesSurvive(nums: seq<int>, curr: int, vals: seq<int>)
    requires |nums| > 0 && |vals| >= |nums|
    ensures multiset(WriteBack(nums, curr, vals)) == multiset(vals[|vals| - |nums|..])
  {
    var d := |vals| - |nums|;
    var tail := vals[d..];
    WriteBackSplit(nums, curr, vals, d);
    WriteBackFullPermutes(WriteBack(nums, curr, vals[..d]), curr + d, tail);
  }

  /** So exactly n writes put a rearrangement of the values in the list. */
  lemma WriteBackFullPermutes(nums: seq<int>, curr: int, vals: seq<int>)
    requires |nums| > 0 && |vals| == |nums|
    ensures multiset(WriteBack(nums, curr, vals)) == multiset(vals)
  {
    WriteBackFull(nums, curr, vals);
  }

  /**
   * For L > n only the last n writes survive. They hit every position once
   * and carry the reversed window of the n entries from `curr` on, which is
   * the whole list rotated; so the list is only rearranged.
   */
  lemma TwistPermutesBeyond(nums: seq<int>, curr: int, L: int)
    requires |nums| > 0 && L > |nums|
    ensures multiset(Twist(nums, curr, L)) == multiset(nums)
  {
    var vals := Reverse(Window(nums, curr, L));
    LastWritesSurvive(nums, curr, vals);
    ReversedTail(nums, curr, L);
    var front := Window(nums, curr, |nums|);
    assert multiset(Reverse(front)) == multiset(front);
    WindowFull(nums, curr);
  }

  /** Whatever the length, one length only rearranges the list. */
  lemma TwistPermutes(nums: seq<int>, curr: int, L: int)
    requires |nums| > 0
    ensures multiset(Twist(nums, curr, L)) == multiset(nums)
  {
    if L < 0 {
      assert Window(nums, curr, 0) == [];
      assert Reverse([]) == [];
    } else if L <= |nums| {
      TwistPermutesWithin(nums, curr, L);
    } else {
      TwistPermutesBeyond(nums, curr, L);
    }
  }

  // ----------------------------------------------------------------
  // Properties of a whole call

  /**
   * A call keeps the length of the list, leaves `curr` in `[0, n)` when some
   * length was applied, adds `len(lengths)` to `skip`, and only moves values
   * around: every value afterwards was in the list before, and the list is a
   * permutation of the input.
   */
  lemma {:induction false} KnotSpecFacts(lengths: seq<int>, k: Knot)
    requires KnotSpec(lengths, k).Ok?
    ensures var r := KnotSpec(lengths, k).value;
            && |r.nums| == |k.nums|
            && r.skip == k.skip + |lengths|
            && (|lengths| > 0 ==> 0 <= r.curr < |k.nums|)
            && (forall x :: x in r.nums ==> x in k.nums)
            && multiset(r.nums) == multiset(k.nums)
    decreases |lengths|
  {
    if lengths != [] {
      var n := |k.nums|;
      var L := lengths[0];
      var k' := Knot(Twist(k.nums, k.curr, L), (k.curr + L + k.skip) % n, k.skip + 1);
      KnotSpecFacts(lengths[1..], k');
      forall x | x in KnotSpec(lengths, k).value.nums ensures x in k.nums {
        TwistDrawsFrom(k.nums, k.curr, L, x);
      }
      TwistPermutes(k.nums, k.curr, L);
    }
  }

  /** A non-empty list never raises: every `% len(nums)` has a non-zero divisor. */
  lemma {:induction false} KnotSpecOk(lengths: seq<int>, k: Knot)
    requires |k.nums| > 0
    ensures KnotSpec(lengths, k).Ok?
    decreases |lengths|
  {
    if lengths != [] {
      var L := lengths[0];
      KnotSpecOk(lengths[1..], Knot(Twist(k.nums, k.curr, L), (k.curr + L + k.skip) % |k.nums|, k.skip + 1));
    }
  }

  /** An empty list raises ZeroDivisionError as soon as there is a length to apply. */
  lemma EmptyListRaises(lengths: seq<int>, k: Knot)
    requires |k.nums| == 0
    ensures KnotSpec(lengths, k) == if lengths == [] then Ok(k) else Raise(ZeroDivisionError)
  {
  }

  // ----------------------------------------------------------------
  // dense_hash

  /** Python's `a ^ b` on unbounded integers in two's complement. */
  function Xor(a: int, b: int): int
    decreases Abs(a)
  {
    if a == 0 then b
    else if a == -1 then -1 - b
    else 2 * Xor(a / 2, b / 2) + (a % 2 + b % 2) % 2
  }

  function Pow2(k: nat): (p: nat)
    ensures p >= 1
  {
    if k == 0 then 1 else 2 * Pow2(k - 1)
  }

  /** XOR of two k-bit naturals is a k-bit natural. */
  lemma {:induction false} XorBound(a: int, b: int, k: nat)
    requires 0 <= a < Pow2(k) && 0 <= b < Pow2(k)
    ensures 0 <= Xor(a, b) < Pow2(k)
    decreases k
  {
    if a != 0 {
      XorBound(a / 2, b / 2, k - 1);
    }
  }

  /** `xor = sub[0]` then `xor ^= j` for the rest, left to right. */
  function XorFold(s: seq<int>): int
    requires |s| > 0
  {
    if |s| == 1 then s[0] else Xor(XorFold(s[..|s| - 1]), s[|s| - 1])
  }

  lemma {:induction false} XorFoldBound(s: seq<int>)
    requires |s| > 0 && forall i :: 0 <= i < |s| ==> 0 <= s[i] < 256
    ensures 0 <= XorFold(s) < 256
    decreases |s|
  {
    assert Pow2(8) == 256;
    if |s| > 1 {
      XorFoldBound(s[..|s| - 1]);
      XorBound(XorFold(s[..|s| - 1]), s[|s| - 1], 8);
    }
  }

  /** `hashed[16*i : 16*(i+1)]`, clamped to the list as Python slices are. */
  function Block(hashed: seq<int>, i: nat): (b: seq<int>)
    ensures |b| <= 16
  {
    hashed[SliceBound(|hashed|, 16 * i)..SliceBound(|hashed|, 16 * (i + 1))]
  }

  /** Block i is empty exactly when the list ends by position `16 * i`. */
  lemma BlockEmpty(hashed: seq<int>, i: nat)
    ensures |Block(hashed, i)| == 0 <==> |hashed| <= 16 * i
  {
  }

  /** `dense_hash`: sixteen XORs of consecutive 16-blocks; a list of at most 240 entries leaves some block empty and raises IndexError. */
  function DenseSpec(hashed: seq<int>): Result<seq<int>> {
    if |hashed| <= 240 then Raise(IndexError)
    else Ok(seq(16, i requires 0 <= i < 16 => XorFold(Block(hashed, i))))
  }

  /** `dense_hash`, with its two loops. */
  method DenseHash(hashed: seq<int>) returns (r: Result<seq<int>>)
    ensures r == DenseSpec(hashed)
  {
    var dense := [];
    for i := 0 to 16
      invariant i == 0 || |hashed| > 16 * (i - 1)
      invariant |dense| == i
      invariant forall k :: 0 <= k < i ==> dense[k] == XorFold(Block(hashed, k))
    {
      var sub := Block(hashed, i);
      BlockEmpty(hashed, i);
      if |sub| == 0 {
        return Raise(IndexError);
      }
      var x := XorBlock(sub);
      dense := dense + [x];
    }
    assert dense == seq(16, i requires 0 <= i < 16 => XorFold(Block(hashed, i)));
    return Ok(dense);
  }

  /** The inner loop of `dense_hash`: `sub[0] ^ sub[1] ^ ...` from the left. */
  method XorBlock(sub: seq<int>) returns (x: int)
    requires |sub| > 0
    ensures x == XorFold(sub)
  {
    x := sub[0];
    for j := 1 to |sub|
      invariant x == XorFold(sub[..j])
    {
      assert sub[..j + 1][..j] == sub[..j];
      x := Xor(x, sub[j]);
    }
    assert sub[..|sub|] == sub;
  }

  /** For a list of 241 or more bytes, `dense_hash` gives 16 bytes. */
  lemma DenseBytes(hashed: seq<int>)
    requires |hashed| > 240 && forall i :: 0 <= i < |hashed| ==> 0 <= hashed[i] < 256
    ensures DenseSpec(hashed).Ok? && |DenseSpec(hashed).value| == 16
    ensures forall i :: 0 <= i < 16 ==> 0 <= DenseSpec(hashed).value[i] < 256
  {
    forall i | 0 <= i < 16 ensures 0 <= XorFold(Block(hashed, i)) < 256 {
      XorFoldBound(Block(hashed, i));
    }
  }

  // ----------------------------------------------------------------
  // hex_dense

  /** The lower-case hex digit of d. */
  function HexChar(d: nat): char
    requires d < 16
  {
    if d < 10 then ('0' as int + d) as char else ('a' as int + d - 10) as char
  }

  function HexDigits(n: nat): (s: string)
    ensures |s| > 0
  {
    if n < 16 then [HexChar(n)] else HexDigits(n / 16) + [HexChar(n % 16)]
  }

  /** `"{:02x}".format(v)`: lower-case hex digits, zero-padded to width 2, with a `-` for negatives. */
  function Hex02(v: int): string {
    if v < 0 then "-" + HexDigits(-v)
    else
      var h := HexDigits(v);
      if |h| < 2 then "0" + h else h
  }

  /** `hex_dense`: the rendered values, concatenated. */
  function HexDense(dense: seq<int>): string {
    if dense == [] then "" else HexDense(dense[..|dense| - 1]) + Hex02(dense[|dense| - 1])
  }

  /** The value of a lower-case hex digit, or None (what `int(c, 16)` rejects). */
  function HexValue(c: char): (r: Option<nat>)
    ensures r.Some? ==> r.value < 16 && HexChar(r.value) == c
  {
    if '0' <= c <= '9' then Some(c as int - '0' as int)
    else if 'a' <= c <= 'f' then Some(c as int - 'a' as int + 10)
    else None
  }

  lemma HexValueOfChar(d: nat)
    requires d < 16
    ensures HexValue(HexChar(d)) == Some(d)
  {
  }

  /** A byte renders as exactly its two hex digits, high nibble first. */
  lemma Hex02Byte(v: int)
    requires 0 <= v < 256
    ensures Hex02(v) == [HexChar(v / 16), HexChar(v % 16)]
  {
    if v >= 16 {
      assert HexDigits(v / 16) == [HexChar(v / 16)];
    } else {
      assert HexChar(0) == '0';
    }
  }

  /**
   * For bytes, `hex_dense` has two characters per value, and reading each pair
   * back as hex digits gives the high and the low half of the value.
   */
  lemma {:induction false} HexDenseBytes(dense: seq<int>)
    requires forall i :: 0 <= i < |dense| ==> 0 <= dense[i] < 256
    ensures |HexDense(dense)| == 2 * |dense|
    ensures forall j :: 0 <= j < 2 * |dense| ==>
              HexValue(HexDense(dense)[j]) == Some(if j % 2 == 0 then dense[j / 2] / 16 else dense[j / 2] % 16)
    decreases |dense|
  {
    if dense != [] {
      var m := |dense| - 1;
      var pre := HexDense(dense[..m]);
      HexDenseBytes(dense[..m]);
      Hex02Byte(dense[m]);
      HexValueOfChar(dense[m] / 16);
      HexValueOfChar(dense[m] % 16);
      assert HexDense(dense) == pre + [HexChar(dense[m] / 16), HexChar(dense[m] % 16)];
      forall j | 0 <= j < 2 * |dense|
        ensures HexValue(HexDense(dense)[j]) == Some(if j % 2 == 0 then dense[j / 2] / 16 else dense[j / 2] % 16)
      {
        if j < 2 * m {
          assert HexDense(dense)[j] == pre[j];
          assert dense[..m][j / 2] == dense[j / 2];
        }
      }
    }
  }
}
