/**
 * The spinlock of solutions/day17.py: starting from the buffer `[0]`, each
 * value `i = 1, 2, ..., moment` is inserted just after the position reached
 * by stepping `step` places forward (wrapping around) from the current
 * position, and the new value's position becomes the current one.
 * `gen_spinlock` builds the whole buffer, `track_zero` follows only the
 * value right after 0, and `find_post_17` reads the value after 2017.
 */
module Spinlock {
  import opened PyLib

  /** The buffer and the current position. */
  datatype Spin = Spin(buffer: seq<int>, curr: nat)

  /**
   * `a % n` for a positive `n`, by repeated subtraction and addition, so that
   * the proofs about positions reason linearly; `WrapIsMod` shows it is
   * Python's (and Dafny's) remainder.
   */
  function Wrap(a: int, n: int): (r: nat)
    requires n > 0
    ensures r < n
    decreases if a < 0 then n - a else a
  {
    if a < 0 then Wrap(a + n, n)
    else if a < n then a
    else Wrap(a - n, n)
  }

  lemma {:induction false} WrapIsMod(a: int, n: int)
    requires n > 0
    ensures Wrap(a, n) == a % n
    decreases if a < 0 then n - a else a
  {
    if a < 0 {
      WrapIsMod(a + n, n);
      ModUnique(a + n, n, a / n + 1, a % n);
    } else if a < n {
      ModUnique(a, n, 0, a);
    } else {
      WrapIsMod(a - n, n);
      ModUnique(a, n, (a - n) / n + 1, (a - n) % n);
    }
  }

  /** `list.insert(pos + 1, i)`: the value `i` placed at index `pos + 1`. */
  function InsertAt(buffer: seq<int>, pos: nat, i: int): (r: seq<int>)
    requires pos < |buffer|
    ensures |r| == |buffer| + 1 && r[pos + 1] == i
  {
    buffer[..pos + 1] + [i] + buffer[pos + 1..]
  }

  /** Everything up to `pos` stays where it was; everything after it moves up by one. */
  lemma InsertAtShifts(buffer: seq<int>, pos: nat, i: int)
    requires pos < |buffer|
    ensures var r := InsertAt(buffer, pos, i);
            && (forall k :: 0 <= k <= pos ==> r[k] == buffer[k])
            && (forall k :: pos + 1 < k < |r| ==> r[k] == buffer[k - 1])
  {
  }

  /** Inserting adds exactly one occurrence of `i`. */
  lemma InsertAtCounts(buffer: seq<int>, pos: nat, i: int)
    requires pos < |buffer|
    ensures multiset(InsertAt(buffer, pos, i)) == multiset(buffer) + multiset{i}
  {
    assert buffer == buffer[..pos + 1] + buffer[pos + 1..];
  }

  /** One insertion: step forward from the current position, insert after it, and move onto the new value. */
  function Insert(s: Spin, step: int, i: int): (r: Spin)
    requires s.curr < |s.buffer|
    ensures |r.buffer| == |s.buffer| + 1 && r.curr < |r.buffer| && r.buffer[r.curr] == i
  {
    var pos := Wrap(s.curr + step, |s.buffer|);
    Spin(InsertAt(s.buffer, pos, i), pos + 1)
  }

  /** An insertion adds the inserted value and keeps every other one. */
  lemma InsertCounts(s: Spin, step: int, i: int)
    requires s.curr < |s.buffer|
    ensures multiset(Insert(s, step, i).buffer) == multiset(s.buffer) + multiset{i}
  {
    InsertAtCounts(s.buffer, Wrap(s.curr + step, |s.buffer|), i);
  }

  /** The spinlock after `moment` insertions. */
  function Spun(step: int, moment: nat): (r: Spin)
    ensures |r.buffer| == moment + 1 && r.curr < |r.buffer| && r.buffer[r.curr] == moment
  {
    if moment == 0 then Spin([0], 0)
    else Insert(Spun(step, moment - 1), step, moment)
  }

  lemma SpunNext(step: int, moment: nat)
    requires moment > 0
    ensures var s := Spun(step, moment - 1);
            var pos := Wrap(s.curr + step, |s.buffer|);
            Spun(step, moment) == Spin(InsertAt(s.buffer, pos, moment), pos + 1)
  {
  }

  /** `gen_spinlock(step, moment)`, inserting into the list as it goes. */
  method GenSpinlock(step: int, moment: nat) returns (cBuffer: seq<int>)
    ensures cBuffer == Spun(step, moment).buffer
  {
    cBuffer := [0];
    var curr: nat := 0;
    for i := 1 to moment + 1
      invariant Spun(step, i - 1) == Spin(cBuffer, curr)
    {
      var pos := (curr + step) % |cBuffer|;
      WrapIsMod(curr + step, |cBuffer|);
      cBuffer := InsertAt(cBuffer, pos, i);
      curr := pos + 1;
      SpunNext(step, i);
    }
  }

  /** The value after 0 as `track_zero` follows it, with the current position, after `moment` insertions. */
  function Tracked(step: int, moment: nat): (r: (int, nat))
  {
    if moment == 0 then (0, 0)
    else
      var (final, curr) := Tracked(step, moment - 1);
      var pos := Wrap(curr + step, moment);
      (if pos == 0 then moment else final, pos + 1)
  }

  /** `track_zero(step, moment)`. */
  method TrackZero(step: int, moment: nat) returns (final: int)
    ensures final == Tracked(step, moment).0
  {
    final := 0;
    var curr: nat := 0;
    for i := 1 to moment + 1
      invariant Tracked(step, i - 1) == (final, curr)
    {
      var pos := (curr + step) % i;
      WrapIsMod(curr + step, i);
      if pos == 0 {
        final := i;
      }
      curr := pos + 1;
    }
  }

  /** `find_post_17(c_buffer)`: ValueError when 2017 is absent, IndexError when it is last. */
  function FindPost17(buffer: seq<int>): (r: Result<int>)
    ensures r.Raise? <==> 2017 !in buffer || IndexOf(buffer, 2017).value == |buffer| - 1
    ensures r.Raise? && 2017 !in buffer ==> r.exc == ValueError
    ensures r.Raise? && 2017 in buffer ==> r.exc == IndexError
    ensures r.Ok? ==> exists k :: 0 <= k < |buffer| - 1 && buffer[k] == 2017 && 2017 !in buffer[..k] && r.value == buffer[k + 1]
  {
    var idx := IndexOf(buffer, 2017);
    if idx.None? then Raise(ValueError)
    else if idx.value + 1 < |buffer| then Ok(buffer[idx.value + 1])
    else Raise(IndexError)
  }

  // ----------------------------------------------------------------
  // Properties

  /** The `moment`-th insertion adds one occurrence of `moment` and keeps every other count. */
  lemma SpunStepCounts(step: int, moment: nat, v: int)
    requires moment > 0
    ensures Occurrences(Spun(step, moment).buffer, v) == Occurrences(Spun(step, moment - 1).buffer, v) + if v == moment then 1 else 0
  {
    InsertCounts(Spun(step, moment - 1), step, moment);
    OccurrencesMultiset(Spun(step, moment).buffer, v);
    OccurrencesMultiset(Spun(step, moment - 1).buffer, v);
  }

  /**
   * After `moment` insertions each of `0, ..., moment` occurs exactly once
   * and nothing else occurs: the buffer is a permutation of `0, ..., moment`.
   */
  lemma {:induction false} SpunPermutation(step: int, moment: nat, v: int)
    ensures Occurrences(Spun(step, moment).buffer, v) == if 0 <= v <= moment then 1 else 0
  {
    if moment > 0 {
      SpunPermutation(step, moment - 1, v);
      SpunStepCounts(step, moment, v);
    } else {
      assert Spun(step, 0).buffer == [0];
    }
  }

  /** Nothing is ever inserted before index 1, so 0 stays at the front. */
  lemma {:induction false} ZeroStaysFirst(step: int, moment: nat)
    ensures Spun(step, moment).buffer[0] == 0
  {
    if moment > 0 {
      var s := Spun(step, moment - 1);
      ZeroStaysFirst(step, moment - 1);
      InsertAtShifts(s.buffer, Wrap(s.curr + step, |s.buffer|), moment);
    }
  }

  /** `track_zero` steps its current position exactly as `gen_spinlock` does. */
  lemma {:induction false} TrackedFollowsCurr(step: int, moment: nat)
    ensures Tracked(step, moment).1 == Spun(step, moment).curr
  {
    if moment > 0 {
      TrackedFollowsCurr(step, moment - 1);
    }
  }

  /** The position `track_zero` and `gen_spinlock` step to before inserting `moment`. */
  function NextPos(step: int, moment: nat): (r: nat)
    requires moment > 0
    ensures r < moment
  {
    Wrap(Spun(step, moment - 1).curr + step, moment)
  }

  /** `track_zero` takes the new value exactly when it lands just after index 0. */
  lemma TrackedStep(step: int, moment: nat)
    requires moment > 0
    ensures Tracked(step, moment).0 == if NextPos(step, moment) == 0 then moment else Tracked(step, moment - 1).0
  {
    TrackedFollowsCurr(step, moment - 1);
  }

  /** The value after 0 changes exactly when the new value is inserted at index 1. */
  lemma SpunAfterZeroStep(step: int, moment: nat)
    requires moment > 1
    ensures Spun(step, moment).buffer[1] == if NextPos(step, moment) == 0 then moment else Spun(step, moment - 1).buffer[1]
  {
    var s := Spun(step, moment - 1);
    SpunNext(step, moment);
    InsertAtShifts(s.buffer, NextPos(step, moment), moment);
  }

  /**
   * From the first insertion on, the value `track_zero` answers is the one
   * right after 0 in the buffer.
   */
  lemma {:induction false} TrackedIsAfterZero(step: int, moment: nat)
    requires moment >= 1
    ensures Tracked(step, moment).0 == Spun(step, moment).buffer[1]
  {
    TrackedStep(step, moment);
    if moment > 1 {
      TrackedIsAfterZero(step, moment - 1);
      SpunAfterZeroStep(step, moment);
    } else {
      assert Spun(step, 1).buffer == [0, 1];
    }
  }

  /**
   * Part 'a' after 2017 insertions: 2017 is always found, at the current
   * position, so the answer is the value right after the current position,
   * and IndexError exactly when the current position is the last index.
   */
  lemma PartAReadsAfterCurrent(step: int, moment: nat)
    requires moment == 2017
    ensures var s := Spun(step, moment);
            FindPost17(s.buffer) == if s.curr == moment then Raise(IndexError) else Ok(s.buffer[s.curr + 1])
  {
    var s := Spun(step, moment);
    SpunPermutation(step, moment, moment);
    IndexOfSingle(s.buffer, moment, s.curr);
  }
}
