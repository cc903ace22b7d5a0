/**
 * The memory-bank balancer of day06.py and its copy 17/day06.py
 * (`find_duplicate`): the fullest bank (the first one on a tie) is emptied
 * and its blocks dealt one at a time to the following banks, round the list;
 * each configuration is recorded with its cycle number, and the loop stops at
 * the first configuration seen before.
 */
module MemoryBanks {
  import opened PyLib

  /** `banks.index(max(banks))`: the donor, the first bank holding the maximum. */
  function FirstMax(s: seq<int>): (d: nat)
    requires |s| > 0
    ensures d < |s| && s[d] == Max(s)
    ensures forall k :: 0 <= k < d ==> s[k] < s[d]
  {
    FirstIndex(s, Max(s))
  }

  function FirstIndex(s: seq<int>, x: int): (d: nat)
    requires x in s
    ensures d < |s| && s[d] == x
    ensures forall k :: 0 <= k < d ==> s[k] != x
    decreases |s|
  {
    if s[0] == x then 0 else FirstIndex(s[1..], x) + 1
  }

  /** The inner loop: `m` more blocks dealt one by one after position `curr`. */
  function Spread(s: seq<int>, curr: nat, m: int): (r: seq<int>)
    requires curr < |s|
    ensures |r| == |s|
    decreases if m < 0 then 0 else m
  {
    if m <= 0 then s
    else
      var next := (curr + 1) % |s|;
      Spread(s[next := s[next] + 1], next, m - 1)
  }

  /** One cycle: empty the donor and deal its blocks out. */
  function Redistribute(s: seq<int>): (r: seq<int>)
    requires |s| > 0
    ensures |r| == |s|
  {
    var d := FirstMax(s);
    Spread(s[d := 0], d, s[d])
  }

  /** How `find_duplicate` ends: the pair it returns, an exception, or the fuel running out. */
  datatype Outcome = Found(cycles: nat, loop: int) | Failed(exc: Exc) | OutOfFuel

  /** One cycle on any list; the search never cycles the empty list, which has no donor. */
  function Cycle(s: seq<int>): (r: seq<int>)
    ensures |r| == |s|
  {
    if |s| == 0 then s else Redistribute(s)
  }

  /**
   * The outer loop for a given cycle function, given the recorded
   * configurations and the cycle count, for at most `fuel` cycles; the banks
   * at the end come second. Keeping the cycle function a parameter separates
   * the bookkeeping of `history` from the arithmetic of one cycle.
   */
  function SearchWith(step: seq<int> -> seq<int>, banks: seq<int>, history: map<seq<int>, nat>, cycles: nat, fuel: nat)
    : (Outcome, seq<int>)
    decreases fuel
  {
    if banks in history then (Found(cycles, cycles - history[banks]), banks)
    else if fuel == 0 then (OutOfFuel, banks)
    else if |banks| == 0 then (Failed(ValueError), banks)
    else SearchWith(step, step(banks), history[banks := cycles], cycles + 1, fuel - 1)
  }

  /** The outer loop of `find_duplicate`. */
  function Search(banks: seq<int>, history: map<seq<int>, nat>, cycles: nat, fuel: nat): (Outcome, seq<int>) {
    SearchWith(Cycle, banks, history, cycles, fuel)
  }

  /** `find_duplicate(banks)`, rewriting the banks in place. */
  method FindDuplicate(banks: array<int>, fuel: nat) returns (out: Outcome)
    modifies banks
    ensures (out, banks[..]) == Search(old(banks[..]), map[], 0, fuel)
  {
    ghost var goal := Search(banks[..], map[], 0, fuel);
    var cycles: nat := 0;
    var history: map<seq<int>, nat> := map[];
    var left := fuel;
    while banks[..] !in history
      invariant Search(banks[..], history, cycles, left) == goal
      decreases left
    {
      if left == 0 {
        return OutOfFuel;
      }
      ghost var seen := history;
      history := history[banks[..] := cycles];
      if banks.Length == 0 {
        return Failed(ValueError);
      }
      ghost var before := banks[..];
      var maximum := Max(banks[..]);
      var curr := FirstIndex(banks[..], maximum);
      banks[curr] := 0;
      Deal(banks, curr, maximum);
      SearchStep(before, seen, cycles, left);
      cycles := cycles + 1;
      left := left - 1;
    }
    return Found(cycles, cycles - history[banks[..]]);
  }

  /** The inner loop of `find_duplicate`: deal `maximum` blocks, one to each bank after `curr` in turn. */
  method Deal(banks: array<int>, start: nat, blocks: int)
    requires start < banks.Length
    modifies banks
    ensures banks[..] == Spread(old(banks[..]), start, blocks)
  {
    ghost var goal := Spread(banks[..], start, blocks);
    var curr: nat, maximum := start, blocks;
    while maximum > 0
      invariant curr < banks.Length
      invariant Spread(banks[..], curr, maximum) == goal
    {
      curr := (curr + 1) % banks.Length;
      banks[curr] := banks[curr] + 1;
      maximum := maximum - 1;
    }
  }

  /** One pass of the outer loop, on a configuration not seen before. */
  lemma SearchStep(banks: seq<int>, history: map<seq<int>, nat>, cycles: nat, fuel: nat)
    requires banks !in history && fuel > 0 && |banks| > 0
    ensures Search(banks, history, cycles, fuel) == Search(Cycle(banks), history[banks := cycles], cycles + 1, fuel - 1)
  {
  }

  // ----------------------------------------------------------------
  // Properties of one cycle

  predicate NonNegative(s: seq<int>) {
    forall k :: 0 <= k < |s| ==> s[k] >= 0
  }

  /** Dealing m >= 0 blocks adds exactly m to the total and keeps every bank non-negative. */
  lemma {:induction false} SpreadSum(s: seq<int>, curr: nat, m: int)
    requires curr < |s| && NonNegative(s)
    ensures Sum(Spread(s, curr, m)) == Sum(s) + (if m < 0 then 0 else m)
    ensures NonNegative(Spread(s, curr, m))
    decreases if m < 0 then 0 else m
  {
    if m > 0 {
      var next := (curr + 1) % |s|;
      SumUpdate(s, next, s[next] + 1);
      SpreadSum(s[next := s[next] + 1], next, m - 1);
    }
  }

  /** With block counts (non-negative banks), a cycle keeps the number of banks and of blocks. */
  lemma RedistributeKeepsBlocks(s: seq<int>)
    requires |s| > 0 && NonNegative(s)
    ensures Sum(Redistribute(s)) == Sum(s)
    ensures NonNegative(Redistribute(s))
  {
    var d := FirstMax(s);
    SumUpdate(s, d, 0);
    SpreadSum(s[d := 0], d, s[d]);
  }

  /** An empty list raises ValueError at `max(banks)` after recording it. */
  lemma EmptyBanksRaise(fuel: nat)
    requires fuel > 0
    ensures Search([], map[], 0, fuel).0 == Failed(ValueError)
  {
  }

  // ----------------------------------------------------------------
  // Properties of the search

  /** The banks after k cycles. */
  function Iterate(step: seq<int> -> seq<int>, b: seq<int>, k: nat): seq<int> {
    if k == 0 then b else step(Iterate(step, b, k - 1))
  }

  /** `history` maps each configuration of `trace` to its position there, and holds nothing else. */
  predicate Recorded(history: map<seq<int>, nat>, trace: seq<seq<int>>) {
    && (forall i :: 0 <= i < |trace| ==> trace[i] in history && history[trace[i]] == i)
    && (forall k :: k in history ==> history[k] < |trace| && trace[history[k]] == k)
  }

  /** `trace` lists the configurations of the first cycles, in order. */
  predicate IsTrace(step: seq<int> -> seq<int>, b0: seq<int>, trace: seq<seq<int>>) {
    forall i :: 0 <= i < |trace| ==> trace[i] == Iterate(step, b0, i)
  }

  /** A recorded configuration closes a loop, and the recorded ones are pairwise distinct. */
  lemma RepeatFound(history: map<seq<int>, nat>, trace: seq<seq<int>>, banks: seq<int>)
    requires Recorded(history, trace) && banks in history
    ensures history[banks] < |trace| && trace[history[banks]] == banks
    ensures forall i, j :: 0 <= i < j < |trace| ==> trace[i] != trace[j]
  {
    forall i, j | 0 <= i < j < |trace| ensures trace[i] != trace[j] {
      assert history[trace[i]] == i && history[trace[j]] == j;
    }
  }

  /** Recording a new configuration under the next cycle number keeps the history exact. */
  lemma RecordNext(history: map<seq<int>, nat>, trace: seq<seq<int>>, banks: seq<int>)
    requires Recorded(history, trace) && banks !in history
    ensures Recorded(history[banks := |trace|], trace + [banks])
  {
    var h, t := history[banks := |trace|], trace + [banks];
    forall i | 0 <= i < |t| ensures t[i] in h && h[t[i]] == i {
      if i < |trace| {
        assert t[i] == trace[i] && trace[i] in history;
      }
    }
  }

  /** One more cycle: the trace grows by the current configuration and the history records it. */
  lemma ExtendTrace(step: seq<int> -> seq<int>, b0: seq<int>, history: map<seq<int>, nat>, trace: seq<seq<int>>)
    requires IsTrace(step, b0, trace) && Recorded(history, trace)
    requires Iterate(step, b0, |trace|) !in history
    ensures var banks := Iterate(step, b0, |trace|);
            && IsTrace(step, b0, trace + [banks])
            && Recorded(history[banks := |trace|], trace + [banks])
  {
    var banks := Iterate(step, b0, |trace|);
    RecordNext(history, trace, banks);
    var t := trace + [banks];
    forall i | 0 <= i < |t| ensures t[i] == Iterate(step, b0, i) {
      if i < |trace| {
        assert t[i] == trace[i];
      }
    }
  }

  /** Where a search stops: `1 <= loop <= cycles`, the banks repeat those of cycle `cycles - loop`, and no earlier pair repeats. */
  ghost predicate FirstRepeat(step: seq<int> -> seq<int>, b0: seq<int>, out: Outcome, last: seq<int>) {
    out.Found? ==>
      && 1 <= out.loop <= out.cycles
      && last == Iterate(step, b0, out.cycles) == Iterate(step, b0, out.cycles - out.loop)
      && forall i, j :: 0 <= i < j < out.cycles ==> Iterate(step, b0, i) != Iterate(step, b0, j)
  }

  lemma RepeatHere(step: seq<int> -> seq<int>, b0: seq<int>, history: map<seq<int>, nat>, trace: seq<seq<int>>)
    requires IsTrace(step, b0, trace) && Recorded(history, trace)
    requires Iterate(step, b0, |trace|) in history
    ensures var banks := Iterate(step, b0, |trace|);
            FirstRepeat(step, b0, Found(|trace|, |trace| - history[banks]), banks)
  {
    var banks := Iterate(step, b0, |trace|);
    RepeatFound(history, trace, banks);
    forall i, j | 0 <= i < j < |trace| ensures Iterate(step, b0, i) != Iterate(step, b0, j) {
      assert trace[i] != trace[j];
    }
  }

  /**
   * Whatever the cycle function, the search stops at the first repeat: the
   * configurations of cycles 0 .. cycles - 1 are pairwise distinct, the one
   * reached after `cycles` cycles is the one of cycle `cycles - loop`, and
   * `1 <= loop <= cycles`.
   */
  lemma {:induction false} StopsAtFirstRepeat(step: seq<int> -> seq<int>, b0: seq<int>, history: map<seq<int>, nat>,
                                              trace: seq<seq<int>>, fuel: nat)
    requires IsTrace(step, b0, trace) && Recorded(history, trace)
    ensures var r := SearchWith(step, Iterate(step, b0, |trace|), history, |trace|, fuel);
            FirstRepeat(step, b0, r.0, r.1)
    decreases fuel
  {
    var banks := Iterate(step, b0, |trace|);
    if banks in history {
      RepeatHere(step, b0, history, trace);
    } else if fuel > 0 && |banks| > 0 {
      ExtendTrace(step, b0, history, trace);
      StopsAtFirstRepeat(step, b0, history[banks := |trace|], trace + [banks], fuel - 1);
    }
  }

  /** From the start, `find_duplicate` stops at the first repeat (see `FirstRepeat`). */
  lemma FindDuplicateFirstRepeat(b0: seq<int>, fuel: nat)
    ensures var r := Search(b0, map[], 0, fuel);
            FirstRepeat(Cycle, b0, r.0, r.1)
  {
    var none: seq<seq<int>> := [];
    StopsAtFirstRepeat(Cycle, b0, map[], none, fuel);
  }
}
