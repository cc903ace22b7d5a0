/**
 * The packet scanners of day13.py. A layer of depth `depth` holds a scanner
 * that moves from the top to the bottom and back, one position per
 * picosecond; `check_severity(layer, depth)` is the scanner's position when
 * the packet reaches layer `layer` (a triangle wave of period
 * `2 * (depth - 1)`), and the packet is caught when that position is 0.
 * Part 'a' adds up `layer * depth` over the layers that catch it; part 'b'
 * finds the least delay with which no layer does.
 */
module Firewall {
  import opened PyLib

  /** One `layer: depth` entry of the firewall dictionary, in the dictionary's order. */
  datatype Layer = Layer(layer: int, depth: int)

  /** `check_severity(layer, depth)`; a depth of 1 makes the modulus 0. */
  function Severity(layer: int, depth: int): (r: Result<int>)
    ensures r.Raise? <==> depth == 1
    ensures r.Raise? ==> r.exc == ZeroDivisionError
  {
    if depth == 1 then Raise(ZeroDivisionError)
    else
      var period := (depth - 1) * 2;
      var off := FloorMod(layer, period);
      Ok(if off > depth - 1 then period - off else off)
  }

  /** The scanner of a layer of depth `depth` is away from the top at time `layer`. */
  predicate Misses(layer: int, depth: int) {
    Severity(layer, depth).Ok? && Severity(layer, depth).value != 0
  }

  /** The severity sum of part 'a': `layer * depth` over the layers whose scanner is at 0, in order. */
  function TripSeverity(firewall: seq<Layer>): (r: Result<int>)
    ensures r.Raise? ==> r.exc == ZeroDivisionError
    ensures (forall k :: 0 <= k < |firewall| ==> Misses(firewall[k].layer, firewall[k].depth)) ==> r == Ok(0)
    decreases |firewall|
  {
    if firewall == [] then Ok(0)
    else
      var l := firewall[0];
      var s := Severity(l.layer, l.depth);
      var rest := TripSeverity(firewall[1..]);
      if s.Raise? then Raise(s.exc)
      else if rest.Raise? then rest
      else Ok((if s.value == 0 then l.layer * l.depth else 0) + rest.value)
  }

  /** `any(check_severity(hold + layer, depth) == 0 for layer in firewall)`, stopping at the first catch. */
  function Caught(firewall: seq<Layer>, hold: int): (r: Result<bool>)
    ensures r.Raise? ==> r.exc == ZeroDivisionError
    ensures r == Ok(true) ==> exists k :: 0 <= k < |firewall| && Severity(hold + firewall[k].layer, firewall[k].depth) == Ok(0)
    decreases |firewall|
  {
    if firewall == [] then Ok(false)
    else
      var s := Severity(hold + firewall[0].layer, firewall[0].depth);
      if s.Raise? then Raise(s.exc)
      else if s.value == 0 then Ok(true)
      else Caught(firewall[1..], hold)
  }

  datatype Search = Found(delay: int) | Failed(exc: Exc) | OutOfFuel

  /** `next(hold for hold in count(start) if not any(...))`, trying at most `fuel` delays. */
  function FirstSafe(firewall: seq<Layer>, hold: int, fuel: nat): (r: Search)
    ensures r.Failed? ==> r.exc == ZeroDivisionError
    ensures r.Found? ==> hold <= r.delay < hold + fuel && Caught(firewall, r.delay) == Ok(false)
    decreases fuel
  {
    if fuel == 0 then OutOfFuel
    else
      var c := Caught(firewall, hold);
      if c.Raise? then Failed(c.exc)
      else if !c.value then Found(hold)
      else FirstSafe(firewall, hold + 1, fuel - 1)
  }

  // ----------------------------------------------------------------
  // The scanner itself

  /** A scanner's position and whether it is moving down; it turns at either end. */
  datatype Scanner = Scanner(pos: int, down: bool)

  function Move(depth: int, s: Scanner): Scanner {
    if s.down then Scanner(s.pos + 1, s.pos + 1 < depth - 1)
    else Scanner(s.pos - 1, s.pos - 1 == 0)
  }

  /** The scanner of a layer of depth `depth` after `t` picoseconds, starting at the top. */
  function ScannerAt(depth: int, t: nat): Scanner {
    if t == 0 then Scanner(0, 0 < depth - 1) else Move(depth, ScannerAt(depth, t - 1))
  }

  // ----------------------------------------------------------------
  // Properties

  /** For depth of at least 2 the severity lies in `[0, depth - 1]`. */
  lemma SeverityRange(layer: int, depth: int)
    requires depth >= 2
    ensures 0 <= Severity(layer, depth).value <= depth - 1
  {
  }

  /** For depth of at least 2 the packet is caught exactly when `layer` is a multiple of `2 * (depth - 1)`. */
  lemma SeverityZero(layer: int, depth: int)
    requires depth >= 2
    ensures Severity(layer, depth).value == 0 <==> FloorMod(layer, 2 * (depth - 1)) == 0
  {
  }

  /** The severity repeats with period `2 * (depth - 1)`. */
  lemma SeverityPeriodic(layer: int, depth: int)
    requires depth >= 2
    ensures Severity(layer + 2 * (depth - 1), depth) == Severity(layer, depth)
  {
    var period := (depth - 1) * 2;
    ModUnique(layer + period, period, layer / period + 1, layer % period);
  }

  /** The step from `t` to `t + 1` of the reduced time `t % period`: one up, or back to 0. */
  lemma ModStep(t: nat, period: int)
    requires period > 0
    ensures (t + 1) % period == if t % period == period - 1 then 0 else t % period + 1
  {
    if t % period == period - 1 {
      ModUnique(t + 1, period, t / period + 1, 0);
    } else {
      ModUnique(t + 1, period, t / period, t % period + 1);
    }
  }

  /**
   * `check_severity` is where a scanner bouncing between 0 and `depth - 1`
   * is after `layer` picoseconds: moving down while the reduced time is
   * below `depth - 1`, up after that.
   */
  lemma {:induction false} SeverityIsScanner(layer: nat, depth: int)
    requires depth >= 2
    ensures var s, period := ScannerAt(depth, layer), 2 * (depth - 1);
            && Severity(layer, depth) == Ok(s.pos)
            && s.down == (layer % period < depth - 1)
  {
    var period := 2 * (depth - 1);
    if layer > 0 {
      SeverityIsScanner(layer - 1, depth);
      ModStep(layer - 1, period);
    }
  }

  /** With every depth at least 2, the severity sum raises nothing, and never goes below 0 for layers at or after 0. */
  lemma {:induction false} TripSeverityBounds(firewall: seq<Layer>)
    requires forall k :: 0 <= k < |firewall| ==> firewall[k].depth >= 2 && firewall[k].layer >= 0
    ensures TripSeverity(firewall).Ok? && TripSeverity(firewall).value >= 0
    decreases |firewall|
  {
    if firewall != [] {
      TripSeverityBounds(firewall[1..]);
      assert firewall[0].layer * firewall[0].depth >= 0;
    }
  }

  /** A layer of depth 1 anywhere makes the sum raise ZeroDivisionError, because the generator visits every layer. */
  lemma {:induction false} TripSeverityRaises(firewall: seq<Layer>)
    ensures TripSeverity(firewall).Raise? <==> exists k :: 0 <= k < |firewall| && firewall[k].depth == 1
    ensures TripSeverity(firewall).Raise? ==> TripSeverity(firewall).exc == ZeroDivisionError
    decreases |firewall|
  {
    if firewall != [] {
      TripSeverityRaises(firewall[1..]);
      assert forall k :: 1 <= k < |firewall| ==> firewall[1..][k - 1] == firewall[k];
    }
  }

  /** With every depth at least 2, `any` answers whether some layer catches the packet. */
  lemma {:induction false} CaughtMeans(firewall: seq<Layer>, hold: int)
    requires forall k :: 0 <= k < |firewall| ==> firewall[k].depth >= 2
    ensures Caught(firewall, hold) == Ok(exists k :: 0 <= k < |firewall| && Severity(hold + firewall[k].layer, firewall[k].depth).value == 0)
    decreases |firewall|
  {
    if firewall != [] {
      CaughtMeans(firewall[1..], hold);
      assert forall k :: 1 <= k < |firewall| ==> firewall[1..][k - 1] == firewall[k];
    }
  }

  /**
   * `any` stops at the first catch: a catch with no depth-1 layer before it
   * answers `true` whatever the later layers hold, depth 1 included.
   */
  lemma {:induction false} CaughtStopsAtCatch(firewall: seq<Layer>, hold: int, k: nat)
    requires k < |firewall| && forall j :: 0 <= j <= k ==> firewall[j].depth != 1
    requires Severity(hold + firewall[k].layer, firewall[k].depth).value == 0
    ensures Caught(firewall, hold) == Ok(true)
    decreases k
  {
    if k > 0 && Severity(hold + firewall[0].layer, firewall[0].depth).value != 0 {
      assert forall j :: 0 <= j < |firewall| - 1 ==> firewall[1..][j] == firewall[j + 1];
      CaughtStopsAtCatch(firewall[1..], hold, k - 1);
    }
  }

  /** A layer of depth 1 that comes before every catch makes `any` raise ZeroDivisionError. */
  lemma {:induction false} CaughtRaises(firewall: seq<Layer>, hold: int, k: nat)
    requires k < |firewall| && firewall[k].depth == 1
    requires forall j :: 0 <= j < k ==> firewall[j].depth != 1 && Severity(hold + firewall[j].layer, firewall[j].depth).value != 0
    ensures Caught(firewall, hold) == Raise(ZeroDivisionError)
    decreases k
  {
    if k > 0 {
      assert forall j :: 0 <= j < |firewall| - 1 ==> firewall[1..][j] == firewall[j + 1];
      CaughtRaises(firewall[1..], hold, k - 1);
    }
  }

  /** A delay the search returns is safe, and every smaller delay it tried was caught. */
  lemma {:induction false} FirstSafeIsLeast(firewall: seq<Layer>, hold: int, fuel: nat)
    requires FirstSafe(firewall, hold, fuel).Found?
    ensures var d := FirstSafe(firewall, hold, fuel).delay;
            && hold <= d < hold + fuel
            && Caught(firewall, d) == Ok(false)
            && forall e :: hold <= e < d ==> Caught(firewall, e) == Ok(true)
    decreases fuel
  {
    if Caught(firewall, hold) != Ok(false) {
      FirstSafeIsLeast(firewall, hold + 1, fuel - 1);
    }
  }

  /** Conversely, with more fuel than the least safe delay the search finds it. */
  lemma {:induction false} FirstSafeFinds(firewall: seq<Layer>, hold: int, fuel: nat, d: int)
    requires hold <= d < hold + fuel
    requires Caught(firewall, d) == Ok(false)
    requires forall e :: hold <= e < d ==> Caught(firewall, e) == Ok(true)
    ensures FirstSafe(firewall, hold, fuel) == Found(d)
    decreases fuel
  {
    if hold < d {
      FirstSafeFinds(firewall, hold + 1, fuel - 1, d);
    }
  }
}
