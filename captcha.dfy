/**
 * The circular digit captcha of day01.py and its copy 17/day01.py: every
 * digit that equals its partner further round the circle adds its value to
 * the total. `next_sum` pairs position i with i + 1, `half_sum` with
 * i + len / 2, both modulo the length.
 */
module Captcha {
  import opened PyLib

  /** Position i holds the same character as its partner `dist` further round the circle. */
  predicate Matches(captcha: string, dist: nat, i: nat)
    requires i < |captcha|
  {
    captcha[i] == captcha[(i + dist) % |captcha|]
  }

  /** What position i adds: its digit when it equals its partner `dist` further round, else 0; None when a matching character is not a digit (`int` raises). */
  function Term(captcha: string, dist: nat, i: nat): (r: Option<int>)
    requires i < |captcha|
    ensures r.None? <==> Matches(captcha, dist, i) && !IsDigit(captcha[i])
    ensures r.Some? ==> 0 <= r.value <= 9
    ensures r.Some? && !Matches(captcha, dist, i) ==> r.value == 0
  {
    ParseOneChar(captcha[i]);
    if Matches(captcha, dist, i) then ParseInt([captcha[i]]) else Some(0)
  }

  /** The running total after positions 0 .. t - 1, or the ValueError raised on the way. */
  function Total(captcha: string, dist: nat, t: nat): Result<int>
    requires t <= |captcha|
  {
    if t == 0 then Ok(0)
    else
      var prev := Total(captcha, dist, t - 1);
      if prev.Raise? then prev
      else match Term(captcha, dist, t - 1)
        case None => Raise(ValueError)
        case Some(v) => Ok(prev.value + v)
  }

  /** `next_sum(captcha)` of day01.py: the partner index is `(i + 1) % len(captcha)`. */
  method NextSum(captcha: string) returns (r: Result<int>)
    ensures r == Total(captcha, 1, |captcha|)
  {
    var total := 0;
    for i := 0 to |captcha|
      invariant Total(captcha, 1, i) == Ok(total)
    {
      var j := (i + 1) % |captcha|;
      var atI, atJ := captcha[i], captcha[j];
      assert Matches(captcha, 1, i) <==> atI == atJ;
      ParseOneChar(atI);
      if atI == atJ {
        var v := ParseInt([atI]);
        if v.None? {
          RaiseStops(captcha, 1, i + 1, |captcha|);
          return Raise(ValueError);
        }
        total := total + v.value;
      }
    }
    return Ok(total);
  }

  /** `next_sum(captcha)` of 17/day01.py: the partner is `i + 1`, or 0 for the last index, which is the same pairing. */
  method NextSumWrapped(captcha: string) returns (r: Result<int>)
    ensures r == Total(captcha, 1, |captcha|)
  {
    var total := 0;
    for i := 0 to |captcha|
      invariant Total(captcha, 1, i) == Ok(total)
    {
      var j;
      if i != |captcha| - 1 {
        j := i + 1;
      } else {
        j := 0;
      }
      WrapIsMod(i, |captcha|);
      var atI, atJ := captcha[i], captcha[j];
      assert Matches(captcha, 1, i) <==> atI == atJ;
      ParseOneChar(atI);
      if atI == atJ {
        var v := ParseInt([atI]);
        if v.None? {
          RaiseStops(captcha, 1, i + 1, |captcha|);
          return Raise(ValueError);
        }
        total := total + v.value;
      }
    }
    return Ok(total);
  }

  /** `half_sum(captcha)` (the same in both files): the partner index is `(i + len // 2) % len`. */
  method HalfSum(captcha: string) returns (r: Result<int>)
    ensures r == Total(captcha, |captcha| / 2, |captcha|)
  {
    var total := 0;
    var full := |captcha|;
    var half := full / 2;
    for i := 0 to full
      invariant Total(captcha, half, i) == Ok(total)
    {
      var j := (i + half) % full;
      var atI, atJ := captcha[i], captcha[j];
      assert Matches(captcha, half, i) <==> atI == atJ;
      ParseOneChar(atI);
      if atI == atJ {
        var v := ParseInt([atI]);
        if v.None? {
          RaiseStops(captcha, half, i + 1, |captcha|);
          return Raise(ValueError);
        }
        total := total + v.value;
      }
    }
    return Ok(total);
  }

  // ----------------------------------------------------------------
  // Properties

  /** The explicit wrap of 17/day01.py, `i + 1` or 0 for the last index, is `(i + 1) % n`. */
  lemma WrapIsMod(i: nat, n: nat)
    requires i < n
    ensures (i + 1) % n == if i != n - 1 then i + 1 else 0
  {
    ModOnce(i + 1, n);
  }

  /** Once raised, the exception is what the whole loop returns. */
  lemma {:induction false} RaiseStops(captcha: string, dist: nat, t: nat, u: nat)
    requires t <= u <= |captcha| && Total(captcha, dist, t).Raise?
    ensures Total(captcha, dist, u) == Total(captcha, dist, t)
    decreases u
  {
    if u > t {
      RaiseStops(captcha, dist, t, u - 1);
    }
  }

  /** The empty captcha sums to 0 under any pairing. */
  lemma EmptyCaptcha(dist: nat)
    ensures Total([], dist, 0) == Ok(0)
  {
  }

  /**
   * The total raises exactly when some position up to t matches its partner
   * without being a digit, and then the exception is ValueError.
   */
  lemma {:induction false} TotalRaises(captcha: string, dist: nat, t: nat)
    requires t <= |captcha|
    ensures Total(captcha, dist, t).Raise? <==> exists i :: 0 <= i < t && Term(captcha, dist, i).None?
    ensures Total(captcha, dist, t).Raise? ==> Total(captcha, dist, t).exc == ValueError
  {
    if t > 0 {
      TotalRaises(captcha, dist, t - 1);
    }
  }

  /** On a digit string the total is defined and lies in `[0, 9 * t]`. */
  lemma {:induction false} TotalBounds(captcha: string, dist: nat, t: nat)
    requires t <= |captcha| && AllDigits(captcha)
    ensures Total(captcha, dist, t).Ok?
    ensures 0 <= Total(captcha, dist, t).value <= 9 * t
  {
    if t > 0 {
      TotalBounds(captcha, dist, t - 1);
    }
  }

  /** With no position equal to its partner, the total is 0 whatever the characters. */
  lemma {:induction false} NoMatchZero(captcha: string, dist: nat, t: nat)
    requires t <= |captcha|
    requires forall i :: 0 <= i < t ==> !Matches(captcha, dist, i)
    ensures Total(captcha, dist, t) == Ok(0)
  {
    if t > 0 {
      NoMatchZero(captcha, dist, t - 1);
    }
  }

  /** On a digit string each step of the total adds the term of its position. */
  lemma TotalDigitStep(captcha: string, dist: nat, t: nat)
    requires t < |captcha| && AllDigits(captcha)
    ensures Total(captcha, dist, t).Ok? && Term(captcha, dist, t).Some?
    ensures Total(captcha, dist, t + 1) == Ok(Total(captcha, dist, t).value + Term(captcha, dist, t).value)
  {
    TotalBounds(captcha, dist, t);
  }

  /** For an even length 2h the half-way pairing is symmetric: position h + k pairs with k and adds the same. */
  lemma HalfTermMirror(captcha: string, h: nat, k: nat)
    requires |captcha| == 2 * h && k < h
    ensures Term(captcha, h, h + k) == Term(captcha, h, k)
  {
    ModOnce(k + h, 2 * h);
    ModOnce(h + k + h, 2 * h);
  }

  /** Positions h .. h + m - 1 add what positions 0 .. m - 1 do. */
  lemma {:induction false} HalfTotalSplit(captcha: string, h: nat, m: nat)
    requires |captcha| == 2 * h && m <= h && AllDigits(captcha)
    ensures && Total(captcha, h, h + m).Ok? && Total(captcha, h, h).Ok? && Total(captcha, h, m).Ok?
            && Total(captcha, h, h + m).value == Total(captcha, h, h).value + Total(captcha, h, m).value
  {
    if m > 0 {
      var k := m - 1;
      HalfTotalSplit(captcha, h, k);
      TotalDigitStep(captcha, h, h + k);
      TotalDigitStep(captcha, h, k);
      HalfTermMirror(captcha, h, k);
      assert h + k + 1 == h + m;
    } else {
      TotalBounds(captcha, h, h);
    }
  }

  /** For an even-length digit string, `half_sum` is twice the sum over the first half. */
  lemma HalfSumSymmetric(captcha: string)
    requires |captcha| % 2 == 0 && AllDigits(captcha)
    ensures var h := |captcha| / 2;
            Total(captcha, h, h).Ok? && Total(captcha, h, |captcha|) == Ok(2 * Total(captcha, h, h).value)
  {
    var h := |captcha| / 2;
    HalfTotalSplit(captcha, h, h);
  }
}
