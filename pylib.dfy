/**
 * The small part of Python's semantics that the puzzle solvers rely on:
 * exceptions, `int()` on a whitespace-free token, `str()` of an integer,
 * floor division and modulo, and list indexing with negative indices.
 */
module PyLib {

  datatype Option<+T> = None | Some(value: T)

  /** The Python exceptions the solvers can raise. */
  datatype Exc =
    | ValueError
    | IndexError
    | KeyError
    | TypeError
    | RuntimeError
    | ZeroDivisionError
    | SyntaxError

  /** A computation that either returns a value or raises. */
  datatype Result<+T> = Ok(value: T) | Raise(exc: Exc)

  /** A statement that either completes or raises. */
  datatype Outcome = Pass | Fail(exc: Exc)

  // ----------------------------------------------------------------
  // Decimal digits

  predicate IsDigit(c: char) {
    '0' <= c <= '9'
  }

  function DigitValue(c: char): (d: nat)
    requires IsDigit(c)
    ensures d < 10
  {
    (c as int) - ('0' as int)
  }

  function DigitChar(d: nat): (c: char)
    requires d < 10
    ensures IsDigit(c) && DigitValue(c) == d
  {
    (('0' as int) + d) as char
  }

  predicate AllDigits(s: string) {
    forall k :: 0 <= k < |s| ==> IsDigit(s[k])
  }

  /** The value of a string of decimal digits, most significant first. */
  function DigitsValue(s: string): nat
    requires AllDigits(s)
  {
    if s == [] then 0 else DigitsValue(s[..|s| - 1]) * 10 + DigitValue(s[|s| - 1])
  }

  /** `int(tok)` for a token without white space: an optional sign and one or more digits. */
  function ParseInt(tok: string): (r: Option<int>)
    ensures r.Some? ==> |tok| > 0
    ensures r.Some? && tok[0] == '-' ==> r.value <= 0
    ensures r.Some? && IsDigit(tok[0]) ==> r.value >= 0
  {
    if |tok| > 0 && (tok[0] == '-' || tok[0] == '+') then
      var body := tok[1..];
      if |body| > 0 && AllDigits(body) then
        Some(if tok[0] == '-' then -(DigitsValue(body) as int) else DigitsValue(body))
      else None
    else if |tok| > 0 && AllDigits(tok) then Some(DigitsValue(tok))
    else None
  }

  /** The decimal digits of `n`, without leading zeros. */
  function NatToString(n: nat): (s: string)
    ensures |s| > 0 && AllDigits(s)
  {
    if n < 10 then [DigitChar(n)] else NatToString(n / 10) + [DigitChar(n % 10)]
  }

  /** `str(n)`. */
  function IntToString(n: int): string {
    if n < 0 then "-" + NatToString(-n) else NatToString(n)
  }

  lemma {:induction false} NatToStringValue(n: nat)
    ensures DigitsValue(NatToString(n)) == n
  {
    var s := NatToString(n);
    if n >= 10 {
      NatToStringValue(n / 10);
      assert s[..|s| - 1] == NatToString(n / 10);
    }
  }

  /** `int(str(n)) == n`: printing an integer and reading it back is the identity. */
  lemma ParseIntToString(n: int)
    ensures ParseInt(IntToString(n)) == Some(n)
  {
    if n < 0 {
      NatToStringValue(-n);
      assert IntToString(n)[1..] == NatToString(-n);
    } else {
      NatToStringValue(n);
    }
  }

  /** A token that starts with a letter never reads as an integer (so it names a register). */
  lemma LetterIsNotInt(tok: string)
    requires |tok| > 0 && 'a' <= tok[0] <= 'z'
    ensures ParseInt(tok) == None
  {
    assert !IsDigit(tok[0]);
  }

  /** `int(c)` of a single character reads it as a digit, and fails for anything else. */
  lemma ParseOneChar(c: char)
    ensures ParseInt([c]) == if IsDigit(c) then Some(DigitValue(c) as int) else None
  {
    var tok := [c];
    assert tok[..0] == [] && tok[0] == c;
    if c == '-' || c == '+' {
      assert tok[1..] == [];
    } else if !IsDigit(c) {
      assert !AllDigits(tok);
    } else {
      assert DigitsValue(tok) == DigitsValue(tok[..0]) * 10 + DigitValue(c);
    }
  }

  // ----------------------------------------------------------------
  // Floor division and modulo (Python's `//` and `%`)

  /** Python's `a % b`: the remainder takes the sign of the divisor. */
  function FloorMod(a: int, b: int): (r: int)
    requires b != 0
    ensures b > 0 ==> 0 <= r < b
    ensures b < 0 ==> b < r <= 0
  {
    if b > 0 then a % b
    else
      var m := a % (-b);
      if m == 0 then 0 else m + b
  }

  /** Reducing a value below twice the modulus subtracts it at most once. */
  lemma ModOnce(a: int, n: int)
    requires 0 < n && 0 <= a < 2 * n
    ensures a % n == if a < n then a else a - n
  {
  }

  /** The remainder is the one `r` in `[0, b)` with `a == b * q + r` for some `q`. */
  lemma ModUnique(a: int, b: int, q: int, r: int)
    requires 0 < b && a == b * q + r && 0 <= r < b
    ensures a % b == r && a / b == q
  {
    var k := q - a / b;
    assert b * k == a % b - r;
    if k != 0 {
      MulOutside(b, k);
      assert false;
    }
  }

  /** A non-zero multiple of `b` is at least `b` away from 0. */
  lemma MulOutside(b: int, k: int)
    requires 0 < b && k != 0
    ensures b * k >= b || b * k <= -b
  {
    if k > 0 {
      assert b * k == b * (k - 1) + b;
    } else {
      assert b * k == -(b * (-k - 1)) - b;
    }
  }

  /** Python's `a // b`: the quotient rounded towards minus infinity. */
  function FloorDiv(a: int, b: int): (q: int)
    requires b != 0
    ensures a == b * q + FloorMod(a, b)
  {
    if b > 0 then a / b
    else
      var q, m := a / (-b), a % (-b);
      assert a == (-b) * q + m;
      assert b * (-q) == (-b) * q;
      if m == 0 then -q else -q - 1
  }

  // ----------------------------------------------------------------
  // List indexing

  /** The position that `xs[i]` reads for a list of length `n`, or None for an IndexError. */
  function PyIndex(n: nat, i: int): (r: Option<nat>)
    ensures r.Some? <==> -(n as int) <= i < n
    ensures r.Some? ==> r.value < n
    ensures r.Some? && i >= 0 ==> r.value == i
    ensures r.Some? && i < 0 ==> r.value == n + i
  {
    if 0 <= i < n then Some(i)
    else if -(n as int) <= i < 0 then Some(n + i)
    else None
  }

  /** `xs[i]` with Python's index rules. */
  function At<T>(xs: seq<T>, i: int): Result<T> {
    match PyIndex(|xs|, i)
    case Some(k) => Ok(xs[k])
    case None => Raise(IndexError)
  }

  /** The slice bound that `xs[k:]` or `xs[:k]` uses for a list of length `n`. */
  function SliceBound(n: nat, k: int): (b: nat)
    ensures b <= n
    ensures 0 <= k <= n ==> b == k
    ensures -(n as int) <= k < 0 ==> b == n + k
  {
    if k < 0 then (if k + n < 0 then 0 else k + n)
    else if k > n then n
    else k
  }

  // ----------------------------------------------------------------
  // Splitting on a separator

  /** `s.split(sep)` for a one-character separator: the pieces between separators, at least one. */
  function Split(s: string, sep: char): (r: seq<string>)
    ensures |r| >= 1
    decreases |s|
  {
    if s == [] then [""]
    else
      var rest := Split(s[1..], sep);
      if s[0] == sep then [""] + rest
      else [[s[0]] + rest[0]] + rest[1..]
  }

  /** `sep.join(pieces)`. */
  function Join(pieces: seq<string>, sep: char): string
    requires |pieces| >= 1
    decreases |pieces|
  {
    if |pieces| == 1 then pieces[0] else pieces[0] + [sep] + Join(pieces[1..], sep)
  }

  /** Splitting loses nothing: joining the pieces back gives the string, and no piece holds the separator. */
  lemma {:induction false} SplitJoin(s: string, sep: char)
    ensures Join(Split(s, sep), sep) == s
    ensures forall k :: 0 <= k < |Split(s, sep)| ==> sep !in Split(s, sep)[k]
    decreases |s|
  {
    if s != [] {
      var rest := Split(s[1..], sep);
      SplitJoin(s[1..], sep);
      if s[0] == sep {
        assert Split(s, sep)[1..] == rest;
      } else {
        var r := Split(s, sep);
        assert r[0] == [s[0]] + rest[0];
        assert r[1..] == rest[1..];
        if |rest| == 1 {
          assert Join(r, sep) == [s[0]] + rest[0];
        } else {
          assert Join(r, sep) == r[0] + [sep] + Join(rest[1..], sep);
        }
        assert [s[0]] + s[1..] == s;
      }
    }
  }

  // ----------------------------------------------------------------
  // Counting

  /** The number of elements of `s` that satisfy `p`. */
  function CountIf<T>(s: seq<T>, p: T -> bool): (c: nat)
    ensures c <= |s|
  {
    if s == [] then 0 else CountIf(s[..|s| - 1], p) + (if p(s[|s| - 1]) then 1 else 0)
  }

  /** `p` holding implies `q` holding, so `q` counts at least as many elements. */
  lemma {:induction false} CountIfMono<T>(s: seq<T>, p: T -> bool, q: T -> bool)
    requires forall k :: 0 <= k < |s| && p(s[k]) ==> q(s[k])
    ensures CountIf(s, p) <= CountIf(s, q)
    decreases |s|
  {
    if s != [] {
      var n := |s| - 1;
      assert forall k :: 0 <= k < n ==> s[..n][k] == s[k];
      CountIfMono(s[..n], p, q);
    }
  }

  /** No element occurs twice. */
  predicate Distinct<T(==)>(s: seq<T>) {
    forall i, j :: 0 <= i < j < |s| ==> s[i] != s[j]
  }

  /** `set(s)`. */
  function Elements<T>(s: seq<T>): set<T> {
    set x | x in s
  }

  /** `len(set(s)) <= len(s)`, with equality exactly when no element occurs twice. */
  lemma {:induction false} ElementsSize<T>(s: seq<T>)
    ensures |Elements(s)| <= |s|
    ensures |Elements(s)| == |s| <==> Distinct(s)
    decreases |s|
  {
    if s != [] {
      var n := |s| - 1;
      var init := s[..n];
      ElementsSize(init);
      assert Elements(s) == Elements(init) + {s[n]};
      if s[n] in init {
        assert Elements(s) == Elements(init);
        assert !Distinct(s) by {
          var k :| 0 <= k < n && init[k] == s[n];
          assert s[k] == s[n];
        }
      } else {
        assert s[n] !in Elements(init);
        assert Distinct(s) <==> Distinct(init) by {
          assert forall k :: 0 <= k < n ==> init[k] == s[k];
        }
      }
    }
  }

  /** `list.index(x)` and `str.index(x)`: the first position holding `x`. */
  function IndexOf<T(==)>(s: seq<T>, x: T): (r: Option<nat>)
    ensures r.Some? <==> x in s
    ensures r.Some? ==> r.value < |s| && s[r.value] == x && forall k :: 0 <= k < r.value ==> s[k] != x
  {
    if s == [] then None
    else if s[0] == x then Some(0)
    else
      var rest := IndexOf(s[1..], x);
      if rest.None? then None else Some(rest.value + 1)
  }

  /** The number of occurrences of `x` in `s` (`s.count(x)`). */
  function Occurrences<T(==)>(s: seq<T>, x: T): (c: nat)
    ensures c <= |s|
  {
    if s == [] then 0 else Occurrences(s[..|s| - 1], x) + (if s[|s| - 1] == x then 1 else 0)
  }

  /** Counting the occurrences of `x` one by one agrees with the multiset of the sequence. */
  lemma {:induction false} OccurrencesMultiset<T>(s: seq<T>, x: T)
    ensures Occurrences(s, x) == multiset(s)[x]
    decreases |s|
  {
    if s != [] {
      OccurrencesMultiset(s[..|s| - 1], x);
      assert s == s[..|s| - 1] + [s[|s| - 1]];
    }
  }

  /** An element found at some index is counted. */
  lemma {:induction false} OccurrencesAt<T>(s: seq<T>, x: T, k: nat)
    requires k < |s| && s[k] == x
    ensures Occurrences(s, x) >= 1
    decreases |s|
  {
    if k < |s| - 1 {
      OccurrencesAt(s[..|s| - 1], x, k);
    }
  }

  /** An element found at two different indices is counted at least twice. */
  lemma {:induction false} OccurrencesTwice<T>(s: seq<T>, x: T, j: nat, k: nat)
    requires j < k < |s| && s[j] == x && s[k] == x
    ensures Occurrences(s, x) >= 2
    decreases |s|
  {
    var init := s[..|s| - 1];
    if k == |s| - 1 {
      OccurrencesAt(init, x, j);
    } else {
      OccurrencesTwice(init, x, j, k);
    }
  }

  /** Some element of a non-empty set. */
  lemma SomeElement<T>(values: set<T>) returns (x: T)
    requires values != {}
    ensures x in values
  {
    assert |values| != 0;
    x :| x in values;
  }

  /** `list.index` finds the only occurrence of a value that occurs once. */
  lemma IndexOfSingle<T>(s: seq<T>, x: T, k: nat)
    requires k < |s| && s[k] == x && Occurrences(s, x) == 1
    ensures IndexOf(s, x) == Some(k)
  {
    var r := IndexOf(s, x);
    assert x in s by { assert s[k] == x; }
    if r.value < k {
      OccurrencesTwice(s, x, r.value, k);
    }
  }

  function Sum(s: seq<int>): int {
    if s == [] then 0 else Sum(s[..|s| - 1]) + s[|s| - 1]
  }

  /** Overwriting one element changes the sum by the difference. */
  lemma {:induction false} SumUpdate(s: seq<int>, i: nat, v: int)
    requires i < |s|
    ensures Sum(s[i := v]) == Sum(s) - s[i] + v
    decreases |s|
  {
    var n := |s| - 1;
    if i < n {
      assert s[i := v][..n] == s[..n][i := v];
      SumUpdate(s[..n], i, v);
    } else {
      assert s[i := v][..n] == s[..n];
    }
  }

  /** `max(s)` of a non-empty list. */
  function Max(s: seq<int>): (m: int)
    requires |s| > 0
    ensures m in s
    ensures forall k :: 0 <= k < |s| ==> s[k] <= m
    decreases |s|
  {
    if |s| == 1 then s[0]
    else
      var m := Max(s[..|s| - 1]);
      assert forall k :: 0 <= k < |s| - 1 ==> s[..|s| - 1][k] == s[k];
      if s[|s| - 1] > m then s[|s| - 1] else m
  }

  /** `min(s)` of a non-empty list. */
  function Min(s: seq<int>): (m: int)
    requires |s| > 0
    ensures m in s
    ensures forall k :: 0 <= k < |s| ==> m <= s[k]
    decreases |s|
  {
    if |s| == 1 then s[0]
    else
      var m := Min(s[..|s| - 1]);
      assert forall k :: 0 <= k < |s| - 1 ==> s[..|s| - 1][k] == s[k];
      if s[|s| - 1] < m then s[|s| - 1] else m
  }

  function Abs(x: int): (r: nat)
    ensures r == x || r == -x
  {
    if x < 0 then -x else x
  }
}
