/**
 * The permutation dance of day16.py: `gen_programs` and `sim_dance`, which
 * applies spin (`sN`), exchange (`xA/B`) and partner (`pA/B`) moves to a copy
 * of the letters and remembers each answer in the module-level `memo` cache,
 * keyed by the starting letters.
 */
module Dance {
  import opened PyLib

  /** `gen_programs()`: the sixteen letters `a` to `p`. */
  function GenPrograms(): (r: string)
    ensures |r| == 16
    ensures forall i :: 0 <= i < 16 ==> r[i] as int == 97 + i
  {
    seq(16, i requires 0 <= i < 16 => (97 + i) as char)
  }

  /** The sixteen programs are distinct, so a partner move always finds both names. */
  lemma GenProgramsDistinct()
    ensures GenPrograms() == "abcdefghijklmnop"
    ensures forall i, j :: 0 <= i < j < 16 ==> GenPrograms()[i] != GenPrograms()[j]
  {
    var r := GenPrograms();
    forall i, j | 0 <= i < j < 16 ensures r[i] != r[j] {
      assert r[i] as int == 97 + i && r[j] as int == 97 + j;
    }
  }

  // ----------------------------------------------------------------
  // The three moves

  /** `letters[-k:] + letters[:-k]`, with Python's clamping of out-of-range slice bounds. */
  function Spin(letters: seq<char>, k: int): (r: seq<char>)
    ensures |r| == |letters|
    ensures multiset(r) == multiset(letters)
  {
    var b := SliceBound(|letters|, -k);
    assert letters == letters[..b] + letters[b..];
    letters[b..] + letters[..b]
  }

  /** Entries i and j exchanged; with i == j nothing changes. */
  function Swap(letters: seq<char>, i: nat, j: nat): (r: seq<char>)
    requires i < |letters| && j < |letters|
    ensures |r| == |letters|
    ensures r[i] == letters[j] && r[j] == letters[i]
    ensures forall k :: 0 <= k < |r| && k != i && k != j ==> r[k] == letters[k]
    ensures multiset(r) == multiset(letters)
  {
    var r := letters[i := letters[j]][j := letters[i]];
    if i == j then
      assert r == letters;
      r
    else
      assert r == letters[i := letters[j]][j := letters[i]];
      r
  }

  /** `letters[a], letters[b] = letters[b], letters[a]` with Python's index rules. */
  function Exchange(letters: seq<char>, a: int, b: int): Result<seq<char>> {
    match (PyIndex(|letters|, b), PyIndex(|letters|, a))
    case (Some(j), Some(i)) => Ok(Swap(letters, i, j))
    case _ => Raise(IndexError)
  }

  /** `letters.index(name)`: the first position holding the one-letter string `name`. */
  function LetterIndex(letters: seq<char>, name: string): (r: Option<nat>)
    ensures r.Some? ==> r.value < |letters| && [letters[r.value]] == name
    ensures r.Some? ==> forall k :: 0 <= k < r.value ==> [letters[k]] != name
    ensures r.None? ==> forall k :: 0 <= k < |letters| ==> [letters[k]] != name
    decreases |letters|
  {
    if letters == [] then None
    else if [letters[0]] == name then Some(0)
    else match LetterIndex(letters[1..], name)
      case None => None
      case Some(k) => Some(k + 1)
  }

  /** One move of the dance; a move that raises leaves the caller's letters as they were. */
  function Move(letters: seq<char>, move: string): Result<seq<char>> {
    if |move| == 0 then Raise(IndexError)
    else if move[0] == 's' then
      match ParseInt(move[1..])
      case None => Raise(ValueError)
      case Some(k) => Ok(Spin(letters, k))
    else if move[0] == 'x' then
      var locs := Split(move[1..], '/');
      match ParseInt(locs[0])
      case None => Raise(ValueError)
      case Some(a) =>
        if |locs| < 2 then Raise(IndexError)
        else match ParseInt(locs[1])
          case None => Raise(ValueError)
          case Some(b) => Exchange(letters, a, b)
    else if move[0] == 'p' then
      var progs := Split(move[1..], '/');
      match LetterIndex(letters, progs[0])
      case None => Raise(ValueError)
      case Some(i) =>
        if |progs| < 2 then Raise(IndexError)
        else match LetterIndex(letters, progs[1])
          case None => Raise(ValueError)
          case Some(j) => Ok(Swap(letters, i, j))
    else Raise(RuntimeError)
  }

  /** The whole dance, move after move, stopping at the first move that raises. */
  function Dance(dance: seq<string>, letters: seq<char>): Result<seq<char>>
    decreases |dance|
  {
    if dance == [] then Ok(letters)
    else
      match Move(letters, dance[0])
      case Raise(e) => Raise(e)
      case Ok(next) => Dance(dance[1..], next)
  }

  // ----------------------------------------------------------------
  // The memoised dance

  class Dancer {
    /** The `memo` cache: starting letters to the letters after the dance. */
    var memo: map<string, string>

    /** Every cached answer is what the dance gives for its key. */
    ghost predicate Consistent(dance: seq<string>)
      reads this
    {
      forall start :: start in memo ==> Dance(dance, start) == Ok(memo[start])
    }

    constructor ()
      ensures memo == map[]
    {
      memo := map[];
    }

    /**
     * `sim_dance(dance, letters)`: the cached answer when `letters` is a key of
     * `memo`; otherwise the dance run on a copy, cached when it completes.
     */
    method SimDance(dance: seq<string>, letters: string) returns (r: Result<string>)
      modifies this
      ensures letters in old(memo) ==> r == Ok(old(memo)[letters]) && memo == old(memo)
      ensures letters !in old(memo) ==> r == Dance(dance, letters)
      ensures letters !in old(memo) ==> memo == if r.Ok? then old(memo)[letters := r.value] else old(memo)
      ensures old(Consistent(dance)) ==> Consistent(dance) && r == Dance(dance, letters)
    {
      if letters in memo {
        return Ok(memo[letters]);
      }
      var cur := letters;
      for t := 0 to |dance|
        invariant Dance(dance[t..], cur) == Dance(dance, letters)
      {
        assert dance[t..][1..] == dance[t + 1..];
        var move := dance[t];
        if |move| == 0 {
          return Raise(IndexError);
        }
        if move[0] == 's' {
          var k := ParseInt(move[1..]);
          if k.None? {
            return Raise(ValueError);
          }
          var b := SliceBound(|cur|, -k.value);
          cur := cur[b..] + cur[..b];
        } else if move[0] == 'x' {
          var locs := Split(move[1..], '/');
          var a := ParseInt(locs[0]);
          if a.None? {
            return Raise(ValueError);
          }
          if |locs| < 2 {
            return Raise(IndexError);
          }
          var b := ParseInt(locs[1]);
          if b.None? {
            return Raise(ValueError);
          }
          var j, i := PyIndex(|cur|, b.value), PyIndex(|cur|, a.value);
          if j.None? || i.None? {
            return Raise(IndexError);
          }
          cur := cur[i.value := cur[j.value]][j.value := cur[i.value]];
        } else if move[0] == 'p' {
          var progs := Split(move[1..], '/');
          var i := LetterIndex(cur, progs[0]);
          if i.None? {
            return Raise(ValueError);
          }
          if |progs| < 2 {
            return Raise(IndexError);
          }
          var j := LetterIndex(cur, progs[1]);
          if j.None? {
            return Raise(ValueError);
          }
          cur := cur[i.value := cur[j.value]][j.value := cur[i.value]];
        } else {
          return Raise(RuntimeError);
        }
      }
      memo := memo[letters := cur];
      return Ok(cur);
    }
  }

  // ----------------------------------------------------------------
  // Properties

  /** For 0 <= k <= n, `sk` is a rotation right by k: the last k letters move to the front, in order. */
  lemma SpinRotatesRight(letters: seq<char>, k: int, i: int)
    requires 0 <= k <= |letters| && 0 <= i < |letters|
    ensures i < k ==> Spin(letters, k)[i] == letters[|letters| - k + i]
    ensures i >= k ==> Spin(letters, k)[i] == letters[i - k]
  {
  }

  /** A spin outside `[-n, n]` leaves the letters as they are, since both slice bounds clamp. */
  lemma SpinOutOfRange(letters: seq<char>, k: int)
    requires k > |letters| || k < -|letters|
    ensures Spin(letters, k) == letters
  {
    var b := SliceBound(|letters|, -k);
    if k > |letters| {
      assert b == 0;
    } else {
      assert b == |letters|;
    }
  }

  /** A spin by k is undone by a spin by -k when 0 <= k <= n. */
  lemma SpinInverse(letters: seq<char>, k: int)
    requires 0 <= k <= |letters|
    ensures Spin(Spin(letters, k), -k) == letters
  {
    var n := |letters|;
    var r := Spin(letters, k);
    assert r == letters[n - k..] + letters[..n - k];
    assert r[k..] == letters[..n - k];
    assert r[..k] == letters[n - k..];
  }

  /** `xA/B` exchanges positions A and B (as Python indexes them) and leaves every other position alone. */
  lemma ExchangeSwaps(letters: seq<char>, a: int, b: int)
    requires Exchange(letters, a, b).Ok?
    ensures var i, j := PyIndex(|letters|, a).value, PyIndex(|letters|, b).value;
            var r := Exchange(letters, a, b).value;
            && r[i] == letters[j] && r[j] == letters[i]
            && forall k :: 0 <= k < |r| && k != i && k != j ==> r[k] == letters[k]
  {
  }

  /** An out-of-range position in `xA/B` raises IndexError. */
  lemma ExchangeOutOfRange(letters: seq<char>, a: int, b: int)
    ensures Exchange(letters, a, b).Raise? <==> PyIndex(|letters|, a).None? || PyIndex(|letters|, b).None?
    ensures Exchange(letters, a, b).Raise? ==> Exchange(letters, a, b).exc == IndexError
  {
  }

  /** In a list without repeats, `index` finds each letter at its one position. */
  lemma LetterIndexDistinct(letters: seq<char>, i: nat)
    requires Distinct(letters) && i < |letters|
    ensures LetterIndex(letters, [letters[i]]) == Some(i)
  {
  }

  lemma SwapDistinct(letters: seq<char>, i: nat, j: nat)
    requires Distinct(letters) && i < |letters| && j < |letters|
    ensures Distinct(Swap(letters, i, j))
  {
    var r := Swap(letters, i, j);
    forall k1, k2 | 0 <= k1 < k2 < |r| ensures r[k1] != r[k2] {
      var s1 := if k1 == i then j else if k1 == j then i else k1;
      var s2 := if k2 == i then j else if k2 == j then i else k2;
      assert r[k1] == letters[s1] && r[k2] == letters[s2] && s1 != s2;
    }
  }

  /** `p` followed by two letters other than `/`, split into the two names. */
  lemma PartnerNames(x: char, y: char)
    requires x != '/' && y != '/'
    ensures Split(['p', x, '/', y][1..], '/') == [[x], [y]]
  {
    var s1: string := [y];
    var s2: string := ['/', y];
    var s3: string := [x, '/', y];
    assert ['p', x, '/', y][1..] == s3;
    assert s1[1..] == [];
    var e := Split([], '/');
    assert e == [""];
    assert [y] + e[0] == [y] && e[1..] == [];
    assert Split(s1, '/') == [[y] + e[0]] + e[1..];
    assert s2[1..] == s1;
    assert Split(s2, '/') == [""] + [[y]];
    assert s3[1..] == s2;
    var rest := Split(s2, '/');
    assert [x] + rest[0] == [x] && rest[1..] == [[y]];
    assert Split(s3, '/') == [[x] + rest[0]] + rest[1..];
  }

  /**
   * `pA/B` with distinct letters swaps the positions of programs A and B:
   * afterwards A stands where B stood and B where A stood.
   */
  lemma PartnerSwapsNames(letters: seq<char>, i: nat, j: nat)
    requires Distinct(letters) && i < |letters| && j < |letters|
    requires letters[i] != '/' && letters[j] != '/'
    ensures var r := Move(letters, ['p', letters[i], '/', letters[j]]);
            && r.Ok?
            && LetterIndex(r.value, [letters[i]]) == Some(j)
            && LetterIndex(r.value, [letters[j]]) == Some(i)
  {
    PartnerNames(letters[i], letters[j]);
    LetterIndexDistinct(letters, i);
    LetterIndexDistinct(letters, j);
    var r := Swap(letters, i, j);
    assert Move(letters, ['p', letters[i], '/', letters[j]]) == Ok(r);
    SwapDistinct(letters, i, j);
    LetterIndexDistinct(r, i);
    LetterIndexDistinct(r, j);
  }

  /** An empty move raises IndexError, a non-numeric spin or exchange operand ValueError, an unknown letter RuntimeError. */
  lemma MoveErrors(letters: seq<char>, move: string)
    ensures |move| == 0 ==> Move(letters, move) == Raise(IndexError)
    ensures |move| > 0 && move[0] == 's' && ParseInt(move[1..]).None? ==> Move(letters, move) == Raise(ValueError)
    ensures |move| > 0 && move[0] == 'x' && ParseInt(Split(move[1..], '/')[0]).None? ==>
              Move(letters, move) == Raise(ValueError)
    ensures |move| > 0 && move[0] !in "sxp" ==> Move(letters, move) == Raise(RuntimeError)
  {
  }

  /** Every move that completes only rearranges the letters. */
  lemma MovePermutes(letters: seq<char>, move: string)
    requires Move(letters, move).Ok?
    ensures |Move(letters, move).value| == |letters|
    ensures multiset(Move(letters, move).value) == multiset(letters)
  {
  }

  /** A dance that completes only rearranges the letters: same length, same letters. */
  lemma {:induction false} DancePermutes(dance: seq<string>, letters: seq<char>)
    requires Dance(dance, letters).Ok?
    ensures |Dance(dance, letters).value| == |letters|
    ensures multiset(Dance(dance, letters).value) == multiset(letters)
    decreases |dance|
  {
    if dance != [] {
      MovePermutes(letters, dance[0]);
      DancePermutes(dance[1..], Move(letters, dance[0]).value);
    }
  }

  /** Dancing the concatenation of two dances is dancing one after the other. */
  lemma {:induction false} DanceAppend(d1: seq<string>, d2: seq<string>, letters: seq<char>)
    ensures Dance(d1 + d2, letters) ==
              match Dance(d1, letters)
              case Ok(mid) => Dance(d2, mid)
              case Raise(e) => Raise(e)
    decreases |d1|
  {
    if d1 != [] {
      assert (d1 + d2)[1..] == d1[1..] + d2;
      match Move(letters, d1[0])
      case Ok(next) => DanceAppend(d1[1..], d2, next);
      case Raise(_) =>
    } else {
      assert d1 + d2 == d2;
    }
  }
}
