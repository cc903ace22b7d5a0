/**
 * The stream scorer of solutions/day09.py (`score_groups`): one pass over the
 * characters that tracks the nesting depth of `{...}` groups, the total group
 * score, whether the scan is inside `<...>` garbage, whether the next garbage
 * character is cancelled by `!`, and the number of garbage characters kept.
 */
module Stream {
  import opened PyLib

  /** The loop variables `score`, `depth`, `g_score`, `garbage` and `skip`. */
  datatype Scanner = Scanner(score: int, depth: int, gScore: nat, garbage: bool, skip: bool)

  const Start := Scanner(0, 0, 0, false, false)

  /** One pass of the loop body. */
  function Feed(st: Scanner, c: char): Scanner {
    if st.garbage then
      if st.skip then st.(skip := false)
      else if c == '!' then st.(skip := true)
      else if c == '>' then st.(garbage := false)
      else st.(gScore := st.gScore + 1)
    else if c == '{' then st.(depth := st.depth + 1)
    else if c == '}' then st.(score := st.score + st.depth, depth := st.depth - 1)
    else if c == '<' then st.(garbage := true)
    else st
  }

  /** The scanner after the characters of `s`, one after the other. */
  function Scan(st: Scanner, s: string): Scanner
    decreases |s|
  {
    if s == [] then st else Feed(Scan(st, s[..|s| - 1]), s[|s| - 1])
  }

  /** What `score_groups` returns: the score for `'a'`, the garbage count for `'b'`, else None. */
  function Answer(st: Scanner, part: string): Option<int> {
    if part == "a" then Some(st.score)
    else if part == "b" then Some(st.gScore)
    else None
  }

  /** `score_groups(groups, part)`; an empty stream raises RuntimeError. */
  method ScoreGroups(groups: string, part: string) returns (r: Result<Option<int>>)
    ensures |groups| == 0 ==> r == Raise(RuntimeError)
    ensures |groups| > 0 ==> r == Ok(Answer(Scan(Start, groups), part))
  {
    if |groups| < 1 {
      return Raise(RuntimeError);
    }
    var score, depth, gScore := 0, 0, 0;
    var garbage, skip := false, false;
    for t := 0 to |groups|
      invariant Scan(Start, groups[..t]) == Scanner(score, depth, gScore, garbage, skip)
    {
      assert groups[..t + 1][..t] == groups[..t];
      var c := groups[t];
      if garbage {
        if skip {
          skip := false;
        } else if c == '!' {
          skip := true;
        } else if c == '>' {
          garbage := false;
        } else {
          gScore := gScore + 1;
        }
      } else {
        if c == '{' {
          depth := depth + 1;
        } else if c == '}' {
          score := score + depth;
          depth := depth - 1;
        } else if c == '<' {
          garbage := true;
        } else {
          continue;
        }
      }
    }
    assert groups[..|groups|] == groups;
    if part == "a" {
      return Ok(Some(score));
    } else if part == "b" {
      return Ok(Some(gScore));
    }
    return Ok(None);
  }

  // ----------------------------------------------------------------
  // Properties

  /** Scanning `a + b` is scanning `a` and then `b`. */
  lemma {:induction false} ScanAppend(st: Scanner, a: string, b: string)
    ensures Scan(st, a + b) == Scan(Scan(st, a), b)
    decreases |b|
  {
    if b == [] {
      assert a + b == a;
    } else {
      assert (a + b)[..|a + b| - 1] == a + b[..|b| - 1];
      ScanAppend(st, a, b[..|b| - 1]);
    }
  }

  /** `skip` is only ever set inside garbage. */
  predicate Sane(st: Scanner) {
    st.skip ==> st.garbage
  }

  lemma {:induction false} ScanSane(st: Scanner, s: string)
    requires Sane(st)
    ensures Sane(Scan(st, s))
    decreases |s|
  {
    if s != [] {
      ScanSane(st, s[..|s| - 1]);
    }
  }

  /** Each character adds at most one to the garbage count, and the count never falls. */
  lemma {:induction false} GScoreBound(st: Scanner, s: string)
    ensures st.gScore <= Scan(st, s).gScore <= st.gScore + |s|
    decreases |s|
  {
    if s != [] {
      GScoreBound(st, s[..|s| - 1]);
    }
  }

  /** Outside garbage, characters other than `{`, `}` and `<` are ignored. */
  lemma IgnoredOutsideGarbage(st: Scanner, c: char)
    requires !st.garbage && c != '{' && c != '}' && c != '<'
    ensures Feed(st, c) == st
  {
  }

  predicate PlainGarbage(g: string) {
    forall k :: 0 <= k < |g| ==> g[k] != '!' && g[k] != '>'
  }

  /** Inside garbage, characters other than `!` and `>` are each counted once. */
  lemma {:induction false} PlainGarbageCounted(st: Scanner, g: string)
    requires st.garbage && !st.skip && PlainGarbage(g)
    ensures Scan(st, g) == st.(gScore := st.gScore + |g|)
    decreases |g|
  {
    if g != [] {
      PlainGarbageCounted(st, g[..|g| - 1]);
    }
  }

  /** A whole `<...>` block without `!` adds its inner length to the garbage count and nothing else. */
  lemma GarbageBlock(st: Scanner, g: string)
    requires !st.garbage && !st.skip && PlainGarbage(g)
    ensures Scan(st, "<" + g + ">") == st.(gScore := st.gScore + |g|)
  {
    Delimited(st, g, '<', '>');
  }

  /** `GarbageBlock` with the delimiters as parameters, so that the scan is never unfolded on a literal. */
  lemma Delimited(st: Scanner, g: string, lt: char, gt: char)
    requires lt == '<' && gt == '>'
    requires !st.garbage && !st.skip && PlainGarbage(g)
    ensures Scan(st, [lt] + g + [gt]) == st.(gScore := st.gScore + |g|)
  {
    var open := st.(garbage := true);
    var inside := open.(gScore := st.gScore + |g|);
    ScanOne(st, lt);
    assert Scan(st, [lt]) == open;
    PlainGarbageCounted(open, g);
    ScanOne(inside, gt);
    assert Scan(inside, [gt]) == st.(gScore := st.gScore + |g|);
    ScanThree(st, [lt], g, [gt]);
  }

  lemma ScanThree(st: Scanner, a: string, b: string, c: string)
    ensures Scan(st, a + b + c) == Scan(Scan(Scan(st, a), b), c)
  {
    ScanAppend(st, a + b, c);
    ScanAppend(st, a, b);
  }

  /** Scanning one character is feeding it. */
  lemma ScanOne(st: Scanner, c: char)
    ensures Scan(st, [c]) == Feed(st, c)
  {
    assert [c][..0] == [];
  }

  /** Inside garbage, `!` and the character after it are not counted and change nothing. */
  lemma CancelledPair(st: Scanner, c: char)
    requires st.garbage && !st.skip
    ensures Scan(st, ['!', c]) == st
  {
    assert ['!', c][..1] == ['!'];
    assert ['!'][..0] == [];
  }

  function Repeat(c: char, n: nat): (s: string)
    ensures |s| == n
    ensures forall k :: 0 <= k < n ==> s[k] == c
  {
    seq(n, _ => c)
  }

  /** n opening braces outside garbage raise the depth by n. */
  lemma {:induction false} OpenRun(st: Scanner, n: nat)
    requires !st.garbage && !st.skip
    ensures Scan(st, Repeat('{', n)) == st.(depth := st.depth + n)
    decreases n
  {
    if n > 0 {
      assert Repeat('{', n)[..n - 1] == Repeat('{', n - 1);
      OpenRun(st, n - 1);
    }
  }

  /** n closing braces add depth, depth - 1, ..., depth - n + 1 to the score. */
  lemma {:induction false} CloseRun(st: Scanner, n: nat)
    requires !st.garbage && !st.skip
    ensures var r := Scan(st, Repeat('}', n));
            && r == st.(score := r.score, depth := st.depth - n)
            && 2 * r.score == 2 * st.score + 2 * n * st.depth - n * (n - 1)
    decreases n
  {
    if n > 0 {
      assert Repeat('}', n)[..n - 1] == Repeat('}', n - 1);
      CloseRun(st, n - 1);
      assert 2 * (n - 1) * st.depth + 2 * st.depth == 2 * n * st.depth;
      assert (n - 1) * (n - 2) + 2 * (n - 1) == n * (n - 1);
    }
  }

  /** n groups nested in one another score 1 + 2 + ... + n, and the depth returns to 0. */
  lemma NestedScore(n: nat)
    ensures Scan(Start, Repeat('{', n) + Repeat('}', n)) == Start.(score := n * (n + 1) / 2)
  {
    ScanAppend(Start, Repeat('{', n), Repeat('}', n));
    OpenRun(Start, n);
    CloseRun(Start.(depth := n), n);
    var r := Scan(Start.(depth := n), Repeat('}', n));
    assert 2 * r.score == n * (n + 1) by {
      assert 2 * n * n - n * (n - 1) == n * (n + 1);
    }
  }
}
