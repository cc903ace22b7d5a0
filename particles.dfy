/**
 * The particle swarm of day20.py. Every particle has an integer position,
 * velocity and acceleration of three components; a tick adds the
 * acceleration to the velocity and then the new velocity to the position.
 * `find_closest` ticks the whole swarm and answers the particle nearest the
 * origin (Manhattan distance) after the last tick; `count_remaining` also
 * deletes, after every tick, all particles that share a position.
 */
module Particles {
  import opened PyLib

  /** `sum(abs(x) for x in p)`, the Manhattan distance from the origin. */
  function AbsSum(s: seq<int>): nat {
    if s == [] then 0 else AbsSum(s[..|s| - 1]) + Abs(s[|s| - 1])
  }

  /** Component-wise sum of two vectors of the same length. */
  function Add(s: seq<int>, t: seq<int>): (r: seq<int>)
    requires |s| == |t|
    ensures |r| == |s| && forall k :: 0 <= k < |s| ==> r[k] == s[k] + t[k]
  {
    seq(|s|, k requires 0 <= k < |s| => s[k] + t[k])
  }

  /** A particle's position, velocity and acceleration, as values. */
  datatype Kin = Kin(p: seq<int>, v: seq<int>, a: seq<int>)

  predicate Shaped(k: Kin) {
    |k.p| == 3 && |k.v| == 3 && |k.a| == 3
  }

  /** One `step`: the velocity first, then the position with the new velocity. */
  function Tick(k: Kin): (r: Kin)
    requires Shaped(k)
    ensures Shaped(r) && r.a == k.a
  {
    var v := Add(k.v, k.a);
    Kin(Add(k.p, v), v, k.a)
  }

  /** A tick is fixed by its components. */
  lemma TickFrom(k: Kin, r: Kin)
    requires Shaped(k) && Shaped(r) && r.a == k.a
    requires forall i :: 0 <= i < 3 ==> r.v[i] == k.v[i] + k.a[i] && r.p[i] == k.p[i] + r.v[i]
    ensures r == Tick(k)
  {
    assert r.v == Tick(k).v;
    assert r.p == Tick(k).p;
  }

  /** `n` ticks. */
  function Ticks(k: Kin, n: nat): (r: Kin)
    requires Shaped(k)
    ensures Shaped(r) && r.a == k.a
  {
    if n == 0 then k else Tick(Ticks(k, n - 1))
  }

  /** A `Particle`; `dist` is kept equal to the distance of `p` from the origin. */
  class Particle {
    var p: seq<int>
    var v: seq<int>
    var a: seq<int>
    var dist: int

    ghost predicate Valid()
      reads this
    {
      |p| == 3 && |v| == 3 && |a| == 3 && dist == AbsSum(p)
    }

    function State(): Kin
      reads this
    {
      Kin(p, v, a)
    }

    /** `Particle(pos, vel, acc)`. */
    constructor (pos: seq<int>, vel: seq<int>, acc: seq<int>)
      requires |pos| == 3 && |vel| == 3 && |acc| == 3
      ensures Valid() && State() == Kin(pos, vel, acc)
    {
      p, v, a := pos, vel, acc;
      dist := AbsSum(pos);
    }

    /** `step()`: component by component, velocity before position, then the distance again. */
    method Step()
      requires Valid()
      modifies this
      ensures Valid() && State() == Tick(old(State()))
    {
      for i := 0 to 3
        invariant |p| == 3 && |v| == 3 && a == old(a)
        invariant forall k :: 0 <= k < i ==> v[k] == old(v[k]) + a[k] && p[k] == old(p[k]) + v[k]
        invariant forall k :: i <= k < 3 ==> v[k] == old(v[k]) && p[k] == old(p[k])
      {
        v := v[i := v[i] + a[i]];
        p := p[i := p[i] + v[i]];
      }
      dist := AbsSum(p);
      TickFrom(old(State()), State());
    }
  }

  /** The distances of a sequence of particles, in order. */
  function Dists(ks: seq<Kin>): (r: seq<int>)
    ensures |r| == |ks| && forall j :: 0 <= j < |ks| ==> r[j] == AbsSum(ks[j].p)
  {
    seq(|ks|, j requires 0 <= j < |ks| => AbsSum(ks[j].p))
  }

  /** Every particle ticked once. */
  function Stepped(ks: seq<Kin>): (r: seq<Kin>)
    requires forall j :: 0 <= j < |ks| ==> Shaped(ks[j])
    ensures |r| == |ks| && forall j :: 0 <= j < |ks| ==> r[j] == Tick(ks[j])
  {
    seq(|ks|, j requires 0 <= j < |ks| && Shaped(ks[j]) => Tick(ks[j]))
  }

  /** Every particle ticked `n` times. */
  function TickEach(ks: seq<Kin>, n: nat): (r: seq<Kin>)
    requires forall j :: 0 <= j < |ks| ==> Shaped(ks[j])
    ensures |r| == |ks| && forall j :: 0 <= j < |ks| ==> Shaped(r[j])
  {
    seq(|ks|, j requires 0 <= j < |ks| && Shaped(ks[j]) => Ticks(ks[j], n))
  }

  /** Ticking every particle once more is ticking it `n + 1` times. */
  lemma TickEachStep(ks: seq<Kin>, n: nat)
    requires forall j :: 0 <= j < |ks| ==> Shaped(ks[j])
    ensures Stepped(TickEach(ks, n)) == TickEach(ks, n + 1)
  {
  }

  /** Among the first `n` values of `ds`, `m` indexes a least one, and every earlier value is strictly larger. */
  predicate FirstLeast(ds: seq<int>, n: nat, m: nat) {
    && m < n <= |ds|
    && (forall k :: 0 <= k < n ==> ds[m] <= ds[k])
    && (forall k :: 0 <= k < m ==> ds[k] > ds[m])
  }

  /** The index a scan of the first `n` values keeps when it replaces its pick only on a strictly smaller value. */
  function FirstMin(ds: seq<int>, n: nat): (r: nat)
    requires 0 < n <= |ds|
    ensures r < n
  {
    if n == 1 then 0
    else
      var m := FirstMin(ds, n - 1);
      if ds[n - 1] < ds[m] then n - 1 else m
  }

  /** The scan ends on the first least value. */
  lemma {:induction false} FirstMinIsLeast(ds: seq<int>, n: nat)
    requires 0 < n <= |ds|
    ensures FirstLeast(ds, n, FirstMin(ds, n))
  {
    if n > 1 {
      FirstMinIsLeast(ds, n - 1);
    }
  }

  /** Scanning one more value keeps the first least: the new value when it is strictly smaller, the old pick otherwise. */
  lemma FirstLeastStep(ds: seq<int>, i: nat, m: nat)
    requires i < |ds| && (i > 0 ==> FirstLeast(ds, i, m))
    ensures i == 0 ==> FirstLeast(ds, 1, 0)
    ensures i > 0 && ds[i] < ds[m] ==> FirstLeast(ds, i + 1, i)
    ensures i > 0 && ds[i] >= ds[m] ==> FirstLeast(ds, i + 1, m)
  {
  }

  /** No other index is the first least value. */
  lemma FirstLeastIsFirstMin(ds: seq<int>, n: nat, m: nat)
    requires FirstLeast(ds, n, m)
    ensures FirstMin(ds, n) == m
  {
    FirstMinIsLeast(ds, n);
  }

  /** The key of the particle nearest the origin, the first such in key order; None for no particles. */
  function Closest(keys: seq<int>, ks: seq<Kin>): (r: Option<int>)
    requires |keys| == |ks|
    ensures r.None? <==> ks == []
  {
    if ks == [] then None else Some(keys[FirstMin(Dists(ks), |ks|)])
  }

  /** One `(key, particle)` item of the `particles` dictionary, as values. */
  datatype Entry = Entry(key: int, kin: Kin)

  predicate AllShaped(es: seq<Entry>) {
    forall e :: e in es ==> Shaped(e.kin)
  }

  /** Every entry ticked once, keys kept. */
  function StepEntries(es: seq<Entry>): (r: seq<Entry>)
    requires AllShaped(es)
    ensures |r| == |es| && AllShaped(r)
    ensures forall j :: 0 <= j < |es| ==> r[j].key == es[j].key && r[j].kin == Tick(es[j].kin)
  {
    seq(|es|, j requires 0 <= j < |es| && Shaped(es[j].kin) => Entry(es[j].key, Tick(es[j].kin)))
  }

  /** The positions of the entries, in order. */
  function Positions(es: seq<Entry>): (r: seq<seq<int>>)
    ensures |r| == |es| && forall j :: 0 <= j < |es| ==> r[j] == es[j].kin.p
  {
    seq(|es|, j requires 0 <= j < |es| => es[j].kin.p)
  }

  /** The `positions` dictionary of `count_remaining`: each position with the keys found there, in order. */
  function Groups(es: seq<Entry>): map<seq<int>, seq<int>> {
    if es == [] then map[]
    else
      var g := Groups(es[..|es| - 1]);
      var e := es[|es| - 1];
      g[e.kin.p := (if e.kin.p in g then g[e.kin.p] else []) + [e.key]]
  }

  /** The indices below `n` whose value occurs exactly once in `all`, in increasing order. */
  function UniqueAt(all: seq<seq<int>>, n: nat): (r: seq<int>)
    requires n <= |all|
    ensures |r| <= n && forall j :: 0 <= j < |r| ==> 0 <= r[j] < n
  {
    if n == 0 then []
    else UniqueAt(all, n - 1) + if Occurrences(all, all[n - 1]) == 1 then [n - 1] else []
  }

  /** The items of `s` at the indices `idx`, in the order of `idx`. */
  function Pick<T>(s: seq<T>, idx: seq<int>): (r: seq<T>)
    requires forall j :: 0 <= j < |idx| ==> 0 <= idx[j] < |s|
    ensures |r| == |idx| && forall j :: 0 <= j < |idx| ==> r[j] == s[idx[j]]
  {
    seq(|idx|, j requires 0 <= j < |idx| => s[idx[j]])
  }

  /** One collision pass: every particle sharing its position with another one is removed. */
  function Collide(es: seq<Entry>): (r: seq<Entry>)
    ensures |r| <= |es| && forall e :: e in r ==> e in es
  {
    Pick(es, UniqueAt(Positions(es), |es|))
  }

  /** The swarm after `n` ticks, each followed by a collision pass. */
  function Survive(es: seq<Entry>, n: nat): (r: seq<Entry>)
    requires AllShaped(es)
    ensures |r| <= |es| && AllShaped(r)
  {
    if n == 0 then es else Collide(StepEntries(Survive(es, n - 1)))
  }


  /** The entries with the given keys and states. */
  function Pair(keys: seq<int>, ks: seq<Kin>): (r: seq<Entry>)
    requires |keys| == |ks|
    ensures |r| == |keys| && forall j :: 0 <= j < |keys| ==> r[j] == Entry(keys[j], ks[j])
  {
    seq(|keys|, j requires 0 <= j < |keys| => Entry(keys[j], ks[j]))
  }

  /** The particles' states, in order. */
  ghost function States(parts: seq<Particle>): (r: seq<Kin>)
    reads parts
    ensures |r| == |parts| && forall j :: 0 <= j < |parts| ==> r[j] == parts[j].State()
  {
    seq(|parts|, j reads parts requires 0 <= j < |parts| => parts[j].State())
  }

  /** The states are fixed by the particles' states one by one. */
  lemma StatesAre(parts: seq<Particle>, ks: seq<Kin>)
    requires |parts| == |ks| && forall j :: 0 <= j < |parts| ==> parts[j].State() == ks[j]
    ensures States(parts) == ks
  {
  }

  ghost predicate AllValid(parts: seq<Particle>)
    reads parts
  {
    forall j :: 0 <= j < |parts| ==> parts[j].Valid()
  }

  /** `part.step()` on the `i`-th particle of the dictionary; no other particle changes. */
  method StepAt(parts: seq<Particle>, i: nat)
    requires i < |parts| && Distinct(parts) && AllValid(parts)
    modifies parts[i]
    ensures AllValid(parts)
    ensures parts[i].State() == Tick(old(parts[i].State()))
    ensures forall j :: 0 <= j < |parts| && j != i ==> parts[j].State() == old(parts[j].State())
  {
    parts[i].Step();
    forall j | 0 <= j < |parts| && j != i
      ensures parts[j].State() == old(parts[j].State()) && parts[j].Valid()
    {
      assert parts[j] != parts[i];
    }
  }

  /** `part.step()` on the `i`-th particle in a pass that has stepped the particles before it. */
  method StepNext(parts: seq<Particle>, i: nat, ghost before: seq<Kin>, ghost after: seq<Kin>)
    requires i < |parts| == |before| && Distinct(parts) && AllValid(parts)
    requires forall j :: 0 <= j < |before| ==> Shaped(before[j])
    requires after == Stepped(before)
    requires forall j :: 0 <= j < i ==> parts[j].State() == after[j]
    requires forall j :: i <= j < |parts| ==> parts[j].State() == before[j]
    modifies parts[i]
    ensures AllValid(parts)
    ensures forall j :: 0 <= j < i + 1 ==> parts[j].State() == after[j]
    ensures forall j :: i + 1 <= j < |parts| ==> parts[j].State() == before[j]
    ensures parts[i].dist == AbsSum(after[i].p)
  {
    StepAt(parts, i);
  }

  /**
   * One pass of the inner loop shared by `find_closest` and
   * `count_remaining` over the dictionary's items: step every particle once,
   * in order, and keep the first key whose new distance is smallest.
   */
  method StepRound(keys: seq<int>, parts: seq<Particle>) returns (minPart: Option<int>)
    requires |keys| == |parts| && Distinct(parts) && AllValid(parts)
    modifies parts
    ensures AllValid(parts)
    ensures States(parts) == Stepped(old(States(parts)))
    ensures minPart == Closest(keys, States(parts))
  {
    ghost var before := States(parts);
    ghost var after := Stepped(before);
    ghost var ds := Dists(after);
    minPart := None;
    var minDist: Option<int> := None;
    ghost var m: nat := 0;
    for i := 0 to |parts|
      invariant AllValid(parts)
      invariant forall j :: 0 <= j < i ==> parts[j].State() == after[j]
      invariant forall j :: i <= j < |parts| ==> parts[j].State() == before[j]
      invariant i == 0 ==> minPart.None? && minDist.None?
      invariant i > 0 ==> FirstLeast(ds, i, m) && minPart == Some(keys[m]) && minDist == Some(ds[m])
    {
      StepNext(parts, i, before, after);
      FirstLeastStep(ds, i, m);
      if minDist.None? || parts[i].dist < minDist.value {
        minPart := Some(keys[i]);
        minDist := Some(parts[i].dist);
        m := i;
      }
    }
    if parts != [] {
      FirstLeastIsFirstMin(ds, |parts|, m);
    }
    StatesAre(parts, after);
  }

  /** `positions[tuple(part._p)].append(i)` over the dictionary's items, in order. */
  method GroupPositions(keys: seq<int>, parts: seq<Particle>, ghost es: seq<Entry>) returns (positions: map<seq<int>, seq<int>>)
    requires |keys| == |parts| == |es|
    requires forall j :: 0 <= j < |es| ==> es[j] == Entry(keys[j], parts[j].State())
    ensures positions == Groups(es)
  {
    positions := map[];
    for i := 0 to |keys|
      invariant positions == Groups(es[..i])
    {
      assert es[..i + 1][..i] == es[..i];
      var tup := parts[i].p;
      positions := positions[tup := (if tup in positions then positions[tup] else []) + [keys[i]]];
    }
    assert es[..|keys|] == es;
  }

  /**
   * The surviving items of the dictionary, in order: those whose position
   * group has a single key, at the indices `idx` of the particles that
   * share their position with no other.
   */
  method KeepUnshared(keys: seq<int>, parts: seq<Particle>, positions: map<seq<int>, seq<int>>, ghost es: seq<Entry>)
    returns (ks: seq<int>, ps: seq<Particle>, ghost idx: seq<int>)
    requires |keys| == |parts| == |es|
    requires forall j :: 0 <= j < |es| ==> es[j] == Entry(keys[j], parts[j].State())
    requires positions == Groups(es)
    ensures idx == UniqueAt(Positions(es), |es|)
    ensures ks == Pick(keys, idx) && ps == Pick(parts, idx)
  {
    ghost var all := Positions(es);
    ks, ps, idx := [], [], [];
    for i := 0 to |keys|
      invariant idx == UniqueAt(all, i)
      invariant ks == Pick(keys, idx) && ps == Pick(parts, idx)
    {
      SharedIff(es, i);
      if |positions[parts[i].p]| <= 1 {
        PickAppend(keys, idx, i);
        PickAppend(parts, idx, i);
        ks := ks + [keys[i]];
        ps := ps + [parts[i]];
        idx := idx + [i];
      }
    }
  }

  /** The inner loop as `count_remaining` runs it: `min_part` and `min_dist` are never read afterwards. */
  method StepEvery(keys: seq<int>, parts: seq<Particle>)
    requires |keys| == |parts| && Distinct(parts) && AllValid(parts)
    modifies parts
    ensures AllValid(parts)
    ensures States(parts) == Stepped(old(States(parts)))
  {
    var _ := StepRound(keys, parts);
  }

  /** One round of the outer loop of `count_remaining`: step every particle, group them by position, delete the shared groups. */
  method CollisionRound(keys: seq<int>, parts: seq<Particle>) returns (ks: seq<int>, ps: seq<Particle>)
    requires |keys| == |parts| && Distinct(keys) && Distinct(parts) && AllValid(parts)
    modifies parts
    ensures |ks| == |ps| && Distinct(ks) && Distinct(ps) && AllValid(ps)
    ensures forall j :: 0 <= j < |ps| ==> ps[j] in parts
    ensures AllShaped(old(Pair(keys, States(parts))))
    ensures Pair(ks, States(ps)) == Collide(StepEntries(old(Pair(keys, States(parts)))))
  {
    ghost var st := States(parts);
    StepEvery(keys, parts);
    PairStepped(keys, st);
    ghost var es := Pair(keys, States(parts));
    var positions := GroupPositions(keys, parts, es);
    ghost var idx;
    ks, ps, idx := KeepUnshared(keys, parts, positions, es);
    KeptAreCollided(keys, parts, es, idx);
  }

  /** The `particles` dictionary: its keys in insertion order, and the particle under each. */
  class Swarm {
    var keys: seq<int>
    var parts: seq<Particle>

    ghost predicate Valid()
      reads this, parts
    {
      && |keys| == |parts|
      && Distinct(keys)
      && Distinct(parts)
      && forall j :: 0 <= j < |parts| ==> parts[j].Valid()
    }

    /** The dictionary's items as values, in order. */
    ghost function Entries(): (r: seq<Entry>)
      reads this, parts
      requires |keys| == |parts|
      ensures |r| == |keys| && forall j :: 0 <= j < |keys| ==> r[j] == Entry(keys[j], parts[j].State())
    {
      Pair(keys, States(parts))
    }

    /** `find_closest(particles)`: `ticks` rounds of the inner loop; the answer of the last one. */
    method FindClosest(ticks: nat) returns (minPart: Option<int>)
      requires Valid() && ticks >= 1
      modifies parts
      ensures Valid()
      ensures States(parts) == TickEach(old(States(parts)), ticks)
      ensures minPart == Closest(keys, States(parts))
    {
      ghost var start := States(parts);
      assert TickEach(start, 0) == start;
      minPart := None;
      for val := 0 to ticks
        invariant Valid()
        invariant States(parts) == TickEach(start, val)
        invariant val > 0 ==> minPart == Closest(keys, States(parts))
      {
        TickEachStep(start, val);
        minPart := StepRound(keys, parts);
      }
    }

    /** `count_remaining(particles)`: `ticks` rounds of stepping and collisions; the number left. */
    method CountRemaining(ticks: nat) returns (count: nat)
      requires Valid()
      modifies this, parts
      ensures Valid()
      ensures Entries() == Survive(old(Entries()), ticks)
      ensures count == |Entries()|
    {
      ghost var start := Entries();
      var ks, ps := keys, parts;
      for val := 0 to ticks
        invariant |ks| == |ps| && Distinct(ks) && Distinct(ps) && AllValid(ps)
        invariant forall j :: 0 <= j < |ps| ==> ps[j] in old(parts)
        invariant Pair(ks, States(ps)) == Survive(start, val)
      {
        ks, ps := CollisionRound(ks, ps);
      }
      keys, parts := ks, ps;
      count := |keys|;
    }
  }

  // ----------------------------------------------------------------
  // Properties

  /** Ticking the states ticks the entries, keys kept. */
  lemma PairStepped(keys: seq<int>, st: seq<Kin>)
    requires |keys| == |st| && forall j :: 0 <= j < |st| ==> Shaped(st[j])
    ensures AllShaped(Pair(keys, st)) && Pair(keys, Stepped(st)) == StepEntries(Pair(keys, st))
  {
  }

  /** An item is in a group of its own exactly when its position occurs once. */
  lemma SharedIff(es: seq<Entry>, i: nat)
    requires i < |es|
    ensures var pos := es[i].kin.p;
            && pos in Groups(es)
            && (|Groups(es)[pos]| <= 1 <==> Occurrences(Positions(es), pos) == 1)
  {
    GroupsCount(es, es[i].kin.p);
    OccurrencesAt(Positions(es), es[i].kin.p, i);
  }

  /** `UniqueAt` lists its indices in strictly increasing order. */
  lemma {:induction false} UniqueAtSorted(all: seq<seq<int>>, n: nat)
    requires n <= |all|
    ensures forall j, k :: 0 <= j < k < |UniqueAt(all, n)| ==> UniqueAt(all, n)[j] < UniqueAt(all, n)[k]
  {
    if n > 0 {
      UniqueAtSorted(all, n - 1);
    }
  }

  /**
   * The keys and particles `KeepUnshared` keeps are distinct, valid, taken
   * from the dictionary, and pair up into one collision pass over its entries.
   */
  lemma KeptAreCollided(keys: seq<int>, parts: seq<Particle>, es: seq<Entry>, idx: seq<int>)
    requires |keys| == |parts| == |es| && Distinct(keys) && Distinct(parts) && AllValid(parts)
    requires forall j :: 0 <= j < |es| ==> es[j] == Entry(keys[j], parts[j].State())
    requires idx == UniqueAt(Positions(es), |es|)
    ensures var ks, ps := Pick(keys, idx), Pick(parts, idx);
            && Distinct(ks) && Distinct(ps) && AllValid(ps)
            && (forall j :: 0 <= j < |ps| ==> ps[j] in parts)
            && Pair(ks, States(ps)) == Collide(es)
  {
    UniqueAtSorted(Positions(es), |es|);
    PickedDistinct(keys, Pick(keys, idx), idx);
    PickedDistinct(parts, Pick(parts, idx), idx);
    PairPicked(keys, parts, es, idx);
  }

  /** Picking keys and particles at the same indices pairs up into the entries at those indices. */
  lemma PairPicked(keys: seq<int>, parts: seq<Particle>, es: seq<Entry>, idx: seq<int>)
    requires |keys| == |parts| == |es|
    requires forall j :: 0 <= j < |es| ==> es[j] == Entry(keys[j], parts[j].State())
    requires forall j :: 0 <= j < |idx| ==> 0 <= idx[j] < |es|
    ensures Pair(Pick(keys, idx), States(Pick(parts, idx))) == Pick(es, idx)
  {
  }

  /** Picking one index more appends the element there. */
  lemma PickAppend<T>(s: seq<T>, idx: seq<int>, i: int)
    requires forall j :: 0 <= j < |idx| ==> 0 <= idx[j] < |s|
    requires 0 <= i < |s|
    ensures Pick(s, idx + [i]) == Pick(s, idx) + [s[i]]
  {
  }

  /** Picking elements at strictly increasing indices keeps them distinct. */
  lemma PickedDistinct<T>(s: seq<T>, t: seq<T>, idx: seq<int>)
    requires Distinct(s) && |t| == |idx|
    requires forall j :: 0 <= j < |idx| ==> 0 <= idx[j] < |s| && t[j] == s[idx[j]]
    requires forall j, k :: 0 <= j < k < |idx| ==> idx[j] < idx[k]
    ensures Distinct(t)
  {
  }

  /** `positions` holds exactly the positions that occur, each with as many keys as particles there. */
  lemma {:induction false} GroupsCount(es: seq<Entry>, pos: seq<int>)
    ensures pos in Groups(es) <==> pos in Positions(es)
    ensures pos in Groups(es) ==> |Groups(es)[pos]| == Occurrences(Positions(es), pos)
  {
    if es != [] {
      var init := es[..|es| - 1];
      GroupsCount(init, pos);
      assert Positions(es)[..|es| - 1] == Positions(init);
      var e := es[|es| - 1];
      var g := Groups(init);
      assert Positions(es) == Positions(init) + [e.kin.p];
      if e.kin.p == pos && pos !in g {
        OccurrencesMultiset(Positions(init), pos);
      }
      assert Groups(es) == g[e.kin.p := (if e.kin.p in g then g[e.kin.p] else []) + [e.key]];
    }
  }

  /** An index is kept by `UniqueAt` exactly when its value occurs once. */
  lemma {:induction false} UniqueAtIff(all: seq<seq<int>>, n: nat, i: int)
    requires n <= |all|
    ensures i in UniqueAt(all, n) <==> 0 <= i < n && Occurrences(all, all[i]) == 1
  {
    if n > 0 {
      UniqueAtIff(all, n - 1, i);
    }
  }

  /** A collision pass keeps exactly the entries whose position no other entry shares. */
  lemma CollideIff(es: seq<Entry>, e: Entry)
    ensures e in Collide(es) <==> exists i :: 0 <= i < |es| && es[i] == e && Occurrences(Positions(es), e.kin.p) == 1
  {
    var u := UniqueAt(Positions(es), |es|);
    if e in Collide(es) {
      var k :| 0 <= k < |u| && Collide(es)[k] == e;
      UniqueAtIff(Positions(es), |es|, u[k]);
    }
    if exists i :: 0 <= i < |es| && es[i] == e && Occurrences(Positions(es), e.kin.p) == 1 {
      var i :| 0 <= i < |es| && es[i] == e && Occurrences(Positions(es), e.kin.p) == 1;
      UniqueAtIff(Positions(es), |es|, i);
      var k :| 0 <= k < |u| && u[k] == i;
      assert Collide(es)[k] == e;
    }
  }

  /** After a collision pass no two entries share a position. */
  lemma CollideSeparates(es: seq<Entry>)
    ensures var r := Collide(es);
            forall j, k :: 0 <= j < k < |r| ==> r[j].kin.p != r[k].kin.p
  {
    var all, u := Positions(es), UniqueAt(Positions(es), |es|);
    UniqueAtSorted(all, |es|);
    forall j, k | 0 <= j < k < |u|
      ensures es[u[j]].kin.p != es[u[k]].kin.p
    {
      UniqueAtIff(all, |es|, u[j]);
      if es[u[j]].kin.p == es[u[k]].kin.p {
        OccurrencesTwice(all, all[u[j]], u[j], u[k]);
      }
    }
  }

  /** After at least one round no two survivors share a position. */
  lemma SurvivorsApart(es: seq<Entry>, n: nat)
    requires AllShaped(es) && n >= 1
    ensures var r := Survive(es, n);
            forall j, k :: 0 <= j < k < |r| ==> r[j].kin.p != r[k].kin.p
  {
    CollideSeparates(StepEntries(Survive(es, n - 1)));
  }

  /** After `n` ticks each velocity component has gained `n` accelerations. */
  lemma {:induction false} TicksVelocity(k: Kin, n: nat, i: int)
    requires Shaped(k) && 0 <= i < 3
    ensures Ticks(k, n).v[i] == k.v[i] + n * k.a[i]
  {
    if n > 0 {
      TicksVelocity(k, n - 1, i);
      Distribute(n - 1, k.a[i]);
    }
  }

  /**
   * After `n` ticks each position component has moved by
   * `n * v + n * (n + 1) / 2 * a`: in the long run the acceleration decides
   * which particle stays nearest.
   */
  lemma {:induction false} TicksPosition(k: Kin, n: nat, i: int)
    requires Shaped(k) && 0 <= i < 3
    ensures 2 * Ticks(k, n).p[i] == 2 * k.p[i] + 2 * n * k.v[i] + n * (n + 1) * k.a[i]
  {
    if n > 0 {
      var prev, cur := Ticks(k, n - 1), Ticks(k, n);
      TicksPosition(k, n - 1, i);
      TicksVelocity(k, n, i);
      assert cur.p[i] == prev.p[i] + cur.v[i];
      PositionArith(n, k.p[i], k.v[i], k.a[i], prev.p[i], cur.v[i], cur.p[i]);
    }
  }

  /** The arithmetic of one step of `TicksPosition`, over plain integers. */
  lemma PositionArith(n: int, p0: int, v0: int, a: int, prev: int, v: int, p: int)
    requires 2 * prev == 2 * p0 + 2 * (n - 1) * v0 + (n - 1) * n * a
    requires v == v0 + n * a && p == prev + v
    ensures 2 * p == 2 * p0 + 2 * n * v0 + n * (n + 1) * a
  {
    Distribute(n - 1, v0);
    Triangle(n, a);
  }

  lemma Distribute(m: int, x: int)
    ensures m * x + x == (m + 1) * x
  {
  }

  lemma Triangle(n: int, a: int)
    ensures (n - 1) * n * a + 2 * n * a == n * (n + 1) * a
  {
    assert (n - 1) * n * a == n * n * a - n * a;
    assert n * (n + 1) * a == n * n * a + n * a;
  }
}
