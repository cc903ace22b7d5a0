/**
 * The bridges of day24.py. A component is a pair of port types; a bridge
 * is the list of components laid so far with the port type left open at
 * its end, starting from `([], 0)`. `build` is a generator that extends
 * the bridge by every component fitting the open end, each on its own
 * copy of the remaining components, and yields a bridge once nothing
 * fits. `part_a` takes the strongest yielded bridge, `part_b` the
 * strongest of the longest.
 */
module Bridges {
  import opened PyLib

  /** A component, by its two port types. */
  type Port = (int, int)

  /** `(components, open_end)`. */
  datatype Bridge = Bridge(parts: seq<Port>, end: int)

  /** `bridge[1] in x`: the component has a port of the open end's type. */
  predicate Fits(x: Port, e: int) {
    e == x.0 || e == x.1
  }

  /** The open end once `x` is laid on the end `e`: the component's other port. */
  function OtherEnd(x: Port, e: int): int {
    if e == x.1 then x.0 else x.1
  }

  /** The bridge with `x` laid on its open end. */
  function Step(b: Bridge, x: Port): Bridge {
    Bridge(b.parts + [x], OtherEnd(x, b.end))
  }

  /** `[x for x in ports if bridge[1] in x]`, in order and with repeats. */
  function Available(ports: seq<Port>, e: int): (r: seq<Port>)
    ensures forall x :: x in r <==> x in ports && Fits(x, e)
  {
    if ports == [] then []
    else (if Fits(ports[0], e) then [ports[0]] else []) + Available(ports[1..], e)
  }

  /** `c_ports = ports.copy(); c_ports.remove(x)`: a copy without the first `x`. */
  function Remove(ports: seq<Port>, x: Port): (r: seq<Port>)
    requires x in ports
    ensures |r| == |ports| - 1
    ensures multiset(r) == multiset(ports) - multiset{x}
  {
    if ports[0] == x then
      assert ports == [x] + ports[1..];
      ports[1..]
    else
      assert ports == [ports[0]] + ports[1..];
      [ports[0]] + Remove(ports[1..], x)
  }

  /**
   * `build(bridge, ports)`: the bridges the generator yields, in order.
   * Each fitting component in turn is laid and the rest of the components
   * explored recursively; with none fitting, the bridge itself.
   */
  function Build(b: Bridge, ports: seq<Port>): (r: seq<Bridge>)
    ensures |r| >= 1
    decreases |ports|, 1, 0
  {
    var available := Available(ports, b.end);
    if |available| == 0 then [b]
    else BuildEach(b, ports, available)
  }

  /** The loop over `available` in `build`: everything yielded by laying each `x` of `xs` in turn. */
  function BuildEach(b: Bridge, ports: seq<Port>, xs: seq<Port>): (r: seq<Bridge>)
    requires forall x :: x in xs ==> x in ports
    ensures xs != [] ==> |r| >= 1
    decreases |ports|, 0, |xs|
  {
    if xs == [] then []
    else
      var x := xs[0];
      Build(Step(b, x), Remove(ports, x)) + BuildEach(b, ports, xs[1..])
  }

  /** `sum(x + y for x, y in bridge[0])`. */
  function Strength(parts: seq<Port>): int {
    if parts == [] then 0 else parts[0].0 + parts[0].1 + Strength(parts[1..])
  }

  function Strengths(bs: seq<Bridge>): (r: seq<int>)
    ensures |r| == |bs| && forall k :: 0 <= k < |bs| ==> r[k] == Strength(bs[k].parts)
  {
    if bs == [] then [] else [Strength(bs[0].parts)] + Strengths(bs[1..])
  }

  function Lengths(bs: seq<Bridge>): (r: seq<int>)
    ensures |r| == |bs| && forall k :: 0 <= k < |bs| ==> r[k] == |bs[k].parts|
  {
    if bs == [] then [] else [|bs[0].parts|] + Lengths(bs[1..])
  }

  /** `filter(lambda bridge: len(bridge[0]) == length, bridges)`. */
  function Longest(bs: seq<Bridge>, length: int): (r: seq<Bridge>)
    ensures forall y :: y in r <==> y in bs && |y.parts| == length
  {
    if bs == [] then []
    else (if |bs[0].parts| == length then [bs[0]] else []) + Longest(bs[1..], length)
  }

  /** The bridge `part_a` and `part_b` start from. */
  const Empty := Bridge([], 0)

  /** `max(map(lambda bridge: len(bridge[0]), bridges))`. */
  function MaxLength(bs: seq<Bridge>): (r: int)
    requires |bs| > 0
    ensures exists y :: y in bs && |y.parts| == r
    ensures forall y :: y in bs ==> |y.parts| <= r
  {
    var r := Max(Lengths(bs));
    assert forall y :: y in bs ==> |y.parts| <= r by {
      forall y | y in bs
        ensures |y.parts| <= r
      {
        var k :| 0 <= k < |bs| && bs[k] == y;
      }
    }
    var k :| 0 <= k < |bs| && Lengths(bs)[k] == r;
    assert bs[k] in bs;
    r
  }

  /** `max(map(lambda bridge: sum(x + y for x, y in bridge[0]), bridges))`. */
  function MaxStrength(bs: seq<Bridge>): (r: int)
    requires |bs| > 0
    ensures exists y :: y in bs && Strength(y.parts) == r
    ensures forall y :: y in bs ==> Strength(y.parts) <= r
  {
    var r := Max(Strengths(bs));
    assert forall y :: y in bs ==> Strength(y.parts) <= r by {
      forall y | y in bs
        ensures Strength(y.parts) <= r
      {
        var k :| 0 <= k < |bs| && bs[k] == y;
      }
    }
    var k :| 0 <= k < |bs| && Strengths(bs)[k] == r;
    assert bs[k] in bs;
    r
  }

  /** `part_a`: the greatest strength among the bridges `build` yields. */
  function PartA(ports: seq<Port>): (r: int)
    ensures exists y :: y in Build(Empty, ports) && Strength(y.parts) == r
    ensures forall y :: y in Build(Empty, ports) ==> Strength(y.parts) <= r
  {
    MaxStrength(Build(Empty, ports))
  }

  /** A bridge at least as long as every bridge in `bs`. */
  predicate IsLongest(bs: seq<Bridge>, y: Bridge) {
    y in bs && forall z :: z in bs ==> |z.parts| <= |y.parts|
  }

  /** `part_b`: the greatest strength among the longest bridges `build` yields. */
  function PartB(ports: seq<Port>): (r: int)
    ensures exists y :: IsLongest(Build(Empty, ports), y) && Strength(y.parts) == r
    ensures forall y :: IsLongest(Build(Empty, ports), y) ==> Strength(y.parts) <= r
  {
    var bs := Build(Empty, ports);
    var length := MaxLength(bs);
    var longest := Longest(bs, length);
    var y0 :| y0 in bs && |y0.parts| == length;
    assert y0 in longest;
    var r := MaxStrength(longest);
    assert forall y :: IsLongest(bs, y) ==> y in longest;
    r
  }

  // ----------------------------------------------------------------
  // The bridges that can be built

  /** The open end after laying `ext` from the end `e`. */
  function EndOf(e: int, ext: seq<Port>): int
    decreases |ext|
  {
    if ext == [] then e else EndOf(OtherEnd(ext[0], e), ext[1..])
  }

  /** Each component of `ext` has a port matching the open end it is laid on. */
  predicate Links(e: int, ext: seq<Port>)
    decreases |ext|
  {
    ext == [] || (Fits(ext[0], e) && Links(OtherEnd(ext[0], e), ext[1..]))
  }

  /** The components of `ports` left once those of `ext` are taken. */
  function Leftover(ports: seq<Port>, ext: seq<Port>): multiset<Port> {
    multiset(ports) - multiset(ext)
  }

  /**
   * `ext` can be laid from the open end `e`, taking each component from
   * `ports` at most as often as it occurs there, and no component left
   * over fits the open end it reaches.
   */
  predicate MaximalChain(e: int, ext: seq<Port>, ports: seq<Port>) {
    && Links(e, ext)
    && multiset(ext) <= multiset(ports)
    && forall x :: x in Leftover(ports, ext) ==> !Fits(x, EndOf(e, ext))
  }

  /** `y` is `b` extended by a maximal chain from `ports`. */
  predicate Maximal(b: Bridge, ports: seq<Port>, y: Bridge) {
    && |b.parts| <= |y.parts| && y.parts[..|b.parts|] == b.parts
    && y.end == EndOf(b.end, y.parts[|b.parts|..])
    && MaximalChain(b.end, y.parts[|b.parts|..], ports)
  }

  // ----------------------------------------------------------------
  // Properties

  lemma {:induction false} BuildEachMember(b: Bridge, ports: seq<Port>, xs: seq<Port>, y: Bridge)
    requires forall x :: x in xs ==> x in ports
    requires y in BuildEach(b, ports, xs)
    ensures exists x :: x in xs && y in Build(Step(b, x), Remove(ports, x))
    decreases |xs|
  {
    if y !in Build(Step(b, xs[0]), Remove(ports, xs[0])) {
      BuildEachMember(b, ports, xs[1..], y);
    }
  }

  lemma {:induction false} BuildEachContains(b: Bridge, ports: seq<Port>, xs: seq<Port>, x: Port, y: Bridge)
    requires forall x :: x in xs ==> x in ports
    requires x in xs && y in Build(Step(b, x), Remove(ports, x))
    ensures y in BuildEach(b, ports, xs)
    decreases |xs|
  {
    if xs[0] != x {
      BuildEachContains(b, ports, xs[1..], x, y);
    }
  }

  /** A chain that starts with `x` is maximal iff the rest of it is maximal from the end `x` leaves, on the components without `x`. */
  lemma ChainStep(e: int, x: Port, rest: seq<Port>, ports: seq<Port>)
    requires x in ports && Fits(x, e)
    ensures MaximalChain(e, [x] + rest, ports) <==> MaximalChain(OtherEnd(x, e), rest, Remove(ports, x))
  {
    var ext := [x] + rest;
    assert ext[0] == x && ext[1..] == rest;
    assert multiset(ext) == multiset{x} + multiset(rest);
    assert Leftover(ports, ext) == Leftover(Remove(ports, x), rest);
  }

  /** Laying the first component of the extension: `y` extends `b` maximally iff it so extends `Step(b, x)` on the remaining components. */
  lemma StepMaximal(b: Bridge, ports: seq<Port>, x: Port, y: Bridge)
    requires x in ports && Fits(x, b.end)
    requires |y.parts| > |b.parts| && y.parts[|b.parts|] == x
    ensures Maximal(b, ports, y) <==> Maximal(Step(b, x), Remove(ports, x), y)
  {
    var n := |b.parts|;
    var ext, rest := y.parts[n..], y.parts[n + 1..];
    assert ext == [x] + rest;
    ChainStep(b.end, x, rest, ports);
    assert EndOf(b.end, ext) == EndOf(OtherEnd(x, b.end), rest);
    assert y.parts[..n + 1] == y.parts[..n] + [x];
  }

  /** With no component fitting the open end, nothing is available. */
  lemma {:induction false} NoneAvailable(ports: seq<Port>, e: int)
    requires forall x :: x in ports ==> !Fits(x, e)
    ensures Available(ports, e) == []
  {
    if ports != [] {
      NoneAvailable(ports[1..], e);
    }
  }

  /** A bridge no component fits is its own only maximal extension. */
  lemma NoneFitMaximal(b: Bridge, ports: seq<Port>)
    requires Available(ports, b.end) == []
    ensures Maximal(b, ports, b)
  {
    assert b.parts[|b.parts|..] == [] && b.parts[..|b.parts|] == b.parts;
    assert Leftover(ports, []) == multiset(ports);
  }

  /** A maximal extension of `Step(b, x)` has `x` right after the parts of `b`. */
  lemma MaximalStarts(b: Bridge, ports: seq<Port>, y: Bridge)
    requires |b.parts| > 0 && Maximal(b, ports, y)
    ensures y.parts[|b.parts| - 1] == b.parts[|b.parts| - 1]
  {
    var n := |b.parts|;
    assert y.parts[..n][n - 1] == y.parts[n - 1];
  }

  /** Every bridge `build` yields extends the starting bridge maximally. */
  lemma {:induction false} BuildSound(b: Bridge, ports: seq<Port>, y: Bridge)
    requires y in Build(b, ports)
    ensures Maximal(b, ports, y)
    decreases |ports|
  {
    var available := Available(ports, b.end);
    if |available| == 0 {
      assert y == b;
      NoneFitMaximal(b, ports);
    } else {
      BuildEachMember(b, ports, available, y);
      var x :| x in available && y in Build(Step(b, x), Remove(ports, x));
      BuildSound(Step(b, x), Remove(ports, x), y);
      MaximalStarts(Step(b, x), Remove(ports, x), y);
      StepMaximal(b, ports, x, y);
    }
  }

  /** `build` yields every maximal extension of the starting bridge. */
  lemma {:induction false} BuildComplete(b: Bridge, ports: seq<Port>, y: Bridge)
    requires Maximal(b, ports, y)
    ensures y in Build(b, ports)
    decreases |ports|
  {
    var n := |b.parts|;
    var available := Available(ports, b.end);
    if |y.parts| == n {
      assert y.parts[n..] == [];
      assert y == b;
      assert forall x :: x in ports ==> x in Leftover(ports, y.parts[n..]);
      NoneAvailable(ports, b.end);
    } else {
      var x := y.parts[n];
      assert x in multiset(y.parts[n..]);
      assert x in ports;
      assert x in available;
      StepMaximal(b, ports, x, y);
      BuildComplete(Step(b, x), Remove(ports, x), y);
      BuildEachContains(b, ports, available, x, y);
    }
  }

  /** `build` yields exactly the maximal extensions of the starting bridge. */
  lemma BuildIff(b: Bridge, ports: seq<Port>, y: Bridge)
    ensures y in Build(b, ports) <==> Maximal(b, ports, y)
  {
    if y in Build(b, ports) {
      BuildSound(b, ports, y);
    }
    if Maximal(b, ports, y) {
      BuildComplete(b, ports, y);
    }
  }

  /** Two components with a port type in common. */
  predicate Share(x: Port, z: Port) {
    x.0 == z.0 || x.0 == z.1 || x.1 == z.0 || x.1 == z.1
  }

  /**
   * In a linked chain the first component fits the starting end, each
   * component shares a port type with the next, and the open end reached
   * is a port of the last component.
   */
  lemma {:induction false} LinksShare(e: int, ext: seq<Port>)
    requires Links(e, ext)
    ensures ext != [] ==> Fits(ext[0], e) && Fits(ext[|ext| - 1], EndOf(e, ext))
    ensures forall k :: 0 <= k < |ext| - 1 ==> Share(ext[k], ext[k + 1])
    decreases |ext|
  {
    if ext != [] {
      var rest := ext[1..];
      LinksShare(OtherEnd(ext[0], e), rest);
      if rest != [] {
        assert Share(ext[0], ext[1]);
      }
      assert forall k :: 1 <= k < |ext| - 1 ==> ext[k] == rest[k - 1] && ext[k + 1] == rest[k];
    }
  }

  /** Laying `x` on the end a chain reaches extends the chain. */
  lemma {:induction false} LinksAppend(e: int, ext: seq<Port>, x: Port)
    requires Links(e, ext) && Fits(x, EndOf(e, ext))
    ensures Links(e, ext + [x]) && EndOf(e, ext + [x]) == OtherEnd(x, EndOf(e, ext))
    decreases |ext|
  {
    if ext == [] {
      assert ([x])[1..] == [];
    } else {
      assert (ext + [x])[1..] == ext[1..] + [x];
      LinksAppend(OtherEnd(ext[0], e), ext[1..], x);
    }
  }

  /** The strength of two pieces laid one after the other is the sum of their strengths. */
  lemma {:induction false} StrengthAppend(p: seq<Port>, q: seq<Port>)
    ensures Strength(p + q) == Strength(p) + Strength(q)
    decreases |p|
  {
    if p == [] {
      assert p + q == q;
    } else {
      assert (p + q)[0] == p[0] && (p + q)[1..] == p[1..] + q;
      StrengthAppend(p[1..], q);
    }
  }

  /** A left-over component that fits the end reached can be laid on it. */
  lemma GrowChain(e: int, ext: seq<Port>, ports: seq<Port>, x: Port)
    requires Links(e, ext) && multiset(ext) <= multiset(ports)
    requires x in Leftover(ports, ext) && Fits(x, EndOf(e, ext))
    ensures Links(e, ext + [x]) && multiset(ext + [x]) <= multiset(ports)
    ensures |ext + [x]| <= |ports|
  {
    LinksAppend(e, ext, x);
    assert multiset(ext + [x]) == multiset(ext) + multiset{x};
    assert |multiset(ext + [x])| <= |multiset(ports)|;
  }

  lemma Regroup(ext: seq<Port>, x: Port, rest: seq<Port>)
    ensures ext + [x] + rest == ext + ([x] + rest)
  {
  }

  /** Every chain that can be laid from `ports` extends to a maximal one. */
  lemma {:induction false} ExtendToMaximal(e: int, ext: seq<Port>, ports: seq<Port>) returns (more: seq<Port>)
    requires Links(e, ext) && multiset(ext) <= multiset(ports)
    ensures MaximalChain(e, ext + more, ports)
    decreases |ports| - |ext|
  {
    if forall x :: x in Leftover(ports, ext) ==> !Fits(x, EndOf(e, ext)) {
      assert ext + [] == ext;
      more := [];
    } else {
      var x :| x in Leftover(ports, ext) && Fits(x, EndOf(e, ext));
      GrowChain(e, ext, ports, x);
      var rest := ExtendToMaximal(e, ext + [x], ports);
      Regroup(ext, x, rest);
      more := [x] + rest;
    }
  }

  /** A maximal chain from the open end 0 is a bridge `build` yields from `([], 0)`. */
  lemma FromEmpty(ports: seq<Port>, ext: seq<Port>)
    requires MaximalChain(0, ext, ports)
    ensures Bridge(ext, EndOf(0, ext)) in Build(Empty, ports)
  {
    var y := Bridge(ext, EndOf(0, ext));
    assert y.parts[..0] == [] && y.parts[0..] == ext;
    BuildComplete(Empty, ports, y);
  }

  /** A bridge `build` yields from `([], 0)` is a maximal chain from the open end 0. */
  lemma ToEmpty(ports: seq<Port>, y: Bridge)
    requires y in Build(Empty, ports)
    ensures MaximalChain(0, y.parts, ports) && y.end == EndOf(0, y.parts)
  {
    BuildSound(Empty, ports, y);
    assert y.parts[0..] == y.parts;
  }

  /**
   * `part_a` is the strength of a maximal chain from port 0 and at least the
   * strength of every maximal chain; when no port type is negative, at least
   * the strength of every chain that can be laid at all.
   */
  lemma PartAStrongest(ports: seq<Port>, ext: seq<Port>)
    requires Links(0, ext) && multiset(ext) <= multiset(ports)
    ensures exists best :: MaximalChain(0, best, ports) && Strength(best) == PartA(ports)
    ensures MaximalChain(0, ext, ports) ==> Strength(ext) <= PartA(ports)
    ensures (forall x :: x in ports ==> x.0 >= 0 && x.1 >= 0) ==> Strength(ext) <= PartA(ports)
  {
    var best := PartA(ports);
    assert exists y :: y in Build(Empty, ports) && Strength(y.parts) == best;
    var y :| y in Build(Empty, ports) && Strength(y.parts) == PartA(ports);
    ToEmpty(ports, y);
    var more := ExtendToMaximal(0, ext, ports);
    FromEmpty(ports, ext + more);
    StrengthAppend(ext, more);
    if MaximalChain(0, ext, ports) {
      FromEmpty(ports, ext);
    }
    if forall x :: x in ports ==> x.0 >= 0 && x.1 >= 0 {
      NonNegativeStrength(more, ports);
    }
  }

  /** Components taken from `ports` with no negative port type have a non-negative strength. */
  lemma {:induction false} NonNegativeStrength(parts: seq<Port>, ports: seq<Port>)
    requires multiset(parts) <= multiset(ports)
    requires forall x :: x in ports ==> x.0 >= 0 && x.1 >= 0
    ensures Strength(parts) >= 0
    decreases |parts|
  {
    if parts != [] {
      assert parts == [parts[0]] + parts[1..];
      assert parts[0] in multiset(ports);
      NonNegativeStrength(parts[1..], ports);
    }
  }

  /**
   * The length `part_b` selects is the length of the longest chain that can
   * be laid from port 0 at all, and `part_b` is at least the strength of
   * every chain of that length.
   */
  lemma PartBStrongestLongest(ports: seq<Port>, ext: seq<Port>)
    requires Links(0, ext) && multiset(ext) <= multiset(ports)
    ensures |ext| <= MaxLength(Build(Empty, ports))
    ensures |ext| == MaxLength(Build(Empty, ports)) ==> Strength(ext) <= PartB(ports)
  {
    var bs := Build(Empty, ports);
    var more := ExtendToMaximal(0, ext, ports);
    FromEmpty(ports, ext + more);
    if |ext| == MaxLength(bs) {
      assert more == [];
      assert ext + more == ext;
      var y := Bridge(ext, EndOf(0, ext));
      assert IsLongest(bs, y);
    }
  }
}
