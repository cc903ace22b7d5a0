/**
 * The tube-diagram walk of day19.py and solutions/day19.py. A packet enters
 * at the `|` in the first row heading down and moves one cell per step; at a
 * `+` it turns, at a letter it records the letter, and it stops on the first
 * space. The two files differ in one branch: solutions/day19.py raises
 * RuntimeError on `|`, `-` and space, day19.py walks over them.
 */
module Tubes {
  import opened PyLib

  /** The keys `'u'`, `'r'`, `'d'`, `'l'` of `dirs`; no other heading is ever set. */
  datatype Heading = Up | Right | Down | Left

  function Dx(h: Heading): int {
    match h
    case Up => 0
    case Right => 1
    case Down => 0
    case Left => -1
  }

  function Dy(h: Heading): int {
    match h
    case Up => -1
    case Right => 0
    case Down => 1
    case Left => 0
  }

  predicate Vertical(h: Heading) {
    h == Up || h == Down
  }

  /** `diagram[y][x]`, Python's indexing: a negative index counts from the end, any other miss raises IndexError. */
  function Cell(diagram: seq<string>, x: int, y: int): Result<char> {
    match At(diagram, y)
    case Raise(e) => Raise(e)
    case Ok(row) => At(row, x)
  }

  /** A character `path` records: anything but `|`, `-`, space and `+`. */
  predicate IsLetter(c: char) {
    c != '|' && c != '-' && c != ' ' && c != '+'
  }

  /** solutions/day19.py raises on `|`, `-` and space; day19.py does not. */
  datatype Rule = Checked | Lenient

  /** The loop variables: position, heading, the character under the packet, `path` and `steps`. */
  datatype Packet = Packet(x: int, y: int, move: Heading, curr: char, path: string, steps: nat)

  /** `diagram[0].index('|')`, heading down with nothing recorded. */
  function Start(diagram: seq<string>): (r: Result<Packet>)
    ensures r.Raise? <==> diagram == [] || '|' !in diagram[0]
    ensures r.Raise? ==> r.exc == if diagram == [] then IndexError else ValueError
    ensures r.Ok? ==> r.value.y == 0 && Cell(diagram, r.value.x, 0) == Ok('|') && r.value.move == Down
                      && r.value.curr == '|' && r.value.path == "" && r.value.steps == 0
  {
    if diagram == [] then Raise(IndexError)
    else
      match IndexOf(diagram[0], '|')
      case None => Raise(ValueError)
      case Some(x) => Ok(Packet(x, 0, Down, '|', "", 0))
  }

  /** The heading after reaching a `+`: a reading of the cell to the left, or of the cell above. */
  function Turn(diagram: seq<string>, x: int, y: int, move: Heading): (r: Result<Heading>)
    ensures r.Ok? ==> Vertical(r.value) != Vertical(move)
  {
    if Vertical(move) then
      match Cell(diagram, x - 1, y)
      case Raise(e) => Raise(e)
      case Ok(c) => Ok(if c != ' ' then Left else Right)
    else
      match Cell(diagram, x, y - 1)
      case Raise(e) => Raise(e)
      case Ok(c) => Ok(if c != ' ' then Up else Down)
  }

  /** One pass of the loop body. */
  function Move(rule: Rule, diagram: seq<string>, p: Packet): (r: Result<Packet>)
    ensures r.Ok? ==> var q := r.value;
              && q.x == p.x + Dx(p.move) && q.y == p.y + Dy(p.move) && q.steps == p.steps + 1
              && Cell(diagram, q.x, q.y) == Ok(q.curr)
              && q.path == p.path + (if IsLetter(q.curr) then [q.curr] else [])
              && (q.curr == '+' ==> Vertical(q.move) != Vertical(p.move))
              && (q.curr != '+' ==> q.move == p.move)
              && (rule == Checked ==> q.curr != ' ')
  {
    var x, y := p.x + Dx(p.move), p.y + Dy(p.move);
    match Cell(diagram, x, y)
    case Raise(e) => Raise(e)
    case Ok(c) =>
      if c == '+' then
        match Turn(diagram, x, y, p.move)
        case Raise(e) => Raise(e)
        case Ok(h) => Ok(Packet(x, y, h, c, p.path, p.steps + 1))
      else if c != '|' && c != '-' && c != ' ' then Ok(Packet(x, y, p.move, c, p.path + [c], p.steps + 1))
      else if rule == Checked then Raise(RuntimeError)
      else Ok(Packet(x, y, p.move, c, p.path, p.steps + 1))
  }

  /** How a walk of at most `fuel` moves ends: `(path, steps)`, an exception, or still walking. */
  datatype Trip = Done(path: string, steps: nat) | Failed(exc: Exc) | OutOfFuel

  /** `while curr != ' '`, moving at most `fuel` times. */
  function Travel(rule: Rule, diagram: seq<string>, p: Packet, fuel: nat): Trip
    decreases fuel
  {
    if p.curr == ' ' then Done(p.path, p.steps)
    else if fuel == 0 then OutOfFuel
    else
      match Move(rule, diagram, p)
      case Raise(e) => Failed(e)
      case Ok(q) => Travel(rule, diagram, q, fuel - 1)
  }

  /** `follow(diagram)` of either file, within `fuel` moves. */
  function Follows(rule: Rule, diagram: seq<string>, fuel: nat): Trip {
    match Start(diagram)
    case Raise(e) => Failed(e)
    case Ok(p) => Travel(rule, diagram, p, fuel)
  }

  /** day19.py `follow(diagram)`. */
  method Follow(diagram: seq<string>, fuel: nat) returns (r: Trip)
    ensures r == Follows(Lenient, diagram, fuel)
  {
    var path, steps := "", 0;
    if diagram == [] {
      return Failed(IndexError);
    }
    var first := IndexOf(diagram[0], '|');
    if first.None? {
      return Failed(ValueError);
    }
    var curr, move, x, y := '|', Down, first.value as int, 0;
    ghost var goal := Follows(Lenient, diagram, fuel);
    var left := fuel;
    while curr != ' '
      invariant Travel(Lenient, diagram, Packet(x, y, move, curr, path, steps), left) == goal
      decreases left
    {
      if left == 0 {
        return OutOfFuel;
      }
      var p := Packet(x, y, move, curr, path, steps);
      TravelStep(Lenient, diagram, p, left);
      left := left - 1;
      var next := MoveOnce(Lenient, diagram, p);
      if next.Raise? {
        return Failed(next.exc);
      }
      x, y, move, curr, path, steps := next.value.x, next.value.y, next.value.move, next.value.curr, next.value.path, next.value.steps;
    }
    return Done(path, steps);
  }

  /** solutions/day19.py `follow(diagram)`, whose last branch raises. */
  method FollowChecked(diagram: seq<string>, fuel: nat) returns (r: Trip)
    ensures r == Follows(Checked, diagram, fuel)
  {
    var path, steps := "", 0;
    if diagram == [] {
      return Failed(IndexError);
    }
    var first := IndexOf(diagram[0], '|');
    if first.None? {
      return Failed(ValueError);
    }
    var curr, move, x, y := '|', Down, first.value as int, 0;
    ghost var goal := Follows(Checked, diagram, fuel);
    var left := fuel;
    while curr != ' '
      invariant Travel(Checked, diagram, Packet(x, y, move, curr, path, steps), left) == goal
      decreases left
    {
      if left == 0 {
        return OutOfFuel;
      }
      var p := Packet(x, y, move, curr, path, steps);
      TravelStep(Checked, diagram, p, left);
      left := left - 1;
      var next := MoveOnce(Checked, diagram, p);
      if next.Raise? {
        return Failed(next.exc);
      }
      x, y, move, curr, path, steps := next.value.x, next.value.y, next.value.move, next.value.curr, next.value.path, next.value.steps;
    }
    return Done(path, steps);
  }

  /**
   * One pass of the loop body: step, read the new cell, then turn at a `+`,
   * record a letter, or (solutions/day19.py only) raise on `|`, `-` and space.
   */
  method MoveOnce(rule: Rule, diagram: seq<string>, p: Packet) returns (r: Result<Packet>)
    ensures r == Move(rule, diagram, p)
  {
    var x, y, move, path := p.x + Dx(p.move), p.y + Dy(p.move), p.move, p.path;
    var c := Cell(diagram, x, y);
    if c.Raise? {
      return Raise(c.exc);
    }
    var curr := c.value;
    if curr == '+' {
      var turned := TurnAt(diagram, x, y, move);
      if turned.Raise? {
        return Raise(turned.exc);
      }
      move := turned.value;
    } else if curr != '|' && curr != '-' && curr != ' ' {
      path := path + [curr];
    } else if rule == Checked {
      return Raise(RuntimeError);
    }
    return Ok(Packet(x, y, move, curr, path, p.steps + 1));
  }

  /** The turn at a `+`, reading the cell to the left when moving vertically and the cell above otherwise. */
  method TurnAt(diagram: seq<string>, x: int, y: int, move: Heading) returns (r: Result<Heading>)
    ensures r == Turn(diagram, x, y, move)
  {
    if move == Up || move == Down {
      var side := Cell(diagram, x - 1, y);
      if side.Raise? {
        return Raise(side.exc);
      }
      if side.value != ' ' { r := Ok(Left); } else { r := Ok(Right); }
    } else {
      var above := Cell(diagram, x, y - 1);
      if above.Raise? {
        return Raise(above.exc);
      }
      if above.value != ' ' { r := Ok(Up); } else { r := Ok(Down); }
    }
  }

  /** One turn of the loop, as `Travel` unfolds it. */
  lemma TravelStep(rule: Rule, diagram: seq<string>, p: Packet, fuel: nat)
    requires p.curr != ' ' && fuel > 0
    ensures Travel(rule, diagram, p, fuel) == match Move(rule, diagram, p)
                                              case Raise(e) => Failed(e)
                                              case Ok(q) => Travel(rule, diagram, q, fuel - 1)
  {
  }

  // ----------------------------------------------------------------
  // Properties

  /** Where `path` and `steps` stand while walking: no more letters than moves, and fewer once on a space. */
  predicate Counted(p: Packet) {
    |p.path| <= p.steps && (p.curr == ' ' ==> |p.path| < p.steps)
  }

  /** Every recorded character is a letter. */
  predicate Letters(path: string) {
    forall k :: 0 <= k < |path| ==> IsLetter(path[k])
  }

  /**
   * A finished walk of day19.py recorded only letters, and fewer of them
   * than it took steps, the last step being the one onto the space.
   */
  lemma {:induction false} TravelCounts(diagram: seq<string>, p: Packet, fuel: nat)
    requires Counted(p) && Letters(p.path)
    ensures Travel(Lenient, diagram, p, fuel).Done? ==>
              var t := Travel(Lenient, diagram, p, fuel);
              |t.path| < t.steps && Letters(t.path)
    decreases fuel
  {
    if p.curr != ' ' && fuel > 0 {
      var m := Move(Lenient, diagram, p);
      if m.Ok? {
        var q := m.value;
        assert Letters(q.path) by {
          forall k | 0 <= k < |q.path|
            ensures IsLetter(q.path[k])
          {
            if k >= |p.path| {
              assert q.path[k] == q.curr;
            } else {
              assert q.path[k] == p.path[k];
            }
          }
        }
        TravelCounts(diagram, q, fuel - 1);
      }
    }
  }

  /** `len(path) < steps` for every diagram day19.py finishes. */
  lemma FollowCounts(diagram: seq<string>, fuel: nat)
    ensures Follows(Lenient, diagram, fuel).Done? ==>
              var t := Follows(Lenient, diagram, fuel);
              |t.path| < t.steps && Letters(t.path)
  {
    if Start(diagram).Ok? {
      TravelCounts(diagram, Start(diagram).value, fuel);
    }
  }

  /** From a cell other than a space, solutions/day19.py never finishes a walk. */
  lemma {:induction false} CheckedTravelNeverDone(diagram: seq<string>, p: Packet, fuel: nat)
    requires p.curr != ' '
    ensures !Travel(Checked, diagram, p, fuel).Done?
    decreases fuel
  {
    if fuel > 0 {
      var m := Move(Checked, diagram, p);
      if m.Ok? {
        CheckedTravelNeverDone(diagram, m.value, fuel - 1);
      }
    }
  }

  /**
   * solutions/day19.py `follow` never returns: its loop ends only on a
   * space, and reaching a space raises RuntimeError.
   */
  lemma CheckedNeverReturns(diagram: seq<string>, fuel: nat)
    ensures !Follows(Checked, diagram, fuel).Done?
  {
    if Start(diagram).Ok? {
      CheckedTravelNeverDone(diagram, Start(diagram).value, fuel);
    }
  }

  /** Wherever solutions/day19.py moves on, day19.py makes the same move. */
  lemma CheckedAgreesWhenItMoves(diagram: seq<string>, p: Packet)
    requires Move(Checked, diagram, p).Ok?
    ensures Move(Lenient, diagram, p) == Move(Checked, diagram, p)
  {
  }

  /**
   * The smallest tube, one `|` above a space: day19.py answers no letters in
   * one step, solutions/day19.py raises RuntimeError on the space.
   */
  lemma OneDrop(diagram: seq<string>, fuel: nat)
    requires diagram == ["|", " "] && fuel >= 1
    ensures Follows(Lenient, diagram, fuel) == Done("", 1)
    ensures Follows(Checked, diagram, fuel) == Failed(RuntimeError)
  {
    assert IndexOf(diagram[0], '|') == Some(0);
    var p := Start(diagram).value;
    assert p == Packet(0, 0, Down, '|', "", 0);
    assert At(diagram, 1) == Ok(" ") && At(diagram[1], 0) == Ok(' ');
    assert Cell(diagram, 0, 1) == Ok(' ');
    assert Move(Lenient, diagram, p) == Ok(Packet(0, 1, Down, ' ', "", 1));
    TravelStep(Lenient, diagram, p, fuel);
  }
}
