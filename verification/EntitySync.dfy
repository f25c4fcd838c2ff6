/** Keeping a client's copy of an entity's position: teleports for long moves, rounded deltas for short ones. */
module EntitySync {

  datatype Position = Position(x: real, y: real, z: real)

  datatype Packet =
    | Teleport(to: Position)
    | Relative(dx: int, dy: int, dz: int)

  /** To the nearest integer, halves away from zero. */
  function Round(r: real): int {
    if r >= 0.0 then (r + 0.5).Floor else -(0.5 - r).Floor
  }

  /** A cast to `i16` saturates. */
  function Saturate(n: int): (r: int)
    ensures -0x8000 <= r < 0x8000 && (-0x8000 <= n < 0x8000 ==> r == n)
  {
    if n < -0x8000 then -0x8000 else if n > 0x7FFF then 0x7FFF else n
  }

  /** One axis of a delta, in units of 1/4096 block. */
  function Units(d: real): (r: int)
    ensures -0x8000 <= r < 0x8000
  {
    Saturate(Round(d * 4096.0))
  }

  function SquaredDistance(p: Position, q: Position): real {
    (p.x - q.x) * (p.x - q.x) + (p.y - q.y) * (p.y - q.y) + (p.z - q.z) * (p.z - q.z)
  }

  /** Eight blocks or more: the distance is compared through its square. */
  predicate Far(last: Position, pos: Position) {
    SquaredDistance(last, pos) >= 64.0
  }

  function Update(last: Position, pos: Position): Packet {
    if Far(last, pos) then Teleport(pos)
    else Relative(Units(pos.x - last.x), Units(pos.y - last.y), Units(pos.z - last.z))
  }

  /** What the client makes of a packet. */
  function Receive(at: Position, p: Packet): Position {
    match p
    case Teleport(to) => to
    case Relative(dx, dy, dz) =>
      Position(at.x + dx as real / 4096.0, at.y + dy as real / 4096.0, at.z + dz as real / 4096.0)
  }

  function Client(start: Position, wire: seq<Packet>): Position {
    if wire == [] then start else Receive(Client(start, wire[..|wire| - 1]), wire[|wire| - 1])
  }

  /** The packets for an entity that is synchronised at these positions in turn. */
  function Wire(start: Position, path: seq<Position>): (w: seq<Packet>)
    ensures |w| == |path|
  {
    if path == [] then []
    else Wire(start, path[..|path| - 1]) + [Update(Last(start, path[..|path| - 1]), path[|path| - 1])]
  }

  function Last(start: Position, path: seq<Position>): Position {
    if path == [] then start else path[|path| - 1]
  }

  /** Relative updates since the last teleport. */
  function Relatives(wire: seq<Packet>): nat {
    if wire == [] || wire[|wire| - 1].Teleport? then 0 else 1 + Relatives(wire[..|wire| - 1])
  }

  function Abs(r: real): real {
    if r < 0.0 then -r else r
  }

  /** The client is off by less than `e` on every axis. */
  predicate StrictlyWithin(p: Position, q: Position, e: real) {
    Abs(p.x - q.x) < e && Abs(p.y - q.y) < e && Abs(p.z - q.z) < e
  }

  lemma RoundIsNear(r: real)
    ensures Abs(Round(r) as real - r) <= 0.5
    ensures r >= 0.0 ==> Round(r) >= 0
    ensures r < 0.0 ==> Round(r) <= 0
  {
  }

  lemma SmallSquare(a: real, b: real)
    requires a * a + b < 64.0 && b >= 0.0
    ensures -8.0 < a < 8.0
  {
  }

  /** A move that is not far is less than eight blocks on every axis. */
  lemma NearOnEachAxis(last: Position, pos: Position)
    requires !Far(last, pos)
    ensures Abs(pos.x - last.x) < 8.0 && Abs(pos.y - last.y) < 8.0 && Abs(pos.z - last.z) < 8.0
  {
    var x, y, z := last.x - pos.x, last.y - pos.y, last.z - pos.z;
    SquaresArePositive(x, y, z);
    SmallSquare(x, y * y + z * z);
    SmallSquare(y, x * x + z * z);
    SmallSquare(z, x * x + y * y);
  }

  lemma SquaresArePositive(x: real, y: real, z: real)
    ensures x * x >= 0.0 && y * y >= 0.0 && z * z >= 0.0
  {
  }

  /** A position is sent whole exactly when it is at least eight blocks away, so always when some axis moved that far, and
      never for a shorter move along one axis. */
  lemma TeleportsExactly(last: Position, pos: Position)
    ensures var dx, dy, dz := last.x - pos.x, last.y - pos.y, last.z - pos.z;
            && (Update(last, pos) == Teleport(pos) <==> dx * dx + dy * dy + dz * dz >= 64.0)
            && (Update(last, pos).Relative? ==> -8.0 < dx < 8.0 && -8.0 < dy < 8.0 && -8.0 < dz < 8.0)
            && (dy == 0.0 && dz == 0.0 && -8.0 < dx < 8.0 ==> Update(last, pos).Relative?)
  {
    if !Far(last, pos) {
      NearOnEachAxis(last, pos);
    }
    var dx, dy, dz := last.x - pos.x, last.y - pos.y, last.z - pos.z;
    ShortSquare(dx);
    DistanceIs(last, pos);
    hide SquaredDistance, Units;
  }

  lemma DistanceIs(last: Position, pos: Position)
    ensures var dx, dy, dz := last.x - pos.x, last.y - pos.y, last.z - pos.z;
            && SquaredDistance(last, pos) == dx * dx + dy * dy + dz * dz
            && (dy == 0.0 && dz == 0.0 ==> SquaredDistance(last, pos) == dx * dx)
  {
  }

  lemma ShortSquare(a: real)
    ensures -8.0 < a < 8.0 ==> a * a < 64.0
  {
    if 0.0 <= a < 8.0 {
      assert a * a <= a * 8.0;
    } else if -8.0 < a < 0.0 {
      assert a * a <= -a * 8.0;
    }
  }

  /** Rounding is symmetric about zero, and halves go away from it. */
  lemma RoundsAwayFromZero(r: real, n: int)
    requires n >= 0
    ensures Round(-r) == -Round(r)
    ensures Round(n as real + 0.5) == n + 1 && Round(-(n as real) - 0.5) == -n - 1
  {
    if r == 0.0 {
      assert Round(0.0) == 0;
    }
    assert (n as real + 0.5) + 0.5 == (n + 1) as real;
    assert Round(-(n as real + 0.5)) == -(0.5 + (n as real + 0.5)).Floor;
  }

  /** One axis of one update: off by at most half a unit, and by less than a whole one where the cast saturates,
      which can only happen one unit beyond the range. */
  lemma UnitsAreNear(d: real)
    requires -8.0 < d < 8.0
    ensures -0x8000 <= Round(d * 4096.0) <= 0x8000
    ensures Round(d * 4096.0) < 0x8000 ==> Abs(Units(d) as real / 4096.0 - d) <= 1.0 / 8192.0
    ensures Abs(Units(d) as real / 4096.0 - d) < 1.0 / 4096.0
  {
    var r := d * 4096.0;
    RoundIsNear(r);
    assert -32768.0 < r < 32768.0;
    var n := Round(r);
    assert Abs(n as real - r) <= 0.5;
    assert -32768.5 < n as real < 32768.5;
    if n == 0x8000 {
      assert Units(d) == 0x7FFF;
      assert 32767.5 <= r < 32768.0;
    }
  }

  /** An axis is sent exactly when the move is a whole number of units and fits. */
  lemma ExactWhen(d: real)
    ensures Units(d) as real / 4096.0 == d <==> exists n: int :: IsUnits(d, n)
  {
    if n: int :| IsUnits(d, n) {
      RoundOfWhole(n);
    }
    if Units(d) as real / 4096.0 == d {
      assert IsUnits(d, Units(d));
    }
  }

  predicate IsUnits(d: real, n: int) {
    d * 4096.0 == n as real && -0x8000 <= n < 0x8000
  }

  lemma RoundOfWhole(n: int)
    ensures Round(n as real) == n
  {
  }

  ghost predicate WholeUnits(d: real) {
    exists n: int :: IsUnits(d, n)
  }

  /** EXACT, exactly.  A relative update leaves the client as far off as it was, on every axis, exactly when the move is
      a whole number of units in range on every axis; so a client that was right stays right exactly then. */
  lemma UpdateIsExactWhen(last: Position, pos: Position, at: Position)
    requires !Far(last, pos)
    ensures var now := Receive(at, Update(last, pos));
            now.x - pos.x == at.x - last.x && now.y - pos.y == at.y - last.y && now.z - pos.z == at.z - last.z <==>
            WholeUnits(pos.x - last.x) && WholeUnits(pos.y - last.y) && WholeUnits(pos.z - last.z)
    ensures at == last ==>
              (Receive(at, Update(last, pos)) == pos <==>
               WholeUnits(pos.x - last.x) && WholeUnits(pos.y - last.y) && WholeUnits(pos.z - last.z))
  {
    ExactWhen(pos.x - last.x);
    ExactWhen(pos.y - last.y);
    ExactWhen(pos.z - last.z);
    hide Units, Far, IsUnits;
  }

  lemma UpdateIsNear(last: Position, pos: Position, at: Position)
    requires !Far(last, pos)
    ensures var now := Receive(at, Update(last, pos));
            && Abs((now.x - pos.x) - (at.x - last.x)) < 1.0 / 4096.0
            && Abs((now.y - pos.y) - (at.y - last.y)) < 1.0 / 4096.0
            && Abs((now.z - pos.z) - (at.z - last.z)) < 1.0 / 4096.0
  {
    NearOnEachAxis(last, pos);
    UnitsAreNear(pos.x - last.x);
    UnitsAreNear(pos.y - last.y);
    UnitsAreNear(pos.z - last.z);
    hide Units, Far;
  }

  /** One more update, for everything that is said about a path. */
  lemma SyncStep(start: Position, path: seq<Position>)
    requires path != []
    ensures var pre, pos := path[..|path| - 1], path[|path| - 1];
            var last, wire := Last(start, pre), Wire(start, path);
            && Last(start, path) == pos
            && Client(start, wire) == Receive(Client(start, Wire(start, pre)), Update(last, pos))
            && Relatives(wire) == (if Far(last, pos) then 0 else 1 + Relatives(Wire(start, pre)))
            && Saturations(start, path) ==
               if Far(last, pos) then 0 else Saturations(start, pre) + if Saturates(last, pos) then 1 else 0
  {
    hide Far, Units, Saturates, Receive;
    var pre, pos := path[..|path| - 1], path[|path| - 1];
    assert Wire(start, path)[..|path| - 1] == Wire(start, pre);
    assert Wire(start, path)[|path| - 1] == Update(Last(start, pre), pos);
  }

  /** DRIFT.  Whatever way the entity takes, after `n` relative updates since the last teleport each axis of the
      client's copy differs by less than n/4096 block, and by nothing right after a teleport. */
  lemma {:induction false} DriftIsBounded(start: Position, path: seq<Position>)
    ensures var wire := Wire(start, path);
            var n := Relatives(wire);
            if n == 0 then Client(start, wire) == Last(start, path)
            else StrictlyWithin(Client(start, wire), Last(start, path), n as real / 4096.0)
  {
    if path != [] {
      var pre, pos := path[..|path| - 1], path[|path| - 1];
      var last, at := Last(start, pre), Client(start, Wire(start, pre));
      DriftIsBounded(start, pre);
      SyncStep(start, path);
      hide Wire, Client, Relatives, Far, Units, StrictlyWithin;
      if !Far(last, pos) {
        UpdateIsNear(last, pos, at);
        DriftStep(Relatives(Wire(start, pre)), at, last, Receive(at, Update(last, pos)), pos);
      }
    }
  }

  lemma DriftStep(n: nat, at: Position, last: Position, now: Position, pos: Position)
    requires if n == 0 then at == last else StrictlyWithin(at, last, n as real / 4096.0)
    requires Abs((now.x - pos.x) - (at.x - last.x)) < 1.0 / 4096.0
    requires Abs((now.y - pos.y) - (at.y - last.y)) < 1.0 / 4096.0
    requires Abs((now.z - pos.z) - (at.z - last.z)) < 1.0 / 4096.0
    ensures StrictlyWithin(now, pos, (n + 1) as real / 4096.0)
  {
    assert (n + 1) as real / 4096.0 == n as real / 4096.0 + 1.0 / 4096.0;
  }

  /** Some axis of the update saturates. */
  predicate Saturates(last: Position, pos: Position) {
    || Round((pos.x - last.x) * 4096.0) >= 0x8000
    || Round((pos.y - last.y) * 4096.0) >= 0x8000
    || Round((pos.z - last.z) * 4096.0) >= 0x8000
  }

  /** How far one update can be off, in halves of a unit. */
  function Slack(last: Position, pos: Position): nat {
    if Saturates(last, pos) then 2 else 1
  }

  /** Relative updates since the last teleport in which an axis saturated. */
  function Saturations(start: Position, path: seq<Position>): nat {
    if path == [] then 0
    else
      var pre, pos := path[..|path| - 1], path[|path| - 1];
      var last := Last(start, pre);
      if Far(last, pos) then 0 else Saturations(start, pre) + if Saturates(last, pos) then 1 else 0
  }

  predicate Within(p: Position, q: Position, e: real) {
    Abs(p.x - q.x) <= e && Abs(p.y - q.y) <= e && Abs(p.z - q.z) <= e
  }

  lemma UpdateIsNearer(last: Position, pos: Position, at: Position)
    requires !Far(last, pos)
    ensures var now := Receive(at, Update(last, pos));
            var e := Slack(last, pos) as real / 8192.0;
            && Abs((now.x - pos.x) - (at.x - last.x)) <= e
            && Abs((now.y - pos.y) - (at.y - last.y)) <= e
            && Abs((now.z - pos.z) - (at.z - last.z)) <= e
  {
    NearOnEachAxis(last, pos);
    UnitsAreNear(pos.x - last.x);
    UnitsAreNear(pos.y - last.y);
    UnitsAreNear(pos.z - last.z);
    hide Units, Far, Round;
  }

  lemma SharpStep(k: nat, more: nat, at: Position, last: Position, now: Position, pos: Position)
    requires Within(at, last, k as real / 8192.0)
    requires Abs((now.x - pos.x) - (at.x - last.x)) <= more as real / 8192.0
    requires Abs((now.y - pos.y) - (at.y - last.y)) <= more as real / 8192.0
    requires Abs((now.z - pos.z) - (at.z - last.z)) <= more as real / 8192.0
    ensures Within(now, pos, (k + more) as real / 8192.0)
  {
    assert (k + more) as real / 8192.0 == k as real / 8192.0 + more as real / 8192.0;
  }

  /** The sharper bound: n/8192 block after `n` relative updates of which none saturates, and as much again for each
      that does.  `DriftIsReached` meets it. */
  lemma {:induction false} DriftIsSharp(start: Position, path: seq<Position>)
    ensures Within(Client(start, Wire(start, path)), Last(start, path),
                   (Relatives(Wire(start, path)) + Saturations(start, path)) as real / 8192.0)
  {
    if path != [] {
      var pre, pos := path[..|path| - 1], path[|path| - 1];
      var last, at := Last(start, pre), Client(start, Wire(start, pre));
      DriftIsSharp(start, pre);
      SyncStep(start, path);
      hide Wire, Client, Relatives, Saturations, Far, Update, Saturates, Receive, Abs;
      if !Far(last, pos) {
        var k := Relatives(Wire(start, pre)) + Saturations(start, pre);
        UpdateIsNearer(last, pos, at);
        SharpStep(k, Slack(last, pos), at, last, Receive(at, Update(last, pos)), pos);
      }
    }
  }

  /** A walk along x in steps of half a unit. */
  function HalfUnit(k: nat): Position {
    Position(k as real / 8192.0, 0.0, 0.0)
  }

  function HalfSteps(n: nat): (path: seq<Position>)
    ensures |path| == n
  {
    if n == 0 then [] else HalfSteps(n - 1) + [HalfUnit(n)]
  }

  lemma HalfStep(n: nat)
    requires n > 0
    ensures var path := HalfSteps(n);
            && path[..|path| - 1] == HalfSteps(n - 1) && path[|path| - 1] == HalfUnit(n)
            && Last(HalfUnit(0), HalfSteps(n - 1)) == HalfUnit(n - 1)
  {
  }

  lemma HalfStepRounds(n: nat)
    requires n > 0
    ensures !Far(HalfUnit(n - 1), HalfUnit(n)) && !Saturates(HalfUnit(n - 1), HalfUnit(n))
    ensures Update(HalfUnit(n - 1), HalfUnit(n)) == Relative(1, 0, 0)
  {
    var d := HalfUnit(n).x - HalfUnit(n - 1).x;
    assert d == 1.0 / 8192.0;
    assert d * 4096.0 == 0.5;
    assert (-d) * (-d) == d * d < 64.0;
  }

  /** What the two bounds mean: strictly less on every axis; and an update saturates when some axis moves to within half a
      unit of eight blocks, or farther. */
  lemma BoundsMean(p: Position, q: Position, e: real)
    ensures StrictlyWithin(p, q, e) <==>
            -e < p.x - q.x < e && -e < p.y - q.y < e && -e < p.z - q.z < e
    ensures Within(p, q, e) <==>
            -e <= p.x - q.x <= e && -e <= p.y - q.y <= e && -e <= p.z - q.z <= e
    ensures Saturates(q, p) <==>
            p.x - q.x >= 8.0 - 1.0 / 8192.0 || p.y - q.y >= 8.0 - 1.0 / 8192.0 || p.z - q.z >= 8.0 - 1.0 / 8192.0
  {
    ReachesLimit(p.x - q.x);
    ReachesLimit(p.y - q.y);
    ReachesLimit(p.z - q.z);
    hide Round;
  }

  lemma ReachesLimit(d: real)
    ensures Round(d * 4096.0) >= 0x8000 <==> d >= 8.0 - 1.0 / 8192.0
  {
    var r := d * 4096.0;
    assert r >= 32767.5 <==> d >= 8.0 - 1.0 / 8192.0;
    if r >= 0.0 {
      assert (r + 0.5).Floor >= 0x8000 <==> r + 0.5 >= 32768.0;
    }
  }

  /** The bound grows for a reason: nothing corrects the rounding, so `n` steps of half a unit, none of which
      saturates, leave the client n/8192 block off. */
  lemma {:induction false} DriftIsReached(n: nat)
    ensures var wire := Wire(HalfUnit(0), HalfSteps(n));
            && Relatives(wire) == n && Saturations(HalfUnit(0), HalfSteps(n)) == 0
            && Client(HalfUnit(0), wire) == Position(n as real / 4096.0, 0.0, 0.0)
            && Last(HalfUnit(0), HalfSteps(n)) == HalfUnit(n)
  {
    hide Receive, HalfUnit, Wire, Client, Relatives, Saturations, Far, Update, Saturates, HalfSteps;
    if n == 0 {
      NotMoved();
    } else {
      DriftIsReached(n - 1);
      HalfStep(n);
      HalfStepRounds(n);
      SyncStep(HalfUnit(0), HalfSteps(n));
      OneUnitOn(n);
    }
  }

  lemma OneUnitOn(n: nat)
    requires n > 0
    ensures Receive(Position((n - 1) as real / 4096.0, 0.0, 0.0), Relative(1, 0, 0)) ==
            Position(n as real / 4096.0, 0.0, 0.0)
  {
  }

  lemma NotMoved()
    ensures HalfSteps(0) == [] && Wire(HalfUnit(0), []) == [] && Relatives([]) == 0
    ensures Saturations(HalfUnit(0), []) == 0 && Client(HalfUnit(0), []) == HalfUnit(0) == Position(0.0, 0.0, 0.0)
  {
  }

  /** An entity and what its viewers are sent. */
  class Tracked {
    var pos: Position
    var lastSynced: Position
    var wire: seq<Packet>
    ghost var start: Position
    ghost var path: seq<Position>

    ghost predicate Valid()
      reads this
    {
      wire == Wire(start, path) && lastSynced == Last(start, path)
    }

    constructor (pos: Position)
      ensures Valid() && this.pos == pos && start == pos && path == []
    {
      this.pos, lastSynced, wire, start, path := pos, pos, [], pos, [];
    }

    /** Sends the position and remembers it as sent. */
    method SendEntityUpdate()
      requires Valid()
      modifies this
      ensures Valid() && pos == old(pos) && start == old(start) && path == old(path) + [pos]
      ensures var n := Relatives(wire);
              if n == 0 then Client(start, wire) == pos
              else StrictlyWithin(Client(start, wire), pos, n as real / 4096.0)
    {
      var dx, dy, dz := pos.x - lastSynced.x, pos.y - lastSynced.y, pos.z - lastSynced.z;
      if Far(lastSynced, pos) {
        wire := wire + [Teleport(pos)];
      } else {
        wire := wire + [Relative(Units(dx), Units(dy), Units(dz))];
      }
      lastSynced := pos;
      path := path + [pos];
      assert path[..|path| - 1] == old(path);
      DriftIsBounded(start, path);
    }
  }
}
