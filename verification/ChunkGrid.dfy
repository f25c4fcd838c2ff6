/** Chunk coordinates, the Chebyshev metric and the order in which chunks are queued. */
module ChunkGrid {

  datatype Coord = Coord(x: int, z: int)

  function Abs(n: int): nat {
    if n < 0 then -n else n
  }

  /** Chebyshev distance: the larger of the two axis distances. */
  function Distance(a: Coord, b: Coord): nat {
    var dx, dz := Abs(a.x - b.x), Abs(a.z - b.z);
    if dx < dz then dz else dx
  }

  /** All chunks of the view square around `center`. */
  function Square(center: Coord, r: nat): set<Coord> {
    set x, z | center.x - r <= x <= center.x + r && center.z - r <= z <= center.z + r :: Coord(x, z)
  }

  /** The square the calculator scans is exactly what the sender's distance filter lets through. */
  lemma SquareIsDistance(center: Coord, r: nat, c: Coord)
    ensures c in Square(center, r) <==> Distance(center, c) <= r
    ensures c in Square(center, r) <==>
            center.x - r <= c.x <= center.x + r && center.z - r <= c.z <= center.z + r
    ensures Distance(c, center) == Distance(center, c)
  {
    if Distance(center, c) <= r {
      assert c == Coord(c.x, c.z);
    }
  }

  /** The radius both systems use; a client distance of 0 or 1 means "not known yet". */
  function EffectiveViewRadius(server: nat, client: int): (r: nat)
    ensures r <= server
    ensures client > 1 ==> r <= client
    ensures r == server || r == client > 1
  {
    if client <= 1 then server else if server < client then server else client
  }

  /** Scan order: x first, then z, both ascending. */
  predicate ScanBefore(a: Coord, b: Coord) {
    a.x < b.x || (a.x == b.x && a.z < b.z)
  }

  /** Queue order: nearer chunks first, ties in scan order. */
  predicate Before(center: Coord, a: Coord, b: Coord) {
    Distance(a, center) < Distance(b, center) || (Distance(a, center) == Distance(b, center) && ScanBefore(a, b))
  }

  ghost predicate ScanOrdered(q: seq<Coord>) {
    forall i, j :: 0 <= i < j < |q| ==> ScanBefore(q[i], q[j])
  }

  ghost predicate Ordered(center: Coord, q: seq<Coord>) {
    forall i, j :: 0 <= i < j < |q| ==> Before(center, q[i], q[j])
  }

  /** What the order means: of two queued chunks the first is no farther away, and at equal distance it has the smaller
      x, or at equal x the smaller z. */
  lemma NearestFirst(center: Coord, q: seq<Coord>)
    requires Ordered(center, q)
    ensures forall i, j :: 0 <= i < j < |q| ==>
              && Distance(q[i], center) <= Distance(q[j], center)
              && (Distance(q[i], center) == Distance(q[j], center) ==>
                    q[i].x < q[j].x || (q[i].x == q[j].x && q[i].z < q[j].z))
  {
  }

  ghost predicate NoDup<T>(q: seq<T>) {
    forall i, j :: 0 <= i < j < |q| ==> q[i] != q[j]
  }

  function Elems<T>(q: seq<T>): set<T> {
    set e | e in q
  }

  lemma OrderedNoDup(center: Coord, q: seq<Coord>)
    requires Ordered(center, q)
    ensures NoDup(q)
  {
    forall i, j | 0 <= i < j < |q|
      ensures q[i] != q[j]
    {
      assert Before(center, q[i], q[j]);
    }
  }

  /** The queue order is total, so a set of chunks has only one ordered listing. */
  lemma {:induction false} OrderedIsUnique(center: Coord, a: seq<Coord>, b: seq<Coord>)
    requires Ordered(center, a) && Ordered(center, b) && Elems(a) == Elems(b)
    ensures a == b
  {
    assert a != [] ==> a[0] in Elems(b);
    assert b != [] ==> b[0] in Elems(a);
    if a != [] && b != [] {
      var i :| 0 <= i < |b| && b[i] == a[0];
      var j :| 0 <= j < |a| && a[j] == b[0];
      assert j > 0 ==> Before(center, a[0], b[0]);
      assert i > 0 ==> Before(center, b[0], a[0]);
      assert Elems(a[1..]) == Elems(b[1..]) by {
        OrderedNoDup(center, a);
        OrderedNoDup(center, b);
        TailElems(a);
        TailElems(b);
      }
      OrderedIsUnique(center, a[1..], b[1..]);
    }
  }

  lemma TailElems<T>(q: seq<T>)
    requires q != [] && NoDup(q)
    ensures Elems(q[1..]) == Elems(q) - {q[0]}
    ensures NoDup(q[1..])
  {
    assert q == [q[0]] + q[1..];
    forall e | e in Elems(q) - {q[0]}
      ensures e in Elems(q[1..])
    {
      var i :| 0 <= i < |q| && q[i] == e;
      assert q[1..][i - 1] == e;
    }
  }

  lemma AppendElems<T>(p: seq<T>, q: seq<T>)
    ensures Elems(p + q) == Elems(p) + Elems(q)
    ensures NoDup(p) && NoDup(q) && Elems(p) !! Elems(q) ==> NoDup(p + q)
  {
    if NoDup(p) && NoDup(q) && Elems(p) !! Elems(q) {
      forall i, j | 0 <= i < j < |p + q|
        ensures (p + q)[i] != (p + q)[j]
      {
        if i < |p| <= j {
          assert p[i] in Elems(p) && q[j - |p|] in Elems(q);
        }
      }
    }
  }
}
