/** Point-in-polygon by even-odd ray casting. Great-circle distance is a
    trigonometric floating-point formula and is passed to its users as a
    function parameter instead. */
module GeoUtils {
  import opened Domain

  /** The distance in metres between two positions, left uninterpreted. */
  type DistanceFn = (LatLon, LatLon) -> real

  /** Index of the vertex before vertex `i` in a cyclic polygon of `n` vertices. */
  function Prev(i: nat, n: nat): nat
    requires i < n
  {
    if i == 0 then n - 1 else i - 1
  }

  /** The edge from `pj` to `pi` straddles the point's longitude and the
      point lies south of the edge there. The division is reached only when
      the longitudes of `pi` and `pj` differ. Only an edge whose longitude
      range, closed at its lower end and open at its upper end, holds the
      point's longitude can be crossed. */
  function Crosses(pt: LatLon, pi: LatLon, pj: LatLon): (crosses: bool)
    ensures crosses ==> pi.lon != pj.lon
    ensures crosses ==> (pi.lon <= pt.lon < pj.lon || pj.lon <= pt.lon < pi.lon)
  {
    ((pi.lon > pt.lon) != (pj.lon > pt.lon))
    && pt.lat < (pj.lat - pi.lat) * (pt.lon - pi.lon) / (pj.lon - pi.lon) + pi.lat
  }

  /** How many of the edges (poly[Prev(i)], poly[i]), i < k, the test accepts. */
  function CrossingCount(pt: LatLon, poly: seq<LatLon>, k: nat): nat
    requires k <= |poly|
  {
    if k == 0 then 0
    else CrossingCount(pt, poly, k - 1)
         + (if Crosses(pt, poly[k - 1], poly[Prev(k - 1, |poly|)]) then 1 else 0)
  }

  /** The even-odd rule: inside iff an odd number of edges are crossed. A
      polygon of fewer than three vertices contains no point: its two edges,
      if any, are one segment walked both ways. */
  function Inside(pt: LatLon, poly: seq<LatLon>): (inside: bool)
    ensures |poly| <= 2 ==> !inside
  {
    var count := CrossingCount(pt, poly, |poly|);
    assert |poly| <= 2 ==> count % 2 == 0 by {
      if |poly| == 2 {
        CrossesSymmetric(pt, poly[0], poly[1]);
        assert CrossingCount(pt, poly, 1) == if Crosses(pt, poly[0], poly[1]) then 1 else 0;
        assert count == CrossingCount(pt, poly, 1) + if Crosses(pt, poly[1], poly[0]) then 1 else 0;
      } else if |poly| == 1 {
        assert !Crosses(pt, poly[0], poly[0]);
        assert count == CrossingCount(pt, poly, 0);
      }
    }
    count % 2 == 1
  }

  /** Walks the edges with `j` trailing `i`, flipping `inside` at every crossing. */
  method PointInPolygon(pt: LatLon, poly: seq<LatLon>) returns (inside: bool)
    ensures inside == Inside(pt, poly)
    ensures |poly| == 0 ==> !inside
  {
    var n := |poly|;
    inside := false;
    var i := 0;
    var j := n - 1;
    while i < n
      invariant 0 <= i <= n
      invariant i < n ==> j == Prev(i, n)
      invariant inside == (CrossingCount(pt, poly, i) % 2 == 1)
    {
      var pi := poly[i];
      var pj := poly[j];
      assert CrossingCount(pt, poly, i + 1)
             == CrossingCount(pt, poly, i) + if Crosses(pt, pi, pj) then 1 else 0;
      if Crosses(pt, pi, pj) {
        var c := CrossingCount(pt, poly, i);
        assert (c + 1) % 2 == 1 <==> c % 2 != 1;
        inside := !inside;
      }
      assert inside == (CrossingCount(pt, poly, i + 1) % 2 == 1);
      j := i;
      i := i + 1;
    }
  }

  /** The crossing test does not depend on the direction of the edge: both
      directions compute the latitude of the same line at the point's longitude. */
  lemma CrossesSymmetric(pt: LatLon, a: LatLon, b: LatLon)
    ensures Crosses(pt, a, b) == Crosses(pt, b, a)
  {
    if (a.lon > pt.lon) != (b.lon > pt.lon) {
      var d := b.lon - a.lon;
      var x := pt.lon;
      assert d != 0.0;
      var s := (b.lat - a.lat) / d;
      assert (b.lat - a.lat) * (x - a.lon) / d == s * (x - a.lon);
      assert (a.lat - b.lat) * (x - b.lon) / (a.lon - b.lon) == s * (x - b.lon);
      assert s * (x - a.lon) + a.lat == s * (x - b.lon) + b.lat by {
        assert s * (x - a.lon) - s * (x - b.lon) == s * d;
        assert s * d == b.lat - a.lat;
      }
    }
  }

  /** The polygon with its first vertex moved to the end. */
  function Rotate(poly: seq<LatLon>): seq<LatLon>
    requires |poly| > 0
  {
    poly[1..] + [poly[0]]
  }

  lemma {:induction false} RotateCount(pt: LatLon, poly: seq<LatLon>, k: nat)
    requires 2 <= |poly| && k < |poly|
    ensures CrossingCount(pt, Rotate(poly), k) + CrossingCount(pt, poly, 1)
            == CrossingCount(pt, poly, k + 1)
  {
    if k > 0 {
      RotateCount(pt, poly, k - 1);
      var q := Rotate(poly);
      assert q[k - 1] == poly[k];
      assert q[Prev(k - 1, |q|)] == poly[Prev(k, |poly|)];
    }
  }

  /** Which vertex the polygon starts at does not change the answer: the
      rotated polygon has the same cyclic edges. */
  lemma RotateInside(pt: LatLon, poly: seq<LatLon>)
    requires |poly| > 0
    ensures Inside(pt, Rotate(poly)) == Inside(pt, poly)
  {
    var n := |poly|;
    if n == 1 {
      assert Rotate(poly) == poly;
    } else {
      var q := Rotate(poly);
      RotateCount(pt, poly, n - 1);
      assert q[n - 1] == poly[0];
      assert q[Prev(n - 1, n)] == poly[n - 1];
      assert CrossingCount(pt, poly, 1)
             == if Crosses(pt, poly[0], poly[n - 1]) then 1 else 0;
      assert CrossingCount(pt, q, n) == CrossingCount(pt, poly, n);
    }
  }

  /** A unit square (listed counter-clockwise) contains its centre and not a point to its east. */
  lemma UnitSquareExample()
    ensures Inside(LatLon(0.5, 0.5), [LatLon(0.0, 0.0), LatLon(0.0, 1.0), LatLon(1.0, 1.0), LatLon(1.0, 0.0)])
    ensures !Inside(LatLon(0.5, 2.0), [LatLon(0.0, 0.0), LatLon(0.0, 1.0), LatLon(1.0, 1.0), LatLon(1.0, 0.0)])
  {
    var sq := [LatLon(0.0, 0.0), LatLon(0.0, 1.0), LatLon(1.0, 1.0), LatLon(1.0, 0.0)];
    var c := LatLon(0.5, 0.5);
    assert !Crosses(c, sq[0], sq[3]);
    assert !Crosses(c, sq[1], sq[0]);
    assert !Crosses(c, sq[2], sq[1]);
    assert Crosses(c, sq[3], sq[2]);
    assert CrossingCount(c, sq, 4) == 1;
    var e := LatLon(0.5, 2.0);
    assert CrossingCount(e, sq, 4) == 0;
  }
}
