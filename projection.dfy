/** `projectTo3D`: every point becomes exactly three coordinates, its first
    three where it has them and 0 where it does not (`x || 0` on a missing
    coordinate). */
module Projection {
  import opened Matrices

  /** Coordinate k of p, or 0 where p has no coordinate k. */
  function CoordOrZero(p: seq<real>, k: nat): real {
    if k < |p| then p[k] else 0.0
  }

  /** `const [x, y, z] = point; return [x || 0, y || 0, z || 0]`. */
  function ProjectPoint(p: seq<real>): (q: seq<real>)
    ensures |q| == 3
    ensures q[..Min(|p|, 3)] == p[..Min(|p|, 3)]
    ensures forall k :: |p| <= k < 3 ==> q[k] == 0.0
  {
    [CoordOrZero(p, 0), CoordOrZero(p, 1), CoordOrZero(p, 2)]
  }

  /** `points.map(...)`: one projected point per input point, in order. */
  function ProjectTo3D(points: seq<seq<real>>): (r: seq<seq<real>>)
    ensures |r| == |points|
    ensures forall i :: 0 <= i < |points| ==>
              |r[i]| == 3 && r[i][..Min(|points[i]|, 3)] == points[i][..Min(|points[i]|, 3)] &&
              forall k :: |points[i]| <= k < 3 ==> r[i][k] == 0.0
  {
    seq(|points|, i requires 0 <= i < |points| => ProjectPoint(points[i]))
  }

  /** A point of dimension three or more loses every coordinate past the third. */
  lemma ProjectDropsTail(p: seq<real>)
    requires |p| >= 3
    ensures ProjectPoint(p) == p[..3]
  {
  }

  /** A point of dimension three or less is padded with zeros. */
  lemma ProjectPadsWithZeros(p: seq<real>)
    requires |p| <= 3
    ensures ProjectPoint(p) == p + seq(3 - |p|, _ => 0.0)
  {
    var q := ProjectPoint(p);
    var z := p + seq(3 - |p|, _ => 0.0);
    forall k | 0 <= k < 3
      ensures q[k] == z[k]
    {
      if k < |p| {
        assert q[..|p|][k] == p[..|p|][k];
      }
    }
  }

  /** Projecting twice is projecting once. */
  lemma ProjectIdempotent(points: seq<seq<real>>)
    ensures ProjectTo3D(ProjectTo3D(points)) == ProjectTo3D(points)
  {
    var once := ProjectTo3D(points);
    forall i | 0 <= i < |points|
      ensures ProjectPoint(once[i]) == once[i]
    {
      ProjectDropsTail(once[i]);
    }
  }

  /** The two documented examples: [1,2,3,4,5] -> [1,2,3] and [7,9] -> [7,9,0]. */
  lemma ProjectExamples()
    ensures ProjectTo3D([[1.0, 2.0, 3.0, 4.0, 5.0], [7.0, 9.0]]) == [[1.0, 2.0, 3.0], [7.0, 9.0, 0.0]]
  {
  }
}
