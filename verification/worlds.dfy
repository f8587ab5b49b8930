/**
 * The scene (`Trace.World`): the shapes in the order they were added, and the search for
 * the hit nearest to a ray's origin.
 */
module Worlds {
  import opened Wrappers
  import opened Rays
  import opened Shapes
  import Sh = Shapes

  /** Every shape of the list can be intersected. */
  predicate AllWellFormed(shapes: seq<Shape>) {
    forall i :: 0 <= i < |shapes| ==> WellFormed(shapes[i])
  }

  /**
   * One step of the search: a new hit replaces the closest one so far only when there was
   * none yet or it is strictly nearer, so on a tie the earlier shape keeps its place.
   */
  function Pick(closest: Option<HitRecord>, hit: Option<HitRecord>): (r: Option<HitRecord>)
    ensures r == closest || r == hit
    ensures r.None? <==> closest.None? && hit.None?
  {
    if hit.None? then closest
    else if closest.None? || hit.value.T < closest.value.T then hit
    else closest
  }

  /** The search over the shapes' hits, in list order. */
  function Closest(hits: seq<Option<HitRecord>>): Option<HitRecord>
    decreases |hits|
  {
    if |hits| == 0 then None
    else Pick(Closest(hits[..|hits| - 1]), hits[|hits| - 1])
  }

  /** What each shape of the list reports for the ray. */
  function Hits(shapes: seq<Shape>, ray: Ray, math: MathLib): (hits: seq<Option<HitRecord>>)
    requires AllWellFormed(shapes)
    ensures |hits| == |shapes|
    ensures forall i :: 0 <= i < |shapes| ==> hits[i] == Sh.RayIntersection(shapes[i], ray, math)
  {
    seq(|shapes|, i requires 0 <= i < |shapes| => Sh.RayIntersection(shapes[i], ray, math))
  }

  class World {
    var Shapes: seq<Shape>

    predicate Valid()
      reads this
    {
      AllWellFormed(Shapes)
    }

    /** A new world holds no shape. */
    constructor()
      ensures Shapes == [] && Valid()
    {
      Shapes := [];
    }

    /** `add(shape)`: the shape goes at the end, after the ones already there. */
    method Add(shape: Shape)
      requires Valid() && WellFormed(shape)
      modifies this
      ensures Shapes == old(Shapes) + [shape] && Valid()
    {
      Shapes := Shapes + [shape];
    }

    /** `ray_intersection(ray)`: each shape is asked in turn and the nearest hit is kept. */
    method RayIntersection(ray: Ray, math: MathLib) returns (closest: Option<HitRecord>)
      requires Valid()
      ensures closest == Closest(Hits(Shapes, ray, math))
    {
      ghost var hits := Hits(Shapes, ray, math);
      closest := None;
      var i := 0;
      while i < |Shapes|
        invariant 0 <= i <= |Shapes|
        invariant closest == Closest(hits[..i])
      {
        var intersection := Sh.RayIntersection(Shapes[i], ray, math);
        assert hits[..i + 1][..i] == hits[..i];
        if intersection.None? {
          i := i + 1;
          continue;
        }
        if closest.None? || intersection.value.T < closest.value.T {
          closest := intersection;
        }
        i := i + 1;
      }
      assert hits[..i] == hits;
    }
  }

  /** Nothing is hit exactly when no shape is hit. */
  lemma {:induction false} ClosestNoneIff(hits: seq<Option<HitRecord>>)
    ensures Closest(hits).None? <==> forall i :: 0 <= i < |hits| ==> hits[i].None?
  {
    if |hits| > 0 {
      var init := hits[..|hits| - 1];
      ClosestNoneIff(init);
      assert forall i :: 0 <= i < |init| ==> init[i] == hits[i];
    }
  }

  /**
   * A hit found is the hit of one of the shapes, every earlier shape either missed or hit
   * strictly farther, and no shape hit nearer: the nearest hit, the first one on a tie.
   */
  lemma {:induction false} ClosestIsFirstMinimum(hits: seq<Option<HitRecord>>)
    requires Closest(hits).Some?
    ensures exists k :: (0 <= k < |hits| && hits[k] == Closest(hits)
      && forall j :: 0 <= j < k && hits[j].Some? ==> hits[j].value.T > Closest(hits).value.T)
    ensures forall j :: 0 <= j < |hits| && hits[j].Some? ==> Closest(hits).value.T <= hits[j].value.T
  {
    var n := |hits|;
    var init := hits[..n - 1];
    var r := Closest(hits);
    assert forall i :: 0 <= i < |init| ==> init[i] == hits[i];
    if Closest(init).None? {
      ClosestNoneIff(init);
      assert hits[n - 1] == r;
    } else {
      ClosestIsFirstMinimum(init);
      var k :| 0 <= k < |init| && init[k] == Closest(init)
        && (forall j :: 0 <= j < k && init[j].Some? ==> init[j].value.T > Closest(init).value.T);
      if r == Closest(init) {
        assert hits[k] == r;
      } else {
        assert hits[n - 1] == r;
      }
    }
  }

  /** Adding a shape adds one more step to the search. */
  lemma HitsAppend(shapes: seq<Shape>, s: Shape, ray: Ray, math: MathLib)
    requires AllWellFormed(shapes) && WellFormed(s)
    ensures AllWellFormed(shapes + [s])
    ensures Closest(Hits(shapes + [s], ray, math))
      == Pick(Closest(Hits(shapes, ray, math)), Sh.RayIntersection(s, ray, math))
  {
    var all := shapes + [s];
    assert AllWellFormed(all) by {
      assert forall i :: 0 <= i < |shapes| ==> all[i] == shapes[i];
    }
    var hits, before := Hits(all, ray, math), Hits(shapes, ray, math);
    assert hits[..|shapes|] == before by {
      assert forall i :: 0 <= i < |shapes| ==> all[i] == shapes[i];
    }
    assert hits[|shapes|] == Sh.RayIntersection(s, ray, math);
  }
}
