/** Vectors, JavaScript numbers extended with the two infinities, and the
    slab-method ray/box test of the bounding-box loader (`rayBoxIntersect`).
    Numbers are modelled as exact reals. */
module Geometry {
  import opened Optional

  datatype Vec3 = Vec3(x: real, y: real, z: real)

  function Abs(r: real): real { if r < 0.0 then -r else r }
  function Min(a: real, b: real): real { if a <= b then a else b }
  function Max(a: real, b: real): real { if a <= b then b else a }

  /** A number as the slab test sees it: finite, or one of the infinities the
      running interval starts from. */
  datatype Ext = NegInf | Fin(v: real) | PosInf

  /** JavaScript `<` on such numbers. */
  predicate Lt(a: Ext, b: Ext) {
    match a
    case NegInf => !b.NegInf?
    case Fin(x) => b.PosInf? || (b.Fin? && x < b.v)
    case PosInf => false
  }

  predicate Le(a: Ext, b: Ext) { !Lt(b, a) }

  /** `Math.max` and `Math.min` on such numbers. */
  function ExtMax(a: Ext, b: Ext): (r: Ext)
    ensures Le(a, r) && Le(b, r) && (r == a || r == b)
  {
    if Lt(a, b) then b else a
  }

  function ExtMin(a: Ext, b: Ext): (r: Ext)
    ensures Le(r, a) && Le(r, b) && (r == a || r == b)
  {
    if Lt(b, a) then b else a
  }

  /** The running parameter interval `[tmin, tmax]` of the slab method. */
  datatype Interval = Interval(tmin: Ext, tmax: Ext)

  predicate Contains(iv: Interval, t: real) {
    Le(iv.tmin, Fin(t)) && Le(Fin(t), iv.tmax)
  }

  /** Below this magnitude a direction component counts as parallel to the
      slab planes of its axis. */
  const ParallelEpsilon: real := 0.0001

  predicate Parallel(d: real) { Abs(d) < ParallelEpsilon }

  /** The box is centred on its position and extends half its scale either
      way along every axis. */
  function BoxMin(center: Vec3, scale: Vec3): Vec3 {
    Vec3(center.x - scale.x / 2.0, center.y - scale.y / 2.0, center.z - scale.z / 2.0)
  }

  function BoxMax(center: Vec3, scale: Vec3): Vec3 {
    Vec3(center.x + scale.x / 2.0, center.y + scale.y / 2.0, center.z + scale.z / 2.0)
  }

  /** One axis of the slab method. A parallel ray is rejected outright when
      its origin lies outside the slab and otherwise leaves the interval
      alone; any other ray narrows the interval to the parameters between
      the two slab planes. */
  function SlabStep(acc: Option<Interval>, o: real, d: real, lo: real, hi: real): Option<Interval>
  {
    match acc
    case None => None
    case Some(iv) =>
      if Parallel(d) then
        if o < lo || o > hi then None else Some(iv)
      else
        var t1 := (lo - o) / d;
        var t2 := (hi - o) / d;
        Some(Interval(ExtMax(iv.tmin, Fin(Min(t1, t2))), ExtMin(iv.tmax, Fin(Max(t1, t2)))))
  }

  /** The interval left after the X, Y and Z slabs, in that order, starting
      from the whole line `[-Infinity, Infinity]`; `None` when a parallel
      axis rejected the ray. */
  function Slabs(origin: Vec3, dir: Vec3, center: Vec3, scale: Vec3): Option<Interval>
  {
    var lo := BoxMin(center, scale);
    var hi := BoxMax(center, scale);
    var ix := SlabStep(Some(Interval(NegInf, PosInf)), origin.x, dir.x, lo.x, hi.x);
    var iy := SlabStep(ix, origin.y, dir.y, lo.y, hi.y);
    SlabStep(iy, origin.z, dir.z, lo.z, hi.z)
  }

  /** `rayBoxIntersect`: the distance along the ray to the box, or `None`
      for a miss. The nearer parameter is returned when it is positive (the
      ray enters the box), the farther one otherwise (the origin is inside);
      a ray parallel to all three axes that starts inside the box is a hit
      at `Infinity`. */
  function RayBoxIntersect(origin: Vec3, dir: Vec3, center: Vec3, scale: Vec3): (r: Option<Ext>)
    ensures r.Some? ==> r.value.PosInf? || (r.value.Fin? && r.value.v >= 0.0)
  {
    SlabsMeaning(origin, dir, center, scale);
    match Slabs(origin, dir, center, scale)
    case None => None
    case Some(iv) => Decide(iv)
  }

  /** The final decision on the narrowed interval: a miss when it is empty or
      lies entirely behind the origin, otherwise its lower end when that is
      positive and its upper end when it is not. */
  function Decide(iv: Interval): (r: Option<Ext>)
    requires iv.tmin != PosInf && iv.tmax != NegInf
    ensures r.Some? ==> r.value.PosInf? || (r.value.Fin? && r.value.v >= 0.0)
  {
    if Lt(iv.tmax, iv.tmin) || Lt(iv.tmax, Fin(0.0)) then None
    else if Lt(Fin(0.0), iv.tmin) then Some(iv.tmin)
    else Some(iv.tmax)
  }

  // ---------------------------------------------------------------------
  // What the slab test means geometrically

  /** Whether the point at parameter `t` is acceptable on one axis: a
      parallel axis only asks that the origin lies in the slab, any other
      axis that the point on the ray lies between the two slab planes. */
  predicate AxisAdmits(o: real, d: real, lo: real, hi: real, t: real) {
    if Parallel(d) then lo <= o <= hi
    else Min(lo, hi) <= o + t * d <= Max(lo, hi)
  }

  predicate AllAxesAdmit(origin: Vec3, dir: Vec3, center: Vec3, scale: Vec3, t: real) {
    var lo := BoxMin(center, scale);
    var hi := BoxMax(center, scale);
    && AxisAdmits(origin.x, dir.x, lo.x, hi.x, t)
    && AxisAdmits(origin.y, dir.y, lo.y, hi.y, t)
    && AxisAdmits(origin.z, dir.z, lo.z, hi.z, t)
  }

  /** The ray meets the box at parameter `t`, on or in front of its origin. */
  predicate HitsAt(origin: Vec3, dir: Vec3, center: Vec3, scale: Vec3, t: real) {
    t >= 0.0 && AllAxesAdmit(origin, dir, center, scale, t)
  }

  /** The point at parameter `t` lies in the box, read geometrically: between
      the two faces on every axis. */
  predicate InBoxAt(origin: Vec3, dir: Vec3, center: Vec3, scale: Vec3, t: real) {
    var lo := BoxMin(center, scale);
    var hi := BoxMax(center, scale);
    && lo.x <= origin.x + t * dir.x <= hi.x
    && lo.y <= origin.y + t * dir.y <= hi.y
    && lo.z <= origin.z + t * dir.z <= hi.z
  }

  /** No direction component is in the band `0 < |d| < 0.0001` that the
      parallel test treats as zero. */
  predicate ClearOfParallelBand(dir: Vec3) {
    && (dir.x == 0.0 || !Parallel(dir.x))
    && (dir.y == 0.0 || !Parallel(dir.y))
    && (dir.z == 0.0 || !Parallel(dir.z))
  }

  lemma AxisAdmitsInSlab(o: real, d: real, lo: real, hi: real, t: real)
    requires d == 0.0 || !Parallel(d)
    requires lo <= hi
    ensures AxisAdmits(o, d, lo, hi, t) <==> lo <= o + t * d <= hi
  {
  }

  /** Outside the near-parallel band, and for a box of non-negative size,
      the slab rule's notion of a hit is the geometric one: a point on or in
      front of the origin that lies in the box. */
  lemma HitsAtIsInBox(origin: Vec3, dir: Vec3, center: Vec3, scale: Vec3, t: real)
    requires ClearOfParallelBand(dir)
    requires scale.x >= 0.0 && scale.y >= 0.0 && scale.z >= 0.0
    ensures HitsAt(origin, dir, center, scale, t) <==> t >= 0.0 && InBoxAt(origin, dir, center, scale, t)
  {
    var lo := BoxMin(center, scale);
    var hi := BoxMax(center, scale);
    AxisAdmitsInSlab(origin.x, dir.x, lo.x, hi.x, t);
    AxisAdmitsInSlab(origin.y, dir.y, lo.y, hi.y, t);
    AxisAdmitsInSlab(origin.z, dir.z, lo.z, hi.z, t);
  }

  /** For a positive divisor, `a / d <= t` exactly when `a <= t * d`. */
  lemma DivLeIff(a: real, d: real, t: real)
    requires d > 0.0
    ensures a / d <= t <==> a <= t * d
    ensures t <= a / d <==> t * d <= a
  {
    assert (a / d) * d == a;
    if a / d <= t {
      assert (a / d) * d <= t * d;
    }
    if t <= a / d {
      assert t * d <= (a / d) * d;
    }
  }

  /** For a negative divisor the comparisons flip. */
  lemma DivLeIffNeg(a: real, d: real, t: real)
    requires d < 0.0
    ensures a / d <= t <==> t * d <= a
    ensures t <= a / d <==> a <= t * d
  {
    DivLeIff(-a, -d, t);
    assert (-a) / (-d) == a / d;
    assert t * (-d) == -(t * d);
  }

  /** On a non-parallel axis, the parameters between the two slab planes are
      exactly those whose point lies in the slab. */
  lemma SlabParameters(o: real, d: real, lo: real, hi: real, t: real)
    requires !Parallel(d)
    ensures Min((lo - o) / d, (hi - o) / d) <= t <= Max((lo - o) / d, (hi - o) / d)
        <==> Min(lo, hi) <= o + t * d <= Max(lo, hi)
  {
    if d > 0.0 {
      DivLeIff(lo - o, d, t);
      DivLeIff(hi - o, d, t);
      if lo <= hi {
        assert (lo - o) / d <= (hi - o) / d by { DivLeIff(lo - o, d, (hi - o) / d); }
      } else {
        assert (hi - o) / d <= (lo - o) / d by { DivLeIff(hi - o, d, (lo - o) / d); }
      }
    } else {
      DivLeIffNeg(lo - o, d, t);
      DivLeIffNeg(hi - o, d, t);
      if lo <= hi {
        assert (hi - o) / d <= (lo - o) / d by { DivLeIffNeg(hi - o, d, (lo - o) / d); }
      } else {
        assert (lo - o) / d <= (hi - o) / d by { DivLeIffNeg(lo - o, d, (hi - o) / d); }
      }
    }
  }

  /** One slab step keeps exactly the parameters the axis admits. */
  lemma SlabStepMeaning(iv: Interval, o: real, d: real, lo: real, hi: real)
    requires iv.tmin != PosInf && iv.tmax != NegInf
    ensures var r := SlabStep(Some(iv), o, d, lo, hi);
      && (r.None? ==> forall t :: !AxisAdmits(o, d, lo, hi, t))
      && (r.Some? ==> r.value.tmin != PosInf && r.value.tmax != NegInf)
      && (r.Some? ==> forall t :: Contains(r.value, t) <==> Contains(iv, t) && AxisAdmits(o, d, lo, hi, t))
  {
    if !Parallel(d) {
      forall t ensures Contains(SlabStep(Some(iv), o, d, lo, hi).value, t)
                    <==> Contains(iv, t) && AxisAdmits(o, d, lo, hi, t)
      {
        SlabParameters(o, d, lo, hi, t);
      }
    }
  }

  /** After the three slabs, the interval holds exactly the parameters every
      axis admits; a rejection means no parameter is admitted. */
  lemma SlabsMeaning(origin: Vec3, dir: Vec3, center: Vec3, scale: Vec3)
    ensures var r := Slabs(origin, dir, center, scale);
      && (r.None? ==> forall t :: !AllAxesAdmit(origin, dir, center, scale, t))
      && (r.Some? ==> r.value.tmin != PosInf && r.value.tmax != NegInf)
      && (r.Some? ==> forall t :: Contains(r.value, t) <==> AllAxesAdmit(origin, dir, center, scale, t))
  {
    var lo := BoxMin(center, scale);
    var hi := BoxMax(center, scale);
    var i0 := Interval(NegInf, PosInf);
    var ix := SlabStep(Some(i0), origin.x, dir.x, lo.x, hi.x);
    SlabStepMeaning(i0, origin.x, dir.x, lo.x, hi.x);
    if ix.Some? {
      var iy := SlabStep(ix, origin.y, dir.y, lo.y, hi.y);
      SlabStepMeaning(ix.value, origin.y, dir.y, lo.y, hi.y);
      if iy.Some? {
        SlabStepMeaning(iy.value, origin.z, dir.z, lo.z, hi.z);
      }
    }
  }

  /** A parameter on or in front of the origin inside the interval. */
  predicate Ahead(iv: Interval, t: real) {
    t >= 0.0 && Contains(iv, t)
  }

  /** The decision against the interval it is taken on. */
  lemma DecideMeaning(iv: Interval)
    requires iv.tmin != PosInf && iv.tmax != NegInf
    ensures var r := Decide(iv);
      && (r.None? <==> forall t :: !Ahead(iv, t))
      && (r.Some? && r.value.Fin? ==> Ahead(iv, r.value.v))
      && (r.Some? && r.value.Fin? && !Ahead(iv, 0.0) ==> forall t :: Ahead(iv, t) ==> r.value.v <= t)
      && (r.Some? && r.value.Fin? && Ahead(iv, 0.0) ==> forall t :: Ahead(iv, t) ==> t <= r.value.v)
      && (r == Some(PosInf) ==> forall t :: t >= 0.0 ==> Ahead(iv, t))
  {
    var r := Decide(iv);
    if r.Some? {
      if Lt(Fin(0.0), iv.tmin) {
        assert Ahead(iv, iv.tmin.v);
      } else {
        assert Ahead(iv, 0.0);
      }
    }
  }

  /** After the slabs, a parameter is a hit exactly when it lies ahead of
      the origin in the narrowed interval. */
  lemma HitsAtIffAhead(origin: Vec3, dir: Vec3, center: Vec3, scale: Vec3)
    requires Slabs(origin, dir, center, scale).Some?
    ensures Slabs(origin, dir, center, scale).value.tmin != PosInf
    ensures Slabs(origin, dir, center, scale).value.tmax != NegInf
    ensures forall t :: HitsAt(origin, dir, center, scale, t) <==> Ahead(Slabs(origin, dir, center, scale).value, t)
  {
    SlabsMeaning(origin, dir, center, scale);
  }

  /** The slab test misses exactly when no point of the ray on or in front of
      its origin is in the box. */
  lemma {:induction false} RayBoxMissMeaning(origin: Vec3, dir: Vec3, center: Vec3, scale: Vec3)
    ensures RayBoxIntersect(origin, dir, center, scale).None? <==> forall t :: !HitsAt(origin, dir, center, scale, t)
  {
    SlabsMeaning(origin, dir, center, scale);
    var s := Slabs(origin, dir, center, scale);
    if s.Some? {
      HitsAtIffAhead(origin, dir, center, scale);
      DecideMeaning(s.value);
    }
  }

  /** A finite answer is a hit. From outside the box it is the nearest hit,
      the entry point; from inside it is the farthest, the exit point. */
  lemma {:induction false} RayBoxDistanceMeaning(origin: Vec3, dir: Vec3, center: Vec3, scale: Vec3)
    requires RayBoxIntersect(origin, dir, center, scale).Some?
    requires RayBoxIntersect(origin, dir, center, scale).value.Fin?
    ensures var d := RayBoxIntersect(origin, dir, center, scale).value.v;
      && HitsAt(origin, dir, center, scale, d)
      && (!HitsAt(origin, dir, center, scale, 0.0) ==> forall t :: HitsAt(origin, dir, center, scale, t) ==> d <= t)
      && (HitsAt(origin, dir, center, scale, 0.0) ==> forall t :: HitsAt(origin, dir, center, scale, t) ==> t <= d)
  {
    var s := Slabs(origin, dir, center, scale);
    HitsAtIffAhead(origin, dir, center, scale);
    DecideMeaning(s.value);
  }

  /** An infinite answer means every point of the ray from its origin on is
      in the box, and it happens only when all three direction components
      count as parallel. */
  lemma {:induction false} RayBoxInfiniteMeaning(origin: Vec3, dir: Vec3, center: Vec3, scale: Vec3)
    requires RayBoxIntersect(origin, dir, center, scale) == Some(PosInf)
    ensures forall t :: t >= 0.0 ==> HitsAt(origin, dir, center, scale, t)
    ensures Parallel(dir.x) && Parallel(dir.y) && Parallel(dir.z)
  {
    var s := Slabs(origin, dir, center, scale);
    HitsAtIffAhead(origin, dir, center, scale);
    DecideMeaning(s.value);
  }

  /** For rays clear of the near-parallel band and boxes of non-negative
      size, a miss means that no point of the ray on or in front of its
      origin lies in the box. */
  lemma RayBoxMissInBox(origin: Vec3, dir: Vec3, center: Vec3, scale: Vec3)
    requires ClearOfParallelBand(dir)
    requires scale.x >= 0.0 && scale.y >= 0.0 && scale.z >= 0.0
    ensures RayBoxIntersect(origin, dir, center, scale).None? <==>
      forall t :: t >= 0.0 ==> !InBoxAt(origin, dir, center, scale, t)
  {
    RayBoxMissMeaning(origin, dir, center, scale);
    forall t
      ensures HitsAt(origin, dir, center, scale, t) <==> t >= 0.0 && InBoxAt(origin, dir, center, scale, t)
    {
      HitsAtIsInBox(origin, dir, center, scale, t);
    }
  }

  /** Under the same conditions a finite answer is a point in the box: the
      nearest one when the origin is outside, the farthest when it is
      inside. */
  lemma RayBoxDistanceInBox(origin: Vec3, dir: Vec3, center: Vec3, scale: Vec3)
    requires ClearOfParallelBand(dir)
    requires scale.x >= 0.0 && scale.y >= 0.0 && scale.z >= 0.0
    requires RayBoxIntersect(origin, dir, center, scale).Some?
    requires RayBoxIntersect(origin, dir, center, scale).value.Fin?
    ensures var d := RayBoxIntersect(origin, dir, center, scale).value.v;
      && d >= 0.0 && InBoxAt(origin, dir, center, scale, d)
      && (!InBoxAt(origin, dir, center, scale, 0.0) ==>
            forall t :: t >= 0.0 && InBoxAt(origin, dir, center, scale, t) ==> d <= t)
      && (InBoxAt(origin, dir, center, scale, 0.0) ==>
            forall t :: t >= 0.0 && InBoxAt(origin, dir, center, scale, t) ==> t <= d)
  {
    RayBoxDistanceMeaning(origin, dir, center, scale);
    forall t
      ensures HitsAt(origin, dir, center, scale, t) <==> t >= 0.0 && InBoxAt(origin, dir, center, scale, t)
    {
      HitsAtIsInBox(origin, dir, center, scale, t);
    }
  }

  /** Sample rays against the unit box at the origin: along the Z axis from
      in front (the near face at distance 4.5), from the centre (the far
      face at 0.5), parallel to Z but beside the box (a miss), pointing away
      (a miss), and standing still inside the box (a hit at `Infinity`). */
  lemma RayBoxExamples()
    ensures RayBoxIntersect(Vec3(0.0, 0.0, -5.0), Vec3(0.0, 0.0, 1.0), Vec3(0.0, 0.0, 0.0), Vec3(1.0, 1.0, 1.0))
      == Some(Fin(4.5))
    ensures RayBoxIntersect(Vec3(0.0, 0.0, 0.0), Vec3(0.0, 0.0, 1.0), Vec3(0.0, 0.0, 0.0), Vec3(1.0, 1.0, 1.0))
      == Some(Fin(0.5))
    ensures RayBoxIntersect(Vec3(2.0, 0.0, -5.0), Vec3(0.0, 0.0, 1.0), Vec3(0.0, 0.0, 0.0), Vec3(1.0, 1.0, 1.0))
      == None
    ensures RayBoxIntersect(Vec3(0.0, 0.0, -5.0), Vec3(0.0, 0.0, -1.0), Vec3(0.0, 0.0, 0.0), Vec3(1.0, 1.0, 1.0))
      == None
    ensures RayBoxIntersect(Vec3(0.0, 0.0, 0.0), Vec3(0.0, 0.0, 0.0), Vec3(0.0, 0.0, 0.0), Vec3(1.0, 1.0, 1.0))
      == Some(PosInf)
  {
  }

  /** Inside the near-parallel band the slab rule and the box disagree: a
      ray whose `x` component is `0.00009` is treated as parallel to the `x`
      faces, and reported to hit the unit box at `4.5`, although it has
      drifted past the face `x == 0.5` long before any point of it reaches
      the box's `z` range. */
  lemma NearParallelFalseHit()
    ensures RayBoxIntersect(Vec3(0.4999, 0.0, -5.0), Vec3(0.00009, 0.0, 1.0), Vec3(0.0, 0.0, 0.0), Vec3(1.0, 1.0, 1.0))
      == Some(Fin(4.5))
    ensures forall t :: t >= 0.0 ==>
      !InBoxAt(Vec3(0.4999, 0.0, -5.0), Vec3(0.00009, 0.0, 1.0), Vec3(0.0, 0.0, 0.0), Vec3(1.0, 1.0, 1.0), t)
  {
  }
}
