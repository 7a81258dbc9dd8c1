/**
 * The cube's orientation in app.js: the six-way section-to-angle tables, the
 * cube pose, the cubic ease-out and the sampling done by one tween of
 * `rotateTo`. Every angle in the tables is a multiple of π/2, so a pose is
 * held exactly as quarter turns about x, y and z. Quaternion interpolation is
 * kept uninterpreted: a sample is recorded as the term `Slerp(start, target, t)`.
 */
module Orientation {
  import opened Wrappers

  /** The six resume sections, in the order of the cube's materials (`faceData`). */
  datatype Section = Profile | Skills | Experience | Projects | Education | Contact

  /** A `data-face` value: a non-empty word of lower-case ASCII letters. */
  predicate LowerWord(k: string)
  {
    |k| > 0 && forall i :: 0 <= i < |k| ==> 'a' <= k[i] <= 'z'
  }

  /** The `faceKey` of a section's entry in `faceData`. */
  function Key(s: Section): (k: string)
    ensures LowerWord(k)
  {
    match s
    case Profile => "profile"
    case Skills => "skills"
    case Experience => "experience"
    case Projects => "projects"
    case Education => "education"
    case Contact => "contact"
  }

  /** The six cases of the `switch (faceKey)` statements, in their order. */
  const Sections: seq<Section> := [Profile, Skills, Experience, Projects, Education, Contact]

  /** The first case of `table` whose key is `key`, as a `switch` tries its cases in turn. */
  function Find(key: string, table: seq<Section>): Option<Section>
  {
    if table == [] then None
    else if Key(table[0]) == key then Some(table[0])
    else Find(key, table[1..])
  }

  /** The section whose panel a key renders (the switch that calls `sectionProfile` and the others). */
  function SectionOf(key: string): (r: Option<Section>)
    ensures r.Some? ==> Key(r.value) == key
  {
    FindSpec(key, Sections);
    Find(key, Sections)
  }

  /** `Find` answers a case of the table whose key is `key`, and nothing only when no case has that key. */
  lemma {:induction false} FindSpec(key: string, table: seq<Section>)
    ensures Find(key, table).Some? ==> Find(key, table).value in table && Key(Find(key, table).value) == key
    ensures Find(key, table).None? ==> forall t :: t in table ==> Key(t) != key
  {
    if table != [] && Key(table[0]) != key {
      FindSpec(key, table[1..]);
    }
  }

  /** The table holds every section. */
  lemma EverySection(t: Section)
    ensures t in Sections
  {
    assert Sections[5] == Contact;
  }

  /** Distinct sections have distinct keys. */
  lemma KeyInjective(s: Section, t: Section)
    requires s != t
    ensures Key(s) != Key(t)
  {
  }

  /** A table case's key finds that case. */
  lemma {:induction false} FindKey(s: Section, table: seq<Section>)
    requires s in table
    ensures Find(Key(s), table) == Some(s)
  {
    if table[0] != s {
      KeyInjective(table[0], s);
      FindKey(s, table[1..]);
    }
  }

  /** A key renders a section exactly when it is that section's `faceKey`. */
  lemma SectionOfSpec(key: string)
    ensures SectionOf(key).Some? ==> Key(SectionOf(key).value) == key
    ensures SectionOf(key).None? ==> forall t :: Key(t) != key
  {
    FindSpec(key, Sections);
    if SectionOf(key).None? {
      forall t ensures Key(t) != key {
        EverySection(t);
      }
    }
  }

  /** Every face's key names that face's section: `Key` and `SectionOf` are inverse. */
  lemma SectionOfKey(s: Section)
    ensures SectionOf(Key(s)) == Some(s)
  {
    EverySection(s);
    FindKey(s, Sections);
  }

  /** Euler angles in quarter turns: `Pose(x, y, z)` is the rotation `(x·π/2, y·π/2, z·π/2)`. */
  datatype Pose = Pose(x: int, y: int, z: int)

  /** At most one axis turns, so the Euler order (`'YXZ'` or `'XYZ'`) does not change the rotation. */
  predicate SingleAxis(p: Pose)
  {
    (p.x == 0 && p.y == 0) || (p.y == 0 && p.z == 0) || (p.x == 0 && p.z == 0)
  }

  /** The angles each case of the `rotateTo` switch gives its target. */
  function TargetOf(s: Section): (p: Pose)
    ensures SingleAxis(p)
    ensures p == Pose(0, 0, 0) <==> s == Profile
  {
    match s
    case Profile => Pose(0, 0, 0)
    case Skills => Pose(0, 2, 0)
    case Experience => Pose(-1, 0, 0)
    case Projects => Pose(1, 0, 0)
    case Education => Pose(0, 1, 0)
    case Contact => Pose(0, -1, 0)
  }

  /**
   * The target angles of `rotateTo`: the case's angles for one of the six
   * keys, and the profile pose `(0, 0, 0)` of the default branch for any other.
   */
  function RotateTarget(key: string): (p: Pose)
    ensures SingleAxis(p)
    ensures SectionOf(key).None? ==> p == Pose(0, 0, 0)
    ensures p == Pose(0, 0, 0) <==> SectionOf(key).None? || SectionOf(key) == Some(Profile)
  {
    match SectionOf(key)
    case Some(s) => TargetOf(s)
    case None => Pose(0, 0, 0)
  }

  /** The six section keys have six pairwise distinct target poses. */
  lemma TargetsDistinct(s: Section, t: Section)
    requires s != t
    ensures RotateTarget(Key(s)) != RotateTarget(Key(t))
  {
    SectionOfKey(s);
    SectionOfKey(t);
  }

  /** The angles each case of the navigation buttons' switch sets on `cube.rotation`. */
  function NavAngles(s: Section): (p: Pose)
    ensures p == TargetOf(s)
  {
    match s
    case Profile => Pose(0, 0, 0)
    case Skills => Pose(0, 2, 0)
    case Experience => Pose(-1, 0, 0)
    case Projects => Pose(1, 0, 0)
    case Education => Pose(0, 1, 0)
    case Contact => Pose(0, -1, 0)
  }

  /**
   * The angles a navigation button sets directly on `cube.rotation`: the
   * case's angles for each of the six keys, and nothing (the pose is left as
   * it is) for any other key, since this switch has no default branch.
   */
  function NavTarget(key: string): (r: Option<Pose>)
    ensures r.Some? <==> SectionOf(key).Some?
    ensures r.Some? ==> r.value == RotateTarget(key)
  {
    match SectionOf(key)
    case Some(s) => Some(NavAngles(s))
    case None => None
  }

  /**
   * The cube's orientation, by the way it was last written.
   * `Euler(p)`: `cube.rotation` was set to the angles `p`.
   * `Quaternion(p)`: `cube.quaternion` was copied from the target quaternion of
   * the Euler angles `p`; the engine re-derives `cube.rotation` from it.
   * `Slerp(start, target, t)`: `slerpQuaternions(start, target, t)`, uninterpreted.
   * `SpunY(o)`: `cube.rotation.y += π/2` applied to an orientation `o` whose
   * Euler angles the engine derived.
   * `Drifted(o)`: `cube.rotation.y += 0.01 * rotationSpeed` applied to `o`.
   */
  datatype Orientation =
    | Euler(angles: Pose)
    | Quaternion(target: Pose)
    | Slerp(start: Orientation, goal: Pose, eased: real)
    | SpunY(base: Orientation)
    | Drifted(base: Orientation)

  /** `cube.rotation.y += Math.PI / 2`: on known Euler angles, exactly one more quarter turn about y. */
  function SpinY(o: Orientation): (r: Orientation)
    ensures o.Euler? ==> r == Euler(Pose(o.angles.x, o.angles.y + 1, o.angles.z))
    ensures !o.Euler? ==> r == SpunY(o)
    ensures r != o
  {
    match o
    case Euler(p) => Euler(Pose(p.x, p.y + 1, p.z))
    case _ => NotOwnBase(o); SpunY(o)
  }

  lemma {:induction false} NotOwnBase(o: Orientation)
    ensures SpunY(o) != o
  {
    if o.SpunY? {
      NotOwnBase(o.base);
    }
  }

  /** The tween duration of `rotateTo`, in milliseconds. */
  const Duration: real := 1000.0

  /** The cubic ease-out `1 - (1 - t)^3`. */
  function Ease(t: real): (e: real)
    ensures t == 0.0 ==> e == 0.0
    ensures t == 1.0 ==> e == 1.0
  {
    1.0 - (1.0 - t) * (1.0 - t) * (1.0 - t)
  }

  lemma PositiveProduct(p: real, q: real)
    requires p > 0.0 && q > 0.0
    ensures p * q > 0.0
  {
  }

  lemma CubeStrictlyIncreasing(a: real, b: real)
    requires 0.0 <= a < b
    ensures a * a * a < b * b * b
  {
    assert a * a <= a * b by {
      assert a * (b - a) >= 0.0;
    }
    assert a * b < b * b by {
      assert b * (b - a) > 0.0;
    }
    assert a * a * a <= a * a * b by {
      assert (a * a) * (b - a) >= 0.0;
    }
    assert a * a * b < b * b * b by {
      assert b * b - a * a == (b - a) * (b + a);
      PositiveProduct(b - a, b + a);
      PositiveProduct(b * b - a * a, b);
    }
  }

  /** On `[0, 1)` the eased progress starts at 0, stays in `[0, 1)` and strictly increases. */
  lemma EaseShape(s: real, t: real)
    requires 0.0 <= s < t < 1.0
    ensures Ease(0.0) == 0.0
    ensures 0.0 <= Ease(s) < Ease(t) < 1.0
  {
    CubeStrictlyIncreasing(1.0 - t, 1.0 - s);
    CubeStrictlyIncreasing(0.0, 1.0 - t);
    assert 1.0 - s <= 1.0;
    assert (1.0 - s) * (1.0 - s) * (1.0 - s) <= 1.0 by {
      if s > 0.0 {
        CubeStrictlyIncreasing(1.0 - s, 1.0);
      }
    }
  }

  /** The eased progress at a single instant of `[0, 1)` lies in `[0, 1)`. */
  lemma EaseBounds(t: real)
    requires 0.0 <= t < 1.0
    ensures 0.0 <= Ease(t) < 1.0
  {
    EaseShape(t, (t + 1.0) / 2.0);
  }

  /** One started tween: the pose copied at the start, the target angles and the start time `t0`. */
  datatype Tween = Tween(start: Orientation, target: Pose, t0: real)

  /** What one call of the tween's `animate` writes, and whether it requests another frame. */
  datatype Frame = Frame(pose: Orientation, again: bool)

  /**
   * One call of `animate` at clock reading `now`: while `t = (now - t0) / 1000`
   * is below 1 the cube gets the slerp at eased progress `Ease(t)`, which lies
   * in `[0, 1)`, and another frame is requested; once `t >= 1` the target is
   * copied exactly and the loop stops.
   */
  function Sample(tw: Tween, now: real): (f: Frame)
    requires tw.t0 <= now
    ensures f.again <==> now - tw.t0 < Duration
    ensures !f.again ==> f.pose == Quaternion(tw.target)
    ensures f.again ==> f.pose.Slerp? && f.pose.start == tw.start && f.pose.goal == tw.target
    ensures f.again ==> 0.0 <= f.pose.eased < 1.0
    ensures now == tw.t0 ==> f.pose == Slerp(tw.start, tw.target, 0.0)
  {
    var t := (now - tw.t0) / Duration;
    if t >= 1.0 then
      Frame(Quaternion(tw.target), false)
    else
      EaseBounds(t);
      Frame(Slerp(tw.start, tw.target, Ease(t)), true)
  }

  /** Two samples of the same running tween: the later one is strictly further along. */
  lemma SampleProgresses(tw: Tween, a: real, b: real)
    requires tw.t0 <= a < b
    requires Sample(tw, b).again
    ensures Sample(tw, a).again
    ensures Sample(tw, a).pose.eased < Sample(tw, b).pose.eased
  {
    var s := (a - tw.t0) / Duration;
    var t := (b - tw.t0) / Duration;
    assert s < t;
    EaseShape(s, t);
  }

  /** Once a tween has stopped, every later sample is the exact target too. */
  lemma SampleSettles(tw: Tween, a: real, b: real)
    requires tw.t0 <= a <= b
    requires !Sample(tw, a).again
    ensures Sample(tw, b) == Frame(Quaternion(tw.target), false)
  {
  }
}
