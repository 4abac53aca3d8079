/** A truss member (member.py): its geometry, its section, and the failure
    check run once the solver has given it an axial force. */
module Members {
  import opened Common
  import opened CrossSection

  /** A joint as a member sees it: the node's index and position, none of
      which a node changes after it is created. */
  datatype Endpoint = Endpoint(index: nat, x: real, y: real)

  /** The vector from one joint to another. The source's orientation angle
      is atan2 of this vector. */
  function Direction(from: Endpoint, to: Endpoint): Vec2
  {
    Vec2(to.x - from.x, to.y - from.y)
  }

  /** The squared member length: pow(norm(i - j), 2). */
  function LengthSq(i: Endpoint, j: Endpoint): real
  {
    (i.x - j.x) * (i.x - j.x) + (i.y - j.y) * (i.y - j.y)
  }

  /** getAngle: the direction of a member with ends i and j, seen from the
      given joint; a joint that is neither end is an error. */
  function Heading(i: Endpoint, j: Endpoint, joint: nat): (r: Result<Vec2>)
    ensures r.Err? <==> joint != i.index && joint != j.index
    ensures r.Err? ==> r.error == NotConnected(joint)
  {
    if joint == i.index then Ok(Direction(i, j))
    else if joint == j.index then Ok(Direction(j, i))
    else Err(NotConnected(joint))
  }

  /** Seen from its other end a member points the opposite way. */
  lemma HeadingReversed(i: Endpoint, j: Endpoint)
    requires i.index != j.index
    ensures Heading(i, j, j.index) == Ok(Heading(i, j, i.index).value.Neg())
  {
  }

  /** The copy registered at the other endpoint (ends swapped) has the same
      length and gives the same direction from either joint. */
  lemma SwappedCopyAgrees(i: Endpoint, j: Endpoint, joint: nat)
    requires i.index != j.index
    ensures Heading(j, i, joint) == Heading(i, j, joint)
    ensures LengthSq(j, i) == LengthSq(i, j)
  {
  }

  /** A critical load as numpy computes it: a number, or the infinity or NaN
      that a division by a zero length gives. */
  datatype Critical = Finite(value: real) | PlusInfinity | MinusInfinity | NaN

  /** numpy's num / den for floats. */
  function Quotient(num: real, den: real): (r: Critical)
    ensures den != 0.0 ==> r == Finite(num / den)
    ensures den == 0.0 ==> (r == PlusInfinity <==> num > 0.0) && (r == MinusInfinity <==> num < 0.0)
  {
    if den != 0.0 then Finite(num / den)
    else if num > 0.0 then PlusInfinity
    else if num < 0.0 then MinusInfinity
    else NaN
  }

  /** abs(force) > critical under IEEE comparison rules. */
  function Exceeds(load: real, c: Critical): bool
  {
    match c
    case Finite(v) => load > v
    case PlusInfinity => false
    case MinusInfinity => true
    case NaN => false
  }

  /** Euler buckling load pi^2 * E * min(Ixx, Iyy) / L^2. */
  function BucklingLoad(s: Section, e: real, lengthSq: real): Critical
    requires WellFormed(s)
  {
    Quotient(Pi * Pi * e * Min(InertiaXX(s), InertiaYY(s)), lengthSq)
  }

  /** Yield load yield_strength * area. */
  function YieldLoad(s: Section, strength: real): Critical
  {
    Finite(strength * Area(s))
  }

  /** What fail() returns, and what it leaves in failure, for an axial
      force: compression is checked against buckling, tension against
      yielding, and a zero force returns the failure value already held. */
  function Verdict(force: real, s: Section, e: real, strength: real, lengthSq: real, prior: Option<bool>): Option<bool>
    requires WellFormed(s)
  {
    if force < 0.0 then Some(Exceeds(-force, BucklingLoad(s, e, lengthSq)))
    else if force > 0.0 then Some(Exceeds(force, YieldLoad(s, strength)))
    else prior
  }

  /** In compression a member of non-zero length fails exactly when the
      magnitude of the force is strictly above the Euler load. */
  lemma CompressionFailsIffAboveEuler(force: real, s: Section, e: real, strength: real, lengthSq: real, prior: Option<bool>)
    requires WellFormed(s) && force < 0.0 && lengthSq != 0.0
    ensures Verdict(force, s, e, strength, lengthSq, prior)
            == Some(-force > Pi * Pi * e * Min(InertiaXX(s), InertiaYY(s)) / lengthSq)
  {
  }

  /** In tension a member fails exactly when the force is strictly above
      yield strength times area. */
  lemma TensionFailsIffAboveYield(force: real, s: Section, e: real, strength: real, lengthSq: real, prior: Option<bool>)
    requires WellFormed(s) && force > 0.0
    ensures Verdict(force, s, e, strength, lengthSq, prior) == Some(force > strength * Area(s))
  {
  }

  /** A force exactly at the critical load passes. */
  lemma CriticalLoadPasses(s: Section, e: real, strength: real, lengthSq: real, prior: Option<bool>)
    requires WellFormed(s) && lengthSq != 0.0
    ensures var euler := Pi * Pi * e * Min(InertiaXX(s), InertiaYY(s)) / lengthSq;
            euler > 0.0 ==> Verdict(-euler, s, e, strength, lengthSq, prior) == Some(false)
    ensures var yieldLoad := strength * Area(s);
            yieldLoad > 0.0 ==> Verdict(yieldLoad, s, e, strength, lengthSq, prior) == Some(false)
  {
  }

  /** A zero force decides nothing: the result is the value held before, so
      on a member never checked it is None and never true. */
  lemma ZeroForceKeepsPrior(s: Section, e: real, strength: real, lengthSq: real, prior: Option<bool>)
    requires WellFormed(s)
    ensures Verdict(0.0, s, e, strength, lengthSq, prior) == prior
    ensures Verdict(0.0, s, e, strength, lengthSq, None) != Some(true)
  {
  }

  /** A zero-length member in compression has an infinite (or NaN) Euler
      load: it fails only when pi^2 * E * min(Ixx, Iyy) is negative. */
  lemma ZeroLengthCompression(force: real, s: Section, e: real, strength: real, prior: Option<bool>)
    requires WellFormed(s) && force < 0.0
    ensures Verdict(force, s, e, strength, 0.0, prior)
            == Some(Pi * Pi * e * Min(InertiaXX(s), InertiaYY(s)) < 0.0)
  {
  }

  /** Failure is monotone in the load: a member that fails under a force
      also fails under any larger force of the same sign. */
  lemma FailureMonotone(f1: real, f2: real, s: Section, e: real, strength: real, lengthSq: real, prior: Option<bool>)
    requires WellFormed(s)
    requires (f2 <= f1 < 0.0) || (0.0 < f1 <= f2)
    requires Verdict(f1, s, e, strength, lengthSq, prior) == Some(true)
    ensures Verdict(f2, s, e, strength, lengthSq, prior) == Some(true)
  {
  }

  /** Checking twice with the same force gives the same answer as checking
      once: fail() leaves in failure exactly what it returns. */
  lemma VerdictIdempotent(force: real, s: Section, e: real, strength: real, lengthSq: real, prior: Option<bool>)
    requires WellFormed(s)
    ensures var once := Verdict(force, s, e, strength, lengthSq, prior);
            Verdict(force, s, e, strength, lengthSq, once) == once
  {
  }

  class Member {
    const memberIndex: nat
    const nodeI: Endpoint
    const nodeJ: Endpoint
    const section: Section
    const eModule: real
    const yieldStrength: real
    /** The square of _length, fixed at construction. */
    const lengthSq: real
    /** _angle, kept as the vector it is the atan2 of. */
    var heading: Vec2
    var area: real
    var inertiaXX: real
    var inertiaYY: real
    var externalForce: Option<real>
    var failure: Option<bool>
    var buckling: Option<bool>
    var yielding: Option<bool>
    var criticalForce: Option<Critical>

    /** The section is buildable and its derived values are cached. */
    ghost predicate Valid()
      reads this`area, this`inertiaXX, this`inertiaYY
    {
      WellFormed(section)
      && lengthSq == LengthSq(nodeI, nodeJ)
      && area == Area(section)
      && inertiaXX == InertiaXX(section)
      && inertiaYY == InertiaYY(section)
    }

    /** The shared constructor followed by the shape's getI and getA. */
    constructor (index: nat, i: Endpoint, j: Endpoint, s: Section, e: real, strength: real)
      requires WellFormed(s)
      ensures Valid()
      ensures memberIndex == index && nodeI == i && nodeJ == j && section == s
      ensures eModule == e && yieldStrength == strength
      ensures lengthSq == LengthSq(i, j) && heading == Direction(i, j)
      ensures externalForce == None && failure == None
      ensures buckling == None && yielding == None && criticalForce == None
    {
      memberIndex, nodeI, nodeJ, section := index, i, j, s;
      eModule, yieldStrength := e, strength;
      lengthSq := LengthSq(i, j);
      heading := Direction(i, j);
      externalForce, failure := None, None;
      buckling, yielding, criticalForce := None, None, None;
      new;
      var _, _ := GetI();
      var _ := GetA();
    }

    /** getA: computes and stores the cross-sectional area. */
    method GetA() returns (a: real)
      modifies this`area
      ensures a == area == Area(section)
    {
      area := Area(section);
      a := area;
    }

    /** getI: computes and stores both second moments of area. */
    method GetI() returns (ixx: real, iyy: real)
      requires WellFormed(section)
      modifies this`inertiaXX, this`inertiaYY
      ensures ixx == inertiaXX == InertiaXX(section)
      ensures iyy == inertiaYY == InertiaYY(section)
    {
      inertiaXX := InertiaXX(section);
      inertiaYY := InertiaYY(section);
      ixx, iyy := inertiaXX, inertiaYY;
    }

    /** getAngle: the orientation seen from a joint, also stored in _angle. */
    method GetAngle(joint: nat) returns (r: Result<Vec2>)
      modifies this`heading
      ensures r == Heading(nodeI, nodeJ, joint)
      ensures heading == if r.Ok? then r.value else old(heading)
    {
      if joint == nodeI.index {
        heading := Direction(nodeI, nodeJ);
      } else if joint == nodeJ.index {
        heading := Direction(nodeJ, nodeI);
      } else {
        return Err(NotConnected(joint));
      }
      r := Ok(heading);
    }

    /** fail: checks the member under its axial force and records the outcome. */
    method Fail() returns (res: Option<bool>)
      requires Valid() && externalForce.Some?
      modifies this`failure, this`buckling, this`yielding, this`criticalForce
      ensures res == failure
              == Verdict(externalForce.value, section, eModule, yieldStrength, lengthSq, old(failure))
      ensures var f := externalForce.value;
              && (f < 0.0 ==> criticalForce == Some(BucklingLoad(section, eModule, lengthSq))
                              && buckling == (if res == Some(true) then Some(true) else old(buckling))
                              && yielding == old(yielding))
              && (f > 0.0 ==> criticalForce == Some(YieldLoad(section, yieldStrength))
                              && yielding == (if res == Some(true) then Some(true) else old(yielding))
                              && buckling == old(buckling))
              && (f == 0.0 ==> criticalForce == old(criticalForce)
                               && buckling == Some(false) && yielding == Some(false))
    {
      var force := externalForce.value;
      if force < 0.0 {
        var critical := BucklingLoad(section, eModule, lengthSq);
        criticalForce := Some(critical);
        if Exceeds(-force, critical) {
          buckling := Some(true);
          failure := Some(true);
          return failure;
        } else {
          failure := Some(false);
          return Some(false);
        }
      } else if force > 0.0 {
        var critical := YieldLoad(section, yieldStrength);
        criticalForce := Some(critical);
        if Exceeds(force, critical) {
          yielding := Some(true);
          failure := Some(true);
          return failure;
        } else {
          failure := Some(false);
          return Some(false);
        }
      } else {
        buckling := Some(false);
        yielding := Some(false);
        return failure;
      }
    }
  }
}
