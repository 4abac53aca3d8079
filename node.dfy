/** A joint of the truss (node.py): its support, the members attached to it,
    the external load on it, and its local equilibrium equations. */
module Nodes {
  import opened Common
  import opened CrossSection
  import opened Members

  /** The support type of a node, from its type tag. */
  datatype Support = Fixed | Loose | Free | Unsupported(tag: string)

  function SupportOf(tag: string): (s: Support)
    ensures s == Fixed <==> tag == "Fixed"
    ensures s == Loose <==> tag == "Loose"
    ensures s == Free <==> tag == "Free"
    ensures s.Unsupported? <==> tag != "Fixed" && tag != "Loose" && tag != "Free"
  {
    if tag == "Fixed" then Fixed
    else if tag == "Loose" then Loose
    else if tag == "Free" then Free
    else Unsupported(tag)
  }

  /** The number of reaction unknowns a support contributes. */
  function Reactions(s: Support): nat
  {
    match s
    case Fixed => 2
    case Loose => 1
    case _ => 0
  }

  function Radians(degrees: real): real
  {
    degrees * Pi / 180.0
  }

  /** The load components of a force of the given amplitude at an angle in degrees. */
  function ForceComponents(num: Numerics, amp: real, degrees: real): Vec2
  {
    Vec2(amp * num.cos(Radians(degrees)), amp * num.sin(Radians(degrees)))
  }

  /** The coefficients of a member force in the node's equations: the cosine
      and sine of the member's orientation. */
  function MemberColumn(num: Numerics, direction: Vec2): Vec2
  {
    var theta := num.atan2(direction.y, direction.x);
    Vec2(num.cos(theta), num.sin(theta))
  }

  /** Every member in the list has the joint as one of its ends. */
  predicate Attached(ms: seq<Member>, joint: nat)
  {
    forall k :: 0 <= k < |ms| ==> Heading(ms[k].nodeI, ms[k].nodeJ, joint).Ok?
  }

  /** The member coefficient columns of a node, one per attached member, in list order. */
  function MemberColumns(num: Numerics, ms: seq<Member>, joint: nat): (cols: seq<Vec2>)
    requires Attached(ms, joint)
    ensures |cols| == |ms|
    ensures forall k :: 0 <= k < |ms| ==>
              cols[k] == MemberColumn(num, Heading(ms[k].nodeI, ms[k].nodeJ, joint).value)
  {
    seq(|ms|, k requires 0 <= k < |ms| => MemberColumn(num, Heading(ms[k].nodeI, ms[k].nodeJ, joint).value))
  }

  /** The member indices of a list of members, in list order. */
  function Indices(ms: seq<Member>): (r: seq<nat>)
    ensures |r| == |ms| && forall k {:trigger r[k]} :: 0 <= k < |ms| ==> r[k] == ms[k].memberIndex
  {
    seq(|ms|, k requires 0 <= k < |ms| => ms[k].memberIndex)
  }

  /** The reaction block r after the member loop has run `count` times: it is
      only assigned inside that loop, so it stays None on a node without
      members; otherwise the identity for a fixed support, the direction
      perpendicular to the inclination for a loose one, and None for a free
      one. */
  function ReactionBlock(num: Numerics, s: Support, inclination: real, count: nat): (r: Option<seq<Vec2>>)
    ensures r.Some? <==> Reactions(s) > 0 && count > 0
    ensures r.Some? ==> |r.value| == Reactions(s)
  {
    if count == 0 then None
    else match s
      case Fixed => Some([Vec2(1.0, 0.0), Vec2(0.0, 1.0)])
      case Loose => Some([Vec2(num.cos(inclination + Pi / 2.0), num.sin(inclination + Pi / 2.0))])
      case _ => None
  }

  /** A fixed support's block is the 2x2 identity; a loose support's single
      column is the inclination turned by a right angle. */
  lemma ReactionBlockShapes(num: Numerics, inclination: real, count: nat)
    requires count > 0
    ensures ReactionBlock(num, Fixed, inclination, count) == Some([Vec2(1.0, 0.0), Vec2(0.0, 1.0)])
    ensures ReactionBlock(num, Loose, inclination, count)
            == Some([Vec2(num.cos(inclination + Pi / 2.0), num.sin(inclination + Pi / 2.0))])
    ensures ReactionBlock(num, Free, inclination, count) == None
  {
  }

  /** The local equations m F' + f' = 0 of one node, as values: the member
      indices of its columns, the member coefficient columns, the reaction
      block and the load. */
  datatype LocalEquations = LocalEquations(
    support: Support,
    indices: seq<nat>,
    columns: seq<Vec2>,
    reactions: Option<seq<Vec2>>,
    load: Vec2)
  {
    /** One column per member, and a reaction block of its support's width. */
    predicate WellShaped()
    {
      |indices| == |columns|
      && (reactions.Some? ==> |reactions.value| == Reactions(support))
    }
  }

  class Node {
    const index: nat
    /** The type tag as given: Fixed, Loose or Free. */
    const kind: string
    /** The support inclination, in radians. */
    const angle: real
    const x: real
    const y: real
    var members: seq<Member>
    var fx: real
    var fy: real
    var n: nat
    var m: array2<real>
    var r: Option<seq<Vec2>>
    var f: Vec2

    function Support(): Support
    {
      SupportOf(kind)
    }

    function AsEndpoint(): Endpoint
    {
      Endpoint(index, x, y)
    }

    /** A node with no members and no load; the inclination is given in degrees. */
    constructor (nodeIndex: nat, nodeType: string, x0: real, y0: real, inclination: real)
      ensures index == nodeIndex && kind == nodeType && x == x0 && y == y0
      ensures angle == Radians(inclination)
      ensures members == [] && fx == 0.0 && fy == 0.0
    {
      index, kind, x, y := nodeIndex, nodeType, x0, y0;
      angle := Radians(inclination);
      members := [];
      fx, fy := 0.0, 0.0;
      n := 0;
      m := new real[2, 0];
      r := None;
      f := Vec2(0.0, 0.0);
    }

    /** add_member: builds the member for the shape tag and appends it; an
        unknown tag or unusable dimensions leave the member list unchanged. */
    method AddMember(memberIndex: nat, nodeI: Node, nodeJ: Node, shape: string, dims: seq<real>, e: real, strength: real)
      returns (err: Option<Error>)
      modifies this`members
      ensures SectionOf(shape, dims).Err? ==> err == Some(SectionOf(shape, dims).error) && members == old(members)
      ensures SectionOf(shape, dims).Ok? ==>
                err == None
                && |members| == |old(members)| + 1
                && members == old(members) + [members[|old(members)|]]
                && fresh(members[|old(members)|])
                && Registered(members[|old(members)|], memberIndex, nodeI, nodeJ, SectionOf(shape, dims).value, e, strength)
    {
      var s := SectionOf(shape, dims);
      if s.Err? {
        return Some(s.error);
      }
      var member := new Member(memberIndex, nodeI.AsEndpoint(), nodeJ.AsEndpoint(), s.value, e, strength);
      members := members + [member];
      err := None;
    }

    /** add_force: overwrites the load, so only the last call counts. */
    method AddForce(num: Numerics, amp: real, degrees: real)
      modifies this`fx, this`fy
      ensures Vec2(fx, fy) == ForceComponents(num, amp, degrees)
    {
      var load := ForceComponents(num, amp, degrees);
      fx := load.x;
      fy := load.y;
    }

    /** The node's equations as they stand in its fields. */
    function Equations(): LocalEquations
      reads this, m
      requires m.Length0 == 2 && m.Length1 == |members|
    {
      var a := m;
      LocalEquations(
        Support(),
        Indices(members),
        seq(|members|, k requires 0 <= k < a.Length1 && a.Length0 == 2 reads a => Vec2(a[0, k], a[1, k])),
        r,
        f)
    }

    /** buildForceEquations: fills one coefficient column per member, sets
        the reaction block for the support and the load vector. An unknown
        support type, or a member that does not end at this node, is an
        error. */
    method BuildForceEquations(num: Numerics) returns (err: Option<Error>)
      modifies this`n, this`m, this`r, this`f, members`heading
      ensures n == |members| && fresh(m) && m.Length0 == 2 && m.Length1 == n
      ensures f == Vec2(fx, fy)
      ensures Support().Unsupported? ==> err == Some(WrongNodeType)
      ensures !Support().Unsupported? ==>
                (err.None? <==> Attached(members, index))
                && (err.Some? ==> err == Some(NotConnected(index)))
      ensures err.None? ==> Equations() == ExpectedEquations(num, this, members, Vec2(fx, fy))
      ensures err.None? ==> forall k :: 0 <= k < |members| ==>
                members[k].heading == Heading(members[k].nodeI, members[k].nodeJ, index).value
    {
      n := |members|;
      m := new real[2, n];
      r := None;
      f := Vec2(fx, fy);
      var support := Support();
      if support.Unsupported? {
        return Some(WrongNodeType);
      }
      err := FillColumns(num);
      if err.None? {
        assert Equations().columns == MemberColumns(num, members, index);
      }
    }

    /** One pass of the member loop: column c of m from the orientation of
        member c, and r assigned as on every pass. */
    method FillColumn(num: Numerics, c: nat, support: Support) returns (err: Option<Error>)
      requires c < |members| && m.Length0 == 2 && m.Length1 == |members| && support == Support()
      requires r == ReactionBlock(num, support, angle, c)
      modifies m, this`r, members`heading
      ensures Heading(members[c].nodeI, members[c].nodeJ, index).Err? ==> err == Some(NotConnected(index))
      ensures Heading(members[c].nodeI, members[c].nodeJ, index).Ok? ==>
                err == None && r == ReactionBlock(num, support, angle, c + 1)
                && Vec2(m[0, c], m[1, c]) == MemberColumn(num, Heading(members[c].nodeI, members[c].nodeJ, index).value)
                && members[c].heading == Heading(members[c].nodeI, members[c].nodeJ, index).value
      ensures forall k :: 0 <= k < |members| && k != c ==> m[0, k] == old(m[0, k]) && m[1, k] == old(m[1, k])
      ensures forall k :: 0 <= k < |members| && members[k] != members[c] ==> members[k].heading == old(members[k].heading)
    {
      // the cosine and the sine are each taken from their own getAngle call
      var forCos := members[c].GetAngle(index);
      if forCos.Err? {
        return Some(forCos.error);
      }
      var forSin := members[c].GetAngle(index);
      m[0, c] := MemberColumn(num, forCos.value).x;
      m[1, c] := MemberColumn(num, forSin.value).y;
      if support.Fixed? {
        r := Some([Vec2(1.0, 0.0), Vec2(0.0, 1.0)]);
      } else if support.Loose? {
        r := Some([Vec2(num.cos(angle + Pi / 2.0), num.sin(angle + Pi / 2.0))]);
      }
      err := None;
    }

    /** The member loop of buildForceEquations: for each member in list
        order, its orientation from this node gives column c of m; r is
        assigned on every pass. */
    method FillColumns(num: Numerics) returns (err: Option<Error>)
      requires m.Length0 == 2 && m.Length1 == |members| && r == None && !Support().Unsupported?
      modifies m, this`r, members`heading
      ensures (err.None? <==> Attached(members, index)) && (err.Some? ==> err == Some(NotConnected(index)))
      ensures err.None? ==> r == ReactionBlock(num, Support(), angle, |members|)
      ensures err.None? ==> forall k :: 0 <= k < |members| ==>
                Vec2(m[0, k], m[1, k]) == MemberColumn(num, Heading(members[k].nodeI, members[k].nodeJ, index).value)
      ensures err.None? ==> forall k :: 0 <= k < |members| ==>
                members[k].heading == Heading(members[k].nodeI, members[k].nodeJ, index).value
    {
      var support := Support();
      var c := 0;
      while c < |members|
        invariant 0 <= c <= |members|
        invariant forall k :: 0 <= k < c ==> Heading(members[k].nodeI, members[k].nodeJ, index).Ok?
        invariant forall k :: 0 <= k < c ==>
                    Vec2(m[0, k], m[1, k]) == MemberColumn(num, Heading(members[k].nodeI, members[k].nodeJ, index).value)
        invariant forall k :: 0 <= k < c ==>
                    members[k].heading == Heading(members[k].nodeI, members[k].nodeJ, index).value
        invariant r == ReactionBlock(num, support, angle, c)
      {
        err := FillColumn(num, c, support);
        if err.Some? {
          return;
        }
        c := c + 1;
      }
      err := None;
    }
  }

  /** The equations buildForceEquations gives a node with the given member
      list and load: its support, the member indices and coefficient columns
      in list order, the reaction block and the load. */
  function ExpectedEquations(num: Numerics, node: Node, members: seq<Member>, load: Vec2): (eq: LocalEquations)
    requires Attached(members, node.index)
    ensures eq.WellShaped()
  {
    LocalEquations(
      node.Support(),
      Indices(members),
      MemberColumns(num, members, node.index),
      ReactionBlock(num, node.Support(), node.angle, |members|),
      load)
  }

  /** A member freshly built by add_member for the given endpoints and section. */
  ghost predicate Registered(member: Member, memberIndex: nat, nodeI: Node, nodeJ: Node, s: Section, e: real, strength: real)
    reads member
  {
    member.Valid()
    && member.memberIndex == memberIndex
    && member.nodeI == nodeI.AsEndpoint() && member.nodeJ == nodeJ.AsEndpoint()
    && member.section == s && member.eModule == e && member.yieldStrength == strength
    && member.externalForce == None && member.failure == None
  }
}
