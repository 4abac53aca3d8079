/** What run() returns for a file the reader accepts, stated on values: the
    node equations each node of the table gets, the square system they
    assemble into, the pseudoinverse solution and the failure list, or the
    error the solver raises first. */
module Solution {
  import opened Common
  import opened CrossSection
  import opened Members
  import opened Nodes
  import opened Trusses
  import opened Reader

  /** A member as a value: everything about it that never changes. */
  function ViewOf(m: Member): MemberView
  {
    MemberView(m.memberIndex, m.nodeI, m.nodeJ, m.section, m.eModule, m.yieldStrength)
  }

  function Views(ms: seq<Member>): (vs: seq<MemberView>)
    ensures |vs| == |ms| && forall j {:trigger vs[j]} :: 0 <= j < |ms| ==> vs[j] == ViewOf(ms[j])
  {
    seq(|ms|, j requires 0 <= j < |ms| => ViewOf(ms[j]))
  }

  /** The support of each node of the table, in table order. */
  function Kinds(table: seq<Entry>): (ss: seq<Support>)
    ensures |ss| == |table| && forall k {:trigger ss[k]} :: 0 <= k < |table| ==> ss[k] == SupportOf(table[k].record.kind)
  {
    seq(|table|, k requires 0 <= k < |table| => SupportOf(table[k].record.kind))
  }

  /** Some node has a type other than Fixed, Loose and Free. */
  predicate HasUnknownSupport(table: seq<Entry>)
  {
    exists k :: 0 <= k < |table| && SupportOf(table[k].record.kind).Unsupported?
  }

  /** The equations buildForceEquations gives node k of the table: one
      column per registered member, pointing from the node to the member's
      other end, the reaction block of its support and its load. */
  function EquationsAt(num: Numerics, input: Input, k: nat): (eq: LocalEquations)
    requires input.Consistent() && k < |input.table|
    ensures eq.WellShaped() && eq.support == SupportOf(input.table[k].record.kind)
  {
    var regs := Registrations(input.links, Endpoints(input.table), k);
    var support := SupportOf(input.table[k].record.kind);
    LocalEquations(
      support,
      seq(|regs|, j requires 0 <= j < |regs| => regs[j].index),
      seq(|regs|, j requires 0 <= j < |regs| => MemberColumn(num, Direction(regs[j].near, regs[j].far))),
      ReactionBlock(num, support, Radians(input.table[k].record.angle), |regs|),
      LoadAt(num, input.forces, k))
  }

  function InputEquations(num: Numerics, input: Input): (eqs: seq<LocalEquations>)
    requires input.Consistent()
    ensures |eqs| == |input.table| && AllWellShaped(eqs) && Supports(eqs) == Kinds(input.table)
    ensures forall k {:trigger eqs[k]} :: 0 <= k < |input.table| ==> eqs[k] == EquationsAt(num, input, k)
  {
    seq(|input.table|, k requires 0 <= k < |input.table| => EquationsAt(num, input, k))
  }

  /** The rows of A, 2N by 2N. */
  function SystemRows(eqs: seq<LocalEquations>, count: nat): (rows: seq<seq<real>>)
    requires AllWellShaped(eqs)
    ensures |rows| == 2 * |eqs| && forall row :: 0 <= row < 2 * |eqs| ==> |rows[row]| == 2 * |eqs|
  {
    seq(2 * |eqs|, row requires 0 <= row < 2 * |eqs| =>
      seq(2 * |eqs|, c requires 0 <= c < 2 * |eqs| => RowCell(eqs, count, row, c)))
  }

  /** The load vector f, 2N long. */
  function SystemLoad(eqs: seq<LocalEquations>): (f: seq<real>)
    ensures |f| == 2 * |eqs|
  {
    seq(2 * |eqs|, row requires 0 <= row < 2 * |eqs| => RowLoad(eqs, row))
  }

  /** The members of the nodes, node by node in table order, each node's in
      the order they were registered. */
  function AllRegistrations(links: seq<Link>, eps: seq<Endpoint>, k: nat): (all: seq<MemberView>)
    requires LinksWithin(links, |eps|) && k <= |eps|
    ensures forall t :: 0 <= t < |all| ==> all[t].index < |links| && WellFormed(all[t].section)
    decreases |eps| - k
  {
    if k == |eps| then [] else Registrations(links, eps, k) + AllRegistrations(links, eps, k + 1)
  }

  /** A member not yet checked, as the routing loop meets it. */
  function VisitOfView(v: MemberView): Visit
  {
    Visit(v.index, v.section, v.e, v.strength, LengthSq(v.near, v.far), None)
  }

  /** The visits of the routing loop on a freshly read truss. */
  function InputVisits(input: Input): (vs: seq<Visit>)
    requires input.Consistent()
    ensures Checkable(vs)
  {
    var all := AllRegistrations(input.links, Endpoints(input.table), 0);
    seq(|all|, t requires 0 <= t < |all| => VisitOfView(all[t]))
  }

  /** What solveForceEquations leaves for run() to return on a file the
      reader accepts: an unknown node type first, then a system that is not
      square, then a node the assembly cannot place; otherwise the solution
      of A F = -f and the failure list. */
  function Answer(num: Numerics, input: Input): (r: Result<(seq<real>, seq<Option<bool>>)>)
    requires SolveKeepsLength(num) && input.Consistent()
  {
    if HasUnknownSupport(input.table) then Err(WrongNodeType)
    else
      var eqs := InputEquations(num, input);
      var size := 2 * |input.table|;
      if size != |input.links| + Offset(Supports(eqs)) then Err(NotDeterministic)
      else
        match FirstFault(Faults(eqs, size))
        case Some(e) => Err(e)
        case None =>
          var x := num.solve(SystemRows(eqs, |input.links|), Negated(SystemLoad(eqs)));
          Ok((x, FailureList(InputVisits(input), x, |input.links|)))
  }

  /** run(): the file read, the truss solved. */
  function Outcome(num: Numerics, text: string): (r: Result<(seq<real>, seq<Option<bool>>)>)
    requires SolveKeepsLength(num)
  {
    match ReadInput(num, text)
    case Err(e) => Err(e)
    case Ok(input) => Answer(num, input)
  }

  // ---------------------------------------------------------------------
  // Properties of the answer

  /** Every member index appears among the visits of the routing loop. */
  lemma {:induction false} EveryMemberVisited(input: Input, i: nat)
    requires input.Consistent() && i < |input.links|
    ensures Seen(InputVisits(input), i)
  {
    var eps := Endpoints(input.table);
    var k := input.links[i].from;
    RegisteredAtFirstNode(input.links, eps, i);
    var j :| 0 <= j < |Registrations(input.links, eps, k)| && Registrations(input.links, eps, k)[j].index == i;
    var n := RegistrationsPrefix(input.links, eps, 0, k);
    var t := n + j;
    assert AllRegistrations(input.links, eps, 0)[t].index == i;
    assert InputVisits(input)[t].index == i;
  }

  /** The registrations of node k start where those of the nodes before it
      end, in the joined list from node `from` on. */
  lemma {:induction false} RegistrationsPrefix(links: seq<Link>, eps: seq<Endpoint>, from: nat, k: nat) returns (n: nat)
    requires LinksWithin(links, |eps|) && from <= k < |eps|
    ensures n + |Registrations(links, eps, k)| <= |AllRegistrations(links, eps, from)|
    ensures forall j :: 0 <= j < |Registrations(links, eps, k)| ==>
              AllRegistrations(links, eps, from)[n + j] == Registrations(links, eps, k)[j]
    decreases k - from
  {
    if from == k {
      n := 0;
    } else {
      var rest := RegistrationsPrefix(links, eps, from + 1, k);
      var here, tail := Registrations(links, eps, from), AllRegistrations(links, eps, from + 1);
      assert AllRegistrations(links, eps, from) == here + tail;
      assert forall t :: 0 <= t < |tail| ==> (here + tail)[|here| + t] == tail[t];
      n := |here| + rest;
    }
  }

  /** run() returns one force per unknown (2N of them) and one failure
      value per member line. */
  lemma AnswerShape(num: Numerics, input: Input)
    requires SolveKeepsLength(num) && input.Consistent() && Answer(num, input).Ok?
    ensures |Answer(num, input).value.0| == 2 * |input.table|
    ensures |Answer(num, input).value.1| == |input.links|
  {
    var eqs := InputEquations(num, input);
    var x := num.solve(SystemRows(eqs, |input.links|), Negated(SystemLoad(eqs)));
    forall i | 0 <= i < |input.links| ensures Seen(InputVisits(input), i) {
      EveryMemberVisited(input, i);
    }
    FailureListCoversMembers(InputVisits(input), x, |input.links|);
  }

  /** The errors the solver raises on a file the reader accepts, and
      exactly when: an unknown node type; a system with 2N != M + R; a
      fixed or loose node no member is attached to. A member index outside
      the matrix cannot occur, and neither can a member that does not end
      at the node it is registered at. */
  lemma AnswerErrors(num: Numerics, input: Input)
    requires SolveKeepsLength(num) && input.Consistent()
    ensures Answer(num, input) == Err(WrongNodeType) <==> HasUnknownSupport(input.table)
    ensures !HasUnknownSupport(input.table) ==>
              (Answer(num, input) == Err(NotDeterministic)
               <==> 2 * |input.table| != |input.links| + Offset(Kinds(input.table)))
    ensures !HasUnknownSupport(input.table) && 2 * |input.table| == |input.links| + Offset(Kinds(input.table)) ==>
              (Answer(num, input).Err?
               <==> exists k :: 0 <= k < |input.table| && Reactions(Kinds(input.table)[k]) > 0
                                && Registrations(input.links, Endpoints(input.table), k) == [])
              && (Answer(num, input).Err? ==> Answer(num, input).error == MissingReactions)
  {
    var eqs := InputEquations(num, input);
    var size := 2 * |input.table|;
    if !HasUnknownSupport(input.table) && size == |input.links| + Offset(Kinds(input.table)) {
      var fs := Faults(eqs, size);
      forall k | 0 <= k < |eqs|
        ensures fs[k] == (if Reactions(Kinds(input.table)[k]) > 0
                             && Registrations(input.links, Endpoints(input.table), k) == []
                          then Some(MissingReactions) else None)
      {
        assert eqs[k] == EquationsAt(num, input, k);
        assert forall j :: 0 <= j < |eqs[k].indices| ==> eqs[k].indices[j] < size;
      }
      var first := FirstFault(fs);
      if first.Some? {
        var i :| 0 <= i < |fs| && fs[i] == first && forall k :: 0 <= k < i ==> fs[k].None?;
      }
    }
  }
}
