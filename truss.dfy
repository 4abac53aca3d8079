/** The truss solver (truss.py): gathers the equations of every node into one
    square system A F + f = 0, solves it, and hands each member force back to
    the members for their failure check. */
module Trusses {
  import opened Common
  import opened CrossSection
  import opened Members
  import opened Nodes

  // ---------------------------------------------------------------------
  // Reaction bookkeeping

  /** How many supports of the run are of kind s. */
  function Occurrences(ss: seq<Support>, s: Support): (k: nat)
    ensures k <= |ss|
  {
    if ss == [] then 0
    else Occurrences(ss[..|ss| - 1], s) + (if ss[|ss| - 1] == s then 1 else 0)
  }

  /** The reaction columns a run of supports takes: two per fixed support,
      one per loose one, none for a free one. */
  function Offset(ss: seq<Support>): nat
  {
    2 * Occurrences(ss, Fixed) + Occurrences(ss, Loose)
  }

  /** Each node moves the reaction offset on by the width of its support. */
  lemma OffsetStep(ss: seq<Support>, i: nat)
    requires i < |ss|
    ensures Offset(ss[..i + 1]) == Offset(ss[..i]) + Reactions(ss[i])
  {
    assert ss[..i + 1][..|ss[..i + 1]| - 1] == ss[..i];
  }

  /** The reaction block of node i ends no later than that of any later
      prefix: blocks of different nodes never overlap. */
  lemma {:induction false} ReactionColumnsOrdered(ss: seq<Support>, i: nat, j: nat)
    requires i < j <= |ss|
    ensures Offset(ss[..i]) + Reactions(ss[i]) <= Offset(ss[..j])
    decreases j - i
  {
    OffsetStep(ss, i);
    if i + 1 < j {
      ReactionColumnsOrdered(ss, i + 1, j);
      OffsetStep(ss, i + 1);
    }
  }

  /** Reaction columns start at the member count, and under the determinacy
      condition 2N == M + R every reaction column of every node is below 2N;
      the offsets of all nodes add up to exactly R. */
  lemma ReactionColumnsInBounds(ss: seq<Support>, count: nat, i: nat)
    requires i < |ss| && 2 * |ss| == count + Offset(ss)
    ensures count <= count + Offset(ss[..i])
    ensures count + Offset(ss[..i]) + Reactions(ss[i]) <= 2 * |ss|
  {
    ReactionColumnsOrdered(ss, i, |ss|);
    assert ss[..|ss|] == ss;
  }

  // ---------------------------------------------------------------------
  // Assembly of A and f

  function Component(v: Vec2, b: nat): real
  {
    if b == 0 then v.x else v.y
  }

  /** The last position at which a list of member indices names column c:
      numpy's assignment through a list of indices keeps the last write to a
      repeated index. */
  function LastWrite(indices: seq<nat>, c: nat): (r: Option<nat>)
    ensures r.None? <==> forall j :: 0 <= j < |indices| ==> indices[j] != c
    ensures r.Some? ==> r.value < |indices| && indices[r.value] == c
                        && forall j :: r.value < j < |indices| ==> indices[j] != c
  {
    if indices == [] then None
    else if indices[|indices| - 1] == c then Some(|indices| - 1)
    else LastWrite(indices[..|indices| - 1], c)
  }

  /** The entry a node's member columns leave in column c of its row b. */
  function MemberCell(indices: seq<nat>, columns: seq<Vec2>, b: nat, c: nat): real
    requires |indices| <= |columns|
  {
    match LastWrite(indices, c)
    case Some(j) => Component(columns[j], b)
    case None => 0.0
  }

  function Supports(eqs: seq<LocalEquations>): (ss: seq<Support>)
    ensures |ss| == |eqs| && forall k :: 0 <= k < |eqs| ==> ss[k] == eqs[k].support
  {
    seq(|eqs|, k requires 0 <= k < |eqs| => eqs[k].support)
  }

  /** The entry of A in row 2i + b (node i owns rows 2i and 2i + 1) and
      column c: node i's reaction block where its reaction columns lie,
      otherwise the last member coefficient written there, otherwise zero. */
  function CellAt(eqs: seq<LocalEquations>, count: nat, i: nat, b: nat, c: nat): real
    requires i < |eqs| && b < 2 && eqs[i].WellShaped()
  {
    var eq := eqs[i];
    var first := count + Offset(Supports(eqs)[..i]);
    if eq.reactions.Some? && first <= c < first + Reactions(eq.support) then
      Component(eq.reactions.value[c - first], b)
    else
      MemberCell(eq.indices, eq.columns, b, c)
  }

  /** Writing one more member column changes the entry in that column only. */
  lemma MemberCellStep(indices: seq<nat>, columns: seq<Vec2>, j: nat)
    requires j < |indices| <= |columns|
    ensures forall b: nat, c: nat :: MemberCell(indices[..j + 1], columns, b, c)
              == if indices[j] == c then Component(columns[j], b) else MemberCell(indices[..j], columns, b, c)
  {
    var longer := indices[..j + 1];
    assert longer[..|longer| - 1] == indices[..j];
    forall b: nat, c: nat
      ensures MemberCell(longer, columns, b, c)
              == if indices[j] == c then Component(columns[j], b) else MemberCell(indices[..j], columns, b, c)
    {
      assert LastWrite(longer, c) == if indices[j] == c then Some(j) else LastWrite(indices[..j], c);
    }
  }

  predicate AllWellShaped(eqs: seq<LocalEquations>)
  {
    forall k :: 0 <= k < |eqs| ==> eqs[k].WellShaped()
  }

  /** The entry of A in row `row` and column c: rows 2i and 2i + 1 belong
      to node i. */
  function RowCell(eqs: seq<LocalEquations>, count: nat, row: nat, c: nat): real
    requires row < 2 * |eqs| && AllWellShaped(eqs)
  {
    CellAt(eqs, count, row / 2, row % 2, c)
  }

  /** The entry of f in row `row`: the load of node row / 2. */
  function RowLoad(eqs: seq<LocalEquations>, row: nat): real
    requires row < 2 * |eqs|
  {
    Component(eqs[row / 2].load, row % 2)
  }

  /** Member columns lie before the reaction columns, so an entry of A in a
      member column is the member coefficient written there, and an entry in
      a column that no member and no reaction of the node names is zero. */
  lemma MemberColumnsKept(eqs: seq<LocalEquations>, count: nat, i: nat, b: nat, c: nat)
    requires i < |eqs| && b < 2 && eqs[i].WellShaped() && c < count
    ensures CellAt(eqs, count, i, b, c) == MemberCell(eqs[i].indices, eqs[i].columns, b, c)
    ensures (forall j :: 0 <= j < |eqs[i].indices| ==> eqs[i].indices[j] != c) ==> CellAt(eqs, count, i, b, c) == 0.0
  {
  }

  /** What stops the assembly at a node: a member index outside the 2N
      columns of A, or a reaction block that was never built. */
  function NodeFault(eq: LocalEquations, size: nat): (r: Option<Error>)
    ensures r.None? <==> (forall j :: 0 <= j < |eq.indices| ==> eq.indices[j] < size)
                         && (eq.reactions.Some? || Reactions(eq.support) == 0)
    ensures r.Some? ==> r == Some(IndexOutOfRange) || r == Some(MissingReactions)
  {
    if exists j :: 0 <= j < |eq.indices| && eq.indices[j] >= size then Some(IndexOutOfRange)
    else if eq.reactions.None? && Reactions(eq.support) > 0 then Some(MissingReactions)
    else None
  }

  function Faults(eqs: seq<LocalEquations>, size: nat): (fs: seq<Option<Error>>)
    ensures |fs| == |eqs| && forall k {:trigger fs[k]} :: 0 <= k < |eqs| ==> fs[k] == NodeFault(eqs[k], size)
  {
    seq(|eqs|, k requires 0 <= k < |eqs| => NodeFault(eqs[k], size))
  }

  /** The error raised by the first node, in traversal order, that raises one. */
  function FirstFault(fs: seq<Option<Error>>): (r: Option<Error>)
    ensures r.None? <==> forall k :: 0 <= k < |fs| ==> fs[k].None?
    ensures r.Some? ==> exists i :: 0 <= i < |fs| && fs[i] == r && forall k :: 0 <= k < i ==> fs[k].None?
  {
    if fs == [] then None
    else
      var front := fs[..|fs| - 1];
      assert forall k :: 0 <= k < |front| ==> front[k] == fs[k];
      var r := FirstFault(front);
      if r.Some? then r else fs[|fs| - 1]
  }

  /** The first fault is that of a faulty node all of whose predecessors are
      fault-free. */
  lemma {:induction false} FirstFaultAt(fs: seq<Option<Error>>, i: nat)
    requires i < |fs| && fs[i].Some? && forall k :: 0 <= k < i ==> fs[k].None?
    ensures FirstFault(fs) == fs[i]
  {
    var front := fs[..|fs| - 1];
    if i < |fs| - 1 {
      FirstFaultAt(front, i);
    } else {
      assert forall k :: 0 <= k < |front| ==> front[k].None?;
    }
  }

  // ---------------------------------------------------------------------
  // Handing the solution back to the members

  /** A member as the routing loop meets it: its index, what its failure
      check depends on, and the failure value it held before the solve. */
  datatype Visit = Visit(index: nat, section: Section, e: real, strength: real, lengthSq: real, prior: Option<bool>)

  ghost function VisitOf(mem: Member): Visit
    reads mem`failure
  {
    Visit(mem.memberIndex, mem.section, mem.eModule, mem.yieldStrength, mem.lengthSq, mem.failure)
  }

  ghost function Snapshot(ms: seq<Member>): (vs: seq<Visit>)
    reads ms`failure
    ensures |vs| == |ms| && forall k {:trigger vs[k]} :: 0 <= k < |ms| ==> vs[k] == VisitOf(ms[k])
  {
    if ms == [] then [] else Snapshot(ms[..|ms| - 1]) + [VisitOf(ms[|ms| - 1])]
  }

  /** Some visit of the list is to the given member index. */
  predicate Seen(vs: seq<Visit>, index: nat)
  {
    exists t :: 0 <= t < |vs| && vs[t].index == index
  }

  /** The visits that append to the failure list: the first visit to each
      member index below count, in visiting order. */
  function FirstVisits(vs: seq<Visit>, count: nat): (firsts: seq<Visit>)
    ensures forall t :: 0 <= t < |firsts| ==> firsts[t] in vs && firsts[t].index < count
    ensures forall k :: 0 <= k < count && Seen(vs, k) ==> exists t :: 0 <= t < |firsts| && firsts[t].index == k
  {
    if vs == [] then []
    else
      var pre, v := vs[..|vs| - 1], vs[|vs| - 1];
      var earlier := FirstVisits(pre, count);
      SeenLast(pre, v);
      assert vs == pre + [v];
      if v.index < count && !Seen(pre, v.index) then
        assert forall t :: 0 <= t < |earlier| ==> earlier[t].index != v.index;
        var firsts := earlier + [v];
        assert forall t :: 0 <= t < |earlier| ==> firsts[t] == earlier[t];
        assert firsts[|earlier|] == v;
        firsts
      else
        earlier
  }

  /** No member index occurs twice among the first visits. */
  lemma {:induction false} FirstVisitsApart(vs: seq<Visit>, count: nat)
    ensures forall s, t :: 0 <= s < t < |FirstVisits(vs, count)| ==>
              FirstVisits(vs, count)[s].index != FirstVisits(vs, count)[t].index
  {
    if vs != [] {
      var pre, v := vs[..|vs| - 1], vs[|vs| - 1];
      FirstVisitsApart(pre, count);
      var earlier := FirstVisits(pre, count);
      if v.index < count && !Seen(pre, v.index) {
        assert vs == pre + [v];
        SeenLast(pre, v);
        var firsts := FirstVisits(vs, count);
        assert firsts == earlier + [v];
        assert forall t :: 0 <= t < |earlier| ==> firsts[t] == earlier[t] && earlier[t].index != v.index;
      } else {
        assert vs == pre + [v];
        SeenLast(pre, v);
        assert FirstVisits(vs, count) == earlier;
      }
    }
  }

  /** An index is seen in a list with one more visit exactly when it is seen
      before it or is that visit's index. */
  lemma SeenLast(vs: seq<Visit>, v: Visit)
    ensures forall k :: Seen(vs + [v], k) <==> Seen(vs, k) || k == v.index
  {
    forall k ensures Seen(vs + [v], k) <==> Seen(vs, k) || k == v.index {
      if Seen(vs + [v], k) {
        var t :| 0 <= t < |vs + [v]| && (vs + [v])[t].index == k;
        if t < |vs| {
          assert vs[t].index == k;
        }
      }
      if Seen(vs, k) {
        var t :| 0 <= t < |vs| && vs[t].index == k;
        assert (vs + [v])[t].index == k;
      }
      if k == v.index {
        assert (vs + [v])[|vs|].index == k;
      }
    }
  }

  /** Every visit the list is made of was checked against a buildable section. */
  predicate Checkable(vs: seq<Visit>)
  {
    forall t :: 0 <= t < |vs| ==> WellFormed(vs[t].section)
  }

  /** The failure list: for each first visit, what fail() returns for the
      negated solved force of its member index. */
  function FailureList(vs: seq<Visit>, forces: seq<real>, count: nat): (fl: seq<Option<bool>>)
    requires count <= |forces| && Checkable(vs)
    ensures |fl| == |FirstVisits(vs, count)|
  {
    var firsts := FirstVisits(vs, count);
    seq(|firsts|, t requires 0 <= t < |firsts| =>
      Verdict(-forces[firsts[t].index], firsts[t].section, firsts[t].e, firsts[t].strength, firsts[t].lengthSq, firsts[t].prior))
  }

  /** One more visit appends to the failure list exactly when it is the first
      visit to a member index below count. */
  lemma FailureListStep(vs: seq<Visit>, v: Visit, forces: seq<real>, count: nat)
    requires count <= |forces| && Checkable(vs) && WellFormed(v.section)
    ensures Checkable(vs + [v])
    ensures FailureList(vs + [v], forces, count)
            == FailureList(vs, forces, count)
               + (if v.index < count && !Seen(vs, v.index)
                  then [Verdict(-forces[v.index], v.section, v.e, v.strength, v.lengthSq, v.prior)]
                  else [])
  {
    assert (vs + [v])[..|vs + [v]| - 1] == vs;
    assert forall t :: 0 <= t < |vs| ==> vs[t] == (vs + [v])[t];
    assert (vs + [v])[|vs|] == v;
  }

  /** When every member index below count is visited, the failure list has
      one entry per member. */
  lemma FailureListCoversMembers(vs: seq<Visit>, forces: seq<real>, count: nat)
    requires count <= |forces| && Checkable(vs)
    requires forall k :: 0 <= k < count ==> Seen(vs, k)
    ensures |FailureList(vs, forces, count)| == count
  {
    var firsts := FirstVisits(vs, count);
    var indices := set t | 0 <= t < |firsts| :: firsts[t].index;
    forall k: nat ensures k in indices <==> k in Below(count) {
      if k < count {
        assert Seen(vs, k);
        var t :| 0 <= t < |firsts| && firsts[t].index == k;
      }
    }
    assert indices == Below(count);
    FirstVisitsApart(vs, count);
    DistinctIndices(firsts);
  }

  /** The member indices below count. */
  function Below(count: nat): (r: set<nat>)
    ensures |r| == count && forall k: nat :: k in r <==> k < count
  {
    if count == 0 then {}
    else
      var rest := Below(count - 1);
      assert count - 1 !in rest;
      rest + {count - 1}
  }

  /** Visits with pairwise different indices have as many indices as visits. */
  lemma {:induction false} DistinctIndices(firsts: seq<Visit>)
    requires forall s, t :: 0 <= s < t < |firsts| ==> firsts[s].index != firsts[t].index
    ensures |set t | 0 <= t < |firsts| :: firsts[t].index| == |firsts|
  {
    if firsts != [] {
      var pre := firsts[..|firsts| - 1];
      DistinctIndices(pre);
      var last := firsts[|firsts| - 1].index;
      assert (set t | 0 <= t < |firsts| :: firsts[t].index)
             == (set t | 0 <= t < |pre| :: pre[t].index) + {last};
      assert last !in (set t | 0 <= t < |pre| :: pre[t].index);
    }
  }

  /** The visited flags the routing loop holds after a list of visits: each
      visit below count sets the flag of its index. */
  function FlagsAfter(vs: seq<Visit>, count: nat): (flags: seq<bool>)
    ensures |flags| == count
  {
    if vs == [] then seq(count, k => false)
    else
      var flags := FlagsAfter(vs[..|vs| - 1], count);
      var index := vs[|vs| - 1].index;
      if index < count then flags[index := true] else flags
  }

  /** The failure list the routing loop holds after a list of visits: each
      visit to an index whose flag is still clear appends its verdict. */
  function ListAfter(vs: seq<Visit>, forces: seq<real>, count: nat): seq<Option<bool>>
    requires count <= |forces| && Checkable(vs)
  {
    if vs == [] then []
    else
      var pre, v := vs[..|vs| - 1], vs[|vs| - 1];
      assert forall t :: 0 <= t < |pre| ==> pre[t] == vs[t];
      ListAfter(pre, forces, count)
      + if v.index < count && !FlagsAfter(pre, count)[v.index]
        then [Verdict(-forces[v.index], v.section, v.e, v.strength, v.lengthSq, v.prior)]
        else []
  }

  /** The flags the loop holds are exactly the indices seen. */
  lemma {:induction false} FlagsAfterSeen(vs: seq<Visit>, count: nat)
    ensures forall k :: 0 <= k < count ==> (FlagsAfter(vs, count)[k] <==> Seen(vs, k))
  {
    if vs != [] {
      var pre, v := vs[..|vs| - 1], vs[|vs| - 1];
      FlagsAfterSeen(pre, count);
      assert vs == pre + [v];
      SeenLast(pre, v);
    }
  }

  /** The list the loop builds is the failure list of the first visits. */
  lemma {:induction false} ListAfterIsFailureList(vs: seq<Visit>, forces: seq<real>, count: nat)
    requires count <= |forces| && Checkable(vs)
    ensures ListAfter(vs, forces, count) == FailureList(vs, forces, count)
  {
    if vs != [] {
      var pre, v := vs[..|vs| - 1], vs[|vs| - 1];
      assert vs == pre + [v];
      assert Checkable(pre) by {
        assert forall t :: 0 <= t < |pre| ==> pre[t] == vs[t];
      }
      ListAfterIsFailureList(pre, forces, count);
      FlagsAfterSeen(pre, count);
      FailureListStep(pre, v, forces, count);
    }
  }

  // ---------------------------------------------------------------------
  // The solver

  /** The member lists of the nodes, in node order. */
  ghost function MemberLists(ns: seq<Node>): (lists: seq<seq<Member>>)
    reads ns`members
    ensures |lists| == |ns| && forall k {:trigger lists[k]} :: 0 <= k < |ns| ==> lists[k] == ns[k].members
  {
    if ns == [] then [] else MemberLists(ns[..|ns| - 1]) + [ns[|ns| - 1].members]
  }

  /** The lists from the i-th on, joined in order. */
  function Concat(lists: seq<seq<Member>>, i: nat): seq<Member>
    requires i <= |lists|
    decreases |lists| - i
  {
    if i == |lists| then [] else lists[i] + Concat(lists, i + 1)
  }

  /** The members of the nodes, node by node, each node's in list order: the
      order in which the routing loop meets them. */
  ghost function Flatten(ns: seq<Node>): seq<Member>
    reads ns`members
  {
    Concat(MemberLists(ns), 0)
  }

  /** The loads of the nodes, in node order. */
  ghost function Loads(ns: seq<Node>): (loads: seq<Vec2>)
    reads ns`fx, ns`fy
    ensures |loads| == |ns| && forall k {:trigger loads[k]} :: 0 <= k < |ns| ==> loads[k] == Vec2(ns[k].fx, ns[k].fy)
  {
    if ns == [] then [] else Loads(ns[..|ns| - 1]) + [Vec2(ns[|ns| - 1].fx, ns[|ns| - 1].fy)]
  }

  /** The error buildForceEquations raises on a node with the given member
      list: an unknown support type first, then a member not ending at it. */
  function BuildFault(node: Node, members: seq<Member>): Option<Error>
  {
    if node.Support().Unsupported? then Some(WrongNodeType)
    else if !Attached(members, node.index) then Some(NotConnected(node.index))
    else None
  }

  function BuildFaults(ns: seq<Node>, lists: seq<seq<Member>>): (fs: seq<Option<Error>>)
    requires |lists| == |ns|
    ensures |fs| == |ns| && forall k {:trigger fs[k]} :: 0 <= k < |ns| ==> fs[k] == BuildFault(ns[k], lists[k])
  {
    seq(|ns|, k requires 0 <= k < |ns| => BuildFault(ns[k], lists[k]))
  }

  /** The equations buildForceEquations gives each node. */
  function ExpectedAll(num: Numerics, ns: seq<Node>, lists: seq<seq<Member>>, loads: seq<Vec2>): (eqs: seq<LocalEquations>)
    requires |lists| == |loads| == |ns| && forall k :: 0 <= k < |ns| ==> Attached(lists[k], ns[k].index)
    ensures |eqs| == |ns| && AllWellShaped(eqs)
    ensures forall k {:trigger eqs[k]} :: 0 <= k < |ns| ==> eqs[k] == ExpectedEquations(num, ns[k], lists[k], loads[k])
  {
    seq(|ns|, k requires 0 <= k < |ns| && Attached(lists[k], ns[k].index) => ExpectedEquations(num, ns[k], lists[k], loads[k]))
  }

  /** The node equations buildForceEquations gives nodes with the given
      member lists and loads, or the first error it raises, taking the
      nodes in table order. */
  function SystemFor(num: Numerics, ns: seq<Node>, lists: seq<seq<Member>>, loads: seq<Vec2>): (r: Result<seq<LocalEquations>>)
    requires |lists| == |loads| == |ns|
    ensures r.Err? <==> FirstFault(BuildFaults(ns, lists)).Some?
    ensures r.Err? ==> FirstFault(BuildFaults(ns, lists)) == Some(r.error)
    ensures r.Ok? ==>
              (forall k :: 0 <= k < |ns| ==> Attached(lists[k], ns[k].index))
              && r.value == ExpectedAll(num, ns, lists, loads)
  {
    var fault := FirstFault(BuildFaults(ns, lists));
    if fault.Some? then Err(fault.value)
    else
      assert forall k :: 0 <= k < |ns| ==> BuildFaults(ns, lists)[k] == BuildFault(ns[k], lists[k]);
      Ok(ExpectedAll(num, ns, lists, loads))
  }

  /** The system of the nodes as they stand. */
  ghost function SystemOf(num: Numerics, ns: seq<Node>): Result<seq<LocalEquations>>
    reads ns`members, ns`fx, ns`fy
  {
    SystemFor(num, ns, MemberLists(ns), Loads(ns))
  }

  /** A sequence whose suffix from base is front + rest holds front at
      positions base .. base + |front| and rest after it. */
  lemma SuffixSplit(ms: seq<Member>, base: nat, front: seq<Member>, rest: seq<Member>)
    requires base <= |ms| && ms[base..] == front + rest
    ensures base + |front| <= |ms| && ms[base + |front|..] == rest
    ensures forall j :: 0 <= j < |front| ==> ms[base + j] == front[j]
  {
    forall j | 0 <= j < |front| ensures ms[base + j] == front[j] {
      assert ms[base..][j] == front[j];
    }
    assert ms[base + |front|..] == ms[base..][|front|..];
  }

  /** Every member of list i occurs in the lists joined from any earlier list on. */
  lemma {:induction false} ConcatHolds(lists: seq<seq<Member>>, from: nat, i: nat)
    requires from <= i < |lists|
    ensures forall j :: 0 <= j < |lists[i]| ==> lists[i][j] in Concat(lists, from)
    decreases i - from
  {
    if from < i {
      ConcatHolds(lists, from + 1, i);
    }
  }

  /** Every member of every node occurs in the flattened member list. */
  lemma MembersFlattened(ns: seq<Node>)
    ensures forall k, j :: 0 <= k < |ns| && 0 <= j < |ns[k].members| ==> ns[k].members[j] in Flatten(ns)
  {
    forall k | 0 <= k < |ns| ensures forall j :: 0 <= j < |ns[k].members| ==> ns[k].members[j] in Flatten(ns) {
      assert MemberLists(ns)[k] == ns[k].members;
      ConcatHolds(MemberLists(ns), 0, k);
    }
  }

  /** A node whose equations have been built from its current members and load. */
  ghost predicate Built(node: Node, num: Numerics)
    reads node, node.m
  {
    node.m.Length0 == 2 && node.m.Length1 == |node.members|
    && Attached(node.members, node.index)
    && node.Equations() == ExpectedEquations(num, node, node.members, Vec2(node.fx, node.fy))
  }

  /** The equations of every node as its fields hold them, in table order:
      what the assembly loop reads. */
  function CurrentEquations(ns: seq<Node>): (eqs: seq<LocalEquations>)
    reads ns, set k | 0 <= k < |ns| :: ns[k].m
    requires forall k :: 0 <= k < |ns| ==> ns[k].m.Length0 == 2 && ns[k].m.Length1 == |ns[k].members|
    ensures |eqs| == |ns| && forall k {:trigger eqs[k]} :: 0 <= k < |ns| ==> eqs[k] == ns[k].Equations()
  {
    seq(|ns|, k requires 0 <= k < |ns| && ns[k].m.Length0 == 2 && ns[k].m.Length1 == |ns[k].members|
               reads ns, set k | 0 <= k < |ns| :: ns[k].m => ns[k].Equations())
  }

  /** Once every node is built, the equations the nodes hold are the ones
      buildForceEquations promises, and they are well shaped. */
  lemma BuiltEquations(num: Numerics, ns: seq<Node>, lists: seq<seq<Member>>, loads: seq<Vec2>)
    requires |lists| == |loads| == |ns|
    requires forall k :: 0 <= k < |ns| ==> ns[k].members == lists[k] && Vec2(ns[k].fx, ns[k].fy) == loads[k]
    requires forall k :: 0 <= k < |ns| ==> BuildFaults(ns, lists)[k].None?
    requires forall k :: 0 <= k < |ns| ==> Built(ns[k], num)
    ensures SystemFor(num, ns, lists, loads).Ok?
    ensures forall k :: 0 <= k < |ns| ==> ns[k].m.Length0 == 2 && ns[k].m.Length1 == |ns[k].members|
    ensures CurrentEquations(ns) == SystemFor(num, ns, lists, loads).value
    ensures AllWellShaped(CurrentEquations(ns)) && Supports(CurrentEquations(ns)) == SupportsOf(ns)
  {
    var eqs, expected := CurrentEquations(ns), ExpectedAll(num, ns, lists, loads);
    forall k | 0 <= k < |ns| ensures eqs[k] == expected[k] {
      assert Built(ns[k], num);
      assert eqs[k] == ns[k].Equations();
    }
  }

  function SupportsOf(ns: seq<Node>): (ss: seq<Support>)
    ensures |ss| == |ns| && forall k {:trigger ss[k]} :: 0 <= k < |ns| ==> ss[k] == ns[k].Support()
  {
    seq(|ns|, k requires 0 <= k < |ns| => ns[k].Support())
  }

  function Rows(a: array2<real>): (rows: seq<seq<real>>)
    reads a
    ensures |rows| == a.Length0
    ensures forall i :: 0 <= i < a.Length0 ==> |rows[i]| == a.Length1
    ensures forall i, c :: 0 <= i < a.Length0 && 0 <= c < a.Length1 ==> rows[i][c] == a[i, c]
  {
    seq(a.Length0, i requires 0 <= i < a.Length0 reads a =>
      seq(a.Length1, c requires 0 <= c < a.Length1 reads a => a[i, c]))
  }

  function Negated(v: seq<real>): (w: seq<real>)
    ensures |w| == |v| && forall k :: 0 <= k < |v| ==> w[k] == -v[k]
  {
    seq(|v|, k requires 0 <= k < |v| => -v[k])
  }

  /** The external forces the members hold, in list order. */
  ghost function ExternalForces(ms: seq<Member>): (fs: seq<Option<real>>)
    reads ms`externalForce
    ensures |fs| == |ms| && forall k {:trigger fs[k]} :: 0 <= k < |ms| ==> fs[k] == ms[k].externalForce
  {
    if ms == [] then [] else ExternalForces(ms[..|ms| - 1]) + [ms[|ms| - 1].externalForce]
  }

  /** Each visit records the member at the same position. */
  predicate Describes(vs: seq<Visit>, ms: seq<Member>)
  {
    |vs| == |ms|
    && forall t :: 0 <= t < |ms| ==>
         vs[t].index == ms[t].memberIndex && vs[t].section == ms[t].section && vs[t].e == ms[t].eModule
         && vs[t].strength == ms[t].yieldStrength && vs[t].lengthSq == ms[t].lengthSq
  }

  /** The visits describe the members as they stand now, failure values
      included. */
  ghost predicate Current(vs: seq<Visit>, ms: seq<Member>)
    reads ms`failure
  {
    Describes(vs, ms) && forall t :: 0 <= t < |ms| ==> vs[t].prior == ms[t].failure
  }

  /** The routing state once the first p members of the list have been
      handled: the failure list and the visited flags follow the first p
      visits, the members handled so far hold their force and verdict, and
      every other member still holds its original force and failure value. */
  ghost predicate RoutedTo(ms: seq<Member>, vs: seq<Visit>, forces0: seq<Option<real>>, x: seq<real>, count: nat, p: nat,
                           failures: seq<Option<bool>>, visited: seq<bool>)
    reads ms`externalForce, ms`failure
    requires Describes(vs, ms) && |forces0| == |ms| && p <= |ms| && count <= |x| && Checkable(vs)
  {
    failures == ListAfter(vs[..p], x, count)
    && visited == FlagsAfter(vs[..p], count)
    && (forall t :: 0 <= t < p && vs[t].index < count ==>
          ms[t].externalForce == Some(-x[vs[t].index])
          && ms[t].failure == Verdict(-x[vs[t].index], vs[t].section, vs[t].e, vs[t].strength, vs[t].lengthSq, vs[t].prior))
    && (forall t :: 0 <= t < |ms| && (p <= t || count <= vs[t].index) ==>
          ms[t].externalForce == forces0[t] && ms[t].failure == vs[t].prior)
  }

  /** Once every member of the list is handled, the routing state speaks
      about the whole list. */
  lemma RoutedAll(ms: seq<Member>, vs: seq<Visit>, forces0: seq<Option<real>>, x: seq<real>, count: nat, p: nat,
                  failures: seq<Option<bool>>, visited: seq<bool>)
    requires Describes(vs, ms) && |forces0| == |ms| && count <= |x| && Checkable(vs)
    requires p == |ms| && RoutedTo(ms, vs, forces0, x, count, p, failures, visited)
    ensures failures == FailureList(vs, x, count)
    ensures forall k :: 0 <= k < count ==> (visited[k] <==> Seen(vs, k))
    ensures forall t :: 0 <= t < |ms| && ms[t].memberIndex < count ==>
              ms[t].externalForce == Some(-x[ms[t].memberIndex])
              && ms[t].failure == Verdict(-x[ms[t].memberIndex], ms[t].section, ms[t].eModule, ms[t].yieldStrength,
                                          ms[t].lengthSq, vs[t].prior)
    ensures forall t :: 0 <= t < |ms| && count <= ms[t].memberIndex ==>
              ms[t].externalForce == forces0[t] && ms[t].failure == vs[t].prior
  {
    assert vs[..|ms|] == vs;
    ListAfterIsFailureList(vs, x, count);
    FlagsAfterSeen(vs, count);
  }

  /** Every member's cached section values are those of its section. */
  ghost predicate AllValid(ms: seq<Member>)
    reads ms`area, ms`inertiaXX, ms`inertiaYY
  {
    forall t :: 0 <= t < |ms| ==> ms[t].Valid()
  }

  /** After the routing loop: every member whose index is below count holds
      the negated solved force of its index and the verdict of fail() for
      it, taken from the failure value it held before. */
  ghost predicate Routed(ms: seq<Member>, vs: seq<Visit>, x: seq<real>, count: nat)
    reads ms`externalForce, ms`failure
    requires Describes(vs, ms) && Checkable(vs) && count <= |x|
  {
    forall t :: 0 <= t < |ms| && vs[t].index < count ==>
      ms[t].externalForce == Some(-x[vs[t].index])
      && ms[t].failure == Verdict(-x[vs[t].index], vs[t].section, vs[t].e, vs[t].strength, vs[t].lengthSq, vs[t].prior)
  }

  class Truss {
    /** The nodes in the order the node table was filled. */
    const nodes: seq<Node>
    const numberOfMember: nat
    var n: nat
    var numberOfReactions: nat
    var matrix: array2<real>
    var load: array<real>
    var unknownForces: seq<real>
    var failures: seq<Option<bool>>
    var visited: array<bool>

    constructor (ns: seq<Node>, memberCount: nat)
      ensures nodes == ns && numberOfMember == memberCount
    {
      nodes, numberOfMember := ns, memberCount;
      n, numberOfReactions := 0, 0;
      matrix := new real[0, 0];
      load := new real[0];
      unknownForces, failures := [], [];
      visited := new bool[0];
    }

    /** The reaction count: two per fixed node, one per loose node. */
    method CountReactions()
      modifies this`numberOfReactions
      ensures numberOfReactions == 2 * Occurrences(SupportsOf(nodes), Fixed) + Occurrences(SupportsOf(nodes), Loose)
    {
      numberOfReactions := 0;
      var i := 0;
      while i < |nodes|
        invariant 0 <= i <= |nodes|
        invariant numberOfReactions == Offset(SupportsOf(nodes)[..i])
      {
        OffsetStep(SupportsOf(nodes), i);
        if nodes[i].kind == "Fixed" {
          numberOfReactions := numberOfReactions + 2;
        } else if nodes[i].kind == "Loose" {
          numberOfReactions := numberOfReactions + 1;
        }
        i := i + 1;
      }
      assert SupportsOf(nodes)[..i] == SupportsOf(nodes);
    }

    /** Writes a node's member coefficients into its rows top and top + 1,
        column by column in member order. */
    method ScatterMembers(top: nat, indices: seq<nat>, columns: seq<Vec2>)
      requires top + 1 < matrix.Length0 && |indices| == |columns|
      requires forall j :: 0 <= j < |indices| ==> indices[j] < matrix.Length1
      requires forall row, c :: top <= row <= top + 1 && 0 <= c < matrix.Length1 ==> matrix[row, c] == 0.0
      modifies matrix
      ensures forall row, c :: 0 <= row < matrix.Length0 && (row < top || top + 1 < row) && 0 <= c < matrix.Length1
                ==> matrix[row, c] == old(matrix[row, c])
      ensures forall row, c :: top <= row <= top + 1 && 0 <= c < matrix.Length1
                ==> matrix[row, c] == MemberCell(indices, columns, row - top, c)
    {
      var j := 0;
      while j < |indices|
        invariant 0 <= j <= |indices|
        invariant forall row, c :: 0 <= row < matrix.Length0 && (row < top || top + 1 < row) && 0 <= c < matrix.Length1
                    ==> matrix[row, c] == old(matrix[row, c])
        invariant forall row, c :: top <= row <= top + 1 && 0 <= c < matrix.Length1
                    ==> matrix[row, c] == MemberCell(indices[..j], columns, row - top, c)
      {
        matrix[top, indices[j]] := columns[j].x;
        matrix[top + 1, indices[j]] := columns[j].y;
        MemberCellStep(indices, columns, j);
        j := j + 1;
      }
      assert indices[..j] == indices;
    }

    /** Writes a node's reaction block into its rows top and top + 1, from
        column first on. */
    method ScatterReactions(top: nat, first: nat, block: seq<Vec2>)
      requires top + 1 < matrix.Length0 && first + |block| <= matrix.Length1
      modifies matrix
      ensures forall row, c :: 0 <= row < matrix.Length0 && (row < top || top + 1 < row) && 0 <= c < matrix.Length1
                ==> matrix[row, c] == old(matrix[row, c])
      ensures forall row, c :: top <= row <= top + 1 && 0 <= c < matrix.Length1
                ==> matrix[row, c] == if first <= c < first + |block| then Component(block[c - first], row - top) else old(matrix[row, c])
    {
      var q := 0;
      while q < |block|
        invariant 0 <= q <= |block|
        invariant forall row, c :: 0 <= row < matrix.Length0 && (row < top || top + 1 < row) && 0 <= c < matrix.Length1
                    ==> matrix[row, c] == old(matrix[row, c])
        invariant forall row, c :: top <= row <= top + 1 && 0 <= c < matrix.Length1
                    ==> matrix[row, c] == if first <= c < first + q then Component(block[c - first], row - top) else old(matrix[row, c])
      {
        matrix[top, first + q] := block[q].x;
        matrix[top + 1, first + q] := block[q].y;
        q := q + 1;
      }
    }

    /** One pass of the scatter loop: node i's member block, then its
        reaction block, then its load, into rows 2i and 2i + 1. */
    method AssembleNode(eqs: seq<LocalEquations>, i: nat, rIndex: nat)
      requires i < |eqs| && matrix.Length0 == matrix.Length1 == load.Length == 2 * |eqs|
      requires AllWellShaped(eqs) && NodeFault(eqs[i], 2 * |eqs|).None?
      requires rIndex == Offset(Supports(eqs)[..i])
      requires numberOfMember + rIndex + Reactions(eqs[i].support) <= 2 * |eqs|
      requires forall row, c :: 2 * i <= row <= 2 * i + 1 && 0 <= c < matrix.Length1 ==> matrix[row, c] == 0.0
      modifies matrix, load
      ensures forall row, c :: 0 <= row < matrix.Length0 && (row < 2 * i || 2 * i + 1 < row) && 0 <= c < matrix.Length1
                ==> matrix[row, c] == old(matrix[row, c])
      ensures forall row, c :: 2 * i <= row <= 2 * i + 1 && 0 <= c < matrix.Length1
                ==> matrix[row, c] == RowCell(eqs, numberOfMember, row, c)
      ensures forall row :: 0 <= row < load.Length && (row < 2 * i || 2 * i + 1 < row) ==> load[row] == old(load[row])
      ensures forall row :: 2 * i <= row <= 2 * i + 1 ==> load[row] == RowLoad(eqs, row)
    {
      var eq := eqs[i];
      var top, first := 2 * i, numberOfMember + rIndex;
      ScatterMembers(top, eq.indices, eq.columns);
      if eq.reactions.Some? {
        ScatterReactions(top, first, eq.reactions.value);
      }
      forall row, c | top <= row <= top + 1 && 0 <= c < matrix.Length1
        ensures matrix[row, c] == RowCell(eqs, numberOfMember, row, c)
      {
        assert row / 2 == i && row % 2 == row - top;
      }
      load[top] := eq.load.x;
      load[top + 1] := eq.load.y;
      forall row | top <= row <= top + 1 ensures load[row] == RowLoad(eqs, row) {
        assert row / 2 == i && row % 2 == row - top;
      }
    }

    /** The scatter loop of solveForceEquations: node i owns rows 2i and
        2i + 1 of A and f; its member coefficients go to the columns named
        by its member indices and its reaction block to the columns after M
        reached by the running reaction offset. The first node with a
        fault stops the loop. */
    method Assemble(eqs: seq<LocalEquations>) returns (err: Option<Error>)
      requires matrix.Length0 == matrix.Length1 == load.Length == 2 * |eqs|
      requires forall row, c :: 0 <= row < matrix.Length0 && 0 <= c < matrix.Length1 ==> matrix[row, c] == 0.0
      requires AllWellShaped(eqs)
      requires 2 * |eqs| == numberOfMember + Offset(Supports(eqs))
      modifies matrix, load
      ensures err == FirstFault(Faults(eqs, 2 * |eqs|))
      ensures err.None? ==>
                forall row, c :: 0 <= row < 2 * |eqs| && 0 <= c < 2 * |eqs| ==> matrix[row, c] == RowCell(eqs, numberOfMember, row, c)
      ensures err.None? ==> forall row :: 0 <= row < 2 * |eqs| ==> load[row] == RowLoad(eqs, row)
    {
      var size := 2 * |eqs|;
      var rIndex := 0;
      var i := 0;
      while i < |eqs|
        invariant 0 <= i <= |eqs|
        invariant rIndex == Offset(Supports(eqs)[..i])
        invariant forall k :: 0 <= k < i ==> Faults(eqs, size)[k].None?
        invariant forall row, c :: 0 <= row < 2 * i && 0 <= c < size ==> matrix[row, c] == RowCell(eqs, numberOfMember, row, c)
        invariant forall row, c :: 2 * i <= row < size && 0 <= c < size ==> matrix[row, c] == 0.0
        invariant forall row :: 0 <= row < 2 * i ==> load[row] == RowLoad(eqs, row)
      {
        var fault := NodeFault(eqs[i], size);
        if fault.Some? {
          FirstFaultAt(Faults(eqs, size), i);
          return fault;
        }
        ReactionColumnsInBounds(Supports(eqs), numberOfMember, i);
        AssembleNode(eqs, i, rIndex);
        OffsetStep(Supports(eqs), i);
        rIndex := rIndex + Reactions(eqs[i].support);
        i := i + 1;
      }
      err := None;
    }

    /** The loop over k for one member of one node: when its index k is
        below M, the member is given the negated solved force, checked, and
        on the first visit to k its verdict is appended to the failure list. */
    method RouteMember(mem: Member, x: seq<real>)
      requires mem.Valid() && numberOfMember <= |x| && visited.Length == numberOfMember
      modifies this`failures, visited, mem`externalForce, mem`failure, mem`buckling, mem`yielding, mem`criticalForce
      ensures mem.memberIndex >= numberOfMember ==>
                failures == old(failures) && visited[..] == old(visited[..])
                && mem.externalForce == old(mem.externalForce) && mem.failure == old(mem.failure)
      ensures mem.memberIndex < numberOfMember ==>
                mem.externalForce == Some(-x[mem.memberIndex])
                && mem.failure == Verdict(-x[mem.memberIndex], mem.section, mem.eModule, mem.yieldStrength, mem.lengthSq, old(mem.failure))
                && visited[..] == old(visited[..])[mem.memberIndex := true]
                && failures == old(failures) + (if old(visited[mem.memberIndex]) then [] else [mem.failure])
    {
      var k := 0;
      while k < numberOfMember
        invariant 0 <= k <= numberOfMember
        invariant k <= mem.memberIndex ==>
                    failures == old(failures) && visited[..] == old(visited[..])
                    && mem.externalForce == old(mem.externalForce) && mem.failure == old(mem.failure)
        invariant mem.memberIndex < k ==>
                    mem.externalForce == Some(-x[mem.memberIndex])
                    && mem.failure == Verdict(-x[mem.memberIndex], mem.section, mem.eModule, mem.yieldStrength, mem.lengthSq, old(mem.failure))
                    && visited[..] == old(visited[..])[mem.memberIndex := true]
                    && failures == old(failures) + (if old(visited[mem.memberIndex]) then [] else [mem.failure])
      {
        if k == mem.memberIndex {
          mem.externalForce := Some(-x[k]);
          var fail := mem.Fail();
          if !visited[k] {
            failures := failures + [fail];
            visited[k] := true;
          }
        }
        k := k + 1;
      }
    }

    /** The first loop after i passes: the member lists and loads are those
        the nodes started with, every member is one of ms, the nodes before
        i are built, and the members are still valid and unchecked. */
    ghost predicate BuiltUpTo(num: Numerics, i: nat, lists: seq<seq<Member>>, loads: seq<Vec2>, ms: seq<Member>,
                              vs: seq<Visit>)
      reads nodes, set k | 0 <= k < |nodes| :: nodes[k].m, ms
    {
      i <= |nodes| && |lists| == |loads| == |nodes|
      && (forall k :: 0 <= k < |nodes| ==> nodes[k].members == lists[k] && Vec2(nodes[k].fx, nodes[k].fy) == loads[k])
      && (forall k, j :: 0 <= k < |nodes| && 0 <= j < |lists[k]| ==> lists[k][j] in ms)
      && (forall k :: 0 <= k < i ==> BuildFault(nodes[k], lists[k]).None? && Built(nodes[k], num))
      && AllValid(ms) && Current(vs, ms)
    }

    /** One pass of the first loop: buildForceEquations on node i, which
        leaves the nodes built before it as they were. */
    method BuildNode(num: Numerics, i: nat, ghost lists: seq<seq<Member>>, ghost loads: seq<Vec2>, ghost ms: seq<Member>,
                     ghost vs: seq<Visit>) returns (err: Option<Error>)
      requires i < |nodes| && Distinct(nodes) && BuiltUpTo(num, i, lists, loads, ms, vs)
      modifies nodes`n, nodes`m, nodes`r, nodes`f, ms`heading
      ensures err == BuildFault(nodes[i], lists[i])
      ensures err.None? ==> BuiltUpTo(num, i + 1, lists, loads, ms, vs)
    {
      DistinctApart(nodes, i);
      err := nodes[i].BuildForceEquations(num);
    }

    /** The first loop of solveForceEquations: buildForceEquations on every
        node in table order; the first error stops it. Once it completes,
        eqs holds the equations the nodes were given, which the assembly
        loop reads back from them. */
    method BuildAll(num: Numerics, ghost lists: seq<seq<Member>>, ghost loads: seq<Vec2>, ghost ms: seq<Member>,
                    ghost vs: seq<Visit>) returns (err: Option<Error>, eqs: seq<LocalEquations>)
      requires lists == MemberLists(nodes) && loads == Loads(nodes)
      requires forall k, j :: 0 <= k < |nodes| && 0 <= j < |lists[k]| ==> lists[k][j] in ms
      requires Distinct(nodes) && AllValid(ms) && Current(vs, ms)
      modifies nodes`n, nodes`m, nodes`r, nodes`f, ms`heading
      ensures SystemFor(num, nodes, lists, loads).Err? ==> err == Some(SystemFor(num, nodes, lists, loads).error)
      ensures SystemFor(num, nodes, lists, loads).Ok? ==> err == None && eqs == SystemFor(num, nodes, lists, loads).value
      ensures err.None? ==> |eqs| == |nodes| && AllWellShaped(eqs) && Supports(eqs) == SupportsOf(nodes)
      ensures err.None? ==>
                (forall k :: 0 <= k < |nodes| ==> nodes[k].m.Length0 == 2 && nodes[k].m.Length1 == |nodes[k].members|)
                && eqs == CurrentEquations(nodes)
      ensures AllValid(ms) && Current(vs, ms)
    {
      var i := 0;
      while i < |nodes|
        invariant i <= |nodes| && BuiltUpTo(num, i, lists, loads, ms, vs)
      {
        err := BuildNode(num, i, lists, loads, ms, vs);
        if err.Some? {
          FirstFaultAt(BuildFaults(nodes, lists), i);
          return err, [];
        }
        i := i + 1;
      }
      BuiltEquations(num, nodes, lists, loads);
      err, eqs := None, CurrentEquations(nodes);
    }

    /** One pass of the member loop of the routing loop, at position p of
        the flattened member list. */
    method RouteStep(mem: Member, x: seq<real>, ghost ms: seq<Member>, ghost vs: seq<Visit>, ghost forces0: seq<Option<real>>, ghost p: nat)
        returns (ghost next: nat)
      requires p < |ms| && mem == ms[p] && Describes(vs, ms) && |forces0| == |ms| && Checkable(vs)
      requires numberOfMember <= |x| && mem.Valid()
      requires forall t :: 0 <= t < |ms| && t != p ==> ms[t] != mem
      requires RoutedTo(ms, vs, forces0, x, numberOfMember, p, failures, visited[..])
      modifies this`failures, visited, mem`externalForce, mem`failure, mem`buckling, mem`yielding, mem`criticalForce
      ensures visited.Length == old(visited.Length)
      ensures next == p + 1 && RoutedTo(ms, vs, forces0, x, numberOfMember, next, failures, visited[..])
    {
      next := p + 1;
      ghost var done, v := vs[..p], vs[p];
      assert vs[..p + 1] == done + [v];
      assert mem.memberIndex == v.index && mem.failure == v.prior;
      RouteMember(mem, x);
      assert failures == ListAfter(vs[..p + 1], x, numberOfMember);
      assert visited[..] == FlagsAfter(vs[..p + 1], numberOfMember);
      assert forall t :: 0 <= t < p + 1 && vs[t].index < numberOfMember ==>
               ms[t].externalForce == Some(-x[vs[t].index])
               && ms[t].failure == Verdict(-x[vs[t].index], vs[t].section, vs[t].e, vs[t].strength, vs[t].lengthSq, vs[t].prior);
      assert forall t :: 0 <= t < |ms| && (p + 1 <= t || numberOfMember <= vs[t].index) ==>
               ms[t].externalForce == forces0[t] && ms[t].failure == vs[t].prior;
    }

    /** The member loop of the routing loop for one node, whose members sit
        at positions base .. base + |members| of the flattened member list. */
    method RouteNode(members: seq<Member>, x: seq<real>, ghost ms: seq<Member>, ghost vs: seq<Visit>, ghost forces0: seq<Option<real>>, ghost base: nat)
        returns (ghost next: nat)
      requires base + |members| <= |ms| && forall j :: 0 <= j < |members| ==> ms[base + j] == members[j]
      requires Describes(vs, ms) && |forces0| == |ms| && Checkable(vs) && numberOfMember <= |x|
      requires (forall t :: 0 <= t < |ms| ==> ms[t].Valid()) && Distinct(ms)
      requires RoutedTo(ms, vs, forces0, x, numberOfMember, base, failures, visited[..])
      modifies this`failures, visited, ms`externalForce, ms`failure, ms`buckling, ms`yielding, ms`criticalForce
      ensures visited.Length == old(visited.Length) && (forall t :: 0 <= t < |ms| ==> ms[t].Valid())
      ensures next == base + |members| && RoutedTo(ms, vs, forces0, x, numberOfMember, next, failures, visited[..])
    {
      next := base;
      var j := 0;
      while j < |members|
        invariant 0 <= j <= |members| && next == base + j && visited.Length == old(visited.Length)
        invariant forall t :: 0 <= t < |ms| ==> ms[t].Valid()
        invariant RoutedTo(ms, vs, forces0, x, numberOfMember, next, failures, visited[..])
      {
        DistinctApart(ms, next);
        next := RouteStep(members[j], x, ms, vs, forces0, next);
        j := j + 1;
      }
    }

    /** One pass of the node loop of the routing loop: the member loop for
        node i, whose members follow position p of the flattened list. */
    method RouteAt(i: nat, x: seq<real>, ghost lists: seq<seq<Member>>, ghost ms: seq<Member>, ghost vs: seq<Visit>,
                   ghost forces0: seq<Option<real>>, ghost p: nat)
        returns (ghost next: nat)
      requires i < |lists| == |nodes| && nodes[i].members == lists[i] && p <= |ms| && ms[p..] == Concat(lists, i)
      requires Describes(vs, ms) && |forces0| == |ms| && Checkable(vs) && numberOfMember <= |x|
      requires (forall t :: 0 <= t < |ms| ==> ms[t].Valid()) && Distinct(ms)
      requires RoutedTo(ms, vs, forces0, x, numberOfMember, p, failures, visited[..])
      modifies this`failures, visited, ms`externalForce, ms`failure, ms`buckling, ms`yielding, ms`criticalForce
      ensures visited.Length == old(visited.Length) && (forall t :: 0 <= t < |ms| ==> ms[t].Valid())
      ensures next <= |ms| && ms[next..] == Concat(lists, i + 1)
      ensures RoutedTo(ms, vs, forces0, x, numberOfMember, next, failures, visited[..])
    {
      var members := nodes[i].members;
      SuffixSplit(ms, p, members, Concat(lists, i + 1));
      next := RouteNode(members, x, ms, vs, forces0, p);
    }

    /** The node loop of the routing loop: the member loop for every node in
        table order, which walks the whole flattened member list. */
    method RouteNodes(x: seq<real>, ghost lists: seq<seq<Member>>, ghost ms: seq<Member>, ghost vs: seq<Visit>, ghost forces0: seq<Option<real>>)
        returns (ghost p: nat)
      requires |lists| == |nodes| && (forall k :: 0 <= k < |nodes| ==> nodes[k].members == lists[k]) && ms == Concat(lists, 0)
      requires Describes(vs, ms) && |forces0| == |ms| && Checkable(vs) && numberOfMember <= |x|
      requires (forall t :: 0 <= t < |ms| ==> ms[t].Valid()) && Distinct(ms)
      requires RoutedTo(ms, vs, forces0, x, numberOfMember, 0, failures, visited[..])
      modifies this`failures, visited, ms`externalForce, ms`failure, ms`buckling, ms`yielding, ms`criticalForce
      ensures visited.Length == old(visited.Length) && (forall t :: 0 <= t < |ms| ==> ms[t].Valid())
      ensures p == |ms| && RoutedTo(ms, vs, forces0, x, numberOfMember, p, failures, visited[..])
    {
      p := 0;
      assert ms[0..] == ms;
      var i := 0;
      while i < |nodes|
        invariant 0 <= i <= |nodes| && p <= |ms| && ms[p..] == Concat(lists, i)
        invariant (forall t :: 0 <= t < |ms| ==> ms[t].Valid()) && visited.Length == old(visited.Length)
        invariant RoutedTo(ms, vs, forces0, x, numberOfMember, p, failures, visited[..])
      {
        p := RouteAt(i, x, lists, ms, vs, forces0, p);
        i := i + 1;
      }
    }

    /** The routing loop of solveForceEquations: every member of every node,
        in table order, is handed the negated solved force of its index and
        checked; the first check of each index is appended to the failure
        list. */
    method Route(x: seq<real>, ghost lists: seq<seq<Member>>, ghost ms: seq<Member>, ghost vs: seq<Visit>)
      requires |lists| == |nodes| && (forall k :: 0 <= k < |nodes| ==> nodes[k].members == lists[k]) && ms == Concat(lists, 0)
      requires numberOfMember <= |x|
      requires AllValid(ms) && Distinct(ms) && Current(vs, ms)
      modifies this`failures, this`visited, ms`externalForce, ms`failure, ms`buckling, ms`yielding, ms`criticalForce
      ensures Describes(vs, ms) && Checkable(vs)
      ensures failures == FailureList(vs, x, numberOfMember) && Routed(ms, vs, x, numberOfMember)
    {
      ghost var forces0 := ExternalForces(ms);
      failures := [];
      visited := new bool[numberOfMember](k => false);
      assert Checkable(vs) && vs[..0] == [];
      ghost var last := RouteNodes(x, lists, ms, vs, forces0);
      RoutedAll(ms, vs, forces0, x, numberOfMember, last, failures, visited[..]);
    }

    /** A and f hold the system assembled from the given node equations:
        node i owns rows 2i and 2i + 1. */
    ghost predicate Assembled(eqs: seq<LocalEquations>)
      reads this`matrix, this`load, matrix, load
    {
      matrix.Length0 == matrix.Length1 == load.Length == 2 * |eqs|
      && AllWellShaped(eqs)
      && (forall row, c :: 0 <= row < 2 * |eqs| && 0 <= c < 2 * |eqs| ==>
            matrix[row, c] == RowCell(eqs, numberOfMember, row, c))
      && (forall row :: 0 <= row < 2 * |eqs| ==> load[row] == RowLoad(eqs, row))
    }

    /** The middle of solveForceEquations once the system is square: A and
        f are allocated as zeros and filled by the scatter loop. */
    method BuildSystem(eqs: seq<LocalEquations>) returns (err: Option<Error>)
      requires AllWellShaped(eqs) && 2 * |eqs| == numberOfMember + Offset(Supports(eqs))
      modifies this`matrix, this`load
      ensures fresh(matrix) && fresh(load)
      ensures err == FirstFault(Faults(eqs, 2 * |eqs|))
      ensures err.None? ==> Assembled(eqs)
    {
      var size := 2 * |eqs|;
      matrix := new real[size, size]((row, c) => 0.0);
      load := new real[size](row => 0.0);
      err := Assemble(eqs);
    }

    /** What solveForceEquations leaves once the node equations eqs are
        built: R is counted; a system that is not square is rejected;
        otherwise A and f are assembled from eqs, or the first node that
        cannot be scattered is reported; then F is solved from them, every
        member with an index below M holds its negated force and its
        verdict, and the failure list holds the verdicts of the first
        visits in visiting order. */
    ghost predicate Solved(num: Numerics, eqs: seq<LocalEquations>, ms: seq<Member>, vs: seq<Visit>, err: Option<Error>)
      reads this`numberOfReactions, this`matrix, this`load, this`unknownForces, this`failures, matrix, load
      reads ms`externalForce, ms`failure
    {
      numberOfReactions == Offset(Supports(eqs))
      && (2 * |nodes| != numberOfMember + numberOfReactions ==> err == Some(NotDeterministic))
      && (2 * |nodes| == numberOfMember + numberOfReactions ==> err == FirstFault(Faults(eqs, 2 * |nodes|)))
      && (err.None? ==>
            Assembled(eqs)
            && unknownForces == num.solve(Rows(matrix), Negated(load[..])) && numberOfMember <= |unknownForces|
            && Describes(vs, ms) && Checkable(vs)
            && failures == FailureList(vs, unknownForces, numberOfMember)
            && Routed(ms, vs, unknownForces, numberOfMember))
    }

    /** The last step of solveForceEquations: F = pinv(A) (-f), then the
        routing loop over the members of the nodes. */
    method SolveAndRoute(num: Numerics, ghost eqs: seq<LocalEquations>, ghost lists: seq<seq<Member>>, ghost ms: seq<Member>,
                         ghost vs: seq<Visit>)
      requires SolveKeepsLength(num) && Assembled(eqs) && numberOfMember <= load.Length
      requires |lists| == |nodes| && (forall k :: 0 <= k < |nodes| ==> nodes[k].members == lists[k]) && ms == Concat(lists, 0)
      requires AllValid(ms) && Distinct(ms) && Current(vs, ms)
      modifies this`unknownForces, this`failures, this`visited
      modifies ms`externalForce, ms`failure, ms`buckling, ms`yielding, ms`criticalForce
      ensures Assembled(eqs)
      ensures unknownForces == num.solve(Rows(matrix), Negated(load[..])) && numberOfMember <= |unknownForces|
      ensures Describes(vs, ms) && Checkable(vs)
      ensures failures == FailureList(vs, unknownForces, numberOfMember) && Routed(ms, vs, unknownForces, numberOfMember)
    {
      SolveSystem(num, eqs);
      Route(unknownForces, lists, ms, vs);
    }

    /** F = pinv(A) (-f): one unknown per column of the assembled system. */
    method SolveSystem(num: Numerics, ghost eqs: seq<LocalEquations>)
      requires SolveKeepsLength(num) && Assembled(eqs)
      modifies this`unknownForces
      ensures Assembled(eqs)
      ensures unknownForces == num.solve(Rows(matrix), Negated(load[..])) && |unknownForces| == load.Length
    {
      var rows, rhs := Rows(matrix), Negated(load[..]);
      SolveLength(num, rows, rhs);
      unknownForces := num.solve(rows, rhs);
    }

    /** solveForceEquations once every node is built: counts the reactions,
        checks 2N == M + R, assembles A F + f = 0 from the node equations,
        solves it and routes the member forces back. */
    method SolveBuilt(num: Numerics, eqs: seq<LocalEquations>, ghost lists: seq<seq<Member>>, ghost ms: seq<Member>,
                      ghost vs: seq<Visit>) returns (err: Option<Error>)
      requires SolveKeepsLength(num) && |eqs| == |nodes| && AllWellShaped(eqs) && Supports(eqs) == SupportsOf(nodes)
      requires |lists| == |nodes| && (forall k :: 0 <= k < |nodes| ==> nodes[k].members == lists[k]) && ms == Concat(lists, 0)
      requires AllValid(ms) && Distinct(ms) && Current(vs, ms)
      modifies this`numberOfReactions, this`matrix, this`load, this`unknownForces, this`failures, this`visited
      modifies ms`externalForce, ms`failure, ms`buckling, ms`yielding, ms`criticalForce
      ensures Solved(num, eqs, ms, vs, err)
    {
      CountReactions();
      if |nodes| * 2 != numberOfMember + numberOfReactions {
        return Some(NotDeterministic);
      }
      err := BuildSystem(eqs);
      if err.Some? {
        return;
      }
      SolveAndRoute(num, eqs, lists, ms, vs);
    }

    /** solveForceEquations: builds every node's equations, counts the
        reactions, checks 2N == M + R, assembles A F + f = 0, solves it and
        routes the member forces back for the failure checks. The members
        it reaches are ms, the members of the nodes in table order, and vs
        is what they hold when it is called. */
    method Solve(num: Numerics, ghost ms: seq<Member>, ghost vs: seq<Visit>) returns (err: Option<Error>)
      requires SolveKeepsLength(num) && ms == Flatten(nodes) && Current(vs, ms)
      requires Distinct(nodes) && Distinct(ms) && AllValid(ms)
      modifies this`n, this`numberOfReactions, this`matrix, this`load, this`unknownForces, this`failures, this`visited
      modifies nodes`n, nodes`m, nodes`r, nodes`f, ms`heading
      modifies ms`externalForce, ms`failure, ms`buckling, ms`yielding, ms`criticalForce
      ensures n == |nodes|
      ensures old(SystemOf(num, nodes)).Err? ==> err == Some(old(SystemOf(num, nodes)).error)
      ensures old(SystemOf(num, nodes)).Ok? ==> Solved(num, old(SystemOf(num, nodes)).value, ms, vs, err)
    {
      ghost var lists, loads := MemberLists(nodes), Loads(nodes);
      MembersFlattened(nodes);
      var eqs;
      err, eqs := BuildAll(num, lists, loads, ms, vs);
      n := |nodes|;
      if err.Some? {
        return;
      }
      err := SolveBuilt(num, eqs, lists, ms, vs);
    }
  }
}
