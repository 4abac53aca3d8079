/** run() (main.py): reads the node, member and force sections, fills the
    node dict, registers every member at both of its nodes, applies the
    forces, then builds the truss and solves it. Proved against Outcome,
    the value-level answer for the same text. */
module Runner {
  import opened Common
  import opened Text
  import opened CrossSection
  import opened Members
  import opened Nodes
  import opened Trusses
  import opened Reader
  import opened Solution

  /** The nodes hold the table: index, type, inclination and position of
      each entry, in table order. */
  predicate Holds(nodes: seq<Node>, table: seq<Entry>)
  {
    |nodes| == |table|
    && forall k :: 0 <= k < |nodes| ==>
         nodes[k].index == table[k].line && nodes[k].kind == table[k].record.kind
         && nodes[k].angle == Radians(table[k].record.angle)
         && nodes[k].x == table[k].record.x && nodes[k].y == table[k].record.y
  }

  /** The joints of the nodes as their members see them. */
  function NodeEnds(nodes: seq<Node>): (eps: seq<Endpoint>)
    ensures |eps| == |nodes| && forall k {:trigger eps[k]} :: 0 <= k < |nodes| ==> eps[k] == nodes[k].AsEndpoint()
  {
    seq(|nodes|, k requires 0 <= k < |nodes| => nodes[k].AsEndpoint())
  }

  /** No member has been checked yet. */
  ghost predicate Unchecked(ms: seq<Member>)
    reads ms`failure
  {
    forall t :: 0 <= t < |ms| ==> ms[t].failure == None
  }

  // ---------------------------------------------------------------------
  // The node loop

  /** A node built from the entry: its line as index, its type, its
      inclination turned into radians and its position. */
  predicate BuiltFrom(node: Node, e: Entry)
  {
    node.index == e.line && node.kind == e.record.kind && node.angle == Radians(e.record.angle)
    && node.x == e.record.x && node.y == e.record.y
  }

  /** Storing a node under its name keeps the nodes in step with the table. */
  lemma HoldsAfterDefine(nodes: seq<Node>, table: seq<Entry>, e: Entry, node: Node)
    requires Holds(nodes, table) && Distinct(Names(table)) && BuiltFrom(node, e)
    ensures Position(Names(table), e.record.name).Some? ==>
              Holds(nodes[Position(Names(table), e.record.name).value := node], Define(table, e))
    ensures Position(Names(table), e.record.name).None? ==> Holds(nodes + [node], Define(table, e))
  {
    DefineKeepsNamesApart(table, e);
    var names := Names(table);
    match Position(names, e.record.name)
    case Some(p) =>
      DistinctApart(names, p);
    case None =>
  }

  /** One more node line: its record is appended to the entries. */
  lemma NodeEntriesStep(num: Numerics, lines: seq<string>, i: nat)
    requires i < |lines| && NodeEntries(num, lines[..i]).Ok?
    ensures ParseNode(num, Fields(lines[i])).Err? ==>
              NodeEntries(num, lines[..i + 1]) == Err(ParseNode(num, Fields(lines[i])).error)
    ensures ParseNode(num, Fields(lines[i])).Ok? ==>
              var es := NodeEntries(num, lines[..i]).value;
              NodeEntries(num, lines[..i + 1]) == Ok(es + [Entry(i, ParseNode(num, Fields(lines[i])).value)])
              && Table(es + [Entry(i, ParseNode(num, Fields(lines[i])).value)])
                 == Define(Table(es), Entry(i, ParseNode(num, Fields(lines[i])).value))
  {
    assert lines[..i + 1][..i] == lines[..i];
    var es := NodeEntries(num, lines[..i]).value;
    if ParseNode(num, Fields(lines[i])).Ok? {
      assert (es + [Entry(i, ParseNode(num, Fields(lines[i])).value)])[..|es|] == es;
    }
  }

  /** Nodes just built: no members and no load yet. */
  predicate Bare(nodes: seq<Node>)
    reads set k | 0 <= k < |nodes| :: nodes[k]
  {
    forall k :: 0 <= k < |nodes| ==> nodes[k].members == [] && nodes[k].fx == 0.0 && nodes[k].fy == 0.0
  }

  /** No node is stored twice. */
  predicate Apart(nodes: seq<Node>)
  {
    forall a, b :: 0 <= a < b < |nodes| ==> nodes[a] != nodes[b]
  }

  /** node_dict[name] = Node(...): one node built from the entry and stored
      under its name, in the old place if the name is taken. */
  method StoreNode(names: seq<string>, nodes: seq<Node>, e: Entry, ghost table: seq<Entry>)
    returns (names': seq<string>, nodes': seq<Node>)
    requires Distinct(Names(table)) && names == Names(table) && Holds(nodes, table)
    requires Apart(nodes) && Bare(nodes)
    ensures names' == Names(Define(table, e)) && Holds(nodes', Define(table, e))
    ensures Apart(nodes') && Bare(nodes')
    ensures forall k :: 0 <= k < |nodes'| ==> nodes'[k] in nodes || fresh(nodes'[k])
  {
    var node := new Node(e.line, e.record.kind, e.record.x, e.record.y, e.record.angle);
    HoldsAfterDefine(nodes, table, e, node);
    DefineKeepsNamesApart(table, e);
    match Position(names, e.record.name) {
      case Some(p) =>
        nodes' := nodes[p := node];
        names' := names;
      case None =>
        names', nodes' := names + [e.record.name], nodes + [node];
    }
  }

  /** The nodes read from the first i node lines. */
  ghost predicate NodesRead(num: Numerics, lines: seq<string>, i: nat, names: seq<string>, nodes: seq<Node>)
    requires i <= |lines|
    reads set k | 0 <= k < |nodes| :: nodes[k]
  {
    NodeEntries(num, lines[..i]).Ok?
    && names == Names(Table(NodeEntries(num, lines[..i]).value))
    && Holds(nodes, Table(NodeEntries(num, lines[..i]).value))
    && Apart(nodes) && Bare(nodes)
  }

  /** One node line: its record read, its node built and stored. */
  method NodeLine(num: Numerics, lines: seq<string>, i: nat, names: seq<string>, nodes: seq<Node>)
    returns (err: Option<Error>, names': seq<string>, nodes': seq<Node>)
    requires i < |lines| && NodesRead(num, lines, i, names, nodes)
    ensures NodeEntries(num, lines[..i + 1]).Err? ==> err == Some(NodeEntries(num, lines[..i + 1]).error)
    ensures NodeEntries(num, lines[..i + 1]).Ok? ==> err == None && NodesRead(num, lines, i + 1, names', nodes')
    ensures forall k :: 0 <= k < |nodes'| ==> nodes'[k] in nodes || fresh(nodes'[k])
  {
    var record := ParseNode(num, Fields(lines[i]));
    NodeEntriesStep(num, lines, i);
    if record.Err? {
      return Some(record.error), names, nodes;
    }
    ghost var table := Table(NodeEntries(num, lines[..i]).value);
    names', nodes' := StoreNode(names, nodes, Entry(i, record.value), table);
    err := None;
  }

  /** The node loop: one node per line, stored under its name; a name
      defined again gets the new node in the old place. */
  method ReadNodes(num: Numerics, lines: seq<string>) returns (err: Option<Error>, names: seq<string>, nodes: seq<Node>)
    ensures NodeTable(num, lines).Err? ==> err == Some(NodeTable(num, lines).error)
    ensures NodeTable(num, lines).Ok? ==>
              err == None && names == Names(NodeTable(num, lines).value) && Holds(nodes, NodeTable(num, lines).value)
    ensures Distinct(nodes) && Bare(nodes)
    ensures forall k :: 0 <= k < |nodes| ==> fresh(nodes[k])
  {
    names, nodes := [], [];
    var i := 0;
    while i < |lines|
      invariant i <= |lines| && NodesRead(num, lines, i, names, nodes)
      invariant forall k :: 0 <= k < |nodes| ==> fresh(nodes[k])
    {
      err, names, nodes := NodeLine(num, lines, i, names, nodes);
      if err.Some? {
        NodeEntriesStop(num, lines, i + 1);
        return err, [], [];
      }
      i := i + 1;
    }
    assert lines[..i] == lines;
    PairwiseDistinct(nodes);
    err := None;
  }

  // ---------------------------------------------------------------------
  // The member loop

  lemma {:induction false} ConcatAppend(lists: seq<seq<Member>>, p: nat, m: Member, from: nat)
    requires p < |lists| && from <= |lists|
    ensures multiset(Concat(lists[p := lists[p] + [m]], from))
            == multiset(Concat(lists, from)) + (if from <= p then multiset{m} else multiset{})
    decreases |lists| - from
  {
    if from < |lists| {
      ConcatAppend(lists, p, m, from + 1);
      var updated := lists[p := lists[p] + [m]];
      var here, rest := updated[from], Concat(updated, from + 1);
      assert Concat(updated, from) == here + rest;
      assert multiset(here + rest) == multiset(here) + multiset(rest);
      assert multiset(Concat(lists, from)) == multiset(lists[from]) + multiset(Concat(lists, from + 1));
      if from == p {
        assert multiset(here) == multiset(lists[from]) + multiset{m};
      } else {
        assert here == lists[from];
      }
    }
  }

  lemma {:induction false} ConcatMembers(lists: seq<seq<Member>>, from: nat)
    requires from <= |lists|
    ensures forall x :: x in Concat(lists, from) ==>
              exists k, j :: from <= k < |lists| && 0 <= j < |lists[k]| && lists[k][j] == x
    decreases |lists| - from
  {
    if from < |lists| {
      ConcatMembers(lists, from + 1);
      assert Concat(lists, from) == lists[from] + Concat(lists, from + 1);
      forall x | x in Concat(lists, from)
        ensures exists k, j :: from <= k < |lists| && 0 <= j < |lists[k]| && lists[k][j] == x
      {
        if x in lists[from] {
          var j :| 0 <= j < |lists[from]| && lists[from][j] == x;
          assert from <= from < |lists| && lists[from][j] == x;
        }
      }
    }
  }

  lemma {:induction false} ConcatEmpty(lists: seq<seq<Member>>, from: nat)
    requires from <= |lists| && forall k :: 0 <= k < |lists| ==> lists[k] == []
    ensures Concat(lists, from) == []
    decreases |lists| - from
  {
    if from < |lists| {
      ConcatEmpty(lists, from + 1);
    }
  }

  /** Nothing occurs twice in the sequence. */
  predicate Once(s: seq<Member>)
  {
    forall x | x in s :: multiset(s)[x] <= 1
  }

  /** A sequence in which nothing occurs twice has no repeats. */
  lemma {:induction false} SingleOccurrences(s: seq<Member>)
    requires Once(s)
    ensures Distinct(s)
  {
    if s != [] {
      var front, last := s[..|s| - 1], s[|s| - 1];
      assert s == front + [last];
      assert multiset(s) == multiset(front) + multiset{last};
      assert Once(front) by {
        forall x | x in front ensures multiset(front)[x] <= 1 {
          assert multiset(s)[x] == multiset(front)[x] + multiset{last}[x];
        }
      }
      SingleOccurrences(front);
      assert last !in multiset(front) by {
        assert multiset(s)[last] == multiset(front)[last] + 1;
      }
      forall k | 0 <= k < |front| ensures front[k] != last {
        assert front[k] in multiset(front);
      }
    }
  }

  /** Every member of the lists is one of the given ones. */
  predicate Among(lists: seq<seq<Member>>, made: set<Member>)
  {
    forall k, j :: 0 <= k < |lists| && 0 <= j < |lists[k]| ==> lists[k][j] in made
  }

  lemma {:induction false} ConcatAmong(lists: seq<seq<Member>>, made: set<Member>)
    requires Among(lists, made)
    ensures forall t :: 0 <= t < |Concat(lists, 0)| ==> Concat(lists, 0)[t] in made
  {
    ConcatMembers(lists, 0);
    forall t | 0 <= t < |Concat(lists, 0)| ensures Concat(lists, 0)[t] in made {
      assert Concat(lists, 0)[t] in Concat(lists, 0);
    }
  }

  /** Appending a member not made before keeps every member occurring at
      most once, and every member among the made ones. */
  lemma AppendNew(lists: seq<seq<Member>>, made: set<Member>, p: nat, m: Member)
    requires p < |lists| && Once(Concat(lists, 0)) && Among(lists, made) && m !in made
    ensures Once(Concat(lists[p := lists[p] + [m]], 0)) && Among(lists[p := lists[p] + [m]], made + {m})
  {
    ConcatMembers(lists, 0);
    ConcatAppend(lists, p, m, 0);
    assert m !in Concat(lists, 0);
    assert m !in multiset(Concat(lists, 0));
  }

  /** The registrations after one more link: at each node, its first end
      and then its second end, when they are that node. */
  lemma RegistrationsStep(links: seq<Link>, link: Link, eps: seq<Endpoint>, k: nat)
    requires LinksWithin(links, |eps|) && link.from < |eps| && link.to < |eps| && WellFormed(link.section) && k < |eps|
    ensures LinksWithin(links + [link], |eps|)
    ensures Registrations(links + [link], eps, k)
            == Registrations(links, eps, k)
               + (if link.from == k then [MemberView(|links|, eps[link.from], eps[link.to], link.section, link.e, link.strength)] else [])
               + (if link.to == k then [MemberView(|links|, eps[link.to], eps[link.from], link.section, link.e, link.strength)] else [])
  {
    assert (links + [link])[..|links|] == links;
    assert forall i :: 0 <= i < |links| ==> (links + [link])[i] == links[i];
  }

  /** One member line registers its member at its first node, then at its
      second: the member lists follow the registrations of one more link. */
  lemma MemberLineStep(lists: seq<seq<Member>>, links: seq<Link>, link: Link, eps: seq<Endpoint>, first: Member, second: Member)
    requires |lists| == |eps| && LinksWithin(links, |eps|)
    requires link.from < |eps| && link.to < |eps| && WellFormed(link.section)
    requires forall k :: 0 <= k < |lists| ==> Views(lists[k]) == Registrations(links, eps, k)
    requires ViewOf(first) == MemberView(|links|, eps[link.from], eps[link.to], link.section, link.e, link.strength)
    requires ViewOf(second) == MemberView(|links|, eps[link.to], eps[link.from], link.section, link.e, link.strength)
    ensures var once := lists[link.from := lists[link.from] + [first]];
            var twice := once[link.to := once[link.to] + [second]];
            LinksWithin(links + [link], |eps|)
            && forall k :: 0 <= k < |lists| ==> Views(twice[k]) == Registrations(links + [link], eps, k)
  {
    RegistrationsStep(links, link, eps, 0);
    var once := lists[link.from := lists[link.from] + [first]];
    var twice := once[link.to := once[link.to] + [second]];
    forall k | 0 <= k < |lists| ensures Views(twice[k]) == Registrations(links + [link], eps, k) {
      RegistrationsStep(links, link, eps, k);
      assert forall l: seq<Member>, m: Member :: Views(l + [m]) == Views(l) + [ViewOf(m)];
    }
  }

  /** The members made so far are built and not yet checked. */
  ghost predicate Ready(made: set<Member>)
    reads made
  {
    forall x | x in made :: x.Valid() && x.failure == None
  }

  lemma ReadyAdd(made: set<Member>, m: Member)
    requires Ready(made) && m.Valid() && m.failure == None
    ensures Ready(made + {m})
  {
  }

  /** add_member at node p with node q as the other end: a member made
      now is appended to p's list. */
  method AddAt(nodes: seq<Node>, p: nat, q: nat, i: nat, shape: string, dims: seq<real>, e: real, strength: real,
               ghost lists: seq<seq<Member>>, ghost made: set<Member>)
    returns (err: Option<Error>, ghost lists': seq<seq<Member>>, ghost made': set<Member>)
    requires p < |nodes| && q < |nodes| && |lists| == |nodes| && Distinct(nodes)
    requires forall k :: 0 <= k < |nodes| ==> nodes[k].members == lists[k]
    requires Among(lists, made) && Once(Concat(lists, 0)) && Ready(made)
    modifies nodes`members
    ensures SectionOf(shape, dims).Err? ==> err == Some(SectionOf(shape, dims).error)
    ensures SectionOf(shape, dims).Ok? ==>
              err == None && |lists'| == |nodes| && (forall k :: 0 <= k < |nodes| ==> nodes[k].members == lists'[k])
              && Among(lists', made') && Once(Concat(lists', 0)) && Ready(made')
              && |lists'[p]| == |lists[p]| + 1 && lists' == lists[p := lists'[p]]
              && lists'[p] == lists[p] + [lists'[p][|lists[p]|]]
              && ViewOf(lists'[p][|lists[p]|])
                 == MemberView(i, nodes[p].AsEndpoint(), nodes[q].AsEndpoint(), SectionOf(shape, dims).value, e, strength)
              && made' == made + {lists'[p][|lists[p]|]} && fresh(lists'[p][|lists[p]|])
  {
    lists', made' := lists, made;
    DistinctApart(nodes, p);
    err := nodes[p].AddMember(i, nodes[p], nodes[q], shape, dims, e, strength);
    if err.Some? {
      return;
    }
    ghost var added := nodes[p].members[|lists[p]|];
    AppendNew(lists, made, p, added);
    ReadyAdd(made, added);
    lists', made' := lists[p := lists[p] + [added]], made + {added};
  }

  /** The second half of one pass of the member loop: the member of a
      checked line is added at its first node, then at its second. */
  method Register(nodes: seq<Node>, from: nat, to: nat, i: nat, shape: string, dims: seq<real>, e: real, strength: real,
                  eps: seq<Endpoint>, ghost lists: seq<seq<Member>>, ghost made: set<Member>, ghost links: seq<Link>)
    returns (err: Option<Error>, ghost lists': seq<seq<Member>>, ghost made': set<Member>)
    requires from < |nodes| && to < |nodes| && |lists| == |nodes| && Distinct(nodes) && eps == NodeEnds(nodes)
    requires forall k :: 0 <= k < |nodes| ==> nodes[k].members == lists[k]
    requires Among(lists, made) && Once(Concat(lists, 0)) && Ready(made)
    requires LinksWithin(links, |eps|) && |links| == i
    requires forall k :: 0 <= k < |lists| ==> Views(lists[k]) == Registrations(links, eps, k)
    modifies nodes`members
    ensures SectionOf(shape, dims).Err? ==> err == Some(SectionOf(shape, dims).error)
    ensures SectionOf(shape, dims).Ok? ==>
              var link := Link(from, to, SectionOf(shape, dims).value, e, strength);
              err == None && |lists'| == |nodes|
              && (forall k :: 0 <= k < |nodes| ==> nodes[k].members == lists'[k])
              && Among(lists', made') && Once(Concat(lists', 0)) && Ready(made')
              && LinksWithin(links + [link], |eps|)
              && (forall k :: 0 <= k < |lists'| ==> Views(lists'[k]) == Registrations(links + [link], eps, k))
              && made <= made' && forall x | x in made' && x !in made :: fresh(x)
  {
    err, lists', made' := AddAt(nodes, from, to, i, shape, dims, e, strength, lists, made);
    if err.Some? {
      return;
    }
    ghost var first := lists'[from][|lists[from]|];
    ghost var once, made1 := lists', made';
    err, lists', made' := AddAt(nodes, to, from, i, shape, dims, e, strength, once, made1);
    ghost var second := lists'[to][|once[to]|];
    MemberLineStep(lists, links, Link(from, to, SectionOf(shape, dims).value, e, strength), eps, first, second);
  }

  /** The member lists of the nodes follow the links read so far, and
      hold members that were built, each once. */
  ghost predicate Filled(nodes: seq<Node>, eps: seq<Endpoint>, links: seq<Link>, lists: seq<seq<Member>>, made: set<Member>)
    reads set k | 0 <= k < |nodes| :: nodes[k], made
  {
    |lists| == |nodes| == |eps| && LinksWithin(links, |eps|)
    && (forall k :: 0 <= k < |nodes| ==> nodes[k].members == lists[k])
    && (forall k :: 0 <= k < |lists| ==> Views(lists[k]) == Registrations(links, eps, k))
    && Among(lists, made) && Once(Concat(lists, 0)) && Ready(made)
  }

  /** One pass of the member loop: the line is checked, then its member
      registered. */
  method AddLine(num: Numerics, names: seq<string>, nodes: seq<Node>, line: string, i: nat, eps: seq<Endpoint>,
                 ghost lists: seq<seq<Member>>, ghost made: set<Member>, ghost links: seq<Link>)
    returns (err: Option<Error>, ghost lists': seq<seq<Member>>, ghost made': set<Member>)
    requires |names| == |nodes| && Distinct(nodes) && eps == NodeEnds(nodes) && |links| == i
    requires Filled(nodes, eps, links, lists, made)
    modifies nodes`members
    ensures LinkOf(num, names, line).Err? ==> err == Some(LinkOf(num, names, line).error)
    ensures LinkOf(num, names, line).Ok? ==>
              err == None && Filled(nodes, eps, links + [LinkOf(num, names, line).value], lists', made')
              && made <= made' && forall x | x in made' && x !in made :: fresh(x)
  {
    var record := ParseMember(num, names, Fields(line));
    if record.Err? {
      return Some(record.error), lists, made;
    }
    var m := record.value;
    var from, to := Position(names, m.from).value, Position(names, m.to).value;
    err, lists', made' := Register(nodes, from, to, i, m.shape, m.dims, m.e, m.strength, eps, lists, made, links);
  }

  /** Once the loop is done, the joined member lists hold each member once,
      every one of them built and not yet checked. */
  lemma MembersReady(lists: seq<seq<Member>>, made: set<Member>)
    requires Once(Concat(lists, 0)) && Among(lists, made) && Ready(made)
    ensures var ms := Concat(lists, 0);
            Distinct(ms) && AllValid(ms) && Unchecked(ms) && forall t :: 0 <= t < |ms| ==> ms[t] in made
  {
    SingleOccurrences(Concat(lists, 0));
    ConcatAmong(lists, made);
  }

  /** The first i member lines are read and their members registered. */
  ghost predicate LinesAdded(num: Numerics, names: seq<string>, lines: seq<string>, i: nat, nodes: seq<Node>,
                             eps: seq<Endpoint>, lists: seq<seq<Member>>, made: set<Member>)
    reads set k | 0 <= k < |nodes| :: nodes[k], made
  {
    i <= |lines| && Links(num, names, lines[..i]).Ok? && |Links(num, names, lines[..i]).value| == i
    && Filled(nodes, eps, Links(num, names, lines[..i]).value, lists, made)
  }

  /** Before the first member line, nothing is registered. */
  lemma NothingAdded(num: Numerics, names: seq<string>, lines: seq<string>, nodes: seq<Node>, eps: seq<Endpoint>,
                     lists: seq<seq<Member>>)
    requires |eps| == |nodes| && lists == seq(|nodes|, k => [])
    requires forall k :: 0 <= k < |nodes| ==> nodes[k].members == []
    ensures LinesAdded(num, names, lines, 0, nodes, eps, lists, {})
  {
    assert lines[..0] == [];
    ConcatEmpty(lists, 0);
  }

  /** One member line: read, and its member registered at both nodes. */
  method MemberLine(num: Numerics, names: seq<string>, lines: seq<string>, i: nat, nodes: seq<Node>, eps: seq<Endpoint>,
                    ghost lists: seq<seq<Member>>, ghost made: set<Member>)
    returns (err: Option<Error>, ghost lists': seq<seq<Member>>, ghost made': set<Member>)
    requires |names| == |nodes| && Distinct(nodes) && eps == NodeEnds(nodes)
    requires i < |lines| && LinesAdded(num, names, lines, i, nodes, eps, lists, made)
    modifies nodes`members
    ensures Links(num, names, lines[..i + 1]).Err? ==> err == Some(Links(num, names, lines[..i + 1]).error)
    ensures Links(num, names, lines[..i + 1]).Ok? ==> err == None && LinesAdded(num, names, lines, i + 1, nodes, eps, lists', made')
    ensures forall x | x in made' :: x in made || fresh(x)
  {
    LinksStep(num, names, lines, i);
    err, lists', made' := AddLine(num, names, nodes, lines[i], i, eps, lists, made, Links(num, names, lines[..i]).value);
    if err.Some? {
      made' := made;
    }
  }

  /** The member loop itself: the lists and the made members follow the
      links of the lines read so far. */
  method MemberLoop(num: Numerics, lines: seq<string>, names: seq<string>, nodes: seq<Node>, eps: seq<Endpoint>)
    returns (err: Option<Error>, ghost lists: seq<seq<Member>>, ghost made: set<Member>)
    requires |names| == |nodes| && Distinct(nodes) && eps == NodeEnds(nodes)
    requires forall k :: 0 <= k < |nodes| ==> nodes[k].members == []
    modifies nodes`members
    ensures Links(num, names, lines).Err? ==> err == Some(Links(num, names, lines).error)
    ensures Links(num, names, lines).Ok? ==> err == None && Filled(nodes, eps, Links(num, names, lines).value, lists, made)
    ensures forall x | x in made :: fresh(x)
  {
    lists, made := seq(|nodes|, k => []), {};
    NothingAdded(num, names, lines, nodes, eps, lists);
    var i := 0;
    while i < |lines|
      invariant LinesAdded(num, names, lines, i, nodes, eps, lists, made)
      invariant forall x | x in made :: fresh(x)
    {
      err, lists, made := MemberLine(num, names, lines, i, nodes, eps, lists, made);
      if err.Some? {
        LinksStop(num, names, lines, i + 1);
        return;
      }
      i := i + 1;
    }
    assert lines[..i] == lines;
    err := None;
  }

  /** The member loop: each member line is checked and its member added at
      its first node, then at its second. The lists are the member lists
      the nodes end with. */
  method AddMembers(num: Numerics, lines: seq<string>, names: seq<string>, nodes: seq<Node>)
    returns (err: Option<Error>, ghost lists: seq<seq<Member>>)
    requires |names| == |nodes| && Distinct(nodes)
    requires forall k :: 0 <= k < |nodes| ==> nodes[k].members == []
    modifies nodes`members
    ensures Links(num, names, lines).Err? ==> err == Some(Links(num, names, lines).error)
    ensures Links(num, names, lines).Ok? ==>
              err == None && MemberLists(nodes) == lists
              && forall k :: 0 <= k < |nodes| ==> Views(lists[k]) == Registrations(Links(num, names, lines).value, NodeEnds(nodes), k)
    ensures err == None ==>
              var ms := Concat(lists, 0);
              Distinct(ms) && AllValid(ms) && Unchecked(ms) && forall t :: 0 <= t < |ms| ==> fresh(ms[t])
  {
    ghost var made;
    err, lists, made := MemberLoop(num, lines, names, nodes, NodeEnds(nodes));
    if err.Some? {
      return;
    }
    assert MemberLists(nodes) == lists;
    MembersReady(lists, made);
  }

  // ---------------------------------------------------------------------
  // The force loop

  /** The loads of the first `count` table positions after the forces. */
  function LoadsOf(num: Numerics, forces: seq<Force>, count: nat): (loads: seq<Vec2>)
    ensures |loads| == count && forall k {:trigger loads[k]} :: 0 <= k < count ==> loads[k] == LoadAt(num, forces, k)
  {
    seq(count, k requires 0 <= k < count => LoadAt(num, forces, k))
  }

  /** The force loop: each force line sets the load of its node. */
  method AddForces(num: Numerics, lines: seq<string>, names: seq<string>, nodes: seq<Node>) returns (err: Option<Error>)
    requires |names| == |nodes| && Distinct(nodes)
    requires forall k :: 0 <= k < |nodes| ==> nodes[k].fx == 0.0 && nodes[k].fy == 0.0
    modifies nodes`fx, nodes`fy
    ensures Forces(num, names, lines).Err? ==> err == Some(Forces(num, names, lines).error)
    ensures Forces(num, names, lines).Ok? ==>
              err == None && Loads(nodes) == LoadsOf(num, Forces(num, names, lines).value, |nodes|)
  {
    ghost var forces: seq<Force> := [];
    var i := 0;
    while i < |lines|
      invariant i <= |lines| && Forces(num, names, lines[..i]) == Ok(forces)
      invariant forall k :: 0 <= k < |nodes| ==> Vec2(nodes[k].fx, nodes[k].fy) == LoadAt(num, forces, k)
    {
      var record := ParseForce(num, names, Fields(lines[i]));
      ForcesStep(num, names, lines, i);
      if record.Err? {
        ForcesStop(num, names, lines, i + 1);
        return Some(record.error);
      }
      var at := Position(names, record.value.node).value;
      ghost var f := Force(at, record.value.amp, record.value.angle);
      assert (forces + [f])[..|forces|] == forces;
      nodes[at].AddForce(num, record.value.amp, record.value.angle);
      DistinctApart(nodes, at);
      forces := forces + [f];
      i := i + 1;
    }
    assert lines[..i] == lines;
    assert Loads(nodes) == LoadsOf(num, forces, |nodes|);
    err := None;
  }

  // ---------------------------------------------------------------------
  // Building and solving the truss

  /** A node's members all end at it. */
  lemma NodeAttached(input: Input, nodes: seq<Node>, lists: seq<seq<Member>>, k: nat)
    requires input.Consistent() && Holds(nodes, input.table) && |lists| == |nodes| && k < |nodes|
    requires Views(lists[k]) == Registrations(input.links, Endpoints(input.table), k)
    ensures Attached(lists[k], nodes[k].index)
  {
    var eps := Endpoints(input.table);
    forall j | 0 <= j < |lists[k]| ensures Heading(lists[k][j].nodeI, lists[k][j].nodeJ, nodes[k].index).Ok? {
      assert Views(lists[k])[j].near == eps[k];
    }
  }

  /** The equations node k would build are those of entry k of the table. */
  lemma NodeEquations(num: Numerics, input: Input, nodes: seq<Node>, lists: seq<seq<Member>>, loads: seq<Vec2>, k: nat)
    requires input.Consistent() && Holds(nodes, input.table) && |lists| == |loads| == |nodes| && k < |nodes|
    requires Views(lists[k]) == Registrations(input.links, Endpoints(input.table), k)
    requires loads[k] == LoadAt(num, input.forces, k) && Attached(lists[k], nodes[k].index)
    ensures ExpectedEquations(num, nodes[k], lists[k], loads[k]) == EquationsAt(num, input, k)
  {
    var regs := Registrations(input.links, Endpoints(input.table), k);
    var eq := EquationsAt(num, input, k);
    assert Indices(lists[k]) == eq.indices by {
      forall j | 0 <= j < |lists[k]| ensures Indices(lists[k])[j] == eq.indices[j] {
        assert Views(lists[k])[j] == regs[j];
      }
    }
    assert MemberColumns(num, lists[k], nodes[k].index) == eq.columns by {
      forall j | 0 <= j < |lists[k]| ensures MemberColumns(num, lists[k], nodes[k].index)[j] == eq.columns[j] {
        assert Views(lists[k])[j] == regs[j];
      }
    }
  }

  /** When every fault is an unknown node type and there is one, that is
      the first fault. */
  lemma OnlyWrongType(fs: seq<Option<Error>>, k: nat)
    requires k < |fs| && fs[k].Some? && forall j :: 0 <= j < |fs| && fs[j].Some? ==> fs[j] == Some(WrongNodeType)
    ensures FirstFault(fs) == Some(WrongNodeType)
  {
  }

  /** The equations the nodes would build are those of the table. */
  lemma SystemMatches(num: Numerics, input: Input, nodes: seq<Node>, lists: seq<seq<Member>>, loads: seq<Vec2>)
    requires input.Consistent() && Holds(nodes, input.table) && |lists| == |loads| == |nodes|
    requires forall k :: 0 <= k < |nodes| ==>
               Views(lists[k]) == Registrations(input.links, Endpoints(input.table), k)
               && loads[k] == LoadAt(num, input.forces, k)
    ensures HasUnknownSupport(input.table) ==> SystemFor(num, nodes, lists, loads) == Err(WrongNodeType)
    ensures !HasUnknownSupport(input.table) ==> SystemFor(num, nodes, lists, loads) == Ok(InputEquations(num, input))
  {
    forall k | 0 <= k < |nodes| ensures Attached(lists[k], nodes[k].index) {
      NodeAttached(input, nodes, lists, k);
    }
    var fs := BuildFaults(nodes, lists);
    assert forall k :: 0 <= k < |nodes| ==> fs[k] == if nodes[k].Support().Unsupported? then Some(WrongNodeType) else None;
    if HasUnknownSupport(input.table) {
      var k :| 0 <= k < |input.table| && SupportOf(input.table[k].record.kind).Unsupported?;
      assert fs[k].Some?;
      OnlyWrongType(fs, k);
    } else {
      var eqs, expected := InputEquations(num, input), ExpectedAll(num, nodes, lists, loads);
      forall k | 0 <= k < |nodes| ensures expected[k] == eqs[k] {
        NodeEquations(num, input, nodes, lists, loads, k);
      }
      assert expected == eqs;
    }
  }

  lemma {:induction false} ViewsConcat(lists: seq<seq<Member>>, links: seq<Link>, eps: seq<Endpoint>, from: nat)
    requires LinksWithin(links, |eps|) && |lists| == |eps| && from <= |lists|
    requires forall k :: 0 <= k < |lists| ==> Views(lists[k]) == Registrations(links, eps, k)
    ensures Views(Concat(lists, from)) == AllRegistrations(links, eps, from)
    decreases |lists| - from
  {
    if from < |lists| {
      ViewsConcat(lists, links, eps, from + 1);
      assert Views(lists[from] + Concat(lists, from + 1)) == Views(lists[from]) + Views(Concat(lists, from + 1));
    }
  }

  /** What the members hold before the solve is what a freshly read truss
      holds. */
  lemma VisitsMatch(input: Input, lists: seq<seq<Member>>, ms: seq<Member>)
    requires input.Consistent() && |lists| == |input.table| && ms == Concat(lists, 0)
    requires forall k :: 0 <= k < |lists| ==> Views(lists[k]) == Registrations(input.links, Endpoints(input.table), k)
    requires AllValid(ms) && Unchecked(ms)
    ensures Snapshot(ms) == InputVisits(input)
  {
    ViewsConcat(lists, input.links, Endpoints(input.table), 0);
    var all := AllRegistrations(input.links, Endpoints(input.table), 0);
    forall t | 0 <= t < |ms| ensures Snapshot(ms)[t] == InputVisits(input)[t] {
      assert Views(ms)[t] == all[t];
      assert ms[t].Valid();
    }
  }

  /** The assembled matrix and load are SystemRows and SystemLoad. */
  lemma AssembledRows(truss: Truss, eqs: seq<LocalEquations>)
    requires truss.Assembled(eqs)
    ensures Rows(truss.matrix) == SystemRows(eqs, truss.numberOfMember)
    ensures truss.load[..] == SystemLoad(eqs)
  {
    var rows, expected := Rows(truss.matrix), SystemRows(eqs, truss.numberOfMember);
    forall row | 0 <= row < |rows| ensures rows[row] == expected[row] {
    }
  }

  /** Before the solve, the nodes would build the equations of the table
      and the members hold what a freshly read truss holds. */
  lemma Prepared(num: Numerics, input: Input, nodes: seq<Node>, lists: seq<seq<Member>>, ms: seq<Member>)
    requires input.Consistent() && Holds(nodes, input.table) && MemberLists(nodes) == lists
    requires forall k :: 0 <= k < |lists| ==> Views(lists[k]) == Registrations(input.links, Endpoints(input.table), k)
    requires Loads(nodes) == LoadsOf(num, input.forces, |nodes|)
    requires ms == Concat(lists, 0) && AllValid(ms) && Unchecked(ms)
    ensures HasUnknownSupport(input.table) ==> SystemOf(num, nodes) == Err(WrongNodeType)
    ensures !HasUnknownSupport(input.table) ==> SystemOf(num, nodes) == Ok(InputEquations(num, input))
    ensures Snapshot(ms) == InputVisits(input) && Current(Snapshot(ms), ms) && ms == Flatten(nodes)
  {
    SystemMatches(num, input, nodes, lists, Loads(nodes));
    VisitsMatch(input, lists, ms);
  }

  /** Answer, read off what the solver leaves: its error, or the forces
      and the failure list computed from the assembled system. */
  lemma AnswerOf(num: Numerics, input: Input, sys: Result<seq<LocalEquations>>, vs: seq<Visit>,
                 err: Option<Error>, reactions: nat, x: seq<real>, failures: seq<Option<bool>>)
    requires SolveKeepsLength(num) && input.Consistent()
    requires HasUnknownSupport(input.table) ==> sys == Err(WrongNodeType)
    requires !HasUnknownSupport(input.table) ==> sys == Ok(InputEquations(num, input))
    requires vs == InputVisits(input)
    requires sys.Err? ==> err == Some(sys.error)
    requires sys.Ok? ==>
               var size := 2 * |input.table|;
               reactions == Offset(Supports(sys.value))
               && (size != |input.links| + reactions ==> err == Some(NotDeterministic))
               && (size == |input.links| + reactions ==> err == FirstFault(Faults(sys.value, size)))
               && (err.None? ==>
                     x == num.solve(SystemRows(sys.value, |input.links|), Negated(SystemLoad(sys.value)))
                     && failures == FailureList(vs, x, |input.links|))
    ensures err.Some? ==> Answer(num, input) == Err(err.value)
    ensures err.None? ==> Answer(num, input) == Ok((x, failures))
  {
  }

  /** Truss(nodes, memberCount).solveForceEquations(), with its results
      read back as values: the error, or the forces and the failure list
      of the assembled system. */
  method SolveNodes(num: Numerics, nodes: seq<Node>, memberCount: nat, ghost ms: seq<Member>, ghost vs: seq<Visit>)
    returns (err: Option<Error>, x: seq<real>, failures: seq<Option<bool>>, ghost reactions: nat)
    requires SolveKeepsLength(num) && ms == Flatten(nodes) && Current(vs, ms)
    requires Distinct(nodes) && Distinct(ms) && AllValid(ms)
    modifies nodes`n, nodes`m, nodes`r, nodes`f, ms`heading
    modifies ms`externalForce, ms`failure, ms`buckling, ms`yielding, ms`criticalForce
    ensures old(SystemOf(num, nodes)).Err? ==> err == Some(old(SystemOf(num, nodes)).error)
    ensures old(SystemOf(num, nodes)).Ok? ==>
              var eqs := old(SystemOf(num, nodes)).value;
              var size := 2 * |nodes|;
              reactions == Offset(Supports(eqs))
              && (size != memberCount + reactions ==> err == Some(NotDeterministic))
              && (size == memberCount + reactions ==> err == FirstFault(Faults(eqs, size)))
              && (err.None? ==>
                    x == num.solve(SystemRows(eqs, memberCount), Negated(SystemLoad(eqs)))
                    && failures == FailureList(vs, x, memberCount))
  {
    var truss := new Truss(nodes, memberCount);
    ghost var sys := SystemOf(num, nodes);
    err := truss.Solve(num, ms, vs);
    if sys.Ok? && err.None? {
      AssembledRows(truss, sys.value);
    }
    x, failures, reactions := truss.unknownForces, truss.failures, truss.numberOfReactions;
  }

  /** Builds the truss from the filled nodes and solves it. */
  method SolveTruss(num: Numerics, nodes: seq<Node>, memberCount: nat, ghost input: Input, ghost lists: seq<seq<Member>>,
                    ghost ms: seq<Member>)
    returns (r: Result<(seq<real>, seq<Option<bool>>)>)
    requires SolveKeepsLength(num) && input.Consistent() && |input.links| == memberCount
    requires Holds(nodes, input.table) && Distinct(nodes)
    requires MemberLists(nodes) == lists
    requires forall k :: 0 <= k < |lists| ==> Views(lists[k]) == Registrations(input.links, Endpoints(input.table), k)
    requires Loads(nodes) == LoadsOf(num, input.forces, |nodes|)
    requires ms == Concat(lists, 0) && Distinct(ms) && AllValid(ms) && Unchecked(ms)
    modifies nodes`n, nodes`m, nodes`r, nodes`f, ms`heading
    modifies ms`externalForce, ms`failure, ms`buckling, ms`yielding, ms`criticalForce
    ensures r == Answer(num, input)
  {
    Prepared(num, input, nodes, lists, ms);
    ghost var sys, vs := SystemOf(num, nodes), Snapshot(ms);
    var err, x, failures, reactions := SolveNodes(num, nodes, memberCount, ms, vs);
    AnswerOf(num, input, sys, vs, err, reactions, x, failures);
    if err.Some? {
      return Err(err.value);
    }
    r := Ok((x, failures));
  }

  /** The force loop and the solve, once the nodes and members are in. */
  method Finish(num: Numerics, forceLines: seq<string>, names: seq<string>, nodes: seq<Node>, memberCount: nat,
                ghost table: seq<Entry>, ghost links: seq<Link>, ghost lists: seq<seq<Member>>, ghost ms: seq<Member>)
    returns (r: Result<(seq<real>, seq<Option<bool>>)>)
    requires SolveKeepsLength(num) && |names| == |table| && LinksWithin(links, |table|) && |links| == memberCount
    requires Holds(nodes, table) && Distinct(nodes)
    requires forall k :: 0 <= k < |nodes| ==> nodes[k].fx == 0.0 && nodes[k].fy == 0.0
    requires MemberLists(nodes) == lists
    requires forall k :: 0 <= k < |lists| ==> Views(lists[k]) == Registrations(links, Endpoints(table), k)
    requires ms == Concat(lists, 0) && Distinct(ms) && AllValid(ms) && Unchecked(ms)
    modifies nodes`fx, nodes`fy, nodes`n, nodes`m, nodes`r, nodes`f, ms
    ensures Forces(num, names, forceLines).Err? ==> r == Err(Forces(num, names, forceLines).error)
    ensures Forces(num, names, forceLines).Ok? ==> r == Answer(num, Input(table, links, Forces(num, names, forceLines).value))
  {
    var err := AddForces(num, forceLines, names, nodes);
    if err.Some? {
      return Err(err.value);
    }
    ghost var input := Input(table, links, Forces(num, names, forceLines).value);
    r := SolveTruss(num, nodes, memberCount, input, lists, ms);
  }

  /** The member and force sections read into the filled nodes, and the
      truss solved. */
  method ReadRest(num: Numerics, memberLines: seq<string>, forceLines: seq<string>, names: seq<string>,
                  nodes: seq<Node>, ghost table: seq<Entry>)
    returns (r: Result<(seq<real>, seq<Option<bool>>)>)
    requires SolveKeepsLength(num) && names == Names(table) && Holds(nodes, table)
    requires Distinct(nodes) && Bare(nodes)
    modifies nodes`members, nodes`fx, nodes`fy, nodes`n, nodes`m, nodes`r, nodes`f
    ensures Links(num, names, memberLines).Err? ==> r == Err(Links(num, names, memberLines).error)
    ensures Links(num, names, memberLines).Ok? && Forces(num, names, forceLines).Err? ==>
              r == Err(Forces(num, names, forceLines).error)
    ensures Links(num, names, memberLines).Ok? && Forces(num, names, forceLines).Ok? ==>
              r == Answer(num, Input(table, Links(num, names, memberLines).value, Forces(num, names, forceLines).value))
  {
    var err, lists := AddMembers(num, memberLines, names, nodes);
    if err.Some? {
      return Err(err.value);
    }
    ghost var links := Links(num, names, memberLines).value;
    assert NodeEnds(nodes) == Endpoints(table);
    r := Finish(num, forceLines, names, nodes, |memberLines|, table, links, lists, Concat(lists, 0));
  }

  /** run() once the file is split into its three sections. */
  method RunSections(num: Numerics, nodeLines: seq<string>, memberLines: seq<string>, forceLines: seq<string>)
    returns (r: Result<(seq<real>, seq<Option<bool>>)>)
    requires SolveKeepsLength(num)
    ensures ReadSections(num, nodeLines, memberLines, forceLines).Err? ==>
              r == Err(ReadSections(num, nodeLines, memberLines, forceLines).error)
    ensures ReadSections(num, nodeLines, memberLines, forceLines).Ok? ==>
              r == Answer(num, ReadSections(num, nodeLines, memberLines, forceLines).value)
  {
    var err, names, nodes := ReadNodes(num, nodeLines);
    if err.Some? {
      return Err(err.value);
    }
    r := ReadRest(num, memberLines, forceLines, names, nodes, NodeTable(num, nodeLines).value);
  }

  /** run(): reads the file's text and solves the truss it defines. */
  method Run(num: Numerics, text: string) returns (r: Result<(seq<real>, seq<Option<bool>>)>)
    requires SolveKeepsLength(num)
    ensures r == Outcome(num, text)
  {
    var parts := Split(text, "----\n");
    if |parts| < 3 {
      return Err(IndexOutOfRange);
    }
    r := RunSections(num, Lines(parts[0]), Lines(parts[1]), Lines(parts[2]));
  }
}
