/** The truss definition file as run() reads it (main.py): three sections
    separated by "----\n" holding node, member and force records, one
    record per non-empty line, fields separated by spaces. Everything here
    is a value: the records, the node table the dict of nodes ends up as,
    the member links and the applied forces, each with the error the
    reader raises first. */
module Reader {
  import opened Common
  import opened Text
  import opened CrossSection
  import opened Members
  import opened Nodes

  // ---------------------------------------------------------------------
  // Numbers

  /** float(token). */
  function Number(num: Numerics, token: string): (r: Result<real>)
    ensures r.Ok? <==> num.parseFloat(token).Some?
    ensures r.Ok? ==> r.value == num.parseFloat(token).value
    ensures r.Err? ==> r.error == NotANumber(token)
  {
    match num.parseFloat(token)
    case Some(v) => Ok(v)
    case None => Err(NotANumber(token))
  }

  /** float() of each token in turn; the first token that is no number
      raises. */
  function Numbers(num: Numerics, tokens: seq<string>): (r: Result<seq<real>>)
    ensures r.Ok? <==> forall k :: 0 <= k < |tokens| ==> num.parseFloat(tokens[k]).Some?
    ensures r.Ok? ==> |r.value| == |tokens|
                      && forall k :: 0 <= k < |tokens| ==> r.value[k] == num.parseFloat(tokens[k]).value
    ensures r.Err? ==> exists k :: 0 <= k < |tokens| && r.error == NotANumber(tokens[k])
                                   && num.parseFloat(tokens[k]).None?
                                   && forall j :: 0 <= j < k ==> num.parseFloat(tokens[j]).Some?
  {
    if tokens == [] then Ok([])
    else
      match Number(num, tokens[0])
      case Err(e) => Err(e)
      case Ok(v) =>
        var rest := Numbers(num, tokens[1..]);
        assert forall k :: 1 <= k < |tokens| ==> tokens[1..][k - 1] == tokens[k];
        if rest.Err? then
          var k :| 0 <= k < |tokens[1..]| && rest.error == NotANumber(tokens[1..][k])
                   && num.parseFloat(tokens[1..][k]).None?
                   && forall j :: 0 <= j < k ==> num.parseFloat(tokens[1..][j]).Some?;
          assert forall j :: 0 <= j < k + 1 ==> num.parseFloat(tokens[j]).Some? by {
            forall j | 0 <= j < k + 1 ensures num.parseFloat(tokens[j]).Some? {
              if j > 0 {
                assert tokens[j] == tokens[1..][j - 1];
              }
            }
          }
          rest
        else
          Ok([v] + rest.value)
  }

  // ---------------------------------------------------------------------
  // Records

  /** A node record: name, support type, inclination in degrees, position. */
  datatype NodeRecord = NodeRecord(name: string, kind: string, angle: real, x: real, y: real)

  /** A node record from its fields: name and type, then either angle, x and
      y (five fields or more) or x and y with angle 0. */
  function ParseNode(num: Numerics, t: seq<string>): (r: Result<NodeRecord>)
    ensures r.Ok? ==> 4 <= |t| && r.value.name == t[0] && r.value.kind == t[1]
  {
    if |t| < 2 then Err(IndexOutOfRange)
    else if |t| > 4 then
      match Numbers(num, t[2..5])
      case Err(e) => Err(e)
      case Ok(v) => Ok(NodeRecord(t[0], t[1], v[0], v[1], v[2]))
    else
      // x is converted before y is looked up
      match Numbers(num, t[2..])
      case Err(e) => Err(e)
      case Ok(v) =>
        if |t| < 4 then Err(IndexOutOfRange)
        else Ok(NodeRecord(t[0], t[1], 0.0, v[0], v[1]))
  }

  /** A node record is read when it has four fields or more and the numbers
      are numbers: x and y come after the angle when there are five fields or
      more, and the angle is 0 otherwise; a missing field raises
      IndexOutOfRange, and a token that is no number raises NotANumber. */
  lemma ParseNodeFields(num: Numerics, t: seq<string>)
    ensures var r := ParseNode(num, t);
            && (|t| < 2 ==> r == Err(IndexOutOfRange))
            && (r.Ok? <==> 4 <= |t| && forall k :: 2 <= k < |t| && k < 5 ==> num.parseFloat(t[k]).Some?)
            && (r.Ok? && |t| > 4 ==>
                  Some(r.value.angle) == num.parseFloat(t[2])
                  && Some(r.value.x) == num.parseFloat(t[3]) && Some(r.value.y) == num.parseFloat(t[4]))
            && (r.Ok? && |t| == 4 ==>
                  r.value.angle == 0.0 && Some(r.value.x) == num.parseFloat(t[2]) && Some(r.value.y) == num.parseFloat(t[3]))
            && (r.Err? ==> r.error == IndexOutOfRange || exists k :: 2 <= k < |t| && r.error == NotANumber(t[k]))
  {
    if |t| > 4 {
      var v := Numbers(num, t[2..5]);
      assert forall k :: 2 <= k < 5 ==> t[2..5][k - 2] == t[k];
      if v.Err? {
        var j :| 0 <= j < 3 && v.error == NotANumber(t[2..5][j]);
        assert ParseNode(num, t).error == NotANumber(t[j + 2]);
      }
    } else if 2 <= |t| {
      var v := Numbers(num, t[2..]);
      assert forall k :: 2 <= k < |t| ==> t[2..][k - 2] == t[k];
      if v.Err? {
        var j :| 0 <= j < |t| - 2 && v.error == NotANumber(t[2..][j]);
        assert ParseNode(num, t).error == NotANumber(t[j + 2]);
      }
    }
  }

  /** A member record: the names of its two nodes, its shape tag, its
      dimensions, Young's modulus and yield strength. */
  datatype MemberRecord = MemberRecord(from: string, to: string, shape: string, dims: seq<real>, e: real, strength: real)

  /** The number of dimensions a shape tag takes, when the reader checks it. */
  function DimensionCount(shape: string): Option<nat>
  {
    if shape == "O" then Some(2)
    else if shape == "I" || shape == "C" || shape == "T" then Some(3)
    else None
  }

  /** A member record from its fields, given the defined node names: the
      first field is "from-to", both ends must be defined, the second is
      the shape, and the last two are E and the yield strength with the
      dimensions before them. */
  function ParseMember(num: Numerics, defined: seq<string>, t: seq<string>): (r: Result<MemberRecord>)
    ensures r.Ok? ==> r.value.from in defined && r.value.to in defined
  {
    if |t| == 0 then Err(IndexOutOfRange)
    else
      var ends := Split(t[0], "-");
      if ends[0] !in defined then Err(UndefinedMemberNode)
      else if |ends| < 2 then Err(IndexOutOfRange)
      else if ends[1] !in defined then Err(UndefinedMemberNode)
      else if |t| < 2 then Err(IndexOutOfRange)
      else if DimensionCount(t[1]).Some? && |t| - 2 != DimensionCount(t[1]).value + 2 then Err(MemberConfig)
      else
        // dimensions t[2:-2], then t[-2] and t[-1]: negative indices count from the end
        var dimTokens := if |t| >= 4 then t[2..|t| - 2] else [];
        var tokens := dimTokens + [t[|t| - 2], t[|t| - 1]];
        match Numbers(num, tokens)
        case Err(e) => Err(e)
        case Ok(v) =>
          assert forall k :: 0 <= k < |dimTokens| ==> tokens[k] == t[k + 2];
          Ok(MemberRecord(ends[0], ends[1], t[1], v[..|v| - 2], v[|v| - 2], v[|v| - 1]))
  }

  /** What the reader demands of a member record: both ends defined, the
      number of fields each known shape takes (which leaves t[2:-2] with two
      dimensions for an O shape and three for the others), and the numbers
      in their places; an undefined end and a wrong field count are the
      errors it raises for them. */
  lemma ParseMemberChecks(num: Numerics, defined: seq<string>, t: seq<string>)
    ensures var r := ParseMember(num, defined, t);
            r.Ok? ==>
              && 2 <= |t| && r.value.shape == t[1]
              && (var ends := Split(t[0], "-"); 2 <= |ends| && r.value.from == ends[0] && r.value.to == ends[1])
              && (DimensionCount(t[1]).Some? ==> |t| == DimensionCount(t[1]).value + 4 && |r.value.dims| == DimensionCount(t[1]).value)
              && (4 <= |t| ==> |r.value.dims| == |t| - 4
                               && forall k :: 0 <= k < |r.value.dims| ==> num.parseFloat(t[k + 2]) == Some(r.value.dims[k]))
              && num.parseFloat(t[|t| - 2]) == Some(r.value.e) && num.parseFloat(t[|t| - 1]) == Some(r.value.strength)
    ensures 0 < |t| && Split(t[0], "-")[0] !in defined ==> ParseMember(num, defined, t) == Err(UndefinedMemberNode)
    ensures 2 <= |t| && DimensionCount(t[1]).Some? && |t| != DimensionCount(t[1]).value + 4
            && (var ends := Split(t[0], "-"); 2 <= |ends| && ends[0] in defined && ends[1] in defined)
            ==> ParseMember(num, defined, t) == Err(MemberConfig)
  {
  }

  /** A force record: the node it acts on, its amplitude and its angle in
      degrees. */
  datatype ForceRecord = ForceRecord(node: string, amp: real, angle: real)

  function ParseForce(num: Numerics, defined: seq<string>, t: seq<string>): (r: Result<ForceRecord>)
    ensures r.Ok? ==> r.value.node in defined
  {
    if |t| == 0 then Err(IndexOutOfRange)
    else if t[0] !in defined then Err(UndefinedForceNode)
    else if |t| < 2 then Err(IndexOutOfRange)
    else
      match Number(num, t[1])
      case Err(e) => Err(e)
      case Ok(amp) =>
        if |t| < 3 then Err(IndexOutOfRange)
        else
          match Number(num, t[2])
          case Err(e) => Err(e)
          case Ok(angle) => Ok(ForceRecord(t[0], amp, angle))
  }

  /** A force record is read exactly when it has three fields, names a
      defined node and holds two numbers; an undefined node is the error
      raised for it. */
  lemma ParseForceFields(num: Numerics, defined: seq<string>, t: seq<string>)
    ensures var r := ParseForce(num, defined, t);
            && (r.Ok? <==> 3 <= |t| && t[0] in defined && num.parseFloat(t[1]).Some? && num.parseFloat(t[2]).Some?)
            && (r.Ok? ==> r.value == ForceRecord(t[0], num.parseFloat(t[1]).value, num.parseFloat(t[2]).value))
            && (0 < |t| && t[0] !in defined ==> r == Err(UndefinedForceNode))
  {
  }

  // ---------------------------------------------------------------------
  // The node table

  /** Where a name sits among the keys. */
  function Position(names: seq<string>, name: string): (r: Option<nat>)
    ensures r.None? <==> name !in names
    ensures r.Some? ==> r.value < |names| && names[r.value] == name
  {
    if names == [] then None
    else if names[|names| - 1] == name then Some(|names| - 1)
    else Position(names[..|names| - 1], name)
  }

  /** A node of the table: the record that defined it and the number of its
      line, which is the node's index. */
  datatype Entry = Entry(line: nat, record: NodeRecord)

  function Names(table: seq<Entry>): (names: seq<string>)
    ensures |names| == |table| && forall k {:trigger names[k]} :: 0 <= k < |table| ==> names[k] == table[k].record.name
  {
    seq(|table|, k requires 0 <= k < |table| => table[k].record.name)
  }

  /** node_dict[name] = node: a new name is added at the end, a name already
      present keeps its place and gets the new node. */
  function Define(table: seq<Entry>, e: Entry): (r: seq<Entry>)
  {
    match Position(Names(table), e.record.name)
    case Some(p) => table[p := e]
    case None => table + [e]
  }

  /** The node records of the node lines, each with the number of its line,
      or the first error they raise. */
  function NodeEntries(num: Numerics, lines: seq<string>): (r: Result<seq<Entry>>)
    ensures r.Ok? ==> |r.value| == |lines| && forall j :: 0 <= j < |lines| ==> r.value[j].line == j
  {
    if lines == [] then Ok([])
    else
      match NodeEntries(num, lines[..|lines| - 1])
      case Err(e) => Err(e)
      case Ok(es) =>
        match ParseNode(num, Fields(lines[|lines| - 1]))
        case Err(e) => Err(e)
        case Ok(rec) => Ok(es + [Entry(|lines| - 1, rec)])
  }

  /** The table after defining the entries in order. */
  function Table(es: seq<Entry>): (table: seq<Entry>)
    ensures Distinct(Names(table))
  {
    if es == [] then []
    else
      var front := Table(es[..|es| - 1]);
      DefineKeepsNamesApart(front, es[|es| - 1]);
      Define(front, es[|es| - 1])
  }

  /** The node table after the node lines, or the first error they raise. */
  function NodeTable(num: Numerics, lines: seq<string>): (r: Result<seq<Entry>>)
  {
    match NodeEntries(num, lines)
    case Err(e) => Err(e)
    case Ok(es) => Ok(Table(es))
  }

  /** Defining a name replaces the entry of that name, or adds one at the
      end when the name is new; the names stay apart. */
  lemma DefineKeepsNamesApart(table: seq<Entry>, e: Entry)
    requires Distinct(Names(table))
    ensures Distinct(Names(Define(table, e)))
    ensures e.record.name in Names(table) ==> |Define(table, e)| == |table|
    ensures e.record.name !in Names(table) ==> |Define(table, e)| == |table| + 1 && Define(table, e)[|table|] == e
    ensures forall k :: 0 <= k < |table| ==>
              Define(table, e)[k] == if table[k].record.name == e.record.name then e else table[k]
  {
    var names := Names(table);
    var r := Define(table, e);
    assert forall k :: 0 <= k < |table| ==> names[k] == table[k].record.name;
    match Position(names, e.record.name)
    case Some(p) =>
      DistinctApart(names, p);
      assert Names(r) == names;
    case None =>
      assert Names(r) == names + [e.record.name];
      assert Names(r)[..|names|] == names;
  }

  /** A sequence whose elements are pairwise different has no repeats. */
  lemma {:induction false} PairwiseDistinct<T>(s: seq<T>)
    requires forall a, b :: 0 <= a < b < |s| ==> s[a] != s[b]
    ensures Distinct(s)
  {
    if s != [] {
      PairwiseDistinct(s[..|s| - 1]);
    }
  }

  /** Once a prefix of the node lines raises, the reader raises the same error. */
  lemma {:induction false} NodeEntriesStop(num: Numerics, lines: seq<string>, i: nat)
    requires i <= |lines| && NodeEntries(num, lines[..i]).Err?
    ensures NodeEntries(num, lines) == NodeEntries(num, lines[..i])
    decreases |lines| - i
  {
    if i < |lines| {
      assert lines[..i + 1][..i] == lines[..i];
      NodeEntriesStop(num, lines, i + 1);
    } else {
      assert lines[..i] == lines;
    }
  }

  /** Each entry is the record its line parses to. */
  lemma {:induction false} NodeEntriesParse(num: Numerics, lines: seq<string>)
    requires NodeEntries(num, lines).Ok?
    ensures forall j :: 0 <= j < |lines| ==> ParseNode(num, Fields(lines[j])) == Ok(NodeEntries(num, lines).value[j].record)
  {
    if lines != [] {
      var front := lines[..|lines| - 1];
      NodeEntriesParse(num, front);
      assert forall j :: 0 <= j < |front| ==> lines[j] == front[j];
    }
  }

  /** The dict semantics of the table: each entry is the last one that
      defined its name. */
  lemma {:induction false} TableKeepsLastDefinition(es: seq<Entry>)
    requires forall j :: 0 <= j < |es| ==> es[j].line == j
    ensures forall k :: 0 <= k < |Table(es)| ==>
              Table(es)[k].line < |es| && es[Table(es)[k].line] == Table(es)[k]
              && forall i :: Table(es)[k].line < i < |es| ==> es[i].record.name != Table(es)[k].record.name
  {
    if es != [] {
      var last := |es| - 1;
      var front := es[..last];
      TableKeepsLastDefinition(front);
      var table, e := Table(front), es[last];
      var r := Table(es);
      DefineKeepsNamesApart(table, e);
      forall k | 0 <= k < |r|
        ensures r[k].line < |es| && es[r[k].line] == r[k]
        ensures forall i :: r[k].line < i < |es| ==> es[i].record.name != r[k].record.name
      {
        if k < |table| && table[k].record.name != e.record.name {
          assert r[k] == table[k] && front[table[k].line] == table[k];
        } else {
          assert r[k] == e;
        }
      }
    }
  }

  /** Every name an entry defines is a key of the table. */
  lemma {:induction false} TableHoldsEveryName(es: seq<Entry>)
    ensures forall j :: 0 <= j < |es| ==> es[j].record.name in Names(Table(es))
  {
    if es != [] {
      var last := |es| - 1;
      var front := es[..last];
      TableHoldsEveryName(front);
      var table, e := Table(front), es[last];
      var r := Table(es);
      DefineKeepsNamesApart(table, e);
      forall j | 0 <= j < |es| ensures es[j].record.name in Names(r) {
        var name := es[j].record.name;
        if name == e.record.name {
          if name in Names(table) {
            var p :| 0 <= p < |table| && Names(table)[p] == name;
            assert Names(r)[p] == name;
          } else {
            assert Names(r)[|table|] == name;
          }
        } else {
          assert front[j] == es[j];
          var p :| 0 <= p < |table| && Names(table)[p] == name;
          assert Names(r)[p] == name;
        }
      }
    }
  }

  /** The joints of the table as members see them: index and position. */
  function Endpoints(table: seq<Entry>): (eps: seq<Endpoint>)
    ensures |eps| == |table| && forall k {:trigger eps[k]} :: 0 <= k < |table| ==>
              eps[k] == Endpoint(table[k].line, table[k].record.x, table[k].record.y)
  {
    seq(|table|, k requires 0 <= k < |table| => Endpoint(table[k].line, table[k].record.x, table[k].record.y))
  }

  // ---------------------------------------------------------------------
  // Member links

  /** A member as add_member receives it: the table positions of its two
      nodes, its section, E and yield strength. Its index is its line. */
  datatype Link = Link(from: nat, to: nat, section: Section, e: real, strength: real)

  /** Every link joins nodes of a table of the given size with a buildable section. */
  predicate LinksWithin(links: seq<Link>, size: nat)
  {
    forall i :: 0 <= i < |links| ==> links[i].from < size && links[i].to < size && WellFormed(links[i].section)
  }

  /** The links of the member lines, or the first error: a record the reader
      refuses, or a section add_member cannot build. */
  function Links(num: Numerics, names: seq<string>, lines: seq<string>): (r: Result<seq<Link>>)
    ensures r.Ok? ==> |r.value| == |lines| && LinksWithin(r.value, |names|)
  {
    if lines == [] then Ok([])
    else
      match Links(num, names, lines[..|lines| - 1])
      case Err(e) => Err(e)
      case Ok(links) =>
        match ParseMember(num, names, Fields(lines[|lines| - 1]))
        case Err(e) => Err(e)
        case Ok(m) =>
          match SectionOf(m.shape, m.dims)
          case Err(e) => Err(e)
          case Ok(s) =>
            var link := Link(Position(names, m.from).value, Position(names, m.to).value, s, m.e, m.strength);
            assert forall i :: 0 <= i < |links| ==> (links + [link])[i] == links[i];
            Ok(links + [link])
  }

  /** The link of one member line: what Links appends for it. */
  function LinkOf(num: Numerics, names: seq<string>, line: string): (r: Result<Link>)
    ensures r.Ok? ==> r.value.from < |names| && r.value.to < |names| && WellFormed(r.value.section)
  {
    match ParseMember(num, names, Fields(line))
    case Err(e) => Err(e)
    case Ok(m) =>
      match SectionOf(m.shape, m.dims)
      case Err(e) => Err(e)
      case Ok(s) => Ok(Link(Position(names, m.from).value, Position(names, m.to).value, s, m.e, m.strength))
  }

  /** The links are the member lines' links in order: the reader stops at
      the first line that raises. */
  lemma {:induction false} LinksStep(num: Numerics, names: seq<string>, lines: seq<string>, i: nat)
    requires i < |lines| && Links(num, names, lines[..i]).Ok?
    ensures LinkOf(num, names, lines[i]).Err? ==> Links(num, names, lines[..i + 1]) == Err(LinkOf(num, names, lines[i]).error)
    ensures LinkOf(num, names, lines[i]).Ok? ==>
              Links(num, names, lines[..i + 1]) == Ok(Links(num, names, lines[..i]).value + [LinkOf(num, names, lines[i]).value])
  {
    assert lines[..i + 1][..i] == lines[..i];
  }

  lemma {:induction false} LinksStop(num: Numerics, names: seq<string>, lines: seq<string>, i: nat)
    requires i <= |lines| && Links(num, names, lines[..i]).Err?
    ensures Links(num, names, lines) == Links(num, names, lines[..i])
    decreases |lines| - i
  {
    if i < |lines| {
      assert lines[..i + 1][..i] == lines[..i];
      LinksStop(num, names, lines, i + 1);
    } else {
      assert lines[..i] == lines;
    }
  }

  /** A member as registered at one of its nodes: its index, the node it was
      registered at and the other one, its section, E and yield strength. */
  datatype MemberView = MemberView(index: nat, near: Endpoint, far: Endpoint, section: Section, e: real, strength: real)

  /** The members registered at table position k by the links, in order:
      link i is added at its first node with that node as node_i, then at
      its second node with that node as node_i. */
  function Registrations(links: seq<Link>, eps: seq<Endpoint>, k: nat): (rs: seq<MemberView>)
    requires LinksWithin(links, |eps|) && k < |eps|
    ensures forall j :: 0 <= j < |rs| ==> rs[j].index < |links| && rs[j].near == eps[k] && WellFormed(rs[j].section)
  {
    if links == [] then []
    else
      var i := |links| - 1;
      var l := links[i];
      assert LinksWithin(links[..i], |eps|) by {
        assert forall j :: 0 <= j < i ==> links[..i][j] == links[j];
      }
      Registrations(links[..i], eps, k)
      + (if l.from == k then [MemberView(i, eps[l.from], eps[l.to], l.section, l.e, l.strength)] else [])
      + (if l.to == k then [MemberView(i, eps[l.to], eps[l.from], l.section, l.e, l.strength)] else [])
  }

  /** Every link is registered at its first node. */
  lemma {:induction false} RegisteredAtFirstNode(links: seq<Link>, eps: seq<Endpoint>, i: nat)
    requires LinksWithin(links, |eps|) && i < |links|
    ensures links[i].from < |eps|
    ensures exists j :: 0 <= j < |Registrations(links, eps, links[i].from)|
                        && Registrations(links, eps, links[i].from)[j].index == i
  {
    var last := |links| - 1;
    var front := links[..last];
    var k := links[i].from;
    assert LinksWithin(front, |eps|) by {
      assert forall j :: 0 <= j < last ==> front[j] == links[j];
    }
    var before := Registrations(front, eps, k);
    if i < last {
      assert front[i] == links[i];
      RegisteredAtFirstNode(front, eps, i);
      var j :| 0 <= j < |before| && before[j].index == i;
      assert Registrations(links, eps, k)[j] == before[j];
    } else {
      assert Registrations(links, eps, k)[|before|].index == i;
    }
  }

  /** A registered member points from the node it is registered at to the
      other end of its link: getAngle from that node never fails. */
  lemma RegistrationsAttached(links: seq<Link>, eps: seq<Endpoint>, k: nat)
    requires LinksWithin(links, |eps|) && k < |eps|
    ensures forall j :: 0 <= j < |Registrations(links, eps, k)| ==>
              Heading(Registrations(links, eps, k)[j].near, Registrations(links, eps, k)[j].far, eps[k].index)
              == Ok(Direction(eps[k], Registrations(links, eps, k)[j].far))
  {
  }

  // ---------------------------------------------------------------------
  // Forces

  /** A force as add_force receives it, with the table position of its node. */
  datatype Force = Force(at: nat, amp: real, angle: real)

  /** The forces of the force lines, or the first error they raise. */
  function Forces(num: Numerics, names: seq<string>, lines: seq<string>): (r: Result<seq<Force>>)
    ensures r.Ok? ==> |r.value| == |lines| && forall i :: 0 <= i < |r.value| ==> r.value[i].at < |names|
  {
    if lines == [] then Ok([])
    else
      match Forces(num, names, lines[..|lines| - 1])
      case Err(e) => Err(e)
      case Ok(fs) =>
        match ForceOf(num, names, lines[|lines| - 1])
        case Err(e) => Err(e)
        case Ok(f) => Ok(fs + [f])
  }

  function ForceOf(num: Numerics, names: seq<string>, line: string): (r: Result<Force>)
    ensures r.Ok? ==> r.value.at < |names|
  {
    match ParseForce(num, names, Fields(line))
    case Err(e) => Err(e)
    case Ok(f) => Ok(Force(Position(names, f.node).value, f.amp, f.angle))
  }

  lemma {:induction false} ForcesStep(num: Numerics, names: seq<string>, lines: seq<string>, i: nat)
    requires i < |lines| && Forces(num, names, lines[..i]).Ok?
    ensures ForceOf(num, names, lines[i]).Err? ==> Forces(num, names, lines[..i + 1]) == Err(ForceOf(num, names, lines[i]).error)
    ensures ForceOf(num, names, lines[i]).Ok? ==>
              Forces(num, names, lines[..i + 1]) == Ok(Forces(num, names, lines[..i]).value + [ForceOf(num, names, lines[i]).value])
  {
    assert lines[..i + 1][..i] == lines[..i];
  }

  lemma {:induction false} ForcesStop(num: Numerics, names: seq<string>, lines: seq<string>, i: nat)
    requires i <= |lines| && Forces(num, names, lines[..i]).Err?
    ensures Forces(num, names, lines) == Forces(num, names, lines[..i])
    decreases |lines| - i
  {
    if i < |lines| {
      assert lines[..i + 1][..i] == lines[..i];
      ForcesStop(num, names, lines, i + 1);
    } else {
      assert lines[..i] == lines;
    }
  }

  /** The load on table position k after the forces: add_force overwrites,
      so the last force on the node counts, and a node no force acts on
      keeps a zero load. */
  function LoadAt(num: Numerics, forces: seq<Force>, k: nat): (load: Vec2)
    ensures (forall i :: 0 <= i < |forces| ==> forces[i].at != k) ==> load == Vec2(0.0, 0.0)
  {
    if forces == [] then Vec2(0.0, 0.0)
    else
      var f := forces[|forces| - 1];
      if f.at == k then ForceComponents(num, f.amp, f.angle)
      else LoadAt(num, forces[..|forces| - 1], k)
  }

  /** The last force on a node decides its load. */
  lemma {:induction false} LastForceWins(num: Numerics, forces: seq<Force>, i: nat)
    requires i < |forces| && forall j :: i < j < |forces| ==> forces[j].at != forces[i].at
    ensures LoadAt(num, forces, forces[i].at) == ForceComponents(num, forces[i].amp, forces[i].angle)
  {
    if i < |forces| - 1 {
      var front := forces[..|forces| - 1];
      assert forall j :: i < j < |front| ==> front[j] == forces[j];
      LastForceWins(num, front, i);
    }
  }

  // ---------------------------------------------------------------------
  // The whole file

  /** What the reader makes of a file: the node table, the member links and
      the forces. */
  datatype Input = Input(table: seq<Entry>, links: seq<Link>, forces: seq<Force>)
  {
    predicate Consistent()
    {
      LinksWithin(links, |table|) && forall i :: 0 <= i < |forces| ==> forces[i].at < |table|
    }
  }

  /** The three sections of the file: split on "----\n"; fewer than three
      parts is an error, parts after the third are ignored. */
  function Sections(text: string): (r: Result<(string, string, string)>)
    ensures r.Ok? <==> |Split(text, "----\n")| >= 3
  {
    var parts := Split(text, "----\n");
    if |parts| < 3 then Err(IndexOutOfRange) else Ok((parts[0], parts[1], parts[2]))
  }

  /** The three sections as run() reads them, or the first error: every
      node line, then every member line, then every force line. */
  function ReadSections(num: Numerics, nodeLines: seq<string>, memberLines: seq<string>, forceLines: seq<string>)
    : (r: Result<Input>)
    ensures r.Ok? ==> r.value.Consistent()
  {
    match NodeTable(num, nodeLines)
    case Err(e) => Err(e)
    case Ok(table) =>
      match Links(num, Names(table), memberLines)
      case Err(e) => Err(e)
      case Ok(links) =>
        match Forces(num, Names(table), forceLines)
        case Err(e) => Err(e)
        case Ok(forces) => Ok(Input(table, links, forces))
  }

  /** The file as run() reads it, or the first error: its sections, then
      their lines. */
  function ReadInput(num: Numerics, text: string): (r: Result<Input>)
    ensures r.Ok? ==> r.value.Consistent()
  {
    match Sections(text)
    case Err(e) => Err(e)
    case Ok((nodePart, memberPart, forcePart)) => ReadSections(num, Lines(nodePart), Lines(memberPart), Lines(forcePart))
  }
}
