# 2D truss solver — a Dafny model

This project models the core of a solver for plane pin-jointed trusses that uses the method of joints.

- **Reading the definition file (`run`).** The definition file is split into node, member and force sections. Each node record becomes a `Node` in a name-keyed table. Each member record is checked, then registered as one `Member` object at each of its two nodes. Each force record overwrites the load of its node.
- **Solving (`solveForceEquations`).** Every node builds its local equations `m F' + f' = 0`. The reactions are counted, and determinacy `2N == M + R` is checked. The global system `A F + f = 0` is scattered together, node `i` owning rows `2i` and `2i + 1` and the reaction blocks taking columns from `M` on. `F = pinv(A)(-f)` is solved. Each solved member force is handed back, negated, to every `Member` object of that index for its buckling/yielding check, and the first check of each index goes into the failure list.
- **Members (`member.py`).** This covers a member's orientation seen from either end, the four cross-section shapes (I, T, C, O) with their area and second-moment formulas, and the failure check with its strict thresholds.

## How the model is organised

| file | module | what it holds | form |
|---|---|---|---|
| `common.dfy` | `Common` | `Option`, `Result`, the `Error` raised, `Vec2`, π, and the abstract numerics (`Numerics`) | values |
| `crosssection.dfy` | `CrossSection` | Sections; area and inertia formulas; a reference decomposition into rectangles with their moment integrals | functions and lemmas |
| `member.py` → `member.dfy` | `Members` | `Heading` (getAngle), the failure verdict and its properties; class `Member` with `GetA`, `GetI`, `GetAngle`, `Fail` | mixed: pure formulas, plus a class whose methods update fields |
| `node.py` → `node.dfy` | `Nodes` | Class `Node` with `AddMember`, `AddForce`, `BuildForceEquations` (filling the `m` array column by column); the equations a node must end with, as a value | imperative class |
| `truss.py` → `truss.dfy` | `Trusses` | Class `Truss`: the build loop, the reaction count, the scatter loop into `array2`/`array`, and the routing loop with its `visited` array and failure list; plus the value-level definitions they are proved against | imperative class |
| `main.py` → `text.dfy`, `input.dfy` | `Text`, `Reader` | `str.split`, `filter(None, …)`; the records, the node table, member links and forces as values, each with the first error raised | functions and lemmas |
| `solution.dfy` | `Solution` | `Answer`/`Outcome`: what `run` returns for a file, stated on values | functions and lemmas |
| `main.py` → `main.dfy` | `Runner` | `Run` and its loops, which fill real `Node` objects and build and solve a real `Truss` | imperative methods |

`Runner.Run` is proved to return exactly `Solution.Outcome(num, text)`. `Outcome` itself is stated independently of the heap: it reads the file into a table, links and forces, and gives each node the equations its registrations determine. It then forms `A` and `f` from the row/column layout, solves, and builds the failure list from the first visit to each member index.

Numbers are Dafny `real`. Trigonometry, `float()` and `pinv(A)·b` are fields of a `Numerics` value passed in: they are parameters, not axioms.

## Model

| member | source | states |
|---|---|---|
| `CrossSection.SectionOf` | node.py:24-33 | An unknown shape tag raises the wrong-member-type error. A dimension list too short for the shape is an error. So is a C or T section of zero area, whose constructor divides by the area. Otherwise the result is the section of that shape from the first dimensions; extra dimensions are ignored. |
| `CrossSection.IShapeMatchesParts` | member.py:133-139 | The I-section area, `inertia_xx` and `inertia_yy` equal the integrals over its web and two flanges. Its centroid is at the origin: both first moments are zero. |
| `CrossSection.TShapeMatchesParts` | member.py:112-122 | The T-section area equals the area of its rectangles. `centroid_y` is where the first moment vanishes. `inertia_xx` (about `centroid_y`) and `inertia_yy` are the second-moment integrals. |
| `CrossSection.CShapeMatchesParts` | member.py:93-102 | The C-section area equals the area of its rectangles. `centroid_x` is where the first moment vanishes. `inertia_xx` is the second-moment integral about the horizontal axis. `CShapeIyy` (the web's own term H·b³/12) is the second-moment integral about `centroid_x`. |
| `CrossSection.AreaMatchesParts` | member.py:100-139 | getA of every I, T and C section is the total area of the rectangles it is made of. |
| `CrossSection.AxesThroughCentroid` | member.py:93-113 | The axes both inertias are taken about pass through the centroid of every I, T and C section. |
| `CrossSection.InertiaMatchesParts` | member.py:96-136 | getI's `inertia_xx` of every I, T and C section is the second moment about its horizontal centroidal axis. Its `inertia_yy` is the second moment about the vertical centroidal axis for I and T. For C that second moment is `CShapeIyy`, which member.py:97's `inertia_yy` misses (`CShapeIyyAsWrittenMisses`). |
| `CrossSection.CShapeIyyAsWrittenMisses` | member.py:97 | For every C-section, `inertia_yy` as member.py computes it exceeds the section's second moment about its vertical centroidal axis by H·h·(H² − h²)/12. It equals that moment iff H·h·(H² − h²) = 0. |
| `CrossSection.TubeInertiaFromArea` | member.py:143-153 | For the O-section, `inertia_xx == inertia_yy`, and each equals area · (d² + d1²) / 16 with `d1 = d - t`. |
| `CrossSection.TubeArea` | member.py:143-153 | The O-section area is π/4 · t · (2d − t). It is positive exactly when 0 < t < 2d or 2d < t < 0. |
| `CrossSection.FlangedAreas` | member.py:92-138 | I and C (both with b = h) share the area H·b + 2·B·h. T has one flange less: B·h + H·b. |
| `CrossSection.IShapeInertiaPositive` | member.py:133-136 | With positive dimensions, both I-section moments are positive. |
| `Members.Heading` | member.py:37-43 | getAngle fails exactly when the joint is neither end, with the not-connected error for that joint. |
| `Members.HeadingReversed` | member.py:37-40 | The direction seen from `node_j` is the negation of the direction seen from `node_i`. |
| `Members.SwappedCopyAgrees` | main.py:76-77 | The copy registered at the other node has its ends swapped. It has the same length and gives the same direction from either joint. |
| `Members.Quotient` | member.py:54 | numpy's float division. A non-zero divisor gives the quotient. A zero length gives +inf or −inf by the sign of the numerator, and NaN for 0/0. |
| `Members.CompressionFailsIffAboveEuler` | member.py:52-61 | Under compression a member of non-zero length fails iff \|F\| > π²·E·min(Ixx, Iyy)/L², strictly. |
| `Members.TensionFailsIffAboveYield` | member.py:62-71 | Under tension a member fails iff F > yield_strength · area, strictly. |
| `Members.CriticalLoadPasses` | member.py:55-65 | A force exactly at the (positive) critical load passes, in compression and in tension. |
| `Members.ZeroForceKeepsPrior` | member.py:72-76 | A zero force returns the failure value already held. On a member never checked that is None, never True. |
| `Members.ZeroLengthCompression` | member.py:54-55 | A zero-length member in compression has an infinite or NaN Euler load. It fails only when π²·E·min(Ixx, Iyy) is negative. |
| `Members.FailureMonotone` | member.py:52-71 | A member failing under a force also fails under any larger force of the same sign. |
| `Members.VerdictIdempotent` | member.py:45-76 | Checking again with the same force, starting from the recorded value, gives the same verdict. |
| `Members.Member.constructor` | member.py:4-26 | Stores indices, ends, section and material. Length and orientation come from the ends. Force and failure start as None. getI and getA have filled the cached section values. |
| `Members.Member.GetA` | member.py:100-153 | Stores and returns the area of the member's section. |
| `Members.Member.GetI` | member.py:96-150 | Stores and returns both second moments of the member's section as member.py computes them, including the C-section `inertia_yy` of member.py:97. |
| `Members.Member.GetAngle` | member.py:28-43 | Returns the heading from the joint, or the not-connected error. It stores the heading in `_angle` only on success. |
| `Members.Member.Fail` | member.py:45-76 | Returns and stores the verdict for the held force. In compression it sets `critical_force` to the Euler load and `buckling` on failure. In tension it sets `critical_force` to the yield load and `yielding` on failure. With zero force it clears both flags and leaves `failure` and `critical_force` unchanged. |
| `Nodes.SupportOf` | node.py:70-89 | The type tag classifies the node: exactly "Fixed", "Loose" or "Free", and any other tag is an unknown support. |
| `Nodes.MemberColumns` | node.py:71-87 | One coefficient column per member, in list order. Column k is (cos θ, sin θ) of member k's direction seen from this node. |
| `Nodes.Indices` | truss.py:50-53 | The member indices of a node's members, in list order. |
| `Nodes.ReactionBlock` | node.py:66-87 | `r` is set exactly when the support has reactions and the member loop ran at least once. It then has one column per reaction. |
| `Nodes.ReactionBlockShapes` | node.py:75-83 | Fixed gets the 2×2 identity. Loose gets the single column (cos(α + π/2), sin(α + π/2)). Free gets none. |
| `Nodes.ExpectedEquations` | node.py:63-87 | The equations a node must end with (support, indices, columns, reactions, load) are well shaped: one column per index, and a reaction block as wide as the support's reactions. |
| `Nodes.Node.constructor` | node.py:5-17 | Index, type and position as given. The inclination is converted to radians. No members, zero load. |
| `Nodes.Node.AddMember` | node.py:18-35 | For an unbuildable section: the error, and the member list unchanged. Otherwise exactly one fresh member, built from these ends, section and material, is appended. |
| `Nodes.Node.AddForce` | node.py:37-45 | Overwrites the load with amp·(cos, sin) of the angle in radians; the last call wins. |
| `Nodes.Node.BuildForceEquations` | node.py:47-91 | Sets n = \|members\|, a fresh 2×n `m`, and `f = (fx, fy)`. An unknown type raises. Otherwise it fails exactly when some member does not end at this node. On success the node's equations are `ExpectedEquations`, and every member's `_angle` is its heading from this node. |
| `Nodes.Node.FillColumn` | node.py:71-83 | One pass of the member loop: column c of `m`, member c's heading and `r` after c + 1 passes. Every other column and every other member is unchanged. |
| `Nodes.Node.FillColumns` | node.py:70-87 | The member loop: it fails iff some member does not end at the node. Otherwise every column is its member's coefficient column, and `r` is the block after \|members\| passes. |
| `Text.FindFrom` | main.py:20 | The leftmost occurrence of the separator at or after k, or none. |
| `Text.Split` | main.py:20 | `str.split(sep)` gives at least one piece. |
| `Text.JoinSplit` | main.py:20 | Joining the pieces of a split with the separator gives the text back. |
| `Text.SplitPiecesAvoidSeparator` | main.py:20 | No piece of a split contains the separator. |
| `Text.NonEmpty` | main.py:26-27 | `filter(None, …)` keeps only non-empty strings and drops no non-empty string, and never lengthens the list. |
| `Text.NonEmptyAppend` | main.py:26-27 | Filtering a concatenation filters each part, so the kept strings stay in order. |
| `Text.FieldsAreTokens` | main.py:30-31 | Every token of a record is non-empty and holds no space. |
| `Reader.Number` | main.py:36-42 | `float(token)`: the parsed value, or the not-a-number error for that token. |
| `Reader.Numbers` | main.py:71 | float() of each token in order. It succeeds iff every token parses. Otherwise the error names the first token that does not. |
| `Reader.ParseNode` | main.py:30-42 | A node record read from the line keeps the line's name and type, and has at least four fields. |
| `Reader.ParseNodeFields` | main.py:35-42 | Fewer than two fields is an index error. The record is read iff there are four fields or more and the numeric fields parse. With five or more, angle, x and y are fields 2-4. With four, the angle is 0 and x, y are fields 2-3. Any error is an index error or names a token. |
| `Reader.ParseMember` | main.py:52-73 | A member record is read only when both ends are defined nodes. |
| `Reader.ParseMemberChecks` | main.py:55-73 | A read record takes its ends from "from-to" and its shape from field 1. A known shape has exactly 4 + (2 for O, 3 for I/C/T) fields. The dimensions are `t[2:-2]`, E is `t[-2]` and the yield strength `t[-1]`. An undefined first end raises the undefined-node error. A wrong field count on a known shape raises the member-config error. |
| `Reader.ParseForce` | main.py:83-89 | A force record read from the line acts on a defined node. |
| `Reader.ParseForceFields` | main.py:85-89 | A force is read iff it has at least three fields (extra fields are ignored), names a defined node and holds two numbers; the record is made of those. An undefined node raises the undefined-node error. |
| `Reader.Position` | main.py:56 | A name has a position among the keys iff it is a key, and the key there is that name. |
| `Reader.NodeEntries` | main.py:29-42 | One entry per node line, numbered by its line, or the first error. |
| `Reader.Table` | main.py:45 | The keys of the node table are pairwise distinct. |
| `Reader.DefineKeepsNamesApart` | main.py:45 | Dict assignment: a known name keeps its place and gets the new node, and a new name is appended. Keys stay distinct. |
| `Reader.NodeEntriesStop` | main.py:29-42 | Once a node line raises, the node loop raises the same error. |
| `Reader.NodeEntriesParse` | main.py:29-42 | Each entry is the record its line parses to. |
| `Reader.TableKeepsLastDefinition` | main.py:45 | Each table entry is the last line that defined its name. |
| `Reader.TableHoldsEveryName` | main.py:45 | Every name any node line defines is a key of the table. |
| `Reader.Links` | main.py:48-77 | One link per member line, joining defined nodes with a buildable section, or the first error. |
| `Reader.LinkOf` | main.py:52-77 | One member line's link joins defined nodes with a buildable section. |
| `Reader.LinksStep` | main.py:51-77 | The member loop reads lines in order: one more line appends its link or raises its error. |
| `Reader.LinksStop` | main.py:51-77 | Once a member line raises, the member loop raises the same error. |
| `Reader.Registrations` | main.py:76-77 | Every member registered at node k has a valid line index, k as its near end and a buildable section. |
| `Reader.RegisteredAtFirstNode` | main.py:76 | Every member line is registered at its first node. |
| `Reader.RegistrationsAttached` | main.py:76-77 | getAngle from the node a member is registered at succeeds, pointing to the member's other end. |
| `Reader.Forces` | main.py:80-92 | One force per force line, each on a defined node, or the first error. |
| `Reader.ForceOf` | main.py:83-92 | One force line's force acts on a defined node. |
| `Reader.ForcesStep` | main.py:82-92 | The force loop reads lines in order: one more line appends its force or raises its error. |
| `Reader.ForcesStop` | main.py:82-87 | Once a force line raises, the force loop raises the same error. |
| `Reader.LoadAt` | node.py:16-17 | A node no force acts on keeps the zero load. |
| `Reader.LastForceWins` | node.py:44-45 | The last force on a node decides its load. |
| `Reader.Sections` | main.py:20-23 | The file is read iff splitting on "----\n" gives at least three parts. |
| `Reader.ReadSections` | main.py:26-92 | A file the three loops accept has links and forces within its node table. |
| `Reader.ReadInput` | main.py:20-92 | A file the reader accepts is consistent: links and forces refer to table positions. |
| `Solution.EquationsAt` | node.py:63-87 | The equations node k gets from its registrations are well shaped and carry its table type. |
| `Solution.InputEquations` | truss.py:24-25 | One set of node equations per table entry, in table order, well shaped, with the table's supports. |
| `Solution.SystemRows` | truss.py:45-62 | A is 2N × 2N. |
| `Solution.SystemLoad` | truss.py:46-64 | f has 2N rows. |
| `Solution.AllRegistrations` | truss.py:75-76 | Every member the routing loop meets has a valid line index and a buildable section. |
| `Solution.InputVisits` | truss.py:75-76 | Every visit of the routing loop checks a buildable section. |
| `Solution.EveryMemberVisited` | truss.py:75-86 | Every member line index is met by the routing loop. |
| `Solution.RegistrationsPrefix` | truss.py:75-76 | The members of node k appear in the routing order as one contiguous block. |
| `Solution.AnswerShape` | main.py:114 | run() returns 2N forces and exactly one failure value per member line. |
| `Solution.AnswerErrors` | truss.py:22-64 | For a file the reader accepts, the solver raises exactly these errors. An unknown node type, iff one exists. Otherwise the determinacy error, iff 2N ≠ M + R. Otherwise the missing-reaction error, iff some Fixed or Loose node has no member. A member column outside A never occurs. |
| `Trusses.OffsetStep` | truss.py:57-62 | Each node moves the reaction offset on by 2 (Fixed), 1 (Loose) or 0. |
| `Trusses.ReactionColumnsOrdered` | truss.py:57-62 | Reaction blocks of different nodes do not overlap, and come in node order. |
| `Trusses.ReactionColumnsInBounds` | truss.py:39-62 | Reaction columns start at M. Under 2N == M + R every reaction column of every node is below 2N. |
| `Trusses.LastWrite` | truss.py:55 | Assigning through an index list keeps the last write: the last position naming column c, or none iff no position names it. |
| `Trusses.MemberCellStep` | truss.py:55 | Writing one more member column changes only that column. |
| `Trusses.MemberColumnsKept` | truss.py:55-62 | In a member column (below M) the entry of A is the member coefficient written there, or zero if none is. |
| `Trusses.NodeFault` | truss.py:55-61 | A node stops the assembly iff it names a column outside A or has reactions without a reaction block (see Left out for how the program handles the latter). |
| `Trusses.FirstFault` | truss.py:49-64 | The error raised is that of the first faulty node, and there is none iff no node is faulty. |
| `Trusses.FirstFaultAt` | truss.py:49-64 | A faulty node whose predecessors are all sound gives the error raised. |
| `Trusses.FirstVisits` | truss.py:84-86 | The visits that append are visits to indices below M, and every index below M that is visited has one. |
| `Trusses.FirstVisitsApart` | truss.py:84-86 | No member index appends twice. |
| `Trusses.FailureList` | truss.py:72-86 | One failure value per first visit. |
| `Trusses.FailureListStep` | truss.py:83-86 | One more visit appends its verdict iff it is the first visit to an index below M. |
| `Trusses.FailureListCoversMembers` | truss.py:72-86 | When every index below M is visited, the failure list has exactly M entries. |
| `Trusses.FlagsAfter` | truss.py:73 | The visited flags are M booleans. |
| `Trusses.FlagsAfterSeen` | truss.py:84-86 | The visited flag of an index is set iff the index has been visited. |
| `Trusses.ListAfterIsFailureList` | truss.py:72-86 | The list the visited-guard loop builds is the failure list of the first visits. |
| `Trusses.SystemFor` | truss.py:24-25 | The build loop raises iff some node is faulty, with the first node's error. Otherwise every node's members end at it, and the equations are the expected ones. |
| `Trusses.BuiltEquations` | truss.py:24-25 | Once every node is built, the equations the nodes hold are the expected ones, well shaped, with the nodes' supports. |
| `Trusses.Negated` | truss.py:68 | `-f`, entry by entry. |
| `Trusses.RoutedAll` | truss.py:75-86 | After the routing loop: the failure list, the visited flags, and every member's force and failure value. |
| `Trusses.Truss.constructor` | truss.py:5-14 | Stores the nodes and the member count. |
| `Trusses.Truss.CountReactions` | truss.py:28-37 | R = 2·#Fixed + #Loose. |
| `Trusses.Truss.ScatterMembers` | truss.py:50-55 | Rows 2i, 2i+1 get the node's member coefficients in the named columns, last write winning. Other rows are unchanged. |
| `Trusses.Truss.ScatterReactions` | truss.py:57-62 | Rows 2i, 2i+1 get the reaction block from the offset column on. Other cells are unchanged. |
| `Trusses.Truss.AssembleNode` | truss.py:49-64 | Node i fills exactly rows 2i and 2i+1 of A and f with its cells. |
| `Trusses.Truss.Assemble` | truss.py:48-64 | Returns the first node fault. Otherwise A and f are the assembled system, cell by cell. |
| `Trusses.Truss.RouteMember` | truss.py:77-86 | A member whose index k is below M gets −x[k] and its verdict. Flag k is set, and the verdict is appended iff the flag was clear. A member with a larger index changes nothing. |
| `Trusses.Truss.BuildNode` | truss.py:25 | buildForceEquations on node i: its fault, or node i built and the nodes before it unchanged. |
| `Trusses.Truss.BuildAll` | truss.py:24-25 | The build loop raises the first node's error. Otherwise the nodes hold exactly the expected equations. |
| `Trusses.Truss.RouteStep` | truss.py:76-86 | One member handled: the routing state advances by one visit. |
| `Trusses.Truss.RouteNode` | truss.py:76-86 | One node's members handled, in list order. |
| `Trusses.Truss.RouteAt` | truss.py:75-86 | Node i's members handled. The rest of the routing order is the members of the later nodes. |
| `Trusses.Truss.RouteNodes` | truss.py:75-86 | Every member of every node handled, in table order. |
| `Trusses.Truss.Route` | truss.py:72-86 | `failures` is the failure list of the first visits. Every member with index below M holds −x[index] and its verdict. |
| `Trusses.Truss.BuildSystem` | truss.py:45-64 | A and f are fresh zeros, then filled, or the first node fault. |
| `Trusses.Truss.SolveSystem` | truss.py:66-68 | F = pinv(A)(−f) for the assembled system. F has one entry per row of f. A and f are unchanged. |
| `Trusses.Truss.SolveAndRoute` | truss.py:66-86 | F = pinv(A)(−f). It has at least M entries, and the routing loop runs. |
| `Trusses.Truss.SolveBuilt` | truss.py:27-86 | Counts R. The determinacy error iff 2N ≠ M + R. Otherwise the first assembly fault. Otherwise the solution, the failure list and every member's force and verdict. |
| `Trusses.Truss.Solve` | truss.py:15-88 | solveForceEquations: sets n = N. It raises the build loop's first error. Otherwise it leaves what `SolveBuilt` states for the equations the nodes had. |
| `Runner.HoldsAfterDefine` | main.py:45 | Storing a node under its name keeps the nodes in step with the table. |
| `Runner.NodeEntriesStep` | main.py:29-45 | One more node line appends its entry and redefines its name in the table, or raises. |
| `Runner.StoreNode` | main.py:45 | `node_dict[name] = Node(...)`: the names and nodes follow the table after that entry. |
| `Runner.NodeLine` | main.py:30-45 | One node line read and its node stored, or its error. |
| `Runner.ReadNodes` | main.py:26-45 | The node loop: the table's error, or the names and distinct bare nodes holding the table. |
| `Runner.RegistrationsStep` | main.py:76-77 | One more member line registers at its first node, then at its second. |
| `Runner.MemberLineStep` | main.py:76-77 | After both add_member calls, every node's list follows the registrations of one more link. |
| `Runner.AddAt` | main.py:76 | add_member at one node: the error, or one fresh member with the right view appended to that node's list. |
| `Runner.Register` | main.py:76-77 | Both add_member calls: the member lists follow the registrations with the new link. Each member occurs once, and all are built. |
| `Runner.AddLine` | main.py:52-77 | One member line: its error, or its link registered. |
| `Runner.MembersReady` | main.py:76-77 | After the member loop, the members in routing order are distinct, built and unchecked. |
| `Runner.MemberLine` | main.py:52-77 | One pass of the member loop. |
| `Runner.MemberLoop` | main.py:51-77 | The member loop: the first error, or the lists following the registrations of all links. |
| `Runner.AddMembers` | main.py:48-77 | The member section: the first error, or the node member lists following the registrations, with distinct, built, fresh and unchecked members. |
| `Runner.AddForces` | main.py:80-92 | The force section: the first error, or each node's load equal to the last force on it (zero if none). |
| `Runner.NodeAttached` | main.py:76-77 | Every member registered at a node ends at it. |
| `Runner.NodeEquations` | node.py:63-87 | The equations node k would build are those of table entry k. |
| `Runner.SystemMatches` | truss.py:24-25 | The build loop on the filled nodes raises the node-type error iff the table has an unknown type. Otherwise it gives the table's equations. |
| `Runner.VisitsMatch` | truss.py:75-76 | The members, in routing order, hold what a freshly read truss holds. |
| `Runner.AssembledRows` | truss.py:66-68 | The assembled A and f are `SystemRows` and `SystemLoad`. |
| `Runner.Prepared` | main.py:95-97 | Before the solve, the nodes would build the table's equations, and the members are in routing order and unchecked. |
| `Runner.AnswerOf` | main.py:114 | The solver's error, or its forces and failure list, is `Answer`. |
| `Runner.SolveNodes` | main.py:95-97 | `Truss(node_dict, M).solveForceEquations()`, its results read back as values. |
| `Runner.SolveTruss` | main.py:95-114 | Building and solving the filled truss returns `Answer` for the file read. |
| `Runner.Finish` | main.py:79-114 | The force loop, then the solve: the force error, or `Answer`. |
| `Runner.ReadRest` | main.py:47-114 | The member loop, force loop and solve: the first error, or `Answer`. |
| `Runner.RunSections` | main.py:25-114 | run() once the sections are split: the reader's error, or `Answer` for what it read. |
| `Runner.Run` | main.py:5-114 | run() on the file's text returns exactly `Outcome`: the first error raised, or the force vector and failure list. |

## Left out

- File reading (main.py:15-16), verbose printing (main.py:99-112) and the command-line entry (main.py:116-119) are I/O. `Run` takes the file's text and returns the two lists `run` returns.
- `member_names` (main.py:50, 54) is only read by the verbose printing and is not modelled.
- Floating point is not modelled: dimensions, forces and moduli are exact reals, so rounding is not captured.
  - cos, sin, atan2, `float()` and `pinv(A)·b` are the fields of a `Numerics` parameter, with no properties assumed.
  - The solver only assumes (`SolveKeepsLength`) that pinv of a square matrix times a column as long as the matrix has as many rows as the column. Nothing is assumed for other shapes.
  - π is numpy's value as a real constant.
- A member's length is kept as its square, and its orientation as the endpoint difference vector whose atan2 is the angle; the model takes no square root and no arctangent. `Members.Quotient` models numpy's division by a zero length (±inf, NaN).
- A member holds its ends as value snapshots (index and position) rather than references to the `Node` objects. A node never changes its index or position, so nothing it reads can differ.
- The node dict is modelled as the list of names and the list of nodes, in insertion order. A name defined again keeps its place and gets the new node, as Python dict assignment does.
- The exception classes are named by condition (`Common.Error`), not by Python class.
- Trusses.NodeFault: a Fixed or Loose node without members still has `r = None` when the assembly reaches it (truss.py:58, 61). numpy stores that None into the float matrix as NaN, so the program does not stop there. It fails later in `pinv`, or returns NaN forces. The model has no NaN: it stops the assembly with `MissingReactions` at that node, and `Solution.AnswerErrors` reports that error for such files.
- The failure list follows the code: one entry per member index, appended on its first visit (truss.py:84-86). Its entries are therefore in first-visit order, not member-index order.
- `self.n` is assigned before the build loop in the source (truss.py:22) and after it in the model. Nothing reads it in between, and `Solve` states it on every path.
- Runner.Run: on an error, only the error is stated. The nodes and members the source has partly filled before raising are unreachable once the exception propagates.
- Trusses.Truss.Solve: it states each member's external force and failure value. It does not state the `buckling`, `yielding` and `critical_force` fields `fail()` also sets; those are stated one call at a time by `Members.Member.Fail`.
- Trusses.Truss.Solve: requires the nodes and the member objects to be pairwise distinct, and each member's cached area and inertias to be current. `run` establishes both (`Runner.ReadNodes`, `Runner.AddMembers`). A caller that puts one `Node` under two names is not modelled.
- The exact numeric fixtures of the test file depend on pinv rounding and are not reproduced.

## Findings

| source | as written | input that shows it | evidently intended | confidence | as-written member | corrected member |
|---|---|---|---|---|---|---|
| member.py:97 | The C-section `inertia_yy` takes the web's own term as `pow(H, 3)*b/12`, which is the web's moment about the horizontal axis. | B = 4, H = 10, h = 1: the value exceeds the second moment of the section about its vertical centroidal axis by H·h·(H² − h²)/12 = 82.5. | `H*pow(b, 3)/12`, the form the I and T sections use for their webs (member.py:118, 135). | high; not executed | `CrossSection.CShapeIyyAsWrittenMisses` | `CrossSection.CShapeMatchesParts` |
