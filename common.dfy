/** Shared vocabulary of the truss model: optional values, results, the
    exceptions the solver raises, and the numeric primitives that the model
    leaves abstract (trigonometry, text-to-number conversion and the
    pseudoinverse solve of the linear system). */
module Common {

  datatype Option<+T> = None | Some(value: T)

  datatype Result<+T> = Ok(value: T) | Err(error: Error)

  /** The exceptions the solver raises, named after the condition that raises them. */
  datatype Error =
    | IndexOutOfRange            // IndexError: a record or section has too few parts
    | NotANumber(token: string)  // ValueError from float()
    | UndefinedMemberNode        // ValueError: a member connects to an undefined node
    | MemberConfig               // ValueError: wrong number of values on a member record
    | UndefinedForceNode         // ValueError: a force acts on an undefined node
    | WrongMemberType            // ValueError: shape tag outside I, T, C, O
    | WrongNodeType              // ValueError: support type outside Fixed, Loose, Free
    | NotConnected(joint: nat)   // ValueError: orientation asked from a joint that is no endpoint
    | NotDeterministic           // ValueError: 2 * nodes != members + reactions
    | ZeroDivision               // ZeroDivisionError: centroid of a section of zero area
    | MissingReactions           // a fixed or loose node without members has no reaction block (r is None)

  /** A 2-vector: a matrix column, a force, or an endpoint difference. */
  datatype Vec2 = Vec2(x: real, y: real)
  {
    function Neg(): Vec2
    {
      Vec2(-x, -y)
    }
  }

  /** The value numpy carries for pi. */
  const Pi: real := 3.141592653589793

  /** The numeric routines the source takes from numpy and from Python's float(). */
  datatype Numerics = Numerics(
    cos: real -> real,
    sin: real -> real,
    atan2: (real, real) -> real,
    parseFloat: string -> Option<real>,
    /** pinv(a) times b */
    solve: (seq<seq<real>>, seq<real>) -> seq<real>)

  /** pinv of a square matrix times a column as long as the matrix has as
      many rows as the column; nothing is assumed about other shapes. */
  ghost predicate SolveKeepsLength(num: Numerics)
  {
    forall a: seq<seq<real>>, b: seq<real> :: Square(a, |b|) ==> |num.solve(a, b)| == |b|
  }

  /** The length the solve keeps, for one square system. */
  lemma SolveLength(num: Numerics, a: seq<seq<real>>, b: seq<real>)
    requires SolveKeepsLength(num) && Square(a, |b|)
    ensures |num.solve(a, b)| == |b|
  {
  }

  /** A size x size matrix, as a list of rows. */
  predicate Square(a: seq<seq<real>>, size: nat)
  {
    |a| == size && forall i :: 0 <= i < |a| ==> |a[i]| == size
  }

  /** No value occurs twice: each element differs from every one before it. */
  predicate Distinct<T(==)>(s: seq<T>)
    decreases |s|
  {
    s == [] || (Distinct(s[..|s| - 1]) && forall k :: 0 <= k < |s| - 1 ==> s[k] != s[|s| - 1])
  }

  /** In a sequence without repeats, the element at i differs from every other one. */
  lemma {:induction false} DistinctApart<T>(s: seq<T>, i: nat)
    requires Distinct(s) && i < |s|
    ensures forall k :: 0 <= k < |s| && k != i ==> s[k] != s[i]
  {
    if i < |s| - 1 {
      var front := s[..|s| - 1];
      DistinctApart(front, i);
      assert forall k :: 0 <= k < |front| ==> front[k] == s[k];
    }
  }

  function Min(a: real, b: real): (r: real)
    ensures r <= a && r <= b && (r == a || r == b)
  {
    if a <= b then a else b
  }
}
