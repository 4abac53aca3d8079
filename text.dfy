/** The string operations the input reader uses: Python's str.split with an
    explicit separator, and filter(None, ...) which drops empty strings. */
module Text {
  import opened Common

  /** sep occurs in s at position p. */
  predicate OccursAt(s: string, sep: string, p: nat)
  {
    p + |sep| <= |s| && s[p..p + |sep|] == sep
  }

  /** The first position at or after k where sep occurs in s. */
  function FindFrom(s: string, sep: string, k: nat): (r: Option<nat>)
    requires |sep| > 0
    ensures r.Some? ==> k <= r.value && OccursAt(s, sep, r.value)
    ensures r.Some? ==> forall q :: k <= q < r.value ==> !OccursAt(s, sep, q)
    ensures r.None? ==> forall q :: k <= q ==> !OccursAt(s, sep, q)
    decreases |s| - k
  {
    if k + |sep| > |s| then None
    else if s[k..k + |sep|] == sep then Some(k)
    else FindFrom(s, sep, k + 1)
  }

  /** str.split(sep): the text between successive leftmost non-overlapping
      occurrences of sep. */
  function Split(s: string, sep: string): (r: seq<string>)
    requires |sep| > 0
    ensures |r| >= 1
    decreases |s|
  {
    match FindFrom(s, sep, 0)
    case None => [s]
    case Some(p) => [s[..p]] + Split(s[p + |sep|..], sep)
  }

  /** sep.join(parts) */
  function Join(parts: seq<string>, sep: string): string
  {
    if |parts| == 0 then ""
    else if |parts| == 1 then parts[0]
    else parts[0] + sep + Join(parts[1..], sep)
  }

  /** Splitting loses nothing: joining the pieces with the separator gives
      back the text. */
  lemma {:induction false} JoinSplit(s: string, sep: string)
    requires |sep| > 0
    ensures Join(Split(s, sep), sep) == s
    decreases |s|
  {
    match FindFrom(s, sep, 0)
    case None =>
    case Some(p) =>
      var head, rest := s[..p], s[p + |sep|..];
      var tail := Split(rest, sep);
      assert Split(s, sep) == [head] + tail;
      JoinSplit(rest, sep);
      assert ([head] + tail)[1..] == tail;
      assert Join([head] + tail, sep) == head + sep + Join(tail, sep);
      assert s == head + s[p..p + |sep|] + rest;
  }

  /** No piece of a split contains the separator. */
  lemma {:induction false} SplitPiecesAvoidSeparator(s: string, sep: string)
    requires |sep| > 0
    ensures forall i: nat, q: nat :: i < |Split(s, sep)| ==> !OccursAt(Split(s, sep)[i], sep, q)
    decreases |s|
  {
    match FindFrom(s, sep, 0)
    case None =>
      assert Split(s, sep) == [s];
    case Some(p) =>
      var rest := s[p + |sep|..];
      SplitPiecesAvoidSeparator(rest, sep);
      var head := s[..p];
      forall q: nat ensures !OccursAt(head, sep, q) {
        if OccursAt(head, sep, q) {
          assert s[q..q + |sep|] == head[q..q + |sep|];
          assert OccursAt(s, sep, q);
          assert false;
        }
      }
      assert Split(s, sep) == [head] + Split(rest, sep);
  }

  /** filter(None, xs): the non-empty strings of xs, in order. */
  function NonEmpty(xs: seq<string>): (r: seq<string>)
    ensures |r| <= |xs|
    ensures forall i :: 0 <= i < |r| ==> r[i] != ""
    ensures forall x :: x in r <==> x in xs && x != ""
  {
    if xs == [] then []
    else if xs[0] == "" then NonEmpty(xs[1..])
    else [xs[0]] + NonEmpty(xs[1..])
  }

  /** Filtering drops exactly the empty strings: the non-empty strings
      of a concatenation are those of each part, in order. */
  lemma {:induction false} NonEmptyAppend(xs: seq<string>, ys: seq<string>)
    ensures NonEmpty(xs + ys) == NonEmpty(xs) + NonEmpty(ys)
  {
    if xs == [] {
      assert xs + ys == ys;
    } else {
      assert (xs + ys)[1..] == xs[1..] + ys;
      NonEmptyAppend(xs[1..], ys);
    }
  }

  /** The non-empty lines of a section: split('\n') then filter(None, ...). */
  function Lines(section: string): seq<string>
  {
    NonEmpty(Split(section, "\n"))
  }

  /** The tokens of a record: split(' ') then filter(None, ...). */
  function Fields(line: string): seq<string>
  {
    NonEmpty(Split(line, " "))
  }

  /** A token is never empty and never holds a space. */
  lemma FieldsAreTokens(line: string)
    ensures forall i :: 0 <= i < |Fields(line)| ==> Fields(line)[i] != "" && ' ' !in Fields(line)[i]
  {
    var pieces := Split(line, " ");
    SplitPiecesAvoidSeparator(line, " ");
    forall i | 0 <= i < |Fields(line)| ensures ' ' !in Fields(line)[i] {
      var tok := Fields(line)[i];
      assert tok in pieces;
      var j :| 0 <= j < |pieces| && pieces[j] == tok;
      if ' ' in tok {
        var q :| 0 <= q < |tok| && tok[q] == ' ';
        assert tok[q..q + 1] == " ";
        assert OccursAt(pieces[j], " ", q);
      }
    }
  }
}
