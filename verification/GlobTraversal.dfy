/**
 * Whether a glob specifically selects traversal through a directory: a search over
 * selector and directory positions that remembers the states it has been in.
 * How a segment matches, and which segments are globs or broad, are parameters.
 */
module GlobTraversal {
  import opened CodeUnits
  import opened Sequences

  datatype Segments = Segments(matches: (Text, Text) -> bool, isGlob: Text -> bool, isBroad: Text -> bool)

  const STAR: CodeUnit := 0x2a
  const DOUBLE_STAR: Text := [STAR, STAR]

  datatype Query = Query(segments: Segments, selectors: seq<Text>, finalSelector: Text, directory: seq<Text>)

  datatype Visit = Visit(selector: nat, directory: nat, wildcardSeen: bool, specificSeen: bool)

  predicate InRange(q: Query, v: Visit) {
    v.selector <= |q.selectors| && v.directory <= |q.directory|
  }

  /** The whole directory is matched: does anything name it, or something below it? */
  predicate Arrived(q: Query, v: Visit)
    requires InRange(q, v)
  {
    || v.specificSeen
    || (exists i :: v.selector <= i < |q.selectors| && !q.segments.isBroad(q.selectors[i]))
    || (v.wildcardSeen && q.finalSelector != [] && q.finalSelector[0] != STAR)
  }

  function Skip(v: Visit): Visit {
    v.(selector := v.selector + 1, wildcardSeen := true)
  }

  function Swallow(v: Visit): Visit {
    v.(directory := v.directory + 1, wildcardSeen := true)
  }

  function Consume(q: Query, v: Visit): Visit
    requires InRange(q, v) && v.selector < |q.selectors|
  {
    var s := q.selectors[v.selector];
    var named := !q.segments.isBroad(s);
    Visit(v.selector + 1, v.directory + 1, v.wildcardSeen || q.segments.isGlob(s),
          v.specificSeen || (q.segments.isGlob(s) && named) || (v.wildcardSeen && named))
  }

  /** The search without memory. */
  predicate Requires(q: Query, v: Visit)
    requires InRange(q, v)
    decreases |q.selectors| - v.selector + |q.directory| - v.directory
  {
    if v.directory == |q.directory| then Arrived(q, v)
    else if v.selector == |q.selectors| then false
    else if q.selectors[v.selector] == DOUBLE_STAR then Requires(q, Skip(v)) || Requires(q, Swallow(v))
    else q.segments.matches(q.directory[v.directory], q.selectors[v.selector]) && Requires(q, Consume(q, v))
  }

  class Search {
    const q: Query
    var seen: set<Visit>
    ghost var calls: nat      // observer: how often the search was entered
    ghost var expanded: nat   // observer: how often it went past its memory

    constructor (q: Query)
      ensures this.q == q && seen == {} && calls == expanded == 0
    {
      this.q := q;
      seen := {};
      calls, expanded := 0, 0;
    }

    /**
     * Every remembered state either failed for good or is still being searched above
     * this one, at an earlier position, so meeting a remembered state means failure.
     */
    ghost predicate Remembers(v: Visit)
      reads this
    {
      forall x <- seen :: InRange(q, x) &&
        (x.selector + x.directory < v.selector + v.directory || !Requires(q, x))
    }

    /** Each state is expanded once, when it is first remembered; an expansion enters at most two more. */
    method Enter(v: Visit) returns (found: bool)
      requires InRange(q, v) && Remembers(v)
      modifies this
      ensures found == Requires(q, v)
      ensures old(seen) + {v} <= seen && forall x <- seen :: InRange(q, x)
      ensures !found ==> forall x <- seen - old(seen) :: !Requires(q, x)
      ensures expanded == old(expanded) + |seen - old(seen)|
      ensures old(calls) < calls <= old(calls) + 2 * |seen - old(seen)| + 1
      decreases |q.selectors| - v.selector + |q.directory| - v.directory
    {
      calls := calls + 1;
      if v in seen { return false; }
      ghost var was := seen;
      expanded := expanded + 1;
      seen := seen + {v};
      assert seen - was == {v};
      if v.directory == |q.directory| { return Arrived(q, v); }
      if v.selector == |q.selectors| { return false; }
      var selector := q.selectors[v.selector];
      if selector == DOUBLE_STAR {
        ghost var own := seen;
        found := Enter(Skip(v));
        GrowthAdds(was, own, seen);
        if !found {
          ghost var skipped := seen;
          found := Enter(Swallow(v));
          GrowthAdds(was, skipped, seen);
        }
        return;
      }
      if !q.segments.matches(q.directory[v.directory], selector) { return false; }
      ghost var own := seen;
      found := Enter(Consume(q, v));
      GrowthAdds(was, own, seen);
    }

    /** A whole search: it expands no state twice, so no more than there are. */
    method Classify() returns (found: bool)
      requires seen == {} && calls == expanded == 0
      modifies this
      ensures found == Requires(q, Visit(0, 0, false, false))
      ensures Visit(0, 0, false, false) in seen && expanded == |seen|
      ensures expanded <= States(q) && calls <= 2 * States(q) + 1
    {
      found := Enter(Visit(0, 0, false, false));
      SeenBound(q, seen);
      assert seen - {} == seen;
    }
  }

  lemma GrowthAdds(a: set<Visit>, b: set<Visit>, c: set<Visit>)
    requires a <= b <= c
    ensures |c - a| == |b - a| + |c - b|
  {
    assert c - a == (b - a) + (c - b);
  }

  // ---------------------------------------------------------------- counting states

  ghost function Cell(s: nat, d: nat): seq<Visit> {
    [Visit(s, d, false, false), Visit(s, d, false, true), Visit(s, d, true, false), Visit(s, d, true, true)]
  }

  ghost function Row(s: nat, d: nat): seq<Visit> {
    (if d == 0 then [] else Row(s, d - 1)) + Cell(s, d)
  }

  ghost function Grid(s: nat, d: nat): seq<Visit> {
    (if s == 0 then [] else Grid(s - 1, d)) + Row(s, d)
  }

  lemma {:induction false} RowSize(s: nat, d: nat)
    ensures |Row(s, d)| == 4 * (d + 1)
  {
    if d > 0 { RowSize(s, d - 1); }
  }

  lemma {:induction false} GridSize(s: nat, d: nat, row: nat)
    requires row == 4 * (d + 1)
    ensures |Grid(s, d)| == row * (s + 1)
  {
    RowSize(s, d);
    if s > 0 {
      GridSize(s - 1, d, row);
      assert row * (s - 1 + 1) + row == row * (s + 1);
    }
  }

  lemma CellHolds(v: Visit)
    ensures v in Cell(v.selector, v.directory)
  {
    var c := Cell(v.selector, v.directory);
    assert v == c[0] || v == c[1] || v == c[2] || v == c[3];
  }

  lemma {:induction false} RowHolds(v: Visit, d: nat)
    requires v.directory <= d
    ensures v in Row(v.selector, d)
  {
    if v.directory < d { RowHolds(v, d - 1); } else { CellHolds(v); }
  }

  lemma {:induction false} GridHolds(v: Visit, s: nat, d: nat)
    requires v.selector <= s && v.directory <= d
    ensures v in Grid(s, d)
  {
    if v.selector < s {
      GridHolds(v, s - 1, d);
      InEither(Grid(s - 1, d), Row(s, d), v);
    } else {
      RowHolds(v, d);
      InEither(if s == 0 then [] else Grid(s - 1, d), Row(v.selector, d), v);
    }
  }

  lemma InEither(a: seq<Visit>, b: seq<Visit>, v: Visit)
    requires v in a || v in b
    ensures v in a + b
  {
  }

  /** How many states there are. */
  function States(q: Query): nat {
    4 * (|q.directory| + 1) * (|q.selectors| + 1)
  }

  lemma SeenBound(q: Query, seen: set<Visit>)
    requires forall x <- seen :: InRange(q, x)
    ensures |seen| <= States(q)
  {
    var grid := Grid(|q.selectors|, |q.directory|);
    GridSize(|q.selectors|, |q.directory|, 4 * (|q.directory| + 1));
    forall x <- seen ensures x in grid { GridHolds(x, |q.selectors|, |q.directory|); }
    ElementsAtMost(grid);
    SubsetCardinality(seen, Elements(grid));
  }

  /**
   * The classifier answers what the search without memory answers, for any matcher, and
   * expands each of at most 4 * (selectors + 1) * (directory parts + 1) states once.
   */
  method CandidateRequiresTraversal(segments: Segments, parts: seq<Text>, directory: seq<Text>)
    returns (found: bool, ghost expanded: nat, ghost calls: nat)
    requires parts != []
    ensures found == Requires(Query(segments, parts[..|parts| - 1], parts[|parts| - 1], directory),
                              Visit(0, 0, false, false))
    ensures expanded <= 4 * (|directory| + 1) * |parts| && calls <= 8 * (|directory| + 1) * |parts| + 1
  {
    var q := Query(segments, parts[..|parts| - 1], parts[|parts| - 1], directory);
    var search := new Search(q);
    found := search.Classify();
    expanded, calls := search.expanded, search.calls;
  }
}
