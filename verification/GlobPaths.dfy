/**
 * What the traversal search accepts, without a search: a way to give every part of the directory to
 * a selector of the pattern so that something in the directory, or below it, is named.
 */
module GlobPaths {
  import opened CodeUnits
  import opened GlobTraversal

  // ----------------------------------------------------------------------- giving parts to selectors

  predicate IsDouble(q: Query, i: int) {
    0 <= i < |q.selectors| && q.selectors[i] == DOUBLE_STAR
  }

  /** The first selector that can take the next part: a double star can go on. */
  function Free(q: Query, given: seq<nat>): nat {
    if given == [] then 0
    else if IsDouble(q, given[|given| - 1]) then given[|given| - 1]
    else given[|given| - 1] + 1
  }

  /** A selector takes the next part if it matches it, and only double stars are passed over on the way. */
  ghost predicate MayTake(q: Query, given: seq<nat>, s: nat) {
    && Free(q, given) <= s < |q.selectors| && |given| < |q.directory|
    && (IsDouble(q, s) || q.segments.matches(q.directory[|given|], q.selectors[s]))
    && forall i :: Free(q, given) <= i < s ==> IsDouble(q, i)
  }

  /** Selector given[d] takes part d of the directory, for as many parts as there are selectors given. */
  ghost predicate Assigned(q: Query, given: seq<nat>) {
    given == [] || (Assigned(q, given[..|given| - 1]) && MayTake(q, given[..|given| - 1], given[|given| - 1]))
  }

  predicate Wild(q: Query, i: int) {
    0 <= i < |q.selectors| && (IsDouble(q, i) || q.segments.isGlob(q.selectors[i]))
  }

  predicate WildUpTo(q: Query, n: int) {
    exists i :: 0 <= i < n && Wild(q, i)
  }

  /** A selector that is not broad, and is a glob or comes after something wild. */
  predicate Specific(q: Query, i: int) {
    0 <= i < |q.selectors| && !IsDouble(q, i) && !q.segments.isBroad(q.selectors[i]) && WildUpTo(q, i + 1)
  }

  predicate SpecificUpTo(q: Query, n: int) {
    exists i :: 0 <= i < n && Specific(q, i)
  }

  /** The selectors up to the last one that took a part. */
  function Used(given: seq<nat>): nat {
    if given == [] then 0 else given[|given| - 1] + 1
  }

  /**
   * Something is named: by a specific selector used, by a selector left that is not broad, or, once
   * something wild was used, by a last segment that is there and does not start with a star.
   */
  predicate Names(q: Query, given: seq<nat>) {
    || SpecificUpTo(q, Used(given))
    || (exists i :: Free(q, given) <= i < |q.selectors| && !q.segments.isBroad(q.selectors[i]))
    || (WildUpTo(q, Used(given)) && q.finalSelector != [] && q.finalSelector[0] != STAR)
  }

  ghost predicate Selects(q: Query, given: seq<nat>) {
    |given| == |q.directory| && Assigned(q, given) && Names(q, given)
  }

  // ------------------------------------------------------------------------------ where the search stands

  /** The selectors given so far lead to where the search is, with what it remembers of them. */
  ghost predicate Reached(q: Query, v: Visit, given: seq<nat>) {
    && InRange(q, v) && |given| == v.directory && Assigned(q, given)
    && Free(q, given) <= v.selector && (forall i :: Free(q, given) <= i < v.selector ==> IsDouble(q, i))
    && (v.directory == |q.directory| ==> v.selector == Free(q, given))
    && (v.wildcardSeen <==> WildUpTo(q, v.selector) || WildUpTo(q, Used(given)))
    && (v.specificSeen <==> SpecificUpTo(q, v.selector))
  }

  lemma NextWild(q: Query, n: nat)
    requires n < |q.selectors|
    ensures WildUpTo(q, n + 1) <==> WildUpTo(q, n) || Wild(q, n)
    ensures SpecificUpTo(q, n + 1) <==> SpecificUpTo(q, n) || Specific(q, n)
  {
  }

  lemma Given(q: Query, given: seq<nat>, s: nat)
    requires Assigned(q, given) && MayTake(q, given, s)
    ensures Assigned(q, given + [s]) && Used(given + [s]) == s + 1
    ensures Free(q, given + [s]) == if IsDouble(q, s) then s else s + 1
  {
    assert (given + [s])[..|given|] == given;
  }

  lemma SkipReaches(q: Query, v: Visit, given: seq<nat>)
    requires Reached(q, v, given) && v.directory < |q.directory| && IsDouble(q, v.selector)
    ensures Reached(q, Skip(v), given)
  {
    NextWild(q, v.selector);
  }

  lemma SwallowReaches(q: Query, v: Visit, given: seq<nat>)
    requires Reached(q, v, given) && v.directory < |q.directory| && IsDouble(q, v.selector)
    ensures Reached(q, Swallow(v), given + [v.selector])
  {
    Given(q, given, v.selector);
    NextWild(q, v.selector);
  }

  lemma ConsumeReaches(q: Query, v: Visit, given: seq<nat>)
    requires Reached(q, v, given) && v.directory < |q.directory|
    requires v.selector < |q.selectors| && !IsDouble(q, v.selector)
    requires q.segments.matches(q.directory[v.directory], q.selectors[v.selector])
    ensures Reached(q, Consume(q, v), given + [v.selector])
  {
    Given(q, given, v.selector);
    NextWild(q, v.selector);
  }

  lemma ArrivedNames(q: Query, v: Visit, given: seq<nat>)
    requires Reached(q, v, given) && v.directory == |q.directory|
    ensures Arrived(q, v) <==> Names(q, given)
  {
  }

  // ------------------------------------------------------------------------------------- the whole search

  lemma {:induction false} FoundIsSelected(q: Query, v: Visit, given: seq<nat>) returns (all: seq<nat>)
    requires Reached(q, v, given) && Requires(q, v)
    ensures Selects(q, all)
    decreases |q.selectors| - v.selector + |q.directory| - v.directory
  {
    hide Reached, Arrived, Names;
    ReachedInRange(q, v, given);
    if v.directory == |q.directory| {
      ArrivedNames(q, v, given);
      all := given;
    } else if q.selectors[v.selector] == DOUBLE_STAR {
      SkipReaches(q, v, given);
      SwallowReaches(q, v, given);
      if Requires(q, Skip(v)) {
        all := FoundIsSelected(q, Skip(v), given);
      } else {
        all := FoundIsSelected(q, Swallow(v), given + [v.selector]);
      }
    } else {
      ConsumeReaches(q, v, given);
      all := FoundIsSelected(q, Consume(q, v), given + [v.selector]);
    }
  }

  lemma ReachedInRange(q: Query, v: Visit, given: seq<nat>)
    requires Reached(q, v, given)
    ensures InRange(q, v) && |given| == v.directory && Assigned(q, given)
  {
  }

  lemma {:induction false} AssignedPrefix(q: Query, all: seq<nat>, n: nat)
    requires Assigned(q, all) && n <= |all|
    ensures Assigned(q, all[..n])
    ensures n < |all| ==> MayTake(q, all[..n], all[n]) && all[..n + 1] == all[..n] + [all[n]]
    decreases |all|
  {
    if n == |all| {
      assert all[..n] == all;
    } else {
      var front := all[..|all| - 1];
      AssignedPrefix(q, front, n);
      assert front[..n] == all[..n] && (n < |front| ==> front[..n + 1] == all[..n + 1]);
    }
  }

  /** The next part is taken by the selector the search is at, or, past a double star, by a later one. */
  lemma NextTaken(q: Query, v: Visit, all: seq<nat>)
    requires Assigned(q, all) && v.directory < |all| && Reached(q, v, all[..v.directory])
    requires v.selector <= all[v.directory]
    ensures v.selector < |q.selectors| && v.directory < |q.directory|
    ensures !IsDouble(q, v.selector) ==> all[v.directory] == v.selector
    ensures !IsDouble(q, v.selector) ==> q.segments.matches(q.directory[v.directory], q.selectors[v.selector])
    ensures v.directory + 1 < |all| ==>
      all[v.directory + 1] >= if IsDouble(q, all[v.directory]) then all[v.directory] else all[v.directory] + 1
  {
    var d := v.directory;
    AssignedPrefix(q, all, d);
    if d + 1 < |all| {
      AssignedPrefix(q, all, d + 1);
      Given(q, all[..d], all[d]);
    }
  }

  lemma {:induction false} SelectedIsFound(q: Query, v: Visit, all: seq<nat>)
    requires Selects(q, all) && v.directory <= |all| && Reached(q, v, all[..v.directory])
    requires v.directory < |all| ==> v.selector <= all[v.directory]
    ensures InRange(q, v) && Requires(q, v)
    decreases |q.selectors| + |q.directory| - v.selector - v.directory
  {
    hide Reached, Arrived, Names, MayTake, Free;
    var d := v.directory;
    ReachedInRange(q, v, all[..d]);
    if d == |all| {
      assert all[..d] == all;
      ArrivedNames(q, v, all);
    } else {
      NextTaken(q, v, all);
      assert all[..d + 1] == all[..d] + [all[d]];
      if !IsDouble(q, v.selector) {
        ConsumeReaches(q, v, all[..d]);
        SelectedIsFound(q, Consume(q, v), all);
      } else if all[d] == v.selector {
        SwallowReaches(q, v, all[..d]);
        SelectedIsFound(q, Swallow(v), all);
      } else {
        SkipReaches(q, v, all[..d]);
        SelectedIsFound(q, Skip(v), all);
      }
    }
  }

  /**
   * The search finds the directory selected exactly when all its parts can be given to selectors so
   * that something is named.
   */
  lemma FoundExactlyWhenSelected(q: Query)
    ensures Requires(q, Visit(0, 0, false, false)) <==> exists given :: Selects(q, given)
  {
    hide Requires, Selects;
    var v := Visit(0, 0, false, false);
    assert Reached(q, v, []);
    if Requires(q, v) { var all := FoundIsSelected(q, v, []); }
    if all :| Selects(q, all) {
      assert all[..0] == [];
      LengthOfSelected(q, all);
      SelectedIsFound(q, v, all);
    }
  }

  lemma LengthOfSelected(q: Query, all: seq<nat>)
    requires Selects(q, all)
    ensures |all| == |q.directory|
  {
  }
}
