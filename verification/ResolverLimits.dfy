/** Raising the limit on the number of configs never loses a config. */
module ResolverLimits {
  import opened Graphs
  import opened Collections
  import opened Subscriptions
  import opened Resolver
  import opened ResolverInvariants

  /**
   Run 1 has the smaller limit. Whatever it has seen, run 2 has seen; and until
   run 1 is full both have visited the same tokens and run 2 has at least as
   much room left.
   */
  ghost predicate Ahead(l1: Limits, l2: Limits, a1: Progress, a2: Progress) {
    && a1.seen <= a2.seen
    && (Full(l1, a1) ||
        (a1.visited == a2.visited && l2.maxConfigs - |a2.configs| >= l1.maxConfigs - |a1.configs|))
  }

  predicate Raises(l1: Limits, l2: Limits) {
    l1.maxDepth == l2.maxDepth && l1.maxConfigs <= l2.maxConfigs
  }

  lemma {:induction false} AddLinesSimulated(lines: seq<Line>, s: Source, a1: Progress, a2: Progress)
    requires a1.seen <= a2.seen
    ensures var b1, b2 := AddLines(lines, s, a1), AddLines(lines, s, a2);
            && b1.seen <= b2.seen && b1.visited == a1.visited && b2.visited == a2.visited
            && |b2.configs| - |a2.configs| <= |b1.configs| - |a1.configs|
  {
    if lines != [] {
      var e := LineEntry(lines[0], s);
      AddLinesSimulated(lines[1..], s, AddEntry(e, a1), AddEntry(e, a2));
    }
  }

  lemma {:induction false} AddLinesInTwoParts(xs: seq<Line>, ys: seq<Line>, s: Source, a: Progress)
    ensures AddLines(xs + ys, s, a) == AddLines(ys, s, AddLines(xs, s, a))
  {
    if xs == [] {
      assert xs + ys == ys;
    } else {
      assert (xs + ys)[1..] == xs[1..] + ys;
      AddLinesInTwoParts(xs[1..], ys, s, AddEntry(LineEntry(xs[0], s), a));
    }
  }

  /** The cut takes raw lines before removing duplicates; the run with more room still stays ahead. */
  lemma ApplyLinesSimulated(l1: Limits, l2: Limits, lines: seq<Line>, s: Source, a1: Progress, a2: Progress)
    requires Raises(l1, l2) && Ahead(l1, l2, a1, a2) && !Full(l1, a1)
    ensures Ahead(l1, l2, ApplyLines(l1, lines, s, a1), ApplyLines(l2, lines, s, a2))
  {
    var r1, r2 := l1.maxConfigs - |a1.configs|, l2.maxConfigs - |a2.configs|;
    var first, longer := Take(lines, r1), Take(lines, r2);
    var rest := longer[|first|..];
    assert longer == first + rest;
    AddLinesSimulated(first, s, a1, a2);
    AddLinesInTwoParts(first, rest, s, a2);
    LinesOnlyAppend(rest, s, AddLines(first, s, a2));
    assert |lines| <= r1 ==> rest == [];
    assert |rest| <= r2 - r1;
  }

  lemma {:induction false} VisitSimulated(w: World, l1: Limits, l2: Limits, t: Token, depth: nat,
                                          a1: Progress, a2: Progress, b1: Progress, b2: Progress)
    requires Raises(l1, l2) && Ahead(l1, l2, a1, a2)
    requires b1 == Visit(w, l1, t, depth, a1) && b2 == Visit(w, l2, t, depth, a2)
    ensures Ahead(l1, l2, b1, b2)
    decreases l1.maxDepth - depth, 0, 0
  {
    VisitKeeps(w, l2, t, depth, a2, b2);
    if !Full(l1, a1) && depth <= l1.maxDepth && t !in a1.visited && t in w.store {
      var e1 := Describe(l1, w.store[t], a1.(visited := a1.visited + {t}));
      var e2 := Describe(l2, w.store[t], a2.(visited := a2.visited + {t}));
      ApplyAllSimulated(w, l1, l2, t, EligibleSources(w.store[t], depth), depth, e1, e2, b1, b2);
    }
  }

  lemma {:induction false} ApplyAllSimulated(w: World, l1: Limits, l2: Limits, t: Token, ss: seq<Source>, depth: nat,
                                             a1: Progress, a2: Progress, b1: Progress, b2: Progress)
    requires depth <= l1.maxDepth && Raises(l1, l2) && Ahead(l1, l2, a1, a2)
    requires b1 == ApplyAll(w, l1, t, ss, depth, a1) && b2 == ApplyAll(w, l2, t, ss, depth, a2)
    ensures Ahead(l1, l2, b1, b2)
    decreases l1.maxDepth - depth - 1, 1, |ss|
  {
    ApplyAllKeeps(w, l2, t, ss, depth, a2, b2);
    if ss != [] && !Full(l1, a1) {
      var m1, m2 := ApplySource(w, l1, t, ss[0], depth, a1), ApplySource(w, l2, t, ss[0], depth, a2);
      ApplySourceSimulated(w, l1, l2, t, ss[0], depth, a1, a2, m1, m2);
      ApplyAllSimulated(w, l1, l2, t, ss[1..], depth, m1, m2, b1, b2);
    }
  }

  lemma {:induction false} ApplySourceSimulated(w: World, l1: Limits, l2: Limits, t: Token, s: Source, depth: nat,
                                                a1: Progress, a2: Progress, b1: Progress, b2: Progress)
    requires depth <= l1.maxDepth && Raises(l1, l2) && Ahead(l1, l2, a1, a2) && !Full(l1, a1)
    requires b1 == ApplySource(w, l1, t, s, depth, a1) && b2 == ApplySource(w, l2, t, s, depth, a2)
    ensures Ahead(l1, l2, b1, b2)
    decreases l1.maxDepth - depth - 1, 0, 1
  {
    if !s.kind.Config? {
      match Fetch(w, t, s)
      case Failed =>
      case Lines(lines) =>
        ApplyLinesSimulated(l1, l2, lines, s, a1, a2);
      case CommentMap(c) =>
        if s.kind.target.Some? {
          VisitSimulated(w, l1, l2, s.kind.target.value, depth + 1, MergeInto(c, a1), MergeInto(c, a2), b1, b2);
        }
    }
  }

  /** For every store and root, a larger limit yields every config a smaller one yields. */
  lemma RaisingTheLimitLosesNoConfig(w: World, l1: Limits, l2: Limits, root: Token)
    requires Raises(l1, l2)
    ensures HashesOf(Resolve(w, l1, root).configs) <= HashesOf(Resolve(w, l2, root).configs)
  {
    VisitSimulated(w, l1, l2, root, 0, Start(w, l1, root), Start(w, l2, root), Resolve(w, l1, root),
                   Resolve(w, l2, root));
    ResolutionIsSound(w, l1, root);
    ResolutionIsSound(w, l2, root);
  }

  // ------------------------------------------------------------------
  // What a smaller limit does change
  // ------------------------------------------------------------------

  const A := Line("a", 1)
  const B := Line("b", 2)
  const URL := Source(ExternalId(9), External(Some(9)), false, 3, 0)
  const THIRD := Source(ConfigId(3), Config(3, "c", true), false, 3, 1)
  const SECOND := Source(ConfigId(2), Config(2, "b", true), false, 3, 2)

  /** One subscription: a URL with a repeated line, and two configs, one of them also behind the URL. */
  function Repeating(): World {
    World(map[0 := Subscription("", [URL, THIRD, SECOND], map[])], map[9 := [A, A, A, B]], {})
  }

  function FromUrl(line: Line): Entry {
    LineEntry(line, URL)
  }

  lemma AllEligible()
    ensures EligibleSources(Repeating().store[0], 0) == [URL, THIRD, SECOND]
  {
    var all := [URL, THIRD, SECOND];
    SelectAll(all, EligibleAt(0));
    assert all[1..] == [THIRD, SECOND] && [THIRD, SECOND][1..] == [SECOND] && [SECOND][1..] == [];
    assert SortByIndex([SECOND]) == [SECOND];
    assert SortByIndex([THIRD, SECOND]) == [THIRD, SECOND];
  }

  lemma ThreeLinesAdded(a: Progress)
    requires a.seen == {} && a.configs == []
    ensures AddLines([A, A, A], URL, a) == a.(configs := [FromUrl(A)], seen := {1})
    ensures AddLines([A, A, A, B], URL, a) == a.(configs := [FromUrl(A), FromUrl(B)], seen := {1, 2})
  {
    var b := AddEntry(FromUrl(A), a);
    assert [B][1..] == [] && [A, B][1..] == [B] && [A, A, B][1..] == [A, B] && [A, A, A, B][1..] == [A, A, B];
    assert [A][1..] == [] && [A, A][1..] == [A] && [A, A, A][1..] == [A, A];
    assert AddLines([A, A], URL, b) == AddLines([A], URL, b) == b;
    assert AddLines([A, A, B], URL, b) == AddLines([A, B], URL, b) == AddLines([B], URL, b);
    assert AddLines([B], URL, b) == AddEntry(FromUrl(B), b);
  }

  lemma InThreeSteps(lim: Limits, a: Progress, b: Progress)
    requires lim.maxDepth >= 0 && lim.maxConfigs >= 3 && a.configs == []
    requires b == ApplySource(Repeating(), lim, 0, URL, 0, a) && |b.configs| < 3
    requires |ApplyConfig(THIRD, b).configs| < lim.maxConfigs
    ensures ApplyAll(Repeating(), lim, 0, [URL, THIRD, SECOND], 0, a) == ApplyConfig(SECOND, ApplyConfig(THIRD, b))
  {
    var w, c := Repeating(), ApplyConfig(THIRD, b);
    assert [URL, THIRD, SECOND][1..] == [THIRD, SECOND] && [THIRD, SECOND][1..] == [SECOND] && [SECOND][1..] == [];
    assert ApplyAll(w, lim, 0, [THIRD, SECOND], 0, b) == ApplyAll(w, lim, 0, [SECOND], 0, c);
    assert ApplyAll(w, lim, 0, [SECOND], 0, c) == ApplySource(w, lim, 0, SECOND, 0, c);
  }

  /**
   The result under a smaller limit need not be a prefix of the larger one, and
   not even in the same order: the line cut away moves its config behind another.
   */
  lemma SmallerLimitMayReorder()
    ensures var small, large := Resolve(Repeating(), Limits(3, 3, ""), 0), Resolve(Repeating(), Limits(3, 4, ""), 0);
            && small.configs == [FromUrl(A), Entry(3, "c", false, 3), Entry(2, "b", false, 3)] && small.truncated
            && large.configs == [FromUrl(A), Entry(2, "b", false, 3), Entry(3, "c", false, 3)] && !large.truncated
  {
    var w, l1, l2 := Repeating(), Limits(3, 3, ""), Limits(3, 4, "");
    AllEligible();
    var a := Start(w, l1, 0).(visited := {} + {0});
    ThreeLinesAdded(a);
    assert Take([A, A, A, B], 3) == [A, A, A];
    InThreeSteps(l1, a, ApplySource(w, l1, 0, URL, 0, a));
    InThreeSteps(l2, a, ApplySource(w, l2, 0, URL, 0, a));
    assert a == Describe(l1, w.store[0], a) == Describe(l2, w.store[0], a);
  }
}
