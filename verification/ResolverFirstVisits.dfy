/**
 What a resolution collects when sources carry depth filters and fetches fail: a
 subscription counts once, at the depth at which it is first visited.
 */
module ResolverFirstVisits {
  import opened Graphs
  import opened Collections
  import opened Subscriptions
  import opened Resolver
  import opened ResolverInvariants
  import opened ResolverReach
  import opened ResolverWitness
  import opened FirstVisits

  // ------------------------------------------------------------------
  // A run follows the first visits
  // ------------------------------------------------------------------

  /** Some source of `t` that is eligible at depth `d` yields the digest. */
  ghost predicate OffersAt(w: World, t: Token, d: nat, h: Hash) {
    t in w.store && exists s :: s in w.store[t].sources && Eligible(s, d) && Yields(w, t, s, h)
  }

  /** A token first visited since `d` offers the digest at the depth of that visit. */
  ghost predicate Offered(w: World, d: Depths, e: Depths, h: Hash) {
    exists t :: t in e && t !in d && OffersAt(w, t, e[t], h)
  }

  ghost predicate Gathered(w: World, a: Progress, b: Progress, d: Depths, e: Depths, owner: Token, ss: seq<Source>) {
    forall h :: h in b.seen <==> h in a.seen || Offered(w, d, e, h) || exists s :: s in ss && Yields(w, owner, s, h)
  }

  /** A token first visited since `d` at the limit refers on. */
  ghost predicate Overrun(w: World, max: int, d: Depths, e: Depths) {
    exists t, v :: t in e && t !in d && e[t] == max && Linked(w, t, e[t], v)
  }

  ghost predicate ReferOn(w: World, t: Token, ss: seq<Source>) {
    exists s, v :: s in ss && Delivers(w, t, s, v)
  }

  /** From `a` to `b` the tokens of `e` were visited, and the depth flag was set at the limit only. */
  ghost predicate Visited(w: World, max: int, a: Progress, b: Progress, d: Depths, e: Depths, over: bool) {
    b.visited == e.Keys && (b.depthExceeded <==> a.depthExceeded || over || Overrun(w, max, d, e))
  }

  lemma EntryGathered(w: World, t: Token, s: Source, a: Progress, b: Progress, d: Depths)
    requires forall h :: h in b.seen <==> h in a.seen || Yields(w, t, s, h)
    ensures Gathered(w, a, b, d, d, t, [s])
  {
    assert s in [s];
  }

  lemma GatheredInTurn(w: World, t: Token, ss: seq<Source>, a: Progress, m: Progress, b: Progress,
                       d: Depths, f: Depths, e: Depths)
    requires ss != [] && Extends(d, f) && Extends(f, e)
    requires Gathered(w, a, m, d, f, t, [ss[0]]) && Gathered(w, m, b, f, e, t, ss[1..])
    ensures Gathered(w, a, b, d, e, t, ss)
  {
    assert ss[0] in ss && forall s :: s in ss[1..] ==> s in ss;
    assert forall s :: s in ss ==> s in [ss[0]] || s in ss[1..];
    forall h
      ensures Offered(w, d, e, h) <==> Offered(w, d, f, h) || Offered(w, f, e, h)
    {
    }
  }

  lemma VisitedInTurn(w: World, max: int, t: Token, ss: seq<Source>, atLimit: bool, a: Progress, m: Progress,
                      b: Progress,
                      d: Depths, f: Depths, e: Depths)
    requires ss != [] && Extends(d, f) && Extends(f, e)
    requires Visited(w, max, a, m, d, f, atLimit && ReferOn(w, t, [ss[0]]))
    requires Visited(w, max, m, b, f, e, atLimit && ReferOn(w, t, ss[1..]))
    ensures Visited(w, max, a, b, d, e, atLimit && ReferOn(w, t, ss))
  {
    assert Overrun(w, max, d, e) <==> Overrun(w, max, d, f) || Overrun(w, max, f, e);
    assert ss[0] in [ss[0]] && forall s :: s in ss <==> s in [ss[0]] || s in ss[1..];
    assert ReferOn(w, t, ss) <==> ReferOn(w, t, [ss[0]]) || ReferOn(w, t, ss[1..]);
  }

  lemma {:induction false} VisitFollows(w: World, lim: Limits, t: Token, depth: nat, a: Progress, b: Progress,
                                        d: Depths, e: Depths)
    requires a.visited == d.Keys && b == Visit(w, lim, t, depth, a) && !b.truncated
    requires e == VisitDepths(w, lim.maxDepth, t, depth, d)
    ensures Visited(w, lim.maxDepth, a, b, d, e, depth > lim.maxDepth) && Gathered(w, a, b, d, e, t, [])
    decreases lim.maxDepth - depth, 0, 0
  {
    if depth <= lim.maxDepth && t !in d {
      var own := d[t := depth];
      if t in w.store {
        var ss := EligibleSources(w.store[t], depth);
        var entered := Describe(lim, w.store[t], a.(visited := a.visited + {t}));
        EligibleElements(w.store[t], depth);
        SourcesChart(w, lim.maxDepth, t, ss, depth, own, e);
        ApplyAllFollows(w, lim, t, ss, depth, entered, b, own, e);
        OwnSourcesGathered(w, t, depth, ss, a, entered, b, d, e);
        OwnReferencesOverrun(w, lim.maxDepth, t, depth, ss, d, e);
      }
    }
  }

  lemma OwnSourcesGathered(w: World, t: Token, depth: nat, ss: seq<Source>, a: Progress, entered: Progress, b: Progress,
                           d: Depths, e: Depths)
    requires t in w.store && t !in d && entered.seen == a.seen && Extends(d[t := depth], e)
    requires forall s :: s in ss <==> s in w.store[t].sources && Eligible(s, depth)
    requires Gathered(w, entered, b, d[t := depth], e, t, ss)
    ensures Gathered(w, a, b, d, e, t, [])
  {
    forall h
      ensures Offered(w, d, e, h) <==> Offered(w, d[t := depth], e, h) || exists s :: s in ss && Yields(w, t, s, h)
    {
      assert OffersAt(w, t, depth, h) <==> exists s :: s in ss && Yields(w, t, s, h);
    }
  }

  lemma OwnReferencesOverrun(w: World, max: int, t: Token, depth: nat, ss: seq<Source>, d: Depths, e: Depths)
    requires t in w.store && t !in d && Extends(d[t := depth], e)
    requires forall s :: s in ss <==> s in w.store[t].sources && Eligible(s, depth)
    ensures Overrun(w, max, d, e) <==> Overrun(w, max, d[t := depth], e) || (depth == max && ReferOn(w, t, ss))
  {
    if ReferOn(w, t, ss) {
      var s, v :| s in ss && Delivers(w, t, s, v);
      assert Follows(w, t, depth, s, v);
      assert Linked(w, t, e[t], v);
    }
    forall v | Linked(w, t, depth, v)
      ensures ReferOn(w, t, ss)
    {
      var s :| Follows(w, t, depth, s, v);
      assert s in ss && Delivers(w, t, s, v);
    }
  }

  lemma {:induction false} ApplyAllFollows(w: World, lim: Limits, t: Token, ss: seq<Source>, depth: nat,
                                           a: Progress, b: Progress, d: Depths, e: Depths)
    requires depth <= lim.maxDepth && t in w.store && AtDepth(d, t, depth) && a.visited == d.Keys
    requires forall s :: s in ss ==> s in w.store[t].sources && Eligible(s, depth)
    requires b == ApplyAll(w, lim, t, ss, depth, a) && !b.truncated
    requires e == SourcesDepths(w, lim.maxDepth, t, ss, depth, d)
    ensures Visited(w, lim.maxDepth, a, b, d, e, depth == lim.maxDepth && ReferOn(w, t, ss))
    ensures Gathered(w, a, b, d, e, t, ss)
    decreases lim.maxDepth - depth - 1, 1, |ss|
  {
    if ss != [] {
      var m, f := ApplySource(w, lim, t, ss[0], depth, a), SourceDepths(w, lim.maxDepth, t, ss[0], depth, d);
      ApplyAllKeeps(w, lim, t, ss[1..], depth, m, b);
      assert ss[0] in ss && forall s :: s in ss[1..] ==> s in ss;
      SourceCharts(w, lim.maxDepth, t, ss[0], depth, d, f);
      SourcesChart(w, lim.maxDepth, t, ss[1..], depth, f, e);
      ApplySourceFollows(w, lim, t, ss[0], depth, a, m, d, f);
      ApplyAllFollows(w, lim, t, ss[1..], depth, m, b, f, e);
      GatheredInTurn(w, t, ss, a, m, b, d, f, e);
      VisitedInTurn(w, lim.maxDepth, t, ss, depth == lim.maxDepth, a, m, b, d, f, e);
    }
  }

  lemma {:induction false} ApplySourceFollows(w: World, lim: Limits, t: Token, s: Source, depth: nat,
                                              a: Progress, b: Progress, d: Depths, e: Depths)
    requires depth <= lim.maxDepth && |a.configs| < lim.maxConfigs && a.visited == d.Keys
    requires b == ApplySource(w, lim, t, s, depth, a) && !b.truncated
    requires e == SourceDepths(w, lim.maxDepth, t, s, depth, d)
    ensures Visited(w, lim.maxDepth, a, b, d, e, depth == lim.maxDepth && ReferOn(w, t, [s]))
    ensures Gathered(w, a, b, d, e, t, [s])
    decreases lim.maxDepth - depth - 1, 0, 1
  {
    assert s in [s];
    if s.kind.Config? {
      EntryGathered(w, t, s, a, b, d);
    } else {
      match Fetch(w, t, s)
      case Failed =>
        EntryGathered(w, t, s, a, b, d);
      case Lines(lines) =>
        LinesGathered(w, lim, t, s, lines, a, b, d);
      case CommentMap(c) =>
        if s.kind.target.None? {
          EntryGathered(w, t, s, a, b, d);
        } else {
          var v := s.kind.target.value;
          assert Delivers(w, t, s, v);
          VisitFollows(w, lim, v, depth + 1, MergeInto(c, a), b, d, e);
        }
    }
  }

  lemma LinesGathered(w: World, lim: Limits, t: Token, s: Source, lines: seq<Line>, a: Progress, b: Progress, d: Depths)
    requires |a.configs| < lim.maxConfigs && b == ApplyLines(lim, lines, s, a) && !b.truncated
    requires s.kind.External? && Fetch(w, t, s) == Lines(lines)
    ensures Gathered(w, a, b, d, d, t, [s]) && b.visited == a.visited && b.depthExceeded == a.depthExceeded
  {
    LinesOnlyAppend(Take(lines, lim.maxConfigs - |a.configs|), s, a);
    forall h
      ensures h in b.seen <==> h in a.seen || Yields(w, t, s, h)
    {
      AddLinesCollects(lines, s, a, h);
    }
    EntryGathered(w, t, s, a, b, d);
  }

  /**
   Unless truncated, whatever the filters, failures and cycles: a resolution
   visits exactly the tokens that have a first depth, and returns exactly the
   digests of the sources eligible at these depths.
   */
  lemma FirstVisitsDecide(w: World, lim: Limits, root: Token)
    requires !Resolve(w, lim, root).truncated
    ensures var e, b := FirstDepths(w, lim.maxDepth, root), Resolve(w, lim, root);
            && b.visited == e.Keys
            && forall h :: h in HashesOf(b.configs) <==> exists t :: t in e && OffersAt(w, t, e[t], h)
  {
    var e, b := FirstDepths(w, lim.maxDepth, root), Resolve(w, lim, root);
    VisitFollows(w, lim, root, 0, Start(w, lim, root), b, map[], e);
    ResolutionIsSound(w, lim, root);
    forall h
      ensures Offered(w, map[], e, h) <==> exists t :: t in e && OffersAt(w, t, e[t], h)
    {
    }
  }

  // ------------------------------------------------------------------
  // Lost entries
  // ------------------------------------------------------------------

  /** The sources `ss` lead along `p`, each eligible at its position, and the last of them yields the digest. */
  ghost predicate Leading(w: World, root: Token, p: seq<Token>, ss: seq<Source>, h: Hash) {
    && p != [] && p[0] == root && |ss| == |p|
    && (forall i :: 0 <= i < |p| - 1 ==> Follows(w, p[i], i, ss[i], p[i + 1]))
    && p[|p| - 1] in w.store && ss[|p| - 1] in w.store[p[|p| - 1]].sources && Eligible(ss[|p| - 1], |p| - 1)
    && Yields(w, p[|p| - 1], ss[|p| - 1], h)
  }

  /**
   The token at position `i` was first visited at a depth at which the path's
   source there is not eligible, or too deep for what it refers to.
   */
  ghost predicate Blocked(max: int, p: seq<Token>, ss: seq<Source>, e: Depths, i: nat)
    requires |ss| == |p|
  {
    i < |p| && p[i] in e && (!Eligible(ss[i], e[p[i]]) || (i < |p| - 1 && e[p[i]] == max))
  }

  ghost predicate Obstructed(w: World, max: int, root: Token, p: seq<Token>, ss: seq<Source>)
    requires |ss| == |p|
  {
    exists i :: Blocked(max, p, ss, FirstDepths(w, max, root), i)
  }

  lemma {:induction false} UnblockedPathIsVisited(w: World, max: int, root: Token, p: seq<Token>, ss: seq<Source>,
                                                  h: Hash,
                                                  e: Depths, i: nat)
    requires Leading(w, root, p, ss, h) && root in e && i < |p|
    requires forall t, v :: t in e && Linked(w, t, e[t], v) ==> v in e || e[t] == max
    requires forall j :: 0 <= j < i ==> !Blocked(max, p, ss, e, j)
    ensures p[i] in e
  {
    if i > 0 {
      UnblockedPathIsVisited(w, max, root, p, ss, h, e, i - 1);
      assert !Blocked(max, p, ss, e, i - 1);
      assert Follows(w, p[i - 1], i - 1, ss[i - 1], p[i - 1 + 1]);
      assert Follows(w, p[i - 1], e[p[i - 1]], ss[i - 1], p[i]);
      assert Linked(w, p[i - 1], e[p[i - 1]], p[i]);
    }
  }

  /**
   An eligible path to an eligible entry delivers it unless a token on the path
   was first visited at a depth at which the path's source there is not eligible
   or leads too deep. The digest is lost exactly when that befalls every path.
   */
  lemma EntryIsLostExactlyWhen(w: World, lim: Limits, root: Token, h: Hash)
    requires !Resolve(w, lim, root).truncated
    ensures h !in HashesOf(Resolve(w, lim, root).configs) <==>
            lim.maxDepth < 0 || forall p, ss :: Leading(w, root, p, ss, h) ==> Obstructed(w, lim.maxDepth, root, p, ss)
  {
    var max, e := lim.maxDepth, FirstDepths(w, lim.maxDepth, root);
    FirstVisitsDecide(w, lim, root);
    if h in HashesOf(Resolve(w, lim, root).configs) {
      var t :| t in e && OffersAt(w, t, e[t], h);
      var last :| last in w.store[t].sources && Eligible(last, e[t]) && Yields(w, t, last, h);
      FirstDepthsChart(w, max, root);
      var p, ss := ChainOfDepths(w, root, t, e);
      assert AtDepth(e, p[|p| - 1], |p| - 1);
      ChainLeads(w, max, root, e, p, ss, last, h);
    } else if max >= 0 {
      FirstDepthsChart(w, max, root);
      forall p, ss | Leading(w, root, p, ss, h)
        ensures Obstructed(w, max, root, p, ss)
      {
        LostPathIsBlocked(w, max, root, p, ss, h, e);
      }
    }
  }

  lemma LostPathIsBlocked(w: World, max: int, root: Token, p: seq<Token>, ss: seq<Source>, h: Hash, e: Depths)
    requires Leading(w, root, p, ss, h) && root in e && !exists t :: t in e && OffersAt(w, t, e[t], h)
    requires forall t, v :: t in e && Linked(w, t, e[t], v) ==> v in e || e[t] == max
    ensures exists i :: Blocked(max, p, ss, e, i)
  {
    var n := |p| - 1;
    if forall i :: 0 <= i < n ==> !Blocked(max, p, ss, e, i) {
      UnblockedPathIsVisited(w, max, root, p, ss, h, e, n);
      assert !OffersAt(w, p[n], e[p[n]], h);
      assert Blocked(max, p, ss, e, n);
    }
  }

  /** A path along which every token is at its own depth. */
  ghost predicate OwnDepths(w: World, root: Token, e: Depths, p: seq<Token>, ss: seq<Source>) {
    && p != [] && p[0] == root && |p| == |ss| + 1
    && (forall i :: 0 <= i < |p| ==> AtDepth(e, p[i], i))
    && forall i :: 0 <= i < |ss| ==> Follows(w, p[i], i, ss[i], p[i + 1])
  }

  lemma OwnDepthsExtended(w: World, root: Token, e: Depths, p: seq<Token>, ss: seq<Source>, s: Source, t: Token)
    requires OwnDepths(w, root, e, p, ss) && Follows(w, p[|ss|], |ss|, s, t) && AtDepth(e, t, |p|)
    ensures OwnDepths(w, root, e, p + [t], ss + [s])
  {
    var q, qs := p + [t], ss + [s];
    forall i | 0 <= i < |qs|
      ensures Follows(w, q[i], i, qs[i], q[i + 1])
    {
      if i < |ss| {
        assert Follows(w, p[i], i, ss[i], p[i + 1]);
      }
    }
  }

  lemma OneLevelUp(w: World, e: Depths, t: Token) returns (u: Token, s: Source)
    requires t in e && Below(w, e, t)
    ensures u in e && e[t] == e[u] + 1 && Follows(w, u, e[u], s, t)
  {
    u :| u in e && Linked(w, u, e[u], t) && e[t] == e[u] + 1;
    s :| Follows(w, u, e[u], s, t);
  }

  lemma RootChain(w: World, root: Token, e: Depths)
    requires AtDepth(e, root, 0)
    ensures OwnDepths(w, root, e, [root], [])
  {
  }

  /** A token's depths lead back to the root. */
  lemma {:induction false} ChainOfDepths(w: World, root: Token, t: Token, e: Depths)
    returns (p: seq<Token>, ss: seq<Source>)
    requires Rooted(w, root, e) && t in e
    ensures OwnDepths(w, root, e, p, ss) && p[|p| - 1] == t
    decreases e[t]
  {
    if t == root {
      RootChain(w, root, e);
      p, ss := [root], [];
    } else {
      var u, s := OneLevelUp(w, e, t);
      var q, qs := ChainOfDepths(w, root, u, e);
      assert AtDepth(e, q[|q| - 1], |q| - 1);
      OwnDepthsExtended(w, root, e, q, qs, s, t);
      p, ss := q + [t], qs + [s];
    }
  }

  lemma ChainLeads(w: World, max: int, root: Token, e: Depths, p: seq<Token>, ss: seq<Source>, last: Source, h: Hash)
    requires OwnDepths(w, root, e, p, ss) && p[|p| - 1] in w.store && last in w.store[p[|p| - 1]].sources
    requires Eligible(last, |p| - 1) && Yields(w, p[|p| - 1], last, h) && |p| - 1 <= max
    ensures Leading(w, root, p, ss + [last], h) && forall i :: !Blocked(max, p, ss + [last], e, i)
  {
    var all := ss + [last];
    forall i: nat | i < |p|
      ensures Eligible(all[i], i) && AtDepth(e, p[i], i)
      ensures i < |p| - 1 ==> Follows(w, p[i], i, all[i], p[i + 1])
    {
      if i < |ss| {
        assert Follows(w, p[i], i, ss[i], p[i + 1]);
      }
    }
  }

  // ------------------------------------------------------------------
  // A filtered config that is lost
  // ------------------------------------------------------------------

  function Reference(t: Token, index: int): Source {
    Source(InternalId(t), Internal(Some(t)), false, 3, index)
  }

  const SHALLOW := Source(ConfigId(7), Config(7, "c", true), false, 1, 0)

  /** Subscription 3 holds a config for depth 1 at most; 1 refers to it, but first to 2, which refers to it too. */
  function Detour(): World {
    World(map[1 := Subscription("", [Reference(2, 0), Reference(3, 1)], map[]),
              2 := Subscription("", [Reference(3, 0)], map[]),
              3 := Subscription("", [SHALLOW], map[])], map[], {})
  }

  lemma OneSource(s: Source, depth: nat)
    ensures SortByIndex(Select([s], EligibleAt(depth))) == if Eligible(s, depth) then [s] else []
  {
    assert [s][1..] == [];
    assert Select([s], EligibleAt(depth)) == if Eligible(s, depth) then [s] + Select([s][1..], EligibleAt(depth))
                                             else Select([s][1..], EligibleAt(depth));
  }

  lemma DetourVisitsThirdTooDeep(lim: Limits, a: Progress)
    requires lim == Limits(3, 10, "") && a.configs == [] && 2 !in a.visited && 3 !in a.visited
    ensures var b := Visit(Detour(), lim, 2, 1, a);
            b.configs == [] && b.visited == a.visited + {2, 3} && b.truncated == a.truncated
            && b.depthExceeded == a.depthExceeded
  {
    var w := Detour();
    EligibleInDetour();
    var entered := a.(visited := a.visited + {2});
    var inner := Visit(w, lim, 3, 2, MergeInto(map[], entered));
    assert inner == MergeInto(map[], entered).(visited := entered.visited + {3});
    assert [Reference(3, 0)][1..] == [];
    assert ApplyAll(w, lim, 2, [Reference(3, 0)], 1, entered) == ApplyAll(w, lim, 2, [], 1, inner);
  }

  lemma DetourDepths()
    ensures FirstDepths(Detour(), 3, 1) == map[1 := 0, 2 := 1, 3 := 2]
  {
    var w, ss := Detour(), [Reference(2, 0), Reference(3, 1)];
    EligibleInDetour();
    var inner: Depths := map[1 := 0, 2 := 1, 3 := 2];
    assert VisitDepths(w, 3, 3, 2, map[1 := 0, 2 := 1]) == inner;
    assert [Reference(3, 0)][1..] == [];
    assert SourcesDepths(w, 3, 2, [Reference(3, 0)], 1, map[1 := 0, 2 := 1]) == inner;
    assert ss[1..] == [Reference(3, 1)] && [Reference(3, 1)][1..] == [];
    assert SourcesDepths(w, 3, 1, ss, 0, map[1 := 0]) == SourcesDepths(w, 3, 1, [Reference(3, 1)], 0, inner) == inner;
  }

  lemma EligibleInDetour()
    ensures EligibleSources(Detour().store[1], 0) == [Reference(2, 0), Reference(3, 1)]
    ensures EligibleSources(Detour().store[2], 1) == [Reference(3, 0)] && EligibleSources(Detour().store[3], 2) == []
  {
    var ss := [Reference(2, 0), Reference(3, 1)];
    OneSource(SHALLOW, 2);
    OneSource(Reference(3, 0), 1);
    SelectAll(ss, EligibleAt(0));
    assert ss[1..] == [Reference(3, 1)] && [Reference(3, 1)][1..] == [];
    assert SortByIndex([Reference(3, 1)]) == [Reference(3, 1)];
    assert SortByIndex(ss) == ss;
  }

  /**
   The result is empty and nothing tells so, though the path from 1 to 3 is
   eligible and so is the config: 3 is first visited at depth 2.
   */
  lemma FilteredConfigIsLost()
    ensures var b := Resolve(Detour(), Limits(3, 10, ""), 1);
            b.configs == [] && Uncut(b)
    ensures Leading(Detour(), 1, [1, 3], [Reference(3, 1), SHALLOW], 7)
    ensures Blocked(3, [1, 3], [Reference(3, 1), SHALLOW], FirstDepths(Detour(), 3, 1), 1)
  {
    var w, lim := Detour(), Limits(3, 10, "");
    var ss := [Reference(2, 0), Reference(3, 1)];
    EligibleInDetour();
    var a := Start(w, lim, 1).(visited := {} + {1});
    DetourVisitsThirdTooDeep(lim, MergeInto(map[], a));
    var m := ApplySource(w, lim, 1, ss[0], 0, a);
    assert m == Visit(w, lim, 2, 1, MergeInto(map[], a));
    var b := ApplySource(w, lim, 1, ss[1], 0, m);
    assert b == MergeInto(map[], m);
    assert ss[1..] == [ss[1]] && [ss[1]][1..] == [];
    assert ApplyAll(w, lim, 1, ss[1..], 0, m) == ApplyAll(w, lim, 1, [], 0, b);
    assert Follows(w, 1, 0, Reference(3, 1), 3);
    DetourDepths();
  }
}
