/**
 Which subscriptions a resolution visits and which configs it collects, on any
 reference graph, with cycles or without.
 */
module ResolverReach {
  import opened Graphs
  import opened Collections
  import opened Subscriptions
  import opened Resolver
  import opened ResolverInvariants

  // ------------------------------------------------------------------
  // What the root can see, without limits
  // ------------------------------------------------------------------

  /** Hidden sources are skipped in the root only. */
  predicate Shown(root: Token, t: Token, s: Source) {
    !(t == root && s.isHidden)
  }

  function ShownIn(root: Token, t: Token): Source -> bool {
    (s: Source) => Shown(root, t, s)
  }

  function ShownSources(w: World, root: Token, t: Token): seq<Source> {
    if t in w.store then Select(w.store[t].sources, ShownIn(root, t)) else []
  }

  /** The references a resolution of `root` may follow, in index order. */
  function VisibleGraph(w: World, root: Token): Graph {
    map t | t in w.store :: Targets(SortByIndex(ShownSources(w, root, t)))
  }

  ghost predicate Yields(w: World, t: Token, s: Source, h: Hash) {
    match s.kind
    case Config(hash, _, loaded) => loaded && h == hash
    case External(url) =>
      && (t, s.id) !in w.failing && url.Some? && url.value in w.content
      && exists line :: line in w.content[url.value] && line.hash == h
    case Internal(_) => false
  }

  /** The subscription itself, not counting what it refers to, offers the digest. */
  ghost predicate Contributes(w: World, root: Token, t: Token, h: Hash) {
    exists s :: s in ShownSources(w, root, t) && Yields(w, t, s, h)
  }

  lemma ShownElements(w: World, root: Token, t: Token)
    requires t in w.store
    ensures forall s :: s in ShownSources(w, root, t) <==> s in w.store[t].sources && Shown(root, t, s)
  {
    SelectElements(w.store[t].sources, ShownIn(root, t));
  }

  lemma VisibleEdge(w: World, root: Token, t: Token, v: Token)
    ensures v in Refs(VisibleGraph(w, root), t) <==> exists s :: s in ShownSources(w, root, t) && RefersTo(s, v)
  {
    SortByIndexKeepsElements(ShownSources(w, root, t));
    TargetsAreReferences(SortByIndex(ShownSources(w, root, t)), v);
  }

  // ------------------------------------------------------------------
  // Exactness when nothing is cut
  // ------------------------------------------------------------------

  /** No depth filter below the limit and no failing fetch. */
  ghost predicate Unfiltered(w: World, lim: Limits) {
    && w.failing == {}
    && forall t, s :: t in w.store && s in w.store[t].sources ==> s.maxDepth >= lim.maxDepth
  }

  predicate Uncut(b: Progress) {
    !b.truncated && !b.depthExceeded
  }

  /** Only the root is visited at depth 0, and it is visited first. */
  predicate RootFirst(root: Token, t: Token, depth: nat, a: Progress) {
    if depth == 0 then t == root else root in a.visited
  }

  /** Every token visited since `a` was reached from `from`, and its references were visited too. */
  ghost predicate Explored(w: World, root: Token, a: Progress, b: Progress, from: Token) {
    && a.visited <= b.visited
    && (forall u :: u in b.visited && u !in a.visited ==> Reaches(VisibleGraph(w, root), from, u))
    && (forall u, v :: u in b.visited && u !in a.visited && v in Refs(VisibleGraph(w, root), u) ==> v in b.visited)
  }

  /** The digests collected since `a` are those of the tokens visited since and of the sources `ss` of `owner`. */
  ghost predicate Collected(w: World, root: Token, a: Progress, b: Progress, owner: Token, ss: seq<Source>) {
    forall h :: h in b.seen <==>
                || h in a.seen
                || (exists u :: u in b.visited && u !in a.visited && Contributes(w, root, u, h))
                || (exists s :: s in ss && Yields(w, owner, s, h))
  }

  lemma EligibleAreShown(w: World, lim: Limits, root: Token, t: Token, depth: nat)
    requires Unfiltered(w, lim) && depth <= lim.maxDepth && t in w.store && (depth == 0 <==> t == root)
    ensures forall s :: s in EligibleSources(w.store[t], depth) <==> s in ShownSources(w, root, t)
  {
    EligibleElements(w.store[t], depth);
    ShownElements(w, root, t);
  }

  lemma {:induction false} VisitExplores(w: World, lim: Limits, root: Token, t: Token, depth: nat, a: Progress,
                                         b: Progress)
    requires Unfiltered(w, lim) && RootFirst(root, t, depth, a)
    requires b == Visit(w, lim, t, depth, a) && Uncut(b)
    ensures Explored(w, root, a, b, t) && t in b.visited
    decreases lim.maxDepth - depth, 0, 0
  {
    if t in a.visited {
    } else if t in w.store {
      var entered := Describe(lim, w.store[t], a.(visited := a.visited + {t}));
      var ss := EligibleSources(w.store[t], depth);
      EligibleAreShown(w, lim, root, t, depth);
      ApplyAllExplores(w, lim, root, t, ss, depth, entered, b);
      ExploredFromEntered(w, root, t, ss, a, entered, b);
    } else {
      MissingExplored(w, root, t, a, b);
    }
  }

  lemma MissingExplored(w: World, root: Token, t: Token, a: Progress, b: Progress)
    requires t !in w.store && b.visited == a.visited + {t}
    ensures Explored(w, root, a, b, t)
  {
    ReachesSelf(VisibleGraph(w, root), t);
  }

  lemma ExploredFromEntered(w: World, root: Token, t: Token, ss: seq<Source>, a: Progress, entered: Progress,
                            b: Progress)
    requires entered.visited == a.visited + {t} && Explored(w, root, entered, b, t)
    requires forall s :: s in ShownSources(w, root, t) ==> s in ss
    requires forall s, v :: s in ss && RefersTo(s, v) ==> v in b.visited
    ensures Explored(w, root, a, b, t)
  {
    ReachesSelf(VisibleGraph(w, root), t);
    forall v | v in Refs(VisibleGraph(w, root), t)
      ensures v in b.visited
    {
      VisibleEdge(w, root, t, v);
    }
  }

  lemma {:induction false} ApplyAllExplores(w: World, lim: Limits, root: Token, t: Token, ss: seq<Source>, depth: nat,
                                            a: Progress, b: Progress)
    requires depth <= lim.maxDepth && Unfiltered(w, lim) && root in a.visited
    requires forall s :: s in ss ==> s in ShownSources(w, root, t)
    requires b == ApplyAll(w, lim, t, ss, depth, a) && Uncut(b)
    ensures Explored(w, root, a, b, t)
    ensures forall s, v :: s in ss && RefersTo(s, v) ==> v in b.visited
    decreases lim.maxDepth - depth - 1, 1, |ss|
  {
    if ss != [] {
      var m := ApplySource(w, lim, t, ss[0], depth, a);
      ApplyAllKeeps(w, lim, t, ss[1..], depth, m, b);
      ApplySourceExplores(w, lim, root, t, ss[0], depth, a, m);
      assert forall s :: s in ss[1..] ==> s in ss;
      ApplyAllExplores(w, lim, root, t, ss[1..], depth, m, b);
      assert forall s :: s in ss ==> s == ss[0] || s in ss[1..];
    }
  }

  lemma ExploredThrough(w: World, root: Token, t: Token, v: Token, a: Progress, b: Progress)
    requires Explored(w, root, a, b, v) && v in Refs(VisibleGraph(w, root), t)
    ensures Explored(w, root, a, b, t)
  {
    var g := VisibleGraph(w, root);
    forall u | u in b.visited && u !in a.visited
      ensures Reaches(g, t, u)
    {
      assert WalkBetween(g, [t, v], t, v);
      ReachesTransitive(g, t, v, u);
    }
  }

  lemma {:induction false} ApplySourceExplores(w: World, lim: Limits, root: Token, t: Token, s: Source, depth: nat,
                                               a: Progress, b: Progress)
    requires depth <= lim.maxDepth && |a.configs| < lim.maxConfigs && Unfiltered(w, lim) && root in a.visited
    requires s in ShownSources(w, root, t)
    requires b == ApplySource(w, lim, t, s, depth, a) && Uncut(b)
    ensures Explored(w, root, a, b, t)
    ensures forall v :: RefersTo(s, v) ==> v in b.visited
    decreases lim.maxDepth - depth - 1, 0, 1
  {
    if !s.kind.Config? {
      match Fetch(w, t, s)
      case Failed =>
      case Lines(lines) =>
        LinesOnlyAppend(Take(lines, lim.maxConfigs - |a.configs|), s, a);
      case CommentMap(c) =>
        if s.kind.target.Some? {
          var v := s.kind.target.value;
          VisitExplores(w, lim, root, v, depth + 1, MergeInto(c, a), b);
          VisibleEdge(w, root, t, v);
          assert RefersTo(s, v);
          ExploredThrough(w, root, t, v, MergeInto(c, a), b);
        }
    }
  }

  lemma {:induction false} AddLinesCollects(lines: seq<Line>, s: Source, a: Progress, h: Hash)
    ensures h in AddLines(lines, s, a).seen <==> h in a.seen || exists line :: line in lines && line.hash == h
  {
    if lines != [] {
      AddLinesCollects(lines[1..], s, AddEntry(LineEntry(lines[0], s), a), h);
      assert lines[0] in lines && forall line :: line in lines[1..] ==> line in lines;
      assert forall line :: line in lines ==> line == lines[0] || line in lines[1..];
    }
  }

  lemma {:induction false} VisitCollects(w: World, lim: Limits, root: Token, t: Token, depth: nat, a: Progress,
                                         b: Progress)
    requires Unfiltered(w, lim) && RootFirst(root, t, depth, a)
    requires b == Visit(w, lim, t, depth, a) && Uncut(b)
    ensures Collected(w, root, a, b, t, [])
    decreases lim.maxDepth - depth, 0, 0
  {
    if t !in a.visited {
      if t in w.store {
        var entered := Describe(lim, w.store[t], a.(visited := a.visited + {t}));
        var ss := EligibleSources(w.store[t], depth);
        EligibleAreShown(w, lim, root, t, depth);
        ApplyAllKeeps(w, lim, t, ss, depth, entered, b);
        ApplyAllCollects(w, lim, root, t, ss, depth, entered, b);
        assert entered.seen == a.seen && entered.visited == a.visited + {t};
      }
    }
  }

  lemma {:induction false} ApplyAllCollects(w: World, lim: Limits, root: Token, t: Token, ss: seq<Source>, depth: nat,
                                            a: Progress, b: Progress)
    requires depth <= lim.maxDepth && Unfiltered(w, lim) && root in a.visited
    requires b == ApplyAll(w, lim, t, ss, depth, a) && Uncut(b)
    ensures Collected(w, root, a, b, t, ss)
    decreases lim.maxDepth - depth - 1, 1, |ss|
  {
    if ss != [] {
      var m := ApplySource(w, lim, t, ss[0], depth, a);
      ApplySourceKeeps(w, lim, t, ss[0], depth, a, m);
      ApplyAllKeeps(w, lim, t, ss[1..], depth, m, b);
      ApplySourceCollects(w, lim, root, t, ss[0], depth, a, m);
      ApplyAllCollects(w, lim, root, t, ss[1..], depth, m, b);
      CollectedInTurn(w, root, t, ss, a, m, b);
    }
  }

  lemma CollectedInTurn(w: World, root: Token, t: Token, ss: seq<Source>, a: Progress, m: Progress, b: Progress)
    requires ss != [] && a.visited <= m.visited <= b.visited
    requires Collected(w, root, a, m, t, [ss[0]]) && Collected(w, root, m, b, t, ss[1..])
    ensures Collected(w, root, a, b, t, ss)
  {
    assert ss[0] in ss && forall s :: s in ss[1..] ==> s in ss;
    assert forall s :: s in ss ==> s in [ss[0]] || s in ss[1..];
  }

  lemma {:induction false} ApplySourceCollects(w: World, lim: Limits, root: Token, t: Token, s: Source, depth: nat,
                                               a: Progress, b: Progress)
    requires depth <= lim.maxDepth && |a.configs| < lim.maxConfigs && Unfiltered(w, lim) && root in a.visited
    requires b == ApplySource(w, lim, t, s, depth, a) && Uncut(b)
    ensures Collected(w, root, a, b, t, [s])
    decreases lim.maxDepth - depth - 1, 0, 1
  {
    assert s in [s];
    if !s.kind.Config? {
      match Fetch(w, t, s)
      case Failed =>
      case Lines(lines) =>
        LinesOnlyAppend(Take(lines, lim.maxConfigs - |a.configs|), s, a);
        forall h
          ensures h in b.seen <==> h in a.seen || Yields(w, t, s, h)
        {
          AddLinesCollects(lines, s, a, h);
        }
      case CommentMap(c) =>
        if s.kind.target.Some? {
          VisitCollects(w, lim, root, s.kind.target.value, depth + 1, MergeInto(c, a), b);
        }
    }
  }

  /**
   On any graph: when nothing was cut, filtered by depth or failing, the tokens
   visited are exactly those the root reaches over its visible references, and
   the digests returned are exactly those that these tokens contribute.
   */
  lemma UncutResolutionIsExact(w: World, lim: Limits, root: Token)
    requires Unfiltered(w, lim) && Uncut(Resolve(w, lim, root))
    ensures var b := Resolve(w, lim, root);
            && (forall t :: t in b.visited <==> Reaches(VisibleGraph(w, root), root, t))
            && (forall h :: h in HashesOf(b.configs) <==>
                            exists t :: Reaches(VisibleGraph(w, root), root, t) && Contributes(w, root, t, h))
  {
    var g, b := VisibleGraph(w, root), Resolve(w, lim, root);
    VisitExplores(w, lim, root, root, 0, Start(w, lim, root), b);
    VisitCollects(w, lim, root, root, 0, Start(w, lim, root), b);
    ResolutionIsSound(w, lim, root);
    forall t | Reaches(g, root, t)
      ensures t in b.visited
    {
      ClosedContainsReachable(g, b.visited, root, t);
    }
  }
}
