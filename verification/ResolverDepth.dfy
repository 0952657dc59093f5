/**
 Exactly when a resolution exceeds the depth limit, and what an accepted
 reference changes about that.
 */
module ResolverDepth {
  import opened Graphs
  import opened Collections
  import opened Subscriptions
  import opened AdmissionCheck
  import opened FirstWalks
  import opened Resolver
  import opened ResolverInvariants
  import opened ResolverWitness
  import opened FirstVisits
  import FirstVisitRuns = ResolverFirstVisits
  import Reach = ResolverReach
  import opened SourceStore
  import Properties = SourceStoreProperties

  // ------------------------------------------------------------------
  // The depth flag
  // ------------------------------------------------------------------

  ghost predicate FirstAtLimit(w: World, max: int, root: Token, t: Token) {
    AtDepth(FirstDepths(w, max, root), t, max)
  }

  /** `t` is first visited at the limit and refers to `v` at that depth. */
  ghost predicate RefersBeyond(w: World, max: int, root: Token, t: Token, v: Token) {
    FirstAtLimit(w, max, root, t) && Linked(w, t, max, v)
  }

  /**
   Unless truncated, whatever the filters, failures and cycles: the flag is set
   exactly when a token first visited at the limit refers on.
   */
  lemma DepthExceededExactlyWhen(w: World, lim: Limits, root: Token)
    requires !Resolve(w, lim, root).truncated
    ensures Resolve(w, lim, root).depthExceeded <==>
            lim.maxDepth < 0 || exists t, v :: RefersBeyond(w, lim.maxDepth, root, t, v)
  {
    var e, b := FirstDepths(w, lim.maxDepth, root), Resolve(w, lim, root);
    FirstVisitRuns.VisitFollows(w, lim, root, 0, Start(w, lim, root), b, map[], e);
    if FirstVisitRuns.Overrun(w, lim.maxDepth, map[], e) {
      var t, v :| t in e && e[t] == lim.maxDepth && Linked(w, t, e[t], v);
      assert RefersBeyond(w, lim.maxDepth, root, t, v);
    }
  }

  /** Changing the sources of `t` changes no reference of the others. */
  lemma OthersReferAlike(before: World, w: World, t: Token, u: Token, d: nat, v: Token)
    requires t in before.store && t in w.store && u != t && w.failing == before.failing && w.content == before.content
    requires w.store == before.store[t := before.store[t].(sources := w.store[t].sources)]
    ensures Linked(w, u, d, v) <==> Linked(before, u, d, v)
  {
    forall s
      ensures Follows(w, u, d, s, v) <==> Follows(before, u, d, s, v)
    {
    }
  }

  lemma AcceptedReferenceChangesOneRowList(st: Settings, db: Db, t: Token, req: Request, order: nat, store: Store)
    requires t in db.subs && req.data.InternalData?
    requires AddInternal(st, db, t, req, order) == Done(db.(subs := store))
    ensures t in store && store == db.subs[t := db.subs[t].(sources := store[t].sources)]
  {
  }

  /**
   Where resolving a root stayed within the limit, a reference the service has
   accepted, new or stored before, makes it exceed the limit exactly when at the
   limit there is now a token that refers on and that is the edited one or was
   not first visited there before.
   */
  lemma AcceptedReferenceExceedsDepthExactlyWhen(st: Settings, db: Db, t: Token, req: Request, order: nat,
                                                 before: World, w: World, lim: Limits, root: Token)
    requires t in db.subs && req.data.InternalData?
    requires before.store == db.subs && w == before.(store := w.store)
    requires AddInternal(st, db, t, req, order) == Done(db.(subs := w.store))
    requires Reach.Uncut(Resolve(before, lim, root)) && !Resolve(w, lim, root).truncated
    ensures Resolve(w, lim, root).depthExceeded <==>
            exists u, v ::
              && RefersBeyond(w, lim.maxDepth, root, u, v)
              && (u == t || !FirstAtLimit(before, lim.maxDepth, root, u))
  {
    DepthExceededExactlyWhen(before, lim, root);
    DepthExceededExactlyWhen(w, lim, root);
    AcceptedReferenceChangesOneRowList(st, db, t, req, order, w.store);
    if Resolve(w, lim, root).depthExceeded {
      var u, v :| RefersBeyond(w, lim.maxDepth, root, u, v);
      if u != t {
        OthersReferAlike(before, w, t, u, lim.maxDepth, v);
        assert FirstAtLimit(before, lim.maxDepth, root, u) ==> RefersBeyond(before, lim.maxDepth, root, u, v);
      }
    }
  }

  lemma AppendedRowRefersOn(before: World, w: World, t: Token, row: Source, d: nat, v: Token)
    requires t in before.store && w.failing == before.failing && w.content == before.content
    requires w.store == before.store[t := before.store[t].(sources := before.store[t].sources + [row])]
    ensures Linked(w, t, d, v) ==> Linked(before, t, d, v) || RefersTo(row, v)
  {
    if Linked(w, t, d, v) {
      var s :| Follows(w, t, d, s, v);
      assert s != row ==> Follows(before, t, d, s, v);
    }
  }

  /**
   A new reference does so exactly when such a token was not first visited at the
   limit, or the reference itself refers on.
   */
  lemma NewReferenceExceedsDepthExactlyWhen(st: Settings, db: Db, t: Token, req: Request, order: nat,
                                            before: World, w: World, lim: Limits, root: Token)
    requires t in db.subs && req.data.InternalData?
    requires InternalId(req.data.url) !in Ids(Rows(db, t))
    requires before.store == db.subs && w == before.(store := w.store)
    requires AddInternal(st, db, t, req, order) == Done(db.(subs := w.store))
    requires Reach.Uncut(Resolve(before, lim, root)) && !Resolve(w, lim, root).truncated
    ensures Resolve(w, lim, root).depthExceeded <==>
            exists u, v: Token ::
              && RefersBeyond(w, lim.maxDepth, root, u, v)
              && (FirstAtLimit(before, lim.maxDepth, root, u) ==> u == t && req.data.target == Some(v))
  {
    AcceptedReferenceExceedsDepthExactlyWhen(st, db, t, req, order, before, w, lim, root);
    DepthExceededExactlyWhen(before, lim, root);
    NewReferenceIsAppended(st, db, t, req, order, w.store);
    var row := NewRow(InternalId(req.data.url), Internal(req.data.target), req, order);
    if Resolve(w, lim, root).depthExceeded {
      var u, v :| RefersBeyond(w, lim.maxDepth, root, u, v) && (u == t || !FirstAtLimit(before, lim.maxDepth, root, u));
      AppendedRowRefersOn(before, w, t, row, lim.maxDepth, v);
      assert u == t && FirstAtLimit(before, lim.maxDepth, root, t) && Linked(before, t, lim.maxDepth, v) ==>
          RefersBeyond(before, lim.maxDepth, root, t, v);
    }
  }

  // ------------------------------------------------------------------
  // Without filters and failures: the search that explores each token once
  // ------------------------------------------------------------------

  /** No resolution step has exceeded the limit, and the same tokens have been met. */
  ghost predicate Matched(a: Progress, visited: set<Token>, m: Memo) {
    a.visited == m.checked.Keys + visited && !a.depthExceeded
  }

  ghost predicate MatchedAfter(b: Progress, visited: set<Token>, o: AdmissionCheck.Outcome) {
    if o.verdict.Accepted? then Matched(b, visited, o.memo) else b.depthExceeded
  }

  lemma EligibleInOrder(w: World, lim: Limits, root: Token, t: Token, depth: nat)
    requires Reach.Unfiltered(w, lim) && depth <= lim.maxDepth && t in w.store && (depth == 0 <==> t == root)
    ensures Targets(EligibleSources(w.store[t], depth)) == Refs(Reach.VisibleGraph(w, root), t)
  {
    SelectAlike(w.store[t].sources, EligibleAt(depth), Reach.ShownIn(root, t));
  }

  lemma {:induction false} VisitFollowsSearch(w: World, lim: Limits, root: Token, g: Graph, t: Token, depth: nat,
                                              a: Progress, b: Progress,
                                              visited: set<Token>, m: Memo, o: AdmissionCheck.Outcome)
    requires g == Reach.VisibleGraph(w, root)
    requires Reach.Unfiltered(w, lim) && Reach.RootFirst(root, t, depth, a) && Matched(a, visited, m)
    requires b == Visit(w, lim, t, depth, a) && !b.truncated
    requires o == Explore(g, lim.maxDepth, Always, t, visited, m, depth) && !o.verdict.Circular?
    ensures MatchedAfter(b, visited, o)
    decreases lim.maxDepth - depth, 0, 0
  {
    if depth > lim.maxDepth {
      assert b.depthExceeded && o.verdict.TooDeep?;
    } else if t !in m.checked {
      var loaded := m.(loads := m.loads + multiset{t});
      var entered := a.(visited := a.visited + {t});
      var below := ExploreAll(g, lim.maxDepth, Always, Refs(g, t), visited + {t}, loaded, depth + 1);
      assert Matched(entered, visited + {t}, loaded);
      EnterFollowsSearch(w, lim, root, g, t, depth, entered, b, visited + {t}, loaded, below);
      TokenFollowed(b, visited, t, lim.maxDepth - depth, below, o);
    }
  }

  lemma {:induction false} EnterFollowsSearch(w: World, lim: Limits, root: Token, g: Graph, t: Token, depth: nat,
                                              entered: Progress, b: Progress,
                                              visited: set<Token>, m: Memo, below: AdmissionCheck.Outcome)
    requires g == Reach.VisibleGraph(w, root)
    requires Reach.Unfiltered(w, lim) && depth <= lim.maxDepth && (depth == 0 <==> t == root) && root in entered.visited
    requires t !in w.store ==> b == entered
    requires t in w.store ==>
               b == ApplyAll(w, lim, t, EligibleSources(w.store[t], depth), depth, Describe(lim, w.store[t], entered))
    requires below == ExploreAll(g, lim.maxDepth, Always, Refs(g, t), visited, m, depth + 1)
    requires !b.truncated && !below.verdict.Circular? && Matched(entered, visited, m)
    ensures MatchedAfter(b, visited, below)
    decreases lim.maxDepth - depth - 1, 2, 0
  {
    if t in w.store {
      EligibleInOrder(w, lim, root, t, depth);
      ApplyAllFollowsSearch(w, lim, root, g, t, EligibleSources(w.store[t], depth), depth,
                            Describe(lim, w.store[t], entered), b,
                            visited, m, below);
    }
  }

  lemma TokenFollowed(b: Progress, visited: set<Token>, t: Token, budget: int, below: AdmissionCheck.Outcome,
                      o: AdmissionCheck.Outcome)
    requires MatchedAfter(b, visited + {t}, below)
    requires !below.verdict.Accepted? ==> o == below
    requires below.verdict.Accepted? ==>
               o == AdmissionCheck.Outcome(Accepted, below.memo.(checked := below.memo.checked[t := budget]))
    ensures MatchedAfter(b, visited, o)
  {
  }

  lemma {:induction false} ApplyAllFollowsSearch(w: World, lim: Limits, root: Token, g: Graph, t: Token,
                                                 ss: seq<Source>, depth: nat,
                                                 a: Progress, b: Progress, visited: set<Token>, m: Memo,
                                                 o: AdmissionCheck.Outcome)
    requires g == Reach.VisibleGraph(w, root)
    requires depth <= lim.maxDepth && Reach.Unfiltered(w, lim) && root in a.visited && Matched(a, visited, m)
    requires b == ApplyAll(w, lim, t, ss, depth, a) && !b.truncated
    requires o == ExploreAll(g, lim.maxDepth, Always, Targets(ss), visited, m, depth + 1) && !o.verdict.Circular?
    ensures MatchedAfter(b, visited, o)
    decreases lim.maxDepth - depth - 1, 1, |ss|
  {
    if ss != [] {
      var s, n := ss[0], ApplySource(w, lim, t, ss[0], depth, a);
      ApplySourceKeeps(w, lim, t, s, depth, a, n);
      ApplyAllKeeps(w, lim, t, ss[1..], depth, n, b);
      if s.kind.Internal? && s.kind.target.Some? {
        var v, c := s.kind.target.value, StoredComments(w, s.kind.target.value);
        var first := Explore(g, lim.maxDepth, Always, v, visited, m, depth + 1);
        assert Targets(ss)[0] == v && Targets(ss)[1..] == Targets(ss[1..]);
        VisitFollowsSearch(w, lim, root, g, v, depth + 1, MergeInto(c, a), n, visited, m, first);
        if first.verdict.Accepted? {
          ApplyAllFollowsSearch(w, lim, root, g, t, ss[1..], depth, n, b, visited, first.memo, o);
        }
      } else {
        assert Targets(ss) == [] + Targets(ss[1..]) == Targets(ss[1..]);
        OtherSourcesVisitNothing(w, lim, t, s, depth, a);
        ApplyAllFollowsSearch(w, lim, root, g, t, ss[1..], depth, n, b, visited, m, o);
      }
    }
  }

  lemma OtherSourcesVisitNothing(w: World, lim: Limits, t: Token, s: Source, depth: nat, a: Progress)
    requires depth <= lim.maxDepth && |a.configs| < lim.maxConfigs && !(s.kind.Internal? && s.kind.target.Some?)
    ensures var b := ApplySource(w, lim, t, s, depth, a);
            b.visited == a.visited && b.depthExceeded == a.depthExceeded
  {
    if s.kind.External? && !Fetch(w, t, s).Failed? {
      LinesOnlyAppend(Take(Fetch(w, t, s).lines, lim.maxConfigs - |a.configs|), s, a);
    }
  }

  /**
   On an acyclic visible graph, with nothing truncated, filtered or failing, the
   flag is the depth verdict of the search that explores each token once; that
   is, it is set exactly when some token with references is first met without
   room for them.
   */
  lemma UnfilteredDepthExceededExactlyWhen(w: World, lim: Limits, root: Token)
    requires Reach.Unfiltered(w, lim) && !Resolve(w, lim, root).truncated
    requires Clear(Reach.VisibleGraph(w, root), root, {})
    ensures var g := Reach.VisibleGraph(w, root);
            && (Resolve(w, lim, root).depthExceeded <==>
                Explore(g, lim.maxDepth, Always, root, {}, EMPTY_MEMO, 0).verdict.TooDeep?)
            && (Resolve(w, lim, root).depthExceeded <==> !RoomBelow(g, root, lim.maxDepth))
  {
    var g := Reach.VisibleGraph(w, root);
    var o := Explore(g, lim.maxDepth, Always, root, {}, EMPTY_MEMO, 0);
    OnceSearchAcceptsExactlyWhen(g, lim.maxDepth, root, {});
    VisitFollowsSearch(w, lim, root, g, root, 0, Start(w, lim, root), Resolve(w, lim, root), {}, EMPTY_MEMO, o);
  }

  // ------------------------------------------------------------------
  // Accepted references, in terms of first walks
  // ------------------------------------------------------------------

  lemma VisibleIsReferred(w: World, root: Token)
    ensures Within(Reach.VisibleGraph(w, root), ReferenceGraph(w.store))
  {
    forall u, v | v in Refs(Reach.VisibleGraph(w, root), u)
      ensures v in Refs(ReferenceGraph(w.store), u)
    {
      Reach.VisibleEdge(w, root, u, v);
      Reach.ShownElements(w, root, u);
      ReferenceGraphEdges(w.store, u, v);
    }
  }

  lemma AcyclicIsClear(w: World, root: Token)
    requires Acyclic(ReferenceGraph(w.store))
    ensures Clear(Reach.VisibleGraph(w, root), root, {})
  {
    VisibleIsReferred(w, root);
    FewerReferencesStayAcyclic(ReferenceGraph(w.store), Reach.VisibleGraph(w, root));
  }

  /** Storing an accepted reference, new or stored before, keeps the reference graph acyclic. */
  lemma AcceptedReferenceStaysAcyclic(st: Settings, db: Db, t: Token, req: Request, order: nat, store: Store)
    requires t in db.subs && req.data.InternalData? && Acyclic(ReferenceGraph(db.subs))
    requires AddInternal(st, db, t, req, order) == Done(db.(subs := store))
    ensures Acyclic(ReferenceGraph(store))
  {
    var id, target := InternalId(req.data.url), req.data.target.value;
    if id in Ids(Rows(db, t)) {
      Properties.UpdatedRows(Rows(db, t), id, req, order);
      UpdatedRowsReferAlike(db, t, id, req, order, store);
      Properties.FewerReferences(db.subs, store);
    } else {
      NewReferenceIsAppended(st, db, t, req, order, store);
      forall u, v | Properties.HasReference(store, u, v)
        ensures Properties.HasReference(db.subs, u, v) || (u == t && v == target)
      {
        var s :| s in store[u].sources && RefersTo(s, v);
      }
      Properties.OneMoreReference(st.maxDepth, db.subs, store, t, target);
    }
  }

  lemma UpdatedRowsReferAlike(db: Db, t: Token, id: Id, req: Request, order: nat, store: Store)
    requires t in db.subs && store == WithRows(db, t, UpdateRows(Rows(db, t), id, req, order)).subs
    ensures forall u, v :: Properties.HasReference(store, u, v) ==> Properties.HasReference(db.subs, u, v)
  {
    Properties.UpdatedRows(Rows(db, t), id, req, order);
    forall u, v | Properties.HasReference(store, u, v)
      ensures Properties.HasReference(db.subs, u, v)
    {
      var s :| s in store[u].sources && RefersTo(s, v);
      if u == t {
        Properties.SameKeysSameReferences(Rows(db, t), store[t].sources, s, v);
      }
    }
  }

  /**
   Exactly when resolving some root exceeds the limit after the service has
   accepted a reference: when a token with references is first met, in the
   graph with the reference, without room for them.
   */
  lemma UnfilteredAcceptedReferenceExceedsDepthExactlyWhen(st: Settings, db: Db, t: Token, req: Request, order: nat,
                                                           w: World, lim: Limits, root: Token)
    requires t in db.subs && req.data.InternalData? && Acyclic(ReferenceGraph(db.subs))
    requires AddInternal(st, db, t, req, order) == Done(db.(subs := w.store))
    requires Reach.Unfiltered(w, lim) && !Resolve(w, lim, root).truncated
    ensures Resolve(w, lim, root).depthExceeded <==> !RoomBelow(Reach.VisibleGraph(w, root), root, lim.maxDepth)
  {
    AcceptedReferenceStaysAcyclic(st, db, t, req, order, w.store);
    AcyclicIsClear(w, root);
    UnfilteredDepthExceededExactlyWhen(w, lim, root);
  }

  lemma {:induction false} WalkStaysWithin(g: Graph, h: Graph, u: Token, v: Token)
    requires Within(g, h) && Reaches(g, u, v)
    ensures Reaches(h, u, v)
  {
    var p :| WalkBetween(g, p, u, v);
    assert WalkBetween(h, p, u, v);
  }

  lemma FirstWalkBefore(g: Graph, h: Graph, edited: Token, p: seq<Token>)
    requires Within(g, h) && (forall u :: u != edited ==> Refs(h, u) == Refs(g, u))
    requires FirstWalk(h, p) && edited !in p
    ensures FirstWalk(g, p)
  {
    forall i | 0 <= i < |p| - 1
      ensures p[i + 1] in Refs(g, p[i]) && FirstToward(g, p[i], p[i + 1], p[|p| - 1])
    {
      var end := p[|p| - 1];
      assert p[i] in p && FirstToward(h, p[i], p[i + 1], end);
      var k: nat :| FirstAt(h, p[i], k, p[i + 1], end);
      forall j | 0 <= j < k
        ensures !Reaches(g, Refs(g, p[i])[j], end)
      {
        if Reaches(g, Refs(g, p[i])[j], end) {
          WalkStaysWithin(g, h, Refs(g, p[i])[j], end);
        }
      }
      assert FirstAt(g, p[i], k, p[i + 1], end);
    }
  }

  /** A first walk through the edited subscription comes, without room, to a token with references. */
  ghost predicate TooLongThrough(h: Graph, root: Token, edited: Token, max: int) {
    exists p :: FirstWalk(h, p) && p[0] == root && Refs(h, p[|p| - 1]) != [] && edited in p && |p| > max
  }

  /** Where there was room before, only first walks through the edited subscription can want for it. */
  lemma AddedReferenceKeepsRoomExactlyWhen(g: Graph, h: Graph, root: Token, edited: Token, max: int)
    requires RoomBelow(g, root, max) && Within(g, h) && forall u :: u != edited ==> Refs(h, u) == Refs(g, u)
    ensures RoomBelow(h, root, max) <==> !TooLongThrough(h, root, edited, max)
  {
    if !TooLongThrough(h, root, edited, max) {
      forall p | FirstWalk(h, p) && p[0] == root && Refs(h, p[|p| - 1]) != []
        ensures |p| <= max
      {
        if edited !in p {
          FirstWalkBefore(g, h, edited, p);
          assert p[|p| - 1] in p;
        }
      }
    }
  }

  lemma AppendedReferenceIsAdded(w: World, before: World, root: Token, t: Token, row: Source)
    requires t in before.store
    requires w.store == before.store[t := before.store[t].(sources := before.store[t].sources + [row])]
    ensures Within(Reach.VisibleGraph(before, root), Reach.VisibleGraph(w, root))
    ensures forall u :: u != t ==> Refs(Reach.VisibleGraph(w, root), u) == Refs(Reach.VisibleGraph(before, root), u)
  {
    var g, h := Reach.VisibleGraph(before, root), Reach.VisibleGraph(w, root);
    forall u, v | v in Refs(g, u)
      ensures v in Refs(h, u)
    {
      Reach.VisibleEdge(before, root, u, v);
      Reach.VisibleEdge(w, root, u, v);
      Reach.ShownElements(before, root, u);
      Reach.ShownElements(w, root, u);
      var s :| s in Reach.ShownSources(before, root, u) && RefersTo(s, v);
      assert s in Reach.ShownSources(w, root, u);
    }
  }

  /**
   Where resolving a root stayed within the limit, a new reference accepted by
   the service makes it exceed the limit exactly when a first walk through the
   edited subscription then comes, without room, to a token with references.
   */
  lemma UnfilteredNewReferenceExceedsDepthExactlyWhen(st: Settings, db: Db, t: Token, req: Request, order: nat,
                                                      before: World, w: World, lim: Limits, root: Token)
    requires t in db.subs && req.data.InternalData? && Acyclic(ReferenceGraph(db.subs))
    requires InternalId(req.data.url) !in Ids(Rows(db, t))
    requires before.store == db.subs && w == before.(store := w.store)
    requires AddInternal(st, db, t, req, order) == Done(db.(subs := w.store))
    requires Reach.Unfiltered(w, lim) && !Resolve(w, lim, root).truncated && Reach.Uncut(Resolve(before, lim, root))
    ensures Resolve(w, lim, root).depthExceeded <==> TooLongThrough(Reach.VisibleGraph(w, root), root, t, lim.maxDepth)
  {
    var row := NewRow(InternalId(req.data.url), Internal(req.data.target), req, order);
    NewReferenceIsAppended(st, db, t, req, order, w.store);
    UnfilteredBefore(before, w, lim, t, row);
    AcyclicIsClear(before, root);
    UnfilteredDepthExceededExactlyWhen(before, lim, root);
    UnfilteredAcceptedReferenceExceedsDepthExactlyWhen(st, db, t, req, order, w, lim, root);
    AppendedReferenceIsAdded(w, before, root, t, row);
    AddedReferenceKeepsRoomExactlyWhen(Reach.VisibleGraph(before, root), Reach.VisibleGraph(w, root), root, t,
                                       lim.maxDepth);
  }

  lemma UnfilteredBefore(before: World, w: World, lim: Limits, t: Token, row: Source)
    requires t in before.store && before.failing == w.failing && Reach.Unfiltered(w, lim)
    requires w.store == before.store[t := before.store[t].(sources := before.store[t].sources + [row])]
    ensures Reach.Unfiltered(before, lim)
  {
    forall u, s | u in before.store && s in before.store[u].sources
      ensures s.maxDepth >= lim.maxDepth
    {
      assert s in w.store[u].sources;
    }
  }

  lemma NewReferenceIsAppended(st: Settings, db: Db, t: Token, req: Request, order: nat, store: Store)
    requires t in db.subs && req.data.InternalData? && InternalId(req.data.url) !in Ids(Rows(db, t))
    requires AddInternal(st, db, t, req, order) == Done(db.(subs := store))
    ensures var row := NewRow(InternalId(req.data.url), Internal(req.data.target), req, order);
            store == db.subs[t := db.subs[t].(sources := db.subs[t].sources + [row])]
  {
  }
}
