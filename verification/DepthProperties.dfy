/** The admission check and the resolver count depth from different starting points. */
module DepthProperties {
  import opened Graphs
  import opened Collections
  import opened Subscriptions
  import opened AdmissionCheck
  import opened AdmissionProperties
  import opened Resolver
  import opened ResolverWitness
  import SourceStore

  // ------------------------------------------------------------------
  // When the limits agree
  // ------------------------------------------------------------------

  /** While all walks of the reference graph are short, no resolution exceeds the depth limit. */
  lemma ShortWalksResolveWithinDepth(w: World, lim: Limits, root: Token)
    requires lim.maxDepth >= 0 && ShortWalks(ReferenceGraph(w.store), lim.maxDepth)
    ensures !Resolve(w, lim, root).depthExceeded
  {
    ShortWalksNeverExceedDepth(w, lim, root);
  }

  /**
   An accepted reference keeps all walks short exactly when the walks to the
   edited subscription and from the target leave room for it. The check looks
   at the latter only.
   */
  lemma AcceptedReferenceKeepsWalksShortExactlyWhen(g: Graph, h: Graph, max: nat, edited: Token, target: Token)
    requires ShortWalks(g, max) && Accepts(g, max, AsWritten, edited, target)
    requires Within(g, h) && AddsAtMost(g, h, edited, target) && target in Refs(h, edited)
    ensures ShortWalks(h, max) <==> ShortThrough(g, edited, target, max)
  {
    AcceptedTargetDoesNotReachEdited(g, max, AsWritten, edited, target);
    AddedReferenceKeepsWalksShortExactlyWhen(g, h, edited, target, max);
  }

  // ------------------------------------------------------------------
  // A chain on which they differ
  // ------------------------------------------------------------------

  function Link(t: Token): Source {
    Source(InternalId(t), Internal(Some(t + 1)), false, 3, 0)
  }

  /** Subscriptions 1 to 5, each from `first` on referring to the next one. */
  function Chain(first: Token): Store {
    map t | 1 <= t <= 5 :: Subscription("", if first <= t < 5 then [Link(t)] else [], map[])
  }

  lemma SingleSource(s: Source)
    ensures SortByIndex([s]) == [s]
    ensures s.kind.Internal? && s.kind.target.Some? ==> Targets([s]) == [s.kind.target.value]
  {
    assert [s][1..] == [];
  }

  lemma ChainReferences(first: Token, t: Token)
    requires 1 <= t <= 5
    ensures Refs(ReferenceGraph(Chain(first)), t) == if first <= t < 5 then [t + 1] else []
  {
    if first <= t < 5 {
      SingleSource(Link(t));
    } else {
      assert SortByIndex([]) == [] && Targets([]) == [];
    }
  }

  lemma {:induction false} ChainFits(g: Graph, t: Token)
    requires forall u :: 2 <= u <= 5 ==> Refs(g, u) == if u < 5 then [u + 1] else []
    requires 2 <= t <= 5
    ensures Fits(g, 1, t, 5 - t)
    decreases 5 - t
  {
    if t < 5 {
      ChainFits(g, t + 1);
    }
  }

  lemma ChainAccepted(g: Graph)
    requires g == ReferenceGraph(Chain(2))
    ensures Accepts(g, 3, AsWritten, 1, 2)
  {
    forall u | 2 <= u <= 5
      ensures Refs(g, u) == if u < 5 then [u + 1] else []
    {
      ChainReferences(2, u);
    }
    ChainFits(g, 2);
    FittingTargetAccepted(g, 3, AsWritten, 1, 2, {1}, EMPTY_MEMO, 0);
  }

  lemma {:induction false} ChainTooDeep(w: World, lim: Limits, t: Token, a: Progress)
    requires w.store == Chain(1) && w.failing == {} && lim.maxDepth == 3 && lim.maxConfigs > 0
    requires 1 <= t <= 5 && a.configs == [] && forall u :: u in a.visited ==> u < t
    ensures Visit(w, lim, t, t - 1, a).depthExceeded
    decreases 5 - t
  {
    if t < 5 {
      var s := Link(t);
      SingleSource(s);
      SelectAll([s], EligibleAt(t - 1));
      assert [s][1..] == [];
      assert EligibleSources(w.store[t], t - 1) == [s];
      var entered := Describe(lim, w.store[t], a.(visited := a.visited + {t}));
      var c := StoredComments(w, t + 1);
      ChainTooDeep(w, lim, t + 1, MergeInto(c, entered));
      var b := ApplySource(w, lim, t, s, t - 1, entered);
      assert b == Visit(w, lim, t + 1, t, MergeInto(c, entered));
      assert ApplyAll(w, lim, t, [s], t - 1, entered) == ApplyAll(w, lim, t, [], t - 1, b);
    }
  }

  const REQUEST := SourceStore.Request(SourceStore.InternalData(1, Some(2)), Some(false), Some(3))

  lemma AcceptedReferenceStored(st: SourceStore.Settings, db: SourceStore.Db, t: Token, target: Token,
                                req: SourceStore.Request)
    requires t in db.subs && target in db.subs && db.subs[t].sources == []
    requires req.data.InternalData? && req.data.target == Some(target)
    requires Accepts(ReferenceGraph(db.subs), st.maxDepth, AsWritten, t, target)
    ensures var row := SourceStore.NewRow(InternalId(req.data.url), Internal(Some(target)), req, 0);
            SourceStore.AddInternal(st, db, t, req, 0) == SourceStore.Done(SourceStore.WithRows(db, t, [row]))
  {
    var row := SourceStore.NewRow(InternalId(req.data.url), Internal(Some(target)), req, 0);
    assert [] + [row] == [row];
  }

  /**
   With the default limit of 3, the reference from 1 to a chain of four is
   accepted, and resolving 1 then exceeds the depth limit.
   */
  lemma AcceptedChainExceedsResolverDepth(st: SourceStore.Settings, db: SourceStore.Db, content: map<Url, seq<Line>>,
                                          lim: Limits)
    requires st.maxDepth == lim.maxDepth == 3 && lim.maxConfigs > 0 && db.subs == Chain(2)
    ensures var o := SourceStore.AddInternal(st, db, 1, REQUEST, 0);
            o.Done? && Resolve(World(o.db.subs, content, {}), lim, 1).depthExceeded
  {
    ChainAccepted(ReferenceGraph(db.subs));
    AcceptedReferenceStored(st, db, 1, 2, REQUEST);
    assert db.subs[1 := db.subs[1].(sources := [Link(1)])] == Chain(1);
    var w := World(Chain(1), content, {});
    ChainTooDeep(w, lim, 1, Start(w, lim, 1));
  }
}
