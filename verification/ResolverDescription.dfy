/** The description of a resolution: that of the first subscription visited that has one of its own. */
module ResolverDescription {
  import opened Graphs
  import opened Subscriptions
  import opened Resolver
  import opened ResolverInvariants

  /** A description that is neither empty nor the default. */
  predicate Telling(lim: Limits, description: string) {
    description != "" && description != lim.domain
  }

  ghost predicate Described(w: World, t: Token, description: string) {
    t in w.store && w.store[t].description == description
  }

  /** Once told, the description stays; until then every token visited had none to tell. */
  ghost predicate Tells(w: World, lim: Limits, a: Progress, b: Progress) {
    && (a.description != lim.domain ==> b.description == a.description)
    && (b.description == lim.domain ==>
          forall t :: t in b.visited && t !in a.visited && t in w.store ==> !Telling(lim, w.store[t].description))
    && (b.description == a.description
        || (Telling(lim, b.description)
            && exists t :: t in b.visited && t !in a.visited && Described(w, t, b.description)))
  }

  lemma TellsInTurn(w: World, lim: Limits, a: Progress, m: Progress, b: Progress)
    requires Tells(w, lim, a, m) && Tells(w, lim, m, b) && a.visited <= m.visited <= b.visited
    ensures Tells(w, lim, a, b)
  {
  }

  lemma EnteringTells(w: World, lim: Limits, t: Token, a: Progress, b: Progress)
    requires t in w.store && t !in a.visited
    requires b == Describe(lim, w.store[t], a.(visited := a.visited + {t}))
    ensures Tells(w, lim, a, b)
  {
    assert Described(w, t, w.store[t].description);
  }

  lemma {:induction false} VisitTells(w: World, lim: Limits, t: Token, depth: nat, a: Progress, b: Progress)
    requires b == Visit(w, lim, t, depth, a)
    ensures Tells(w, lim, a, b)
    decreases lim.maxDepth - depth, 0, 0
  {
    if !Full(lim, a) && depth <= lim.maxDepth && t !in a.visited && t in w.store {
      var entered := Describe(lim, w.store[t], a.(visited := a.visited + {t}));
      EnteringTells(w, lim, t, a, entered);
      ApplyAllKeeps(w, lim, t, EligibleSources(w.store[t], depth), depth, entered, b);
      ApplyAllTells(w, lim, t, EligibleSources(w.store[t], depth), depth, entered, b);
      TellsInTurn(w, lim, a, entered, b);
    }
  }

  lemma {:induction false} ApplyAllTells(w: World, lim: Limits, t: Token, ss: seq<Source>, depth: nat,
                                         a: Progress, b: Progress)
    requires depth <= lim.maxDepth && b == ApplyAll(w, lim, t, ss, depth, a)
    ensures Tells(w, lim, a, b)
    decreases lim.maxDepth - depth - 1, 1, |ss|
  {
    if ss != [] && !Full(lim, a) {
      var m := ApplySource(w, lim, t, ss[0], depth, a);
      ApplySourceKeeps(w, lim, t, ss[0], depth, a, m);
      ApplyAllKeeps(w, lim, t, ss[1..], depth, m, b);
      ApplySourceTells(w, lim, t, ss[0], depth, a, m);
      ApplyAllTells(w, lim, t, ss[1..], depth, m, b);
      TellsInTurn(w, lim, a, m, b);
    }
  }

  lemma {:induction false} ApplySourceTells(w: World, lim: Limits, t: Token, s: Source, depth: nat,
                                            a: Progress, b: Progress)
    requires depth <= lim.maxDepth && !Full(lim, a) && b == ApplySource(w, lim, t, s, depth, a)
    ensures Tells(w, lim, a, b)
    decreases lim.maxDepth - depth - 1, 0, 1
  {
    if !s.kind.Config? {
      match Fetch(w, t, s)
      case Failed =>
      case Lines(lines) =>
        LinesOnlyAppend(Take(lines, lim.maxConfigs - |a.configs|), s, a);
      case CommentMap(c) =>
        if s.kind.target.Some? {
          VisitTells(w, lim, s.kind.target.value, depth + 1, MergeInto(c, a), b);
        }
    }
  }

  /**
   A resolution is described by a subscription it visits, by the root if that has
   a description of its own, and by the domain only when none visited has one.
   */
  lemma DescriptionIsTold(w: World, lim: Limits, root: Token)
    ensures var b := Resolve(w, lim, root);
            && (b.description == lim.domain <==>
                forall t :: t in b.visited && t in w.store ==> !Telling(lim, w.store[t].description))
            && (b.description != lim.domain ==> exists t :: t in b.visited && Described(w, t, b.description))
            && (root in b.visited && root in w.store && Telling(lim, w.store[root].description) ==>
                  b.description == w.store[root].description)
  {
    var a, b := Start(w, lim, root), Resolve(w, lim, root);
    VisitTells(w, lim, root, 0, a, b);
    if root in b.visited && root in w.store {
      var entered := Describe(lim, w.store[root], a.(visited := a.visited + {root}));
      ApplyAllTells(w, lim, root, EligibleSources(w.store[root], 0), 0, entered, b);
    }
  }
}
