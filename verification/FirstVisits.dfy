/**
 First visits: the depth at which a resolution first comes to each subscription,
 told from the references alone, with no regard to configs and their number.
 */
module FirstVisits {
  import opened Graphs
  import opened Subscriptions
  import opened Resolver
  import opened ResolverWitness

  type Depths = map<Token, nat>

  // ------------------------------------------------------------------
  // The depths
  // ------------------------------------------------------------------

  /** The depths `d`, with those first visited from `t` at `depth` on. */
  function VisitDepths(w: World, max: int, t: Token, depth: nat, d: Depths): Depths
    decreases max - depth, 0, 0
  {
    if depth > max || t in d then d
    else if t !in w.store then d[t := depth]
    else SourcesDepths(w, max, t, EligibleSources(w.store[t], depth), depth, d[t := depth])
  }

  function SourcesDepths(w: World, max: int, t: Token, ss: seq<Source>, depth: nat, d: Depths): Depths
    requires depth <= max
    decreases max - depth - 1, 1, |ss|
  {
    if ss == [] then d else SourcesDepths(w, max, t, ss[1..], depth, SourceDepths(w, max, t, ss[0], depth, d))
  }

  function SourceDepths(w: World, max: int, t: Token, s: Source, depth: nat, d: Depths): Depths
    requires depth <= max
    decreases max - depth - 1, 0, 1
  {
    if s.kind.Internal? && s.kind.target.Some? && (t, s.id) !in w.failing then
      VisitDepths(w, max, s.kind.target.value, depth + 1, d)
    else d
  }

  /** The depth of the first visit of every subscription a resolution of `root` visits. */
  function FirstDepths(w: World, max: int, root: Token): Depths {
    VisitDepths(w, max, root, 0, map[])
  }

  // ------------------------------------------------------------------
  // What they say
  // ------------------------------------------------------------------

  ghost predicate AtDepth(e: Depths, t: Token, i: int) {
    t in e && e[t] == i
  }

  ghost predicate Extends(d: Depths, e: Depths) {
    forall t :: t in d ==> t in e && e[t] == d[t]
  }

  /** `s` is a reference to `v` whose fetch succeeds. */
  ghost predicate Delivers(w: World, t: Token, s: Source, v: Token) {
    RefersTo(s, v) && (t, s.id) !in w.failing
  }

  /** No token since `d` is below the limit, and whatever one above it refers to at its depth is there. */
  ghost predicate Followed(w: World, max: int, d: Depths, e: Depths) {
    && (forall t :: t in e && t !in d ==> e[t] <= max)
    && forall t, v :: t in e && t !in d && Linked(w, t, e[t], v) ==> v in e || e[t] == max
  }

  /** Some token that `t` is referred to from is one level above it. */
  ghost predicate Below(w: World, e: Depths, t: Token)
    requires t in e
  {
    exists u :: u in e && Linked(w, u, e[u], t) && e[t] == e[u] + 1
  }

  /** The root is at depth 0, every other token below one that refers to it. */
  ghost predicate Rooted(w: World, root: Token, e: Depths) {
    AtDepth(e, root, 0) && forall t {:trigger Below(w, e, t)} :: t in e && t != root ==> Below(w, e, t)
  }

  ghost predicate Charted(w: World, max: int, d: Depths, e: Depths) {
    Extends(d, e) && Followed(w, max, d, e)
  }

  lemma BelowForGood(w: World, d: Depths, f: Depths, e: Depths)
    requires Extends(d, f) && Extends(f, e)
    requires forall u :: u in f && u !in d ==> Below(w, f, u)
    ensures forall u :: u in f && u !in d ==> Below(w, e, u)
  {
    forall u | u in f && u !in d
      ensures Below(w, e, u)
    {
      assert Below(w, f, u);
      var x :| x in f && Linked(w, x, f[x], u) && f[u] == f[x] + 1;
      assert x in e && Linked(w, x, e[x], u) && e[u] == e[x] + 1;
    }
  }

  lemma OwnReferencesFollowed(w: World, max: int, t: Token, depth: nat, ss: seq<Source>, d: Depths, e: Depths)
    requires t in w.store && t !in d && depth <= max && Charted(w, max, d[t := depth], e)
    requires forall s :: s in w.store[t].sources && Eligible(s, depth) ==> s in ss
    requires forall s, v :: s in ss && Delivers(w, t, s, v) ==> v in e || depth == max
    ensures Charted(w, max, d, e)
  {
    forall v | Linked(w, t, depth, v)
      ensures v in e || depth == max
    {
      var s :| Follows(w, t, depth, s, v);
      assert Delivers(w, t, s, v);
    }
    forall u, v | u in e && u !in d && Linked(w, u, e[u], v)
      ensures v in e || e[u] == max
    {
      assert u != t ==> u !in d[t := depth];
    }
  }

  lemma {:induction false} VisitCharts(w: World, max: int, t: Token, depth: nat, d: Depths, e: Depths)
    requires e == VisitDepths(w, max, t, depth, d)
    ensures Charted(w, max, d, e)
    ensures depth <= max ==> t in e && (t !in d ==> e[t] == depth)
    ensures forall u :: u in e && u !in d && u != t ==> Below(w, e, u)
    decreases max - depth, 0, 0
  {
    if depth <= max && t !in d && t in w.store {
      var ss := EligibleSources(w.store[t], depth);
      EligibleElements(w.store[t], depth);
      SourcesChart(w, max, t, ss, depth, d[t := depth], e);
      OwnReferencesFollowed(w, max, t, depth, ss, d, e);
    }
  }

  lemma {:induction false} SourcesChart(w: World, max: int, t: Token, ss: seq<Source>, depth: nat, d: Depths, e: Depths)
    requires depth <= max && t in w.store && AtDepth(d, t, depth)
    requires forall s :: s in ss ==> s in w.store[t].sources && Eligible(s, depth)
    requires e == SourcesDepths(w, max, t, ss, depth, d)
    ensures Charted(w, max, d, e)
    ensures forall u :: u in e && u !in d ==> Below(w, e, u)
    ensures forall s, v :: s in ss && Delivers(w, t, s, v) ==> v in e || depth == max
    decreases max - depth - 1, 1, |ss|
  {
    if ss != [] {
      var f := SourceDepths(w, max, t, ss[0], depth, d);
      assert ss[0] in ss && forall s :: s in ss[1..] ==> s in ss;
      SourceCharts(w, max, t, ss[0], depth, d, f);
      SourcesChart(w, max, t, ss[1..], depth, f, e);
      BelowForGood(w, d, f, e);
      assert forall s :: s in ss ==> s == ss[0] || s in ss[1..];
    }
  }

  lemma {:induction false} SourceCharts(w: World, max: int, t: Token, s: Source, depth: nat, d: Depths, e: Depths)
    requires depth <= max && t in w.store && AtDepth(d, t, depth) && s in w.store[t].sources && Eligible(s, depth)
    requires e == SourceDepths(w, max, t, s, depth, d)
    ensures Charted(w, max, d, e)
    ensures forall u :: u in e && u !in d ==> Below(w, e, u)
    ensures forall v :: Delivers(w, t, s, v) ==> v in e || depth == max
    decreases max - depth - 1, 0, 1
  {
    if s.kind.Internal? && s.kind.target.Some? && (t, s.id) !in w.failing {
      var v := s.kind.target.value;
      VisitCharts(w, max, v, depth + 1, d, e);
      assert Follows(w, t, depth, s, v);
      assert Linked(w, t, e[t], v);
    }
  }

  /**
   Every token has one depth, one below that of a token referring to it there,
   and what a token above the limit refers to at its depth has one as well.
   */
  lemma FirstDepthsChart(w: World, max: int, root: Token)
    requires max >= 0
    ensures var e := FirstDepths(w, max, root);
            && Rooted(w, root, e) && (forall t :: t in e ==> e[t] <= max)
            && forall t, v :: t in e && Linked(w, t, e[t], v) ==> v in e || e[t] == max
  {
    VisitCharts(w, max, root, 0, map[], FirstDepths(w, max, root));
  }
}
