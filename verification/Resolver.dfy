/**
 Resolution of a subscription to a flat list of configs: the result as a
 function of the stored data and of what the fetches return, and the service's
 methods, which compute it by updating one shared accumulator.
 */
module Resolver {
  import opened Graphs
  import opened Collections
  import opened Subscriptions

  datatype Limits = Limits(maxDepth: int, maxConfigs: int, domain: string)

  /** A config line of an external subscription, with its digest. */
  datatype Line = Line(text: string, hash: Hash)

  /**
   What a resolution sees: the store, the parsed content behind each URL, and
   the sources (named by subscription and id) whose fetch fails.
   */
  datatype World = World(store: Store, content: map<Url, seq<Line>>, failing: set<(Token, Id)>)

  datatype Entry = Entry(hash: Hash, config: string, isHidden: bool, maxDepth: int)

  /** The accumulator, with the history of comment maps merged into `comments`. */
  datatype Progress = Progress(
    configs: seq<Entry>,
    seen: set<Hash>,
    description: string,
    truncated: bool,
    depthExceeded: bool,
    visited: set<Token>,
    comments: Comments,
    merged: seq<Comments>)

  datatype Fetched = Failed | Lines(lines: seq<Line>) | CommentMap(comments: Comments)

  // ------------------------------------------------------------------
  // Comments
  // ------------------------------------------------------------------

  function CommentOf(m: Comments, h: Hash): string {
    if h in m then m[h] else ""
  }

  /** Fill in the comments of `c` wherever `m` has none. */
  function MergeComments(m: Comments, c: Comments): Comments {
    map h | h in m.Keys + c.Keys :: if CommentOf(m, h) == "" && h in c then c[h] else m[h]
  }

  /** `m` merged with the part of `c` outside `left`. */
  function MergeExcept(m: Comments, c: Comments, left: set<Hash>): Comments {
    map h | h in m.Keys + (c.Keys - left) :: if CommentOf(m, h) == "" && h in c && h !in left then c[h] else m[h]
  }

  lemma MergingStep(m: Comments, c: Comments, left: set<Hash>, h: Hash)
    requires left <= c.Keys && h in left
    ensures var now := MergeExcept(m, c, left);
            MergeExcept(m, c, left - {h}) == if CommentOf(now, h) == "" then now[h := c[h]] else now
  {
    var now := MergeExcept(m, c, left);
    assert h in now <==> h in m;
    assert CommentOf(now, h) == CommentOf(m, h);
  }

  lemma MergingEnds(m: Comments, c: Comments)
    ensures MergeExcept(m, c, c.Keys) == m && MergeExcept(m, c, {}) == MergeComments(m, c)
  {
    assert m.Keys + (c.Keys - c.Keys) == m.Keys;
  }

  function StoredComments(w: World, t: Token): Comments {
    if t in w.store then w.store[t].comments else map[]
  }

  function Render(base: string, comment: string): string {
    if comment == "" then base else base + "#" + comment
  }

  // ------------------------------------------------------------------
  // Fetching
  // ------------------------------------------------------------------

  function Fetch(w: World, owner: Token, s: Source): Fetched
    requires !s.kind.Config?
  {
    if (owner, s.id) in w.failing then Failed
    else match s.kind
         case External(url) => Lines(if url.Some? && url.value in w.content then w.content[url.value] else [])
         case Internal(target) => CommentMap(if target.Some? then StoredComments(w, target.value) else map[])
  }

  // ------------------------------------------------------------------
  // Applying sources
  // ------------------------------------------------------------------

  predicate Eligible(s: Source, depth: nat) {
    !(s.maxDepth < depth) && !(depth == 0 && s.isHidden)
  }

  function EligibleAt(depth: nat): Source -> bool {
    (s: Source) => Eligible(s, depth)
  }

  function EligibleSources(sub: Subscription, depth: nat): seq<Source> {
    SortByIndex(Select(sub.sources, EligibleAt(depth)))
  }

  lemma EligibleElements(sub: Subscription, depth: nat)
    ensures forall s :: s in EligibleSources(sub, depth) <==> s in sub.sources && Eligible(s, depth)
    ensures Ordered(EligibleSources(sub, depth))
  {
    SortByIndexSorts(Select(sub.sources, EligibleAt(depth)));
    SelectElements(sub.sources, EligibleAt(depth));
    SortByIndexKeepsElements(Select(sub.sources, EligibleAt(depth)));
  }

  function AddEntry(e: Entry, a: Progress): Progress {
    if e.hash in a.seen then a else a.(configs := a.configs + [e], seen := a.seen + {e.hash})
  }

  function ConfigEntry(s: Source, comments: Comments): Entry
    requires s.kind.Config?
  {
    Entry(s.kind.hash, Render(s.kind.data, CommentOf(comments, s.kind.hash)), s.isHidden, s.maxDepth)
  }

  function ApplyConfig(s: Source, a: Progress): Progress
    requires s.kind.Config?
  {
    if !s.kind.loaded then a
    else AddEntry(ConfigEntry(s, a.comments), a)
  }

  function LineEntry(line: Line, s: Source): Entry {
    Entry(line.hash, line.text, s.isHidden, s.maxDepth)
  }

  function AddLines(lines: seq<Line>, s: Source, a: Progress): Progress {
    if lines == [] then a else AddLines(lines[1..], s, AddEntry(LineEntry(lines[0], s), a))
  }

  function Take<T>(xs: seq<T>, n: nat): seq<T> {
    if n < |xs| then xs[..n] else xs
  }

  function ApplyLines(lim: Limits, lines: seq<Line>, s: Source, a: Progress): Progress
    requires |a.configs| < lim.maxConfigs
  {
    var remaining := lim.maxConfigs - |a.configs|;
    var added := AddLines(Take(lines, remaining), s, a);
    if |lines| > remaining then added.(truncated := true) else added
  }

  function MergeInto(c: Comments, a: Progress): Progress {
    a.(comments := MergeComments(a.comments, c), merged := a.merged + [c])
  }

  function Visit(w: World, lim: Limits, t: Token, depth: nat, a: Progress): Progress
    decreases lim.maxDepth - depth, 0, 0
  {
    if |a.configs| >= lim.maxConfigs then a.(truncated := true)
    else if depth > lim.maxDepth then a.(depthExceeded := true)
    else if t in a.visited then a
    else
      var entered := a.(visited := a.visited + {t});
      if t !in w.store then entered
      else ApplyAll(w, lim, t, EligibleSources(w.store[t], depth), depth, Describe(lim, w.store[t], entered))
  }

  function Describe(lim: Limits, sub: Subscription, a: Progress): Progress {
    if sub.description != "" && a.description == lim.domain then a.(description := sub.description) else a
  }

  function ApplyAll(w: World, lim: Limits, t: Token, ss: seq<Source>, depth: nat, a: Progress): Progress
    requires depth <= lim.maxDepth
    decreases lim.maxDepth - depth - 1, 1, |ss|
  {
    if ss == [] then a
    else if |a.configs| >= lim.maxConfigs then a.(truncated := true)
    else ApplyAll(w, lim, t, ss[1..], depth, ApplySource(w, lim, t, ss[0], depth, a))
  }

  function ApplySource(w: World, lim: Limits, t: Token, s: Source, depth: nat, a: Progress): Progress
    requires depth <= lim.maxDepth && |a.configs| < lim.maxConfigs
    decreases lim.maxDepth - depth - 1, 0, 1
  {
    if s.kind.Config? then ApplyConfig(s, a)
    else match Fetch(w, t, s)
         case Failed => a
         case Lines(lines) => ApplyLines(lim, lines, s, a)
         case CommentMap(c) =>
           if s.kind.target.None? then a else Visit(w, lim, s.kind.target.value, depth + 1, MergeInto(c, a))
  }

  function Start(w: World, lim: Limits, root: Token): Progress {
    Progress([], {}, lim.domain, false, false, {}, StoredComments(w, root), [StoredComments(w, root)])
  }

  function Resolve(w: World, lim: Limits, root: Token): Progress {
    Visit(w, lim, root, 0, Start(w, lim, root))
  }

  // ------------------------------------------------------------------
  // The service
  // ------------------------------------------------------------------

  /** The primary key of a source row is its subscription and its id. */
  ghost predicate Keyed(ss: seq<Source>) {
    forall r, s :: r in ss && s in ss && r.id == s.id ==> r == s
  }

  ghost predicate KeyedStore(store: Store) {
    forall t :: t in store ==> Keyed(store[t].sources)
  }

  class Resolution {
    const world: World
    const limits: Limits
    var configs: seq<Entry>
    var seenHashes: set<Hash>
    var description: string
    var truncated: bool
    var depthExceeded: bool
    var resolvedSubscriptions: set<Token>
    var rootComments: Comments
    ghost var merged: seq<Comments>

    ghost function Current(): Progress
      reads this
    {
      Progress(configs, seenHashes, description, truncated, depthExceeded, resolvedSubscriptions, rootComments, merged)
    }

    constructor (world: World, limits: Limits, root: Token)
      ensures this.world == world && this.limits == limits
      ensures Current() == Start(world, limits, root)
    {
      this.world, this.limits := world, limits;
      configs, seenHashes, description := [], {}, limits.domain;
      truncated, depthExceeded, resolvedSubscriptions := false, false, {};
      rootComments := StoredComments(world, root);
      merged := [StoredComments(world, root)];
    }

    /**
     All fetches of one subscription run at once and finish in any order; each
     outcome is filed under the position of its source, then under its id.
     */
    method FetchAll(owner: Token, sources: seq<Source>) returns (outcomes: map<Id, Fetched>)
      requires Keyed(sources)
      ensures forall s :: s in sources && !s.kind.Config? ==>
                            s.id in outcomes && outcomes[s.id] == Fetch(world, owner, s)
    {
      var pending := set i | 0 <= i < |sources| && !sources[i].kind.Config?;
      ghost var started := pending;
      var finished: map<int, Fetched> := map[];
      while pending != {}
        invariant pending <= started && finished.Keys == started - pending
        invariant forall i :: i in finished ==> finished[i] == Fetch(world, owner, sources[i])
        decreases pending
      {
        var i :| i in pending;
        finished := finished[i := Fetch(world, owner, sources[i])];
        pending := pending - {i};
      }
      outcomes := map[];
      for i := 0 to |sources|
        invariant forall j :: 0 <= j < i && !sources[j].kind.Config? ==>
                                sources[j].id in outcomes && outcomes[sources[j].id] == Fetch(world, owner, sources[j])
      {
        if i in finished {
          outcomes := outcomes[sources[i].id := finished[i]];
          assert forall j :: 0 <= j < i && sources[j].id == sources[i].id ==> sources[j] == sources[i];
        }
      }
    }

    method Append(e: Entry)
      modifies this
      ensures Current() == AddEntry(e, old(Current()))
    {
      if e.hash !in seenHashes {
        seenHashes := seenHashes + {e.hash};
        configs := configs + [e];
      }
    }

    method ApplyConfigSource(s: Source)
      requires s.kind.Config?
      modifies this
      ensures Current() == ApplyConfig(s, old(Current()))
    {
      if !s.kind.loaded {
        return;
      }
      var full := Render(s.kind.data, CommentOf(rootComments, s.kind.hash));
      Append(Entry(s.kind.hash, full, s.isHidden, s.maxDepth));
    }

    method ApplyExternalOutcome(s: Source, lines: seq<Line>)
      requires |configs| < limits.maxConfigs
      modifies this
      ensures Current() == ApplyLines(limits, lines, s, old(Current()))
    {
      var remaining := limits.maxConfigs - |configs|;
      var taken := Take(lines, remaining);
      for i := 0 to |taken|
        invariant AddLines(taken, s, old(Current())) == AddLines(taken[i..], s, Current())
      {
        Append(LineEntry(taken[i], s));
        assert taken[i..][1..] == taken[i + 1..];
      }
      if |lines| > remaining {
        truncated := true;
      }
    }

    method MergeRootComments(c: Comments)
      modifies this
      ensures Current() == MergeInto(c, old(Current()))
    {
      var keys := c.Keys;
      ghost var before := rootComments;
      MergingEnds(before, c);
      while keys != {}
        invariant keys <= c.Keys && rootComments == MergeExcept(before, c, keys)
        decreases keys
        modifies `rootComments
      {
        var h :| h in keys;
        MergingStep(before, c, keys, h);
        if CommentOf(rootComments, h) == "" {
          rootComments := rootComments[h := c[h]];
        }
        keys := keys - {h};
      }
      merged := merged + [c];
    }

    method ApplyInternalOutcome(s: Source, c: Comments, depth: nat)
      requires s.kind.Internal? && s.kind.target.Some? && depth <= limits.maxDepth && KeyedStore(world.store)
      modifies this
      ensures Current() == Visit(world, limits, s.kind.target.value, depth + 1, MergeInto(c, old(Current())))
      decreases limits.maxDepth - depth - 1, 1
    {
      MergeRootComments(c);
      ResolveRecursive(s.kind.target.value, depth + 1);
    }

    method ApplySources(token: Token, sources: seq<Source>, outcomes: map<Id, Fetched>, depth: nat)
      requires depth <= limits.maxDepth && KeyedStore(world.store)
      requires forall s :: s in sources && !s.kind.Config? ==>
                             s.id in outcomes && outcomes[s.id] == Fetch(world, token, s)
      modifies this
      ensures Current() == ApplyAll(world, limits, token, sources, depth, old(Current()))
      decreases limits.maxDepth - depth - 1, 2
    {
      for i := 0 to |sources|
        invariant ApplyAll(world, limits, token, sources, depth, old(Current())) ==
                  ApplyAll(world, limits, token, sources[i..], depth, Current())
      {
        if |configs| >= limits.maxConfigs {
          truncated := true;
          return;
        }
        var source := sources[i];
        ghost var before := Current();
        if source.kind.Config? {
          ApplyConfigSource(source);
        } else {
          match outcomes[source.id]
          case Failed =>
          case Lines(lines) =>
            ApplyExternalOutcome(source, lines);
          case CommentMap(comments) =>
            if source.kind.target.Some? {
              ApplyInternalOutcome(source, comments, depth);
            }
        }
        assert Current() == ApplySource(world, limits, token, source, depth, before);
        assert sources[i..][0] == source && sources[i..][1..] == sources[i + 1..];
      }
    }

    method ResolveRecursive(token: Token, depth: nat)
      requires KeyedStore(world.store)
      modifies this
      ensures Current() == Visit(world, limits, token, depth, old(Current()))
      decreases limits.maxDepth - depth, 0
    {
      if |configs| >= limits.maxConfigs {
        truncated := true;
        return;
      }
      if depth > limits.maxDepth {
        depthExceeded := true;
        return;
      }
      if token in resolvedSubscriptions {
        return;
      }
      resolvedSubscriptions := resolvedSubscriptions + {token};
      if token !in world.store {
        return;
      }
      var subscription := world.store[token];
      if subscription.description != "" && description == limits.domain {
        description := subscription.description;
      }
      var eligible := EligibleSources(subscription, depth);
      EligibleElements(subscription, depth);
      var outcomes := FetchAll(token, eligible);
      ApplySources(token, eligible, outcomes, depth);
    }
  }

  method ResolveSubscription(w: World, lim: Limits, root: Token) returns (r: Resolution)
    requires KeyedStore(w.store)
    ensures fresh(r) && r.Current() == Resolve(w, lim, root)
  {
    r := new Resolution(w, lim, root);
    r.ResolveRecursive(root, 0);
  }
}
