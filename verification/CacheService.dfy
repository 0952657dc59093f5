/**
 The two-tier cache of external content: Redis (L1) in front of persistent rows
 (L2). L1 entries may expire at any time.
 */
module CacheService {
  import opened Subscriptions

  /** A persistent row; `content` is absent until a fetch has succeeded. */
  datatype Row = Row(content: Option<string>, lastError: Option<string>, errorCount: nat)

  datatype Tiers = Tiers(l1: map<Url, string>, l2: map<Url, Row>)

  /** What a fetch of a URL delivers. */
  datatype Fetched = Content(text: string) | FetchError(message: string)

  // ------------------------------------------------------------------
  // Operations
  // ------------------------------------------------------------------

  function Persistent(c: Tiers, u: Url): Option<string> {
    if u in c.l2 then c.l2[u].content else None
  }

  /** An empty L1 entry reads as a miss. */
  function CachedInRedis(c: Tiers, u: Url): Option<string> {
    if u in c.l1 && c.l1[u] != "" then Some(c.l1[u]) else None
  }

  function Lookup(c: Tiers, u: Url): Option<string> {
    if CachedInRedis(c, u).Some? then CachedInRedis(c, u) else Persistent(c, u)
  }

  /** A miss in L1 answered by L2 is written back to L1. */
  function AfterLookup(c: Tiers, u: Url): Tiers {
    if CachedInRedis(c, u).None? && Persistent(c, u).Some? then c.(l1 := c.l1[u := Persistent(c, u).value]) else c
  }

  function UpdatedRow(c: Tiers, u: Url, f: Fetched): Row {
    match f
    case Content(text) => if u in c.l2 then c.l2[u].(content := Some(text)) else Row(Some(text), None, 0)
    case FetchError(message) =>
      if u in c.l2 then c.l2[u].(lastError := Some(message), errorCount := c.l2[u].errorCount + 1)
      else Row(None, Some(message), if message == "" then 0 else 1)
  }

  /** Content goes to L2 and, unless empty, to L1; an error is noted in L2 only. */
  function AfterFetch(c: Tiers, u: Url, f: Fetched): Tiers {
    var stored := c.(l2 := c.l2[u := UpdatedRow(c, u, f)]);
    if f.Content? && f.text != "" then stored.(l1 := c.l1[u := f.text]) else stored
  }

  function WithoutUrls(c: Tiers, us: set<Url>): Tiers {
    Tiers(c.l1 - us, c.l2 - us)
  }

  // ------------------------------------------------------------------
  // The service
  // ------------------------------------------------------------------

  class Cache {
    var l1: map<Url, string>
    var l2: map<Url, Row>

    constructor ()
      ensures State() == Tiers(map[], map[])
    {
      l1, l2 := map[], map[];
    }

    function State(): Tiers
      reads this
    {
      Tiers(l1, l2)
    }

    method GetFromCacheOnly(u: Url) returns (content: Option<string>)
      modifies this
      ensures content == Lookup(old(State()), u) && State() == AfterLookup(old(State()), u)
    {
      if u in l1 && l1[u] != "" {
        return Some(l1[u]);
      }
      if u in l2 && l2[u].content.Some? {
        l1 := l1[u := l2[u].content.value];
        return l2[u].content;
      }
      return None;
    }

    /** Content wins over an error; with neither, a row there is stays and a missing one is created empty. */
    method CreateOrUpdateCache(u: Url, content: Option<string>, error: Option<string>)
      modifies `l2
      ensures u in l2 && l2 == old(l2)[u := l2[u]]
      ensures content.Some? && u in old(l2) ==> l2[u] == old(l2)[u].(content := content)
      ensures content.None? && error.Some? && u in old(l2) ==>
                l2[u] == old(l2)[u].(lastError := error, errorCount := old(l2)[u].errorCount + 1)
      ensures content.None? && error.None? && u in old(l2) ==> l2 == old(l2)
      ensures u !in old(l2) ==> l2[u] == Row(content, error, if error.Some? && error.value != "" then 1 else 0)
    {
      if u in l2 {
        var row := l2[u];
        if content.Some? {
          row := row.(content := content);
        } else if error.Some? {
          row := row.(lastError := error, errorCount := row.errorCount + 1);
        }
        l2 := l2[u := row];
      } else {
        l2 := l2[u := Row(content, error, if error.Some? && error.value != "" then 1 else 0)];
      }
    }

    method FetchAndCache(u: Url, fetched: Fetched)
      modifies this
      ensures State() == AfterFetch(old(State()), u, fetched)
    {
      match fetched
      case Content(text) =>
        CreateOrUpdateCache(u, Some(text), None);
        if text != "" {
          l1 := l1[u := text];
        }
      case FetchError(message) =>
        CreateOrUpdateCache(u, None, Some(message));
    }

    method DeleteCache(u: Url)
      modifies this
      ensures State() == WithoutUrls(old(State()), {u})
    {
      l1 := l1 - {u};
      if u in l2 {
        l2 := l2 - {u};
      }
      assert l2 == old(l2) - {u};
    }

    method DeleteMultipleCaches(us: set<Url>)
      modifies this
      ensures State() == WithoutUrls(old(State()), us)
    {
      var left := us;
      while left != {}
        invariant left <= us && State() == WithoutUrls(old(State()), us - left)
        decreases left
      {
        var u :| u in left;
        DeleteCache(u);
        left := left - {u};
        assert old(l1) - (us - left) == old(l1) - (us - left - {u}) - {u};
        assert old(l2) - (us - left) == old(l2) - (us - left - {u}) - {u};
        assert us - left - {u} == us - (left + {u});
      }
      assert us - {} == us;
    }

    method Invalidate(u: Url)
      modifies this
      ensures State() == WithoutUrls(old(State()), {u})
    {
      DeleteCache(u);
    }
  }

  // ------------------------------------------------------------------
  // Agreement of the tiers
  // ------------------------------------------------------------------

  /** Every usable L1 entry is the content of the L2 row. */
  ghost predicate Coherent(c: Tiers) {
    forall u :: u in c.l1 && c.l1[u] != "" ==> Persistent(c, u) == Some(c.l1[u])
  }

  datatype Event =
    | Read(url: Url)
    | Refreshed(url: Url, fetched: Fetched)
    | Expired(url: Url)
    | Deleted(urls: set<Url>)

  function Step(c: Tiers, e: Event): Tiers {
    match e
    case Read(u) => AfterLookup(c, u)
    case Refreshed(u, f) => AfterFetch(c, u, f)
    case Expired(u) => c.(l1 := c.l1 - {u})
    case Deleted(us) => WithoutUrls(c, us)
  }

  function Run(es: seq<Event>): Tiers {
    if es == [] then Tiers(map[], map[]) else Step(Run(es[..|es| - 1]), es[|es| - 1])
  }

  /** The cache is coherent exactly when reading it is reading L2, whatever the URL. */
  lemma CoherentMeansReadsAreL2(c: Tiers)
    ensures Coherent(c) <==> forall u :: Lookup(c, u) == Persistent(c, u)
  {
    if forall u :: Lookup(c, u) == Persistent(c, u) {
      forall u | u in c.l1 && c.l1[u] != ""
        ensures Persistent(c, u) == Some(c.l1[u])
      {
        assert Lookup(c, u) == Persistent(c, u);
      }
    }
  }

  /** An empty fetch result that meets a usable L1 entry leaves that entry behind. */
  predicate LeavesStale(c: Tiers, e: Event) {
    e.Refreshed? && e.fetched == Content("") && CachedInRedis(c, e.url).Some?
  }

  /** One event breaks coherence exactly when it leaves a stale entry. */
  lemma StepKeepsCoherenceExactlyWhen(c: Tiers, e: Event)
    requires Coherent(c)
    ensures Coherent(Step(c, e)) <==> !LeavesStale(c, e)
  {
    var next := Step(c, e);
    if LeavesStale(c, e) {
      assert e.url in next.l1 && next.l1[e.url] != "" && Persistent(next, e.url) == Some("");
    } else {
      forall u | u in next.l1 && next.l1[u] != ""
        ensures Persistent(next, u) == Some(next.l1[u])
      {
      }
    }
  }

  /** No event of the run leaves a stale entry in the state it meets. */
  predicate NeverStale(es: seq<Event>) {
    es == [] || (NeverStale(es[..|es| - 1]) && !LeavesStale(Run(es[..|es| - 1]), es[|es| - 1]))
  }

  /** The cache is coherent after every event of the run. */
  ghost predicate AlwaysCoherent(es: seq<Event>) {
    Coherent(Run(es)) && (es == [] || AlwaysCoherent(es[..|es| - 1]))
  }

  /**
   Over any run, reads agree with L2 after every event exactly when no empty
   fetch result ever meets a usable L1 entry.
   */
  lemma {:induction false} RunStaysCoherentExactlyWhen(es: seq<Event>)
    ensures AlwaysCoherent(es) <==> NeverStale(es)
  {
    if es != [] {
      var before, last := es[..|es| - 1], es[|es| - 1];
      RunStaysCoherentExactlyWhen(before);
      if Coherent(Run(before)) {
        StepKeepsCoherenceExactlyWhen(Run(before), last);
      }
    }
  }

  lemma {:induction false} NonEmptyFetchesLeaveNothingStale(es: seq<Event>)
    requires forall e :: e in es && e.Refreshed? ==> e.fetched != Content("")
    ensures NeverStale(es)
  {
    if es != [] {
      assert forall e :: e in es[..|es| - 1] ==> e in es;
      NonEmptyFetchesLeaveNothingStale(es[..|es| - 1]);
      assert es[|es| - 1] in es;
    }
  }

  /** In particular, when no fetch delivers empty content, every read returns what L2 alone would. */
  lemma NonEmptyFetchesKeepReadsRight(es: seq<Event>, u: Url)
    requires forall e :: e in es && e.Refreshed? ==> e.fetched != Content("")
    ensures Lookup(Run(es), u) == Persistent(Run(es), u)
  {
    NonEmptyFetchesLeaveNothingStale(es);
    RunStaysCoherentExactlyWhen(es);
    CoherentMeansReadsAreL2(Run(es));
  }
}
