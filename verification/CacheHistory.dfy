/** What the cache holds and returns, told from the events alone. */
module CacheHistory {
  import opened Subscriptions
  import opened CacheService

  /** `u` has been fetched, well or not, since it was last deleted. */
  predicate Stored(es: seq<Event>, u: Url) {
    if es == [] then false
    else
      match es[|es| - 1]
      case Refreshed(v, _) => v == u || Stored(es[..|es| - 1], u)
      case Deleted(us) => u !in us && Stored(es[..|es| - 1], u)
      case _ => Stored(es[..|es| - 1], u)
  }

  /** The text of the last successful fetch of `u` that no deletion of `u` followed. */
  function LastFetched(es: seq<Event>, u: Url): Option<string> {
    if es == [] then None
    else
      match es[|es| - 1]
      case Refreshed(v, Content(text)) => if v == u then Some(text) else LastFetched(es[..|es| - 1], u)
      case Deleted(us) => if u in us then None else LastFetched(es[..|es| - 1], u)
      case _ => LastFetched(es[..|es| - 1], u)
  }

  /** The message of the last failed fetch of `u` that no deletion of `u` followed. */
  function LastFailure(es: seq<Event>, u: Url): Option<string> {
    if es == [] then None
    else
      match es[|es| - 1]
      case Refreshed(v, FetchError(message)) => if v == u then Some(message) else LastFailure(es[..|es| - 1], u)
      case Deleted(us) => if u in us then None else LastFailure(es[..|es| - 1], u)
      case _ => LastFailure(es[..|es| - 1], u)
  }

  /** The failed fetches of `u` since its last deletion; a first one without a message does not count. */
  function Failures(es: seq<Event>, u: Url): nat {
    if es == [] then 0
    else
      var before := es[..|es| - 1];
      match es[|es| - 1]
      case Refreshed(v, FetchError(message)) =>
        if v != u then Failures(before, u)
        else if message == "" && !Stored(before, u) then 0 else Failures(before, u) + 1
      case Deleted(us) => if u in us then 0 else Failures(before, u)
      case _ => Failures(before, u)
  }

  /** Over every run, a row is there exactly while told, and holds what the events tell. */
  lemma {:induction false} RowsTellTheHistory(es: seq<Event>, u: Url)
    ensures u in Run(es).l2 <==> Stored(es, u)
    ensures Persistent(Run(es), u) == LastFetched(es, u)
    ensures !Stored(es, u) ==> LastFetched(es, u) == LastFailure(es, u) == None && Failures(es, u) == 0
    ensures Stored(es, u) ==>
              Run(es).l2[u].lastError == LastFailure(es, u) && Run(es).l2[u].errorCount == Failures(es, u)
  {
    if es != [] {
      RowsTellTheHistory(es[..|es| - 1], u);
    }
  }

  /**
   As long as no empty fetch result meets a usable L1 entry, every read returns
   the text of the last successful fetch since the last deletion, or nothing.
   */
  lemma ReadsReturnTheLastFetch(es: seq<Event>, u: Url)
    requires NeverStale(es)
    ensures Lookup(Run(es), u) == LastFetched(es, u)
  {
    RunStaysCoherentExactlyWhen(es);
    CoherentMeansReadsAreL2(Run(es));
    RowsTellTheHistory(es, u);
  }

  /** In particular when no fetched content is empty. */
  lemma NonEmptyFetchesAreRead(es: seq<Event>, u: Url)
    requires forall e :: e in es && e.Refreshed? ==> e.fetched != Content("")
    ensures Lookup(Run(es), u) == LastFetched(es, u)
  {
    NonEmptyFetchesLeaveNothingStale(es);
    ReadsReturnTheLastFetch(es, u);
  }

  /** A read changes no answer and no row; what it answers, unless empty, Redis answers from then on. */
  lemma ReadsWarmRedis(c: Tiers, u: Url, v: Url)
    ensures var next := Step(c, Read(u));
            && next.l2 == c.l2 && Lookup(next, v) == Lookup(c, v)
            && (u != v ==> CachedInRedis(next, v) == CachedInRedis(c, v))
            && CachedInRedis(next, u) == if Lookup(c, u) == Some("") then None else Lookup(c, u)
  {
  }

  /** Redis loses an answer only by expiry or deletion, and changes it only to what a fetch delivers. */
  lemma RedisKeepsAnswers(c: Tiers, e: Event, u: Url)
    requires CachedInRedis(c, u).Some?
    ensures CachedInRedis(Step(c, e), u) ==
            match e
            case Expired(v) => if v == u then None else CachedInRedis(c, u)
            case Deleted(us) => if u in us then None else CachedInRedis(c, u)
            case Refreshed(v, Content(text)) => if v == u && text != "" then Some(text) else CachedInRedis(c, u)
            case _ => CachedInRedis(c, u)
  {
  }
}
