/**
 The subscription service itself: methods that update the rows of an open
 session and then commit them, or roll back to the last committed state.
 */
module SubscriptionService {
  import opened Graphs
  import opened Collections
  import opened Subscriptions
  import opened AdmissionCheck
  import opened SourceStore
  import Properties = SourceStoreProperties

  class Service {
    const settings: Settings
    var subs: Store
    var owners: map<Token, Actor>
    var cache: set<Url>
    var committed: Db

    constructor (settings: Settings)
      ensures this.settings == settings && Session() == EMPTY_DB && committed == EMPTY_DB
    {
      this.settings := settings;
      subs, owners, cache := map[], map[], {};
      committed := EMPTY_DB;
    }

    /** The rows as the open session sees them. */
    function Session(): Db
      reads this
    {
      Db(subs, owners, cache)
    }

    ghost predicate Valid()
      reads this
    {
      Session() == committed
    }

    method Commit()
      modifies `committed
      ensures committed == Session()
    {
      committed := Session();
    }

    method Rollback()
      modifies this
      ensures committed == old(committed) && Session() == committed
    {
      subs, owners, cache := committed.subs, committed.owners, committed.cache;
    }

    method Authorize(actor: Actor, t: Token) returns (denied: Option<Error>)
      ensures denied == Managed(Session(), actor, t)
    {
      if t !in subs {
        return Some(NotFound);
      }
      if t !in owners || owners[t] != actor {
        return Some(NotAuthorized);
      }
      return None;
    }

    // ----------------------------------------------------------------
    // Row updates
    // ----------------------------------------------------------------

    method SetRows(t: Token, rows: seq<Source>)
      requires t in subs
      modifies `subs
      ensures Session() == WithRows(old(Session()), t, rows)
    {
      subs := subs[t := subs[t].(sources := rows)];
    }

    method UpsertComment(t: Token, hash: Hash, comment: string)
      requires t in subs
      modifies `subs
      ensures Session() == WithComment(old(Session()), t, hash, comment)
    {
      subs := subs[t := subs[t].(comments := subs[t].comments[hash := comment])];
    }

    method CreateSource(t: Token, id: Id, kind: Kind, req: Request, order: nat)
      requires t in subs
      modifies `subs
      ensures Session() == WithRows(old(Session()), t, Rows(old(Session()), t) + [NewRow(id, kind, req, order)])
    {
      SetRows(t, subs[t].sources + [NewRow(id, kind, req, order)]);
    }

    method UpsertConfig(t: Token, id: Id, req: Request, order: nat)
      requires t in subs
      modifies `subs
      ensures Session() == WithRows(old(Session()), t, UpdateRows(Rows(old(Session()), t), id, req, order))
    {
      var rows := subs[t].sources;
      ghost var before := rows;
      Properties.UpdatedRows(before, id, req, order);
      for i := 0 to |rows|
        invariant |rows| == |before|
        invariant forall j :: 0 <= j < i ==> rows[j] == UpdateIf(before[j], id, req, order)
        invariant forall j :: i <= j < |rows| ==> rows[j] == before[j]
      {
        if rows[i].id == id {
          rows := rows[i := UpdateRow(rows[i], req, order)];
        }
      }
      assert rows == UpdateRows(before, id, req, order);
      SetRows(t, rows);
    }

    // ----------------------------------------------------------------
    // Adding
    // ----------------------------------------------------------------

    method AddConfigSource(t: Token, req: Request, order: nat) returns (error: Option<Error>)
      requires t in subs && req.data.ConfigData?
      modifies `subs
      ensures var o := AddConfig(settings, old(Session()), t, req, order);
              if o.Done? then error == None && Session() == o.db else error == Some(o.error)
    {
      var d := req.data;
      if !d.valid {
        return Some(InvalidConfig);
      }
      var id := ConfigId(d.hash);
      if id in Ids(subs[t].sources) {
        if d.comment.Some? {
          UpsertComment(t, d.hash, d.comment.value);
        }
        UpsertConfig(t, id, req, order);
      } else {
        var comment := OrElse(d.comment, "");
        if comment == "" {
          comment := settings.domain;
        }
        CreateSource(t, id, Config(d.hash, d.text, true), req, order);
        UpsertComment(t, d.hash, comment);
      }
      return None;
    }

    method AddExternalSource(t: Token, req: Request, order: nat, unreachable: set<Url>) returns (error: Option<Error>)
      requires t in subs && req.data.ExternalData?
      modifies `subs, `cache
      ensures var o := AddExternal(old(Session()), t, req, order, unreachable);
              if o.Done? then error == None && Session() == o.db else error == Some(o.error)
    {
      var url := req.data.url;
      var id := ExternalId(url);
      if id in Ids(subs[t].sources) {
        UpsertConfig(t, id, req, order);
        return None;
      }
      if Holders(Session(), id) == {} {
        if url in unreachable {
          return Some(FetchFailed);
        }
        cache := cache + {url};
      }
      CreateSource(t, id, External(Some(url)), req, order);
      return None;
    }

    method AddInternalSource(t: Token, req: Request, order: nat) returns (error: Option<Error>)
      requires t in subs && req.data.InternalData?
      modifies `subs
      ensures var o := AddInternal(settings, old(Session()), t, req, order);
              if o.Done? then error == None && Session() == o.db else error == Some(o.error)
    {
      var target := req.data.target;
      if target.None? || target.value !in subs {
        return Some(NotFound);
      }
      var checker := new ReferenceChecker(ReferenceGraph(subs), settings.maxDepth, t);
      var verdict := checker.CheckCircularReference(target.value, 0);
      if verdict.Circular? {
        return Some(CircularReference);
      }
      if verdict.TooDeep? {
        return Some(NestingTooDeep);
      }
      var id := InternalId(req.data.url);
      if id in Ids(subs[t].sources) {
        UpsertConfig(t, id, req, order);
      } else {
        CreateSource(t, id, Internal(target), req, order);
      }
      return None;
    }

    /** `seenIds` is the service's own record of the ids stored; it never differs from them. */
    method AddSourcesInternal(t: Token, reqs: seq<Request>, reset: bool, unreachable: set<Url>)
      returns (error: Option<Error>)
      requires t in subs
      modifies `subs, `cache
      ensures var o := AddRequests(settings, old(Session()), t, reqs, reset, unreachable);
              if o.Done? then error == None && Session() == o.db else error == Some(o.error)
    {
      var seenIds := Ids(subs[t].sources);
      var count := |seenIds|;
      if count >= settings.maxSources {
        return Some(TooManySources);
      }
      var order: nat := if reset then 0 else count;
      ghost var goal := AddEach(settings, Session(), t, reqs, order, unreachable);
      for i := 0 to |reqs|
        invariant t in subs && seenIds == Ids(subs[t].sources)
        invariant goal == AddEach(settings, Session(), t, reqs[i..], order, unreachable)
      {
        var req := reqs[i];
        ghost var before := Session();
        assert reqs[i..][0] == req && reqs[i..][1..] == reqs[i + 1..];
        if req.data.Blank? {
          continue;
        }
        if |seenIds| >= settings.maxSources {
          return Some(TooManySources);
        }
        if req.data.Unrecognised? {
          return Some(InvalidConfig);
        }
        error := AddSource(t, req, order, unreachable);
        if error.Some? {
          return;
        }
        AddOneKeepsSubscriptions(settings, before, t, req, order, unreachable);
        Properties.AddOneAddsId(settings, before, t, req, order, unreachable);
        seenIds := seenIds + {RequestId(req.data)};
        order := order + 1;
      }
      return None;
    }

    method AddSource(t: Token, req: Request, order: nat, unreachable: set<Url>) returns (error: Option<Error>)
      requires t in subs && !req.data.Blank? && !req.data.Unrecognised?
      modifies `subs, `cache
      ensures var o := AddOne(settings, old(Session()), t, req, order, unreachable);
              if o.Done? then error == None && Session() == o.db else error == Some(o.error)
    {
      match req.data
      case ConfigData(_, _, _, _) => error := AddConfigSource(t, req, order);
      case ExternalData(_) => error := AddExternalSource(t, req, order, unreachable);
      case InternalData(_, _) => error := AddInternalSource(t, req, order);
    }

    // ----------------------------------------------------------------
    // Calls
    // ----------------------------------------------------------------

    method CreateSubscription(actor: Actor, t: Token, description: string, reqs: seq<Request>, unreachable: set<Url>)
      returns (error: Option<Error>)
      requires Valid() && t !in subs
      modifies this
      ensures Valid()
      ensures Reply(committed, error) == Create(settings, old(committed), actor, t, description, reqs, unreachable)
    {
      subs, owners := subs[t := Subscription(description, [], map[])], owners[t := actor];
      if reqs != [] {
        error := AddSourcesInternal(t, reqs, false, unreachable);
        if error.Some? {
          Rollback();
          return;
        }
      }
      Commit();
      return None;
    }

    method AddSources(actor: Actor, t: Token, reqs: seq<Request>, unreachable: set<Url>) returns (error: Option<Error>)
      requires Valid()
      modifies this
      ensures Valid() && Reply(committed, error) == Add(settings, old(committed), actor, t, reqs, unreachable)
    {
      error := Authorize(actor, t);
      if error.Some? {
        return;
      }
      error := AddSourcesInternal(t, reqs, false, unreachable);
      if error.Some? {
        Rollback();
      } else {
        Commit();
      }
    }

    /** Drop the cache rows of the URLs in `ids` that no other row refers to. */
    method DeleteFromCache(t: Token, ids: set<Id>)
      requires t in subs
      modifies `cache
      ensures cache == old(cache) - LastReferences(old(Session()), t, ids)
    {
      var doomed := LastReferences(Session(), t, ids);
      ghost var before, all := cache, doomed;
      while doomed != {}
        invariant doomed <= all && cache == before - (all - doomed)
        decreases doomed
      {
        var url :| url in doomed;
        cache := cache - {url};
        doomed := doomed - {url};
      }
    }

    method RemoveSources(actor: Actor, t: Token, ids: set<Id>) returns (error: Option<Error>)
      requires Session().(cache := committed.cache) == committed
      modifies this
      ensures var reply := Remove(old(Session()), actor, t, ids);
              error == reply.error && (error.None? ==> Valid() && committed == reply.db)
      ensures error.Some? ==> Session() == old(Session()) && committed == old(committed)
    {
      error := Authorize(actor, t);
      if error.Some? {
        return;
      }
      DeleteFromCache(t, ids);
      SetRows(t, Select(subs[t].sources, Outside(ids)));
      Commit();
    }

    /** The ids of a request, unless one of its sources is not recognised. */
    method RequestedIds(reqs: seq<Request>) returns (ids: Option<set<Id>>)
      ensures ids == if Recognised(reqs) then Some(Elements(RequestIds(reqs))) else None
    {
      var requested: set<Id> := {};
      for i := 0 to |reqs|
        invariant Recognised(reqs[..i]) && requested == Elements(RequestIds(reqs[..i]))
      {
        if reqs[i].data.Blank? || reqs[i].data.Unrecognised? {
          return None;
        }
        Properties.RequestIdsOfAppend(reqs[..i], reqs[i]);
        assert reqs[..i + 1] == reqs[..i] + [reqs[i]];
        requested := requested + {RequestId(reqs[i].data)};
      }
      assert reqs[..|reqs|] == reqs;
      return Some(requested);
    }

    method ReplaceSources(actor: Actor, t: Token, reqs: seq<Request>, unreachable: set<Url>)
      returns (error: Option<Error>)
      requires Valid()
      modifies this
      ensures Valid() && Reply(committed, error) == Replace(settings, old(committed), actor, t, reqs, unreachable)
    {
      error := Authorize(actor, t);
      if error.Some? {
        return;
      }
      var requested := RequestedIds(reqs);
      if requested.None? {
        return Some(InvalidConfig);
      }
      var obsolete := Ids(subs[t].sources) - requested.value;
      if obsolete != {} {
        error := RemoveSources(actor, t, obsolete);
      }
      error := AddSourcesInternal(t, reqs, true, unreachable);
      if error.Some? {
        Rollback();
      } else {
        Commit();
      }
    }

    method DeleteSubscription(actor: Actor, t: Token) returns (error: Option<Error>)
      requires Valid()
      modifies this
      ensures Valid() && Reply(committed, error) == Delete(old(committed), actor, t)
    {
      error := Authorize(actor, t);
      if error.Some? {
        return;
      }
      DeleteFromCache(t, Ids(subs[t].sources));
      subs, owners := subs - {t}, owners - {t};
      DeleteInternalReferences(t);
      assert subs == DeleteRows(old(Session()), t).subs;
      Commit();
    }

    /** Rows referring to `t` go from every subscription; all others stay, in their order. */
    method DeleteInternalReferences(t: Token)
      modifies `subs
      ensures subs.Keys == old(subs).Keys
      ensures forall u, s :: u in subs ==> (s in subs[u].sources <==> s in old(subs)[u].sources && !RefersTo(s, t))
      ensures forall u :: u in subs ==>
                            subs[u] == old(subs)[u].(sources := Select(old(subs)[u].sources, NotReferringTo(t)))
    {
      subs := map u | u in subs :: subs[u].(sources := Select(subs[u].sources, NotReferringTo(t)));
      forall u | u in subs
        ensures forall s :: s in subs[u].sources <==> s in old(subs)[u].sources && !RefersTo(s, t)
      {
        SelectElements(old(subs)[u].sources, NotReferringTo(t));
      }
    }

    /** Fetches run at once and finish in any order; the failing sources are removed afterwards. */
    method RefreshSubscription(actor: Actor, t: Token, skipped: set<Url>, unreachable: set<Url>)
      returns (error: Option<Error>)
      requires Valid()
      modifies this
      ensures Valid() && Reply(committed, error) == Refresh(old(committed), actor, t, skipped, unreachable)
    {
      error := Authorize(actor, t);
      if error.Some? {
        return;
      }
      var pending := UrlsOf(subs[t].sources) - skipped;
      var incorrect: set<Url> := {};
      ghost var all := pending;
      while pending != {}
        invariant pending <= all && incorrect == (all - pending) * unreachable
        invariant Session() == old(Session()).(cache := old(cache) + (all - pending)) && committed == old(committed)
        decreases pending
      {
        var url :| url in pending;
        cache := cache + {url};
        if url in unreachable {
          incorrect := incorrect + {url};
        }
        pending := pending - {url};
      }
      assert all - {} == all;
      if incorrect != {} {
        error := RemoveSources(actor, t, ExternalIds(incorrect));
      } else {
        Commit();
      }
    }
  }
}
