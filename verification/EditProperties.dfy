/**
 What each call of the subscription service changes, row by row and comment by
 comment, who may make it, and what it leaves alone.
 */
module EditProperties {
  import opened Graphs
  import opened Collections
  import opened Subscriptions
  import opened AdmissionCheck
  import opened FirstWalks
  import opened AdmissionVerdicts
  import opened SourceStore
  import opened SourceStoreProperties
  import opened ReplaceProperties

  // ------------------------------------------------------------------
  // Who may call
  // ------------------------------------------------------------------

  predicate Owns(db: Db, actor: Actor, t: Token) {
    t in db.subs && t in db.owners && db.owners[t] == actor
  }

  /** Only the owner's calls change a subscription; all others report why and change nothing. */
  lemma OnlyOwnersChange(st: Settings, db: Db, call: Call)
    requires !call.CreateCall? && !Owns(db, call.actor, call.token)
    ensures Step(st, db, call) == db
  {
  }

  lemma StrangersAreToldWhy(st: Settings, db: Db, actor: Actor, t: Token, reqs: seq<Request>, ids: set<Id>,
                            us: set<Url>)
    requires !Owns(db, actor, t)
    ensures var refusal := Reply(db, Some(if t in db.subs then NotAuthorized else NotFound));
            && Add(st, db, actor, t, reqs, us) == refusal && Replace(st, db, actor, t, reqs, us) == refusal
            && Remove(db, actor, t, ids) == refusal && Delete(db, actor, t) == refusal
            && Refresh(db, actor, t, us, us) == refusal
  {
  }

  /** Removing, deleting and refreshing succeed for the owner, and for nobody else. */
  lemma OwnersAreServed(db: Db, actor: Actor, t: Token, ids: set<Id>, skipped: set<Url>, unreachable: set<Url>)
    ensures Remove(db, actor, t, ids).error.None? <==> Owns(db, actor, t)
    ensures Delete(db, actor, t).error.None? <==> Owns(db, actor, t)
    ensures Refresh(db, actor, t, skipped, unreachable).error.None? <==> Owns(db, actor, t)
  {
  }

  // ------------------------------------------------------------------
  // What one addition stores
  // ------------------------------------------------------------------

  /** The kind of a source stored for the first time. */
  ghost predicate Stores(kind: Kind, d: Data) {
    match d
    case ConfigData(hash, text, _, _) => kind == Config(hash, text, true)
    case ExternalData(url) => kind == External(Some(url))
    case InternalData(_, target) => kind == Internal(target)
    case _ => false
  }

  /** A setting given in the request is taken; one not given is what it was. */
  ghost predicate TakenFrom<T>(given: Option<T>, before: T, after: T) {
    after == if given.Some? then given.value else before
  }

  /** A new row holds what was requested, visible and three levels deep unless told otherwise. */
  lemma NewRowHoldsTheRequest(st: Settings, db: Db, t: Token, req: Request, order: nat, unreachable: set<Url>,
                              s: Source)
    requires t in db.subs && !req.data.Blank? && AddOne(st, db, t, req, order, unreachable).Done?
    requires s in Rows(AddOne(st, db, t, req, order, unreachable).db, t) && s.id == RequestId(req.data)
    requires s.id !in Ids(Rows(db, t))
    ensures Stores(s.kind, req.data) && s.orderIndex == order
    ensures TakenFrom(req.isHidden, false, s.isHidden) && TakenFrom(req.maxDepth, 3, s.maxDepth)
  {
    var rows := Rows(AddOne(st, db, t, req, order, unreachable).db, t);
    AddOneRows(st, db, t, req, order, unreachable, rows);
    assert forall r :: r in Rows(db, t) ==> r.id in Ids(Rows(db, t));
  }

  /** A row there is keeps what it holds and takes the settings given. */
  lemma StoredRowTakesTheSettings(st: Settings, db: Db, t: Token, req: Request, order: nat, unreachable: set<Url>,
                                  s: Source)
    requires t in db.subs && !req.data.Blank? && AddOne(st, db, t, req, order, unreachable).Done?
    requires s in Rows(AddOne(st, db, t, req, order, unreachable).db, t) && s.id == RequestId(req.data)
    requires s.id in Ids(Rows(db, t))
    ensures s.orderIndex == order
    ensures exists r :: && r in Rows(db, t) && r.id == s.id && r.kind == s.kind
                        && TakenFrom(req.isHidden, r.isHidden, s.isHidden)
                        && TakenFrom(req.maxDepth, r.maxDepth, s.maxDepth)
  {
    var before, rows := Rows(db, t), Rows(AddOne(st, db, t, req, order, unreachable).db, t);
    AddOneRows(st, db, t, req, order, unreachable, rows);
    UpdatedRows(before, s.id, req, order);
    var i :| 0 <= i < |rows| && rows[i] == s;
    assert before[i] in before;
  }

  /**
   A config's comment is stored when given; a new config without one gets the
   domain. No other comment of the subscription changes.
   */
  lemma CommentsFollowTheRequest(st: Settings, db: Db, t: Token, req: Request, order: nat, unreachable: set<Url>,
                                 h: Hash)
    requires t in db.subs && !req.data.Blank? && AddOne(st, db, t, req, order, unreachable).Done?
    ensures var before, after := db.subs[t].comments, AddOne(st, db, t, req, order, unreachable).db.subs[t].comments;
            if !req.data.ConfigData? || h != req.data.hash
               || (req.data.comment.None? && ConfigId(h) in Ids(Rows(db, t))) then
              (h in after <==> h in before) && (h in before ==> after[h] == before[h])
            else
              && h in after
              && after[h] == if req.data.comment.None?
                                || (req.data.comment == Some("") && ConfigId(h) !in Ids(Rows(db, t)))
                             then st.domain else req.data.comment.value
  {
  }

  /** A config is refused exactly when it is not valid, and a URL exactly when it must be fetched and cannot be. */
  lemma ConfigsAndUrlsStoredExactlyWhen(st: Settings, db: Db, t: Token, req: Request, order: nat, unreachable: set<Url>)
    requires t in db.subs && (req.data.ConfigData? || req.data.ExternalData?)
    ensures AddOne(st, db, t, req, order, unreachable).Done? <==>
            match req.data
            case ConfigData(_, _, valid, _) => valid
            case ExternalData(url) =>
              url in unreachable ==> exists u :: u in db.subs && ExternalId(url) in Ids(Rows(db, u))
            case _ => false
  {
    if req.data.ExternalData? {
      var id := ExternalId(req.data.url);
      assert forall u :: u in Holders(db, id) <==> u in db.subs && id in Ids(Rows(db, u));
      assert Holders(db, id) != {} ==> exists u :: u in Holders(db, id);
    }
  }

  /**
   A reference is stored exactly when its target exists, no cycle and no way back
   lies below it, and the references below it have room.
   */
  lemma ReferencesStoredExactlyWhen(st: Settings, db: Db, t: Token, req: Request, order: nat)
    requires t in db.subs && req.data.InternalData?
    ensures var g, target := ReferenceGraph(db.subs), req.data.target;
            AddInternal(st, db, t, req, order).Done? <==>
            && target.Some? && target.value in db.subs
            && Clear(g, target.value, {t}) && RoomBelow(g, target.value, st.maxDepth)
  {
    if req.data.target.Some? {
      AcceptsExactlyWhen(ReferenceGraph(db.subs), st.maxDepth, t, req.data.target.value);
    }
  }

  /**
   The service's refusals of a reference: not found exactly without a target,
   circular only with a cycle or a way back, too deep only with a walk too long.
   */
  lemma RefusedReferencesAreExplained(st: Settings, db: Db, t: Token, req: Request, order: nat)
    requires t in db.subs && req.data.InternalData? && AddInternal(st, db, t, req, order).Refused?
    ensures var g, target, error := ReferenceGraph(db.subs), req.data.target, AddInternal(st, db, t, req, order).error;
            && (error == NotFound <==> target.None? || target.value !in db.subs)
            && (error in {NotFound, CircularReference, NestingTooDeep})
            && (error == CircularReference ==> !Clear(g, target.value, {t}))
            && (error == NestingTooDeep ==> exists p :: Walk(g, p) && p[0] == target.value && |p| > st.maxDepth + 1)
  {
    if req.data.target.Some? {
      VerdictsAreTrue(ReferenceGraph(db.subs), st.maxDepth, t, req.data.target.value);
    }
  }

  // ------------------------------------------------------------------
  // Whole additions
  // ------------------------------------------------------------------

  function NotBlank(): Request -> bool {
    (req: Request) => !req.data.Blank?
  }

  /** Blank requests make no difference. */
  lemma {:induction false} BlanksAreSkipped(st: Settings, db: Db, t: Token, reqs: seq<Request>, order: nat,
                                            unreachable: set<Url>)
    requires t in db.subs
    ensures AddEach(st, db, t, reqs, order, unreachable) ==
            AddEach(st, db, t, Select(reqs, NotBlank()), order, unreachable)
    decreases |reqs|
  {
    if reqs != [] {
      var rest := Select(reqs[1..], NotBlank());
      if reqs[0].data.Blank? {
        BlanksAreSkipped(st, db, t, reqs[1..], order, unreachable);
      } else {
        assert ([reqs[0]] + rest)[0] == reqs[0] && ([reqs[0]] + rest)[1..] == rest;
        if |Ids(Rows(db, t))| < st.maxSources && AddOne(st, db, t, reqs[0], order, unreachable).Done? {
          AddOneKeepsSubscriptions(st, db, t, reqs[0], order, unreachable);
          BlanksAreSkipped(st, AddOne(st, db, t, reqs[0], order, unreachable).db, t, reqs[1..], order + 1, unreachable);
        }
      }
    }
  }

  lemma {:induction false} DoneMeansRecognised(st: Settings, db: Db, t: Token, reqs: seq<Request>, order: nat,
                                               unreachable: set<Url>)
    requires t in db.subs && AddEach(st, db, t, reqs, order, unreachable).Done?
    ensures Recognised(Select(reqs, NotBlank()))
    decreases |reqs|
  {
    if reqs != [] {
      if reqs[0].data.Blank? {
        DoneMeansRecognised(st, db, t, reqs[1..], order, unreachable);
      } else {
        AddOneKeepsSubscriptions(st, db, t, reqs[0], order, unreachable);
        DoneMeansRecognised(st, AddOne(st, db, t, reqs[0], order, unreachable).db, t, reqs[1..], order + 1,
                            unreachable);
      }
    }
  }

  /**
   After a successful addition the ids are those before and those requested. The
   rows requested are indexed from the number of rows before on, by their last
   occurrence among the requests that are not blank; all other rows are as before.
   */
  lemma AddedRowsFollowTheRequest(st: Settings, db: Db, actor: Actor, t: Token, reqs: seq<Request>,
                                  unreachable: set<Url>)
    requires Inv(st, db) && Add(st, db, actor, t, reqs, unreachable).error.None?
    ensures var asked := Select(reqs, NotBlank());
            Recognised(asked) && t in db.subs && t in Add(st, db, actor, t, reqs, unreachable).db.subs
            && var ids, before, after := RequestIds(asked), Rows(db, t),
                                         Rows(Add(st, db, actor, t, reqs, unreachable).db, t);
            && Ids(after) == Ids(before) + Elements(ids)
            && forall s :: s in after ==>
                             if s.id in ids then s.orderIndex == |before| + LastIndexOf(ids, s.id) else s in before
  {
    var asked := Select(reqs, NotBlank());
    var o := AddEach(st, db, t, reqs, |Ids(Rows(db, t))|, unreachable);
    IdsCount(Rows(db, t));
    DoneMeansRecognised(st, db, t, reqs, |Ids(Rows(db, t))|, unreachable);
    BlanksAreSkipped(st, db, t, reqs, |Ids(Rows(db, t))|, unreachable);
    AddEachPlaces(st, db, t, asked, |Ids(Rows(db, t))|, unreachable, o);
  }

  /** Why one addition is refused. */
  ghost predicate Explains(st: Settings, db: Db, t: Token, req: Request, unreachable: set<Url>, error: Error) {
    match req.data
    case Blank => false
    case Unrecognised => error == InvalidConfig
    case ConfigData(_, _, valid, _) => error == InvalidConfig && !valid
    case ExternalData(url) =>
      error == FetchFailed && url in unreachable && forall u :: u in db.subs ==> ExternalId(url) !in Ids(Rows(db, u))
    case InternalData(_, target) =>
      var g := ReferenceGraph(db.subs);
      match error
      case NotFound => target.None? || target.value !in db.subs
      case CircularReference => target.Some? && !Clear(g, target.value, {t})
      case NestingTooDeep => exists p :: Walk(g, p) && Some(p[0]) == target && |p| > st.maxDepth + 1
      case _ => false
  }

  lemma RefusedOneIsExplained(st: Settings, db: Db, t: Token, req: Request, order: nat, unreachable: set<Url>)
    requires t in db.subs && !req.data.Blank? && AddOne(st, db, t, req, order, unreachable).Refused?
    ensures Explains(st, db, t, req, unreachable, AddOne(st, db, t, req, order, unreachable).error)
  {
    if req.data.ExternalData? {
      var id := ExternalId(req.data.url);
      assert forall u :: u in Holders(db, id) <==> u in db.subs && id in Ids(Rows(db, u));
    } else if req.data.InternalData? {
      RefusedReferencesAreExplained(st, db, t, req, order);
    }
  }

  /** The additions before request `i` succeed, and it is refused for want of room, or on its own account. */
  ghost predicate RefusedAt(st: Settings, db: Db, t: Token, reqs: seq<Request>, order: nat, unreachable: set<Url>,
                            error: Error, i: nat)
    requires t in db.subs
  {
    && i < |reqs| && !reqs[i].data.Blank?
    && var o := AddEach(st, db, t, reqs[..i], order, unreachable);
    && o.Done? && t in o.db.subs
    && if |Ids(Rows(o.db, t))| >= st.maxSources then error == TooManySources
       else Explains(st, o.db, t, reqs[i], unreachable, error)
  }

  /** A refused addition reports what is wrong with the first request that cannot be stored. */
  lemma {:induction false} RefusalsAreExplained(st: Settings, db: Db, t: Token, reqs: seq<Request>, order: nat,
                                                unreachable: set<Url>, error: Error) returns (i: nat)
    requires t in db.subs && AddEach(st, db, t, reqs, order, unreachable) == Refused(error)
    ensures RefusedAt(st, db, t, reqs, order, unreachable, error, i)
    decreases |reqs|
  {
    if !reqs[0].data.Blank? && |Ids(Rows(db, t))| >= st.maxSources {
      i := 0;
    } else if reqs[0].data.Blank? {
      var j := RefusalsAreExplained(st, db, t, reqs[1..], order, unreachable, error);
      i := j + 1;
      assert reqs[..i][1..] == reqs[1..][..j];
    } else if AddOne(st, db, t, reqs[0], order, unreachable).Refused? {
      i := 0;
      RefusedOneIsExplained(st, db, t, reqs[0], order, unreachable);
    } else {
      var next := AddOne(st, db, t, reqs[0], order, unreachable).db;
      AddOneKeepsSubscriptions(st, db, t, reqs[0], order, unreachable);
      var j := RefusalsAreExplained(st, next, t, reqs[1..], order + 1, unreachable, error);
      i := j + 1;
      assert reqs[..i][1..] == reqs[1..][..j];
    }
  }

  /** Adding changes the one subscription, its rows and comments, and the cache, and nothing else. */
  lemma {:induction false} AddingTouchesOnly(st: Settings, db: Db, t: Token, reqs: seq<Request>, order: nat,
                                             unreachable: set<Url>)
    requires t in db.subs && AddEach(st, db, t, reqs, order, unreachable).Done?
    ensures var next := AddEach(st, db, t, reqs, order, unreachable).db;
            && next.subs.Keys == db.subs.Keys && next.owners == db.owners
            && next.subs[t].description == db.subs[t].description
            && forall u :: u in db.subs && u != t ==> next.subs[u] == db.subs[u]
    decreases |reqs|
  {
    if reqs != [] {
      if reqs[0].data.Blank? {
        AddingTouchesOnly(st, db, t, reqs[1..], order, unreachable);
      } else {
        AddOneKeepsSubscriptions(st, db, t, reqs[0], order, unreachable);
        AddingTouchesOnly(st, AddOne(st, db, t, reqs[0], order, unreachable).db, t, reqs[1..], order + 1, unreachable);
      }
    }
  }

  /** Whatever the limit, a subscription can be created without sources. */
  lemma EmptyCreationSucceeds(st: Settings, db: Db, actor: Actor, t: Token, description: string, unreachable: set<Url>)
    requires t !in db.subs
    ensures var r := Create(st, db, actor, t, description, [], unreachable);
            && r.error == None && r.db.subs == db.subs[t := Subscription(description, [], map[])]
            && r.db.owners == db.owners[t := actor] && r.db.cache == db.cache
  {
  }

  /** A created subscription is the caller's, described as asked; a refused creation leaves nothing. */
  lemma CreationIsAllOrNothing(st: Settings, db: Db, actor: Actor, t: Token, description: string, reqs: seq<Request>,
                               unreachable: set<Url>)
    requires t !in db.subs
    ensures var r := Create(st, db, actor, t, description, reqs, unreachable);
            if r.error.Some? then r.db == db
            else
              && r.db.subs.Keys == db.subs.Keys + {t} && r.db.owners == db.owners[t := actor]
              && r.db.subs[t].description == description
              && forall u :: u in db.subs ==> r.db.subs[u] == db.subs[u]
  {
    var created := Db(db.subs[t := Subscription(description, [], map[])], db.owners[t := actor], db.cache);
    if Create(st, db, actor, t, description, reqs, unreachable).error.None? && reqs != [] {
      AddingTouchesOnly(st, created, t, reqs, |Ids(Rows(created, t))|, unreachable);
    }
  }

  // ------------------------------------------------------------------
  // Removing
  // ------------------------------------------------------------------

  /** Only the rows of `t` change, to `rows`, and the cache. */
  ghost predicate OnlyRowsOf(db: Db, next: Db, t: Token, rows: seq<Source>) {
    t in db.subs && next.owners == db.owners && next.subs == db.subs[t := db.subs[t].(sources := rows)]
  }

  /** The owner removes exactly the rows named; the others keep their order. */
  lemma RemovalKeepsTheOthers(db: Db, actor: Actor, t: Token, ids: set<Id>)
    requires Owns(db, actor, t)
    ensures var r := Remove(db, actor, t, ids);
            && r.error == None && OnlyRowsOf(db, r.db, t, Select(db.subs[t].sources, (s: Source) => s.id !in ids))
            && forall s :: s in r.db.subs[t].sources <==> s in db.subs[t].sources && s.id !in ids
  {
    var keep := (s: Source) => s.id !in ids;
    SelectAlike(Rows(db, t), Outside(ids), keep);
    SelectElements(Rows(db, t), keep);
  }

  /** `s` is a URL that was fetched and could not be. */
  predicate FetchFails(s: Source, skipped: set<Url>, unreachable: set<Url>) {
    s.kind.External? && s.kind.url.Some? && s.kind.url.value !in skipped && s.kind.url.value in unreachable
  }

  /**
   Refreshing succeeds for the owner and removes exactly the URLs that were
   fetched and could not be; the other rows keep their order.
   */
  lemma RefreshRemovesExactlyTheFailing(db: Db, actor: Actor, t: Token, skipped: set<Url>, unreachable: set<Url>)
    requires RowsValid(db) && Owns(db, actor, t)
    ensures var r := Refresh(db, actor, t, skipped, unreachable);
            && r.error == None
            && OnlyRowsOf(db, r.db, t, Select(db.subs[t].sources, (s: Source) => !FetchFails(s, skipped, unreachable)))
            && forall s :: s in r.db.subs[t].sources <==>
                           s in db.subs[t].sources && !FetchFails(s, skipped, unreachable)
  {
    var rows, keep := Rows(db, t), (s: Source) => !FetchFails(s, skipped, unreachable);
    var failed := (UrlsOf(rows) - skipped) * unreachable;
    SelectElements(rows, keep);
    forall s | s in rows
      ensures FetchFails(s, skipped, unreachable) <==> s.id in ExternalIds(failed)
    {
      assert RowOk(s);
    }
    if failed == {} {
      SelectAll(rows, keep);
    } else {
      SelectAlike(rows, Outside(ExternalIds(failed)), keep);
    }
  }

  /** A refresh leaves a cache row for each URL fetched, unless it could not be and no other subscription holds it. */
  lemma RefreshCachesTheFetched(db: Db, actor: Actor, t: Token, skipped: set<Url>, unreachable: set<Url>, u: Url)
    requires RowsValid(db) && Owns(db, actor, t)
    ensures var held := exists s :: s in db.subs[t].sources && s.kind == External(Some(u));
            var shared := exists v :: v in db.subs && v != t && ExternalId(u) in Ids(Rows(db, v));
            var fetched := held && u !in skipped;
            u in Refresh(db, actor, t, skipped, unreachable).db.cache <==>
                 (u in db.cache || fetched) && (fetched && u in unreachable ==> shared)
  {
    var fetched := UrlsOf(Rows(db, t)) - skipped;
    var failed := fetched * unreachable;
    var cached := db.(cache := db.cache + fetched);
    assert u in UrlsOf(Rows(db, t)) <==> exists s :: s in db.subs[t].sources && s.kind == External(Some(u));
    assert u in fetched <==> u in UrlsOf(Rows(db, t)) && u !in skipped;
    LastReferencesExact(cached, t, ExternalIds(failed), u);
    if u in fetched {
      HoldersOfHeld(db, t, u);
    }
    assert ExternalId(u) in ExternalIds(failed) <==> u in failed;
    assert Holders(cached, ExternalId(u)) == Holders(db, ExternalId(u));
  }

  lemma HoldersOfHeld(db: Db, t: Token, u: Url)
    requires t in db.subs && RowsValid(db) && u in UrlsOf(Rows(db, t))
    ensures Holders(db, ExternalId(u)) == {t} <==>
            !exists v :: v in db.subs && v != t && ExternalId(u) in Ids(Rows(db, v))
  {
    var id := ExternalId(u);
    var s :| s in Rows(db, t) && s.kind == External(Some(u));
    assert RowOk(s) && s.id in Ids(Rows(db, t));
    assert forall v :: v in Holders(db, id) <==> v in db.subs && id in Ids(Rows(db, v));
  }

  /**
   A replacement refused while adding has nevertheless removed the rows not
   requested, and changed nothing else but the cache.
   */
  lemma RefusedReplacementKeepsTheRequested(st: Settings, db: Db, actor: Actor, t: Token, reqs: seq<Request>,
                                            unreachable: set<Url>)
    requires Owns(db, actor, t) && Recognised(reqs) && Replace(st, db, actor, t, reqs, unreachable).error.Some?
    ensures var r := Replace(st, db, actor, t, reqs, unreachable);
            && OnlyRowsOf(db, r.db, t, Select(db.subs[t].sources, (s: Source) => s.id in RequestIds(reqs)))
            && forall s :: s in r.db.subs[t].sources <==> s in db.subs[t].sources && s.id in RequestIds(reqs)
  {
    var rows, keep := Rows(db, t), (s: Source) => s.id in RequestIds(reqs);
    forall s | s in rows
      ensures keep(s) <==> s.id !in Obsolete(db, t, reqs)
    {
      assert s.id in Ids(rows);
    }
    SelectElements(rows, keep);
    if Obsolete(db, t, reqs) == {} {
      SelectAll(rows, keep);
    } else {
      SelectAlike(rows, Outside(Obsolete(db, t, reqs)), keep);
    }
  }

  /** A replacement is refused before it changes anything exactly when some request is not recognised. */
  lemma UnrecognisedReplacementChangesNothing(st: Settings, db: Db, actor: Actor, t: Token, reqs: seq<Request>,
                                              unreachable: set<Url>)
    requires Owns(db, actor, t) && !Recognised(reqs)
    ensures Replace(st, db, actor, t, reqs, unreachable) == Reply(db, Some(InvalidConfig))
  {
  }

  /** No call but a deletion changes another subscription or its owner, or the owner of its own. */
  lemma CallsTouchOnlyTheirSubscription(st: Settings, db: Db, call: Call, u: Token)
    requires u in db.subs && !call.DeleteCall?
    ensures var next := Step(st, db, call);
            && u in next.subs && (u in next.owners <==> u in db.owners)
            && (u in db.owners ==> next.owners[u] == db.owners[u])
            && next.subs[u].description == db.subs[u].description
            && (u != call.token ==> next.subs[u] == db.subs[u])
  {
    match call
    case CreateCall(actor, t, description, reqs, unreachable) =>
      if t !in db.subs {
        CreationIsAllOrNothing(st, db, actor, t, description, reqs, unreachable);
      }
    case AddCall(actor, t, reqs, unreachable) =>
      if Add(st, db, actor, t, reqs, unreachable).error.None? {
        AddingTouchesOnly(st, db, t, reqs, |Ids(Rows(db, t))|, unreachable);
      }
    case ReplaceCall(actor, t, reqs, unreachable) =>
      if Replace(st, db, actor, t, reqs, unreachable).error.None? {
        AddingTouchesOnly(st, Kept(db, t, reqs), t, reqs, 0, unreachable);
      }
    case _ =>
  }
}
