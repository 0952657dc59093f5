/**
 The operations of the subscription service on stored sources and on the cache
 rows of external URLs, as functions from one committed state to the next.
 */
module SourceStore {
  import opened Graphs
  import opened Collections
  import opened Subscriptions
  import opened AdmissionCheck

  datatype Actor = Actor(user: nat, provider: Option<nat>)

  /** What a requested source turns out to be, once its text is classified. */
  datatype Data =
    | Blank
    | Unrecognised
    | ConfigData(hash: Hash, text: string, valid: bool, comment: Option<string>)
    | ExternalData(url: Url)
    | InternalData(url: Url, target: Option<Token>)

  datatype Request = Request(data: Data, isHidden: Option<bool>, maxDepth: Option<int>)

  datatype Error =
    | NotFound | NotAuthorized | InvalidConfig | TooManySources | CircularReference | NestingTooDeep | FetchFailed

  datatype Settings = Settings(maxSources: nat, maxDepth: int, domain: string)

  /** The default visibility depth of a source row. */
  const DEFAULT_MAX_DEPTH := 3

  /** `cache` holds the keys of the persistent cache rows. */
  datatype Db = Db(subs: Store, owners: map<Token, Actor>, cache: set<Url>)

  datatype Outcome = Done(db: Db) | Refused(error: Error)

  // ------------------------------------------------------------------
  // Rows
  // ------------------------------------------------------------------

  function Ids(ss: seq<Source>): set<Id> {
    set s | s in ss :: s.id
  }

  function Rows(db: Db, t: Token): seq<Source>
    requires t in db.subs
  {
    db.subs[t].sources
  }

  function WithRows(db: Db, t: Token, ss: seq<Source>): Db
    requires t in db.subs
  {
    db.(subs := db.subs[t := db.subs[t].(sources := ss)])
  }

  function OrElse<T>(o: Option<T>, default: T): T {
    if o.Some? then o.value else default
  }

  /** Settings given in the request overwrite those of the row; the index always moves. */
  function UpdateRow(s: Source, req: Request, order: nat): Source {
    s.(isHidden := OrElse(req.isHidden, s.isHidden), maxDepth := OrElse(req.maxDepth, s.maxDepth), orderIndex := order)
  }

  function UpdateIf(s: Source, id: Id, req: Request, order: nat): Source {
    if s.id == id then UpdateRow(s, req, order) else s
  }

  function UpdateRows(ss: seq<Source>, id: Id, req: Request, order: nat): seq<Source> {
    if ss == [] then []
    else [UpdateIf(ss[0], id, req, order)] + UpdateRows(ss[1..], id, req, order)
  }

  function NewRow(id: Id, kind: Kind, req: Request, order: nat): Source {
    Source(id, kind, OrElse(req.isHidden, false), OrElse(req.maxDepth, DEFAULT_MAX_DEPTH), order)
  }

  function WithComment(db: Db, t: Token, hash: Hash, comment: string): Db
    requires t in db.subs
  {
    db.(subs := db.subs[t := db.subs[t].(comments := db.subs[t].comments[hash := comment])])
  }

  /** The subscriptions that hold a row with this id. */
  function Holders(db: Db, id: Id): set<Token> {
    set t | t in db.subs && id in Ids(Rows(db, t))
  }

  // ------------------------------------------------------------------
  // Adding
  // ------------------------------------------------------------------

  function AddConfig(st: Settings, db: Db, t: Token, req: Request, order: nat): Outcome
    requires t in db.subs && req.data.ConfigData?
  {
    var d := req.data;
    var id := ConfigId(d.hash);
    if !d.valid then Refused(InvalidConfig)
    else if id in Ids(Rows(db, t)) then
      var commented := if d.comment.Some? then WithComment(db, t, d.hash, d.comment.value) else db;
      Done(WithRows(commented, t, UpdateRows(Rows(db, t), id, req, order)))
    else
      var comment := OrElse(d.comment, "");
      var commented := WithComment(db, t, d.hash, if comment == "" then st.domain else comment);
      Done(WithRows(commented, t, Rows(db, t) + [NewRow(id, Config(d.hash, d.text, true), req, order)]))
  }

  function AddExternal(db: Db, t: Token, req: Request, order: nat, unreachable: set<Url>): Outcome
    requires t in db.subs && req.data.ExternalData?
  {
    var url := req.data.url;
    var id := ExternalId(url);
    if id in Ids(Rows(db, t)) then Done(WithRows(db, t, UpdateRows(Rows(db, t), id, req, order)))
    else if Holders(db, id) == {} && url in unreachable then Refused(FetchFailed)
    else
      var cached := if Holders(db, id) == {} then db.(cache := db.cache + {url}) else db;
      Done(WithRows(cached, t, Rows(db, t) + [NewRow(id, External(Some(url)), req, order)]))
  }

  function AddInternal(st: Settings, db: Db, t: Token, req: Request, order: nat): Outcome
    requires t in db.subs && req.data.InternalData?
  {
    var id := InternalId(req.data.url);
    if req.data.target.None? || req.data.target.value !in db.subs then Refused(NotFound)
    else
      match Check(ReferenceGraph(db.subs), st.maxDepth, AsWritten, t, req.data.target.value).verdict
      case Circular(_) => Refused(CircularReference)
      case TooDeep(_) => Refused(NestingTooDeep)
      case Accepted =>
        if id in Ids(Rows(db, t)) then Done(WithRows(db, t, UpdateRows(Rows(db, t), id, req, order)))
        else Done(WithRows(db, t, Rows(db, t) + [NewRow(id, Internal(req.data.target), req, order)]))
  }

  function AddOne(st: Settings, db: Db, t: Token, req: Request, order: nat, unreachable: set<Url>): Outcome
    requires t in db.subs && !req.data.Blank?
  {
    match req.data
    case ConfigData(_, _, _, _) => AddConfig(st, db, t, req, order)
    case ExternalData(_) => AddExternal(db, t, req, order, unreachable)
    case InternalData(_, _) => AddInternal(st, db, t, req, order)
    case Unrecognised => Refused(InvalidConfig)
  }

  lemma AddOneKeepsSubscriptions(st: Settings, db: Db, t: Token, req: Request, order: nat, unreachable: set<Url>)
    requires t in db.subs && !req.data.Blank?
    ensures var o := AddOne(st, db, t, req, order, unreachable);
            o.Done? ==> o.db.subs.Keys == db.subs.Keys && o.db.owners == db.owners
  {
  }

  function AddEach(st: Settings, db: Db, t: Token, reqs: seq<Request>, order: nat, unreachable: set<Url>): Outcome
    requires t in db.subs
    decreases |reqs|
  {
    if reqs == [] then Done(db)
    else if reqs[0].data.Blank? then AddEach(st, db, t, reqs[1..], order, unreachable)
    else if |Ids(Rows(db, t))| >= st.maxSources then Refused(TooManySources)
    else
      match AddOne(st, db, t, reqs[0], order, unreachable)
      case Refused(e) => Refused(e)
      case Done(next) =>
        AddOneKeepsSubscriptions(st, db, t, reqs[0], order, unreachable);
        AddEach(st, next, t, reqs[1..], order + 1, unreachable)
  }

  function AddRequests(st: Settings, db: Db, t: Token, reqs: seq<Request>, reset: bool, unreachable: set<Url>): Outcome
    requires t in db.subs
  {
    var count := |Ids(Rows(db, t))|;
    if count >= st.maxSources then Refused(TooManySources)
    else AddEach(st, db, t, reqs, if reset then 0 else count, unreachable)
  }

  // ------------------------------------------------------------------
  // Removing
  // ------------------------------------------------------------------

  /** URLs among `ids` that subscription `t` holds and no other row has. */
  function LastReferences(db: Db, t: Token, ids: set<Id>): set<Url>
    requires t in db.subs
  {
    set s | s in Rows(db, t) && s.id in ids && s.kind.External? && s.id.ExternalId?
            && |Holders(db, s.id)| == 1 :: s.id.url
  }

  function Outside(ids: set<Id>): Source -> bool {
    (s: Source) => s.id !in ids
  }

  function NotReferringTo(t: Token): Source -> bool {
    (s: Source) => !RefersTo(s, t)
  }

  function RemoveRows(db: Db, t: Token, ids: set<Id>): Db
    requires t in db.subs
  {
    WithRows(db, t, Select(Rows(db, t), Outside(ids))).(cache := db.cache - LastReferences(db, t, ids))
  }

  function DeleteRows(db: Db, t: Token): Db
    requires t in db.subs
  {
    Db(map u | u in db.subs && u != t :: db.subs[u].(sources := Select(db.subs[u].sources, NotReferringTo(t))),
       db.owners - {t},
       db.cache - LastReferences(db, t, Ids(Rows(db, t))))
  }

  // ------------------------------------------------------------------
  // Service calls
  // ------------------------------------------------------------------

  /** The state committed by a call, and the error it reports, if any. */
  datatype Reply = Reply(db: Db, error: Option<Error>)

  function Managed(db: Db, actor: Actor, t: Token): Option<Error> {
    if t !in db.subs then Some(NotFound)
    else if t !in db.owners || db.owners[t] != actor then Some(NotAuthorized)
    else None
  }

  /** A refused change is rolled back to the last committed state. */
  function Commit(db: Db, o: Outcome): Reply {
    match o
    case Done(next) => Reply(next, None)
    case Refused(e) => Reply(db, Some(e))
  }

  function Create(st: Settings, db: Db, actor: Actor, t: Token, description: string, reqs: seq<Request>,
                  unreachable: set<Url>): Reply
    requires t !in db.subs
  {
    var created := Db(db.subs[t := Subscription(description, [], map[])], db.owners[t := actor], db.cache);
    Commit(db, if reqs == [] then Done(created) else AddRequests(st, created, t, reqs, false, unreachable))
  }

  function Add(st: Settings, db: Db, actor: Actor, t: Token, reqs: seq<Request>, unreachable: set<Url>): Reply {
    var denied := Managed(db, actor, t);
    if denied.Some? then Reply(db, denied) else Commit(db, AddRequests(st, db, t, reqs, false, unreachable))
  }

  function RequestId(d: Data): Id
    requires !d.Blank? && !d.Unrecognised?
  {
    match d
    case ConfigData(hash, _, _, _) => ConfigId(hash)
    case ExternalData(url) => ExternalId(url)
    case InternalData(url, _) => InternalId(url)
  }

  predicate Recognised(reqs: seq<Request>) {
    forall i :: 0 <= i < |reqs| ==> !reqs[i].data.Blank? && !reqs[i].data.Unrecognised?
  }

  function RequestIds(reqs: seq<Request>): seq<Id>
    requires Recognised(reqs)
  {
    if reqs == [] then [] else [RequestId(reqs[0].data)] + RequestIds(reqs[1..])
  }

  function Elements(ids: seq<Id>): set<Id> {
    set id | id in ids
  }

  /** The ids of the rows a replacement does not ask for. */
  function Obsolete(db: Db, t: Token, reqs: seq<Request>): set<Id>
    requires t in db.subs && Recognised(reqs)
  {
    Ids(Rows(db, t)) - Elements(RequestIds(reqs))
  }

  /** What a replacement keeps before it adds anything. */
  function Kept(db: Db, t: Token, reqs: seq<Request>): Db
    requires t in db.subs && Recognised(reqs)
  {
    if Obsolete(db, t, reqs) != {} then RemoveRows(db, t, Obsolete(db, t, reqs)) else db
  }

  /** The rows not requested are removed, and that is committed, before anything is added. */
  function Replace(st: Settings, db: Db, actor: Actor, t: Token, reqs: seq<Request>, unreachable: set<Url>): Reply {
    var denied := Managed(db, actor, t);
    if denied.Some? then Reply(db, denied)
    else if !Recognised(reqs) then Reply(db, Some(InvalidConfig))
    else
      var kept := Kept(db, t, reqs);
      Commit(kept, AddRequests(st, kept, t, reqs, true, unreachable))
  }

  function Remove(db: Db, actor: Actor, t: Token, ids: set<Id>): Reply {
    var denied := Managed(db, actor, t);
    if denied.Some? then Reply(db, denied) else Reply(RemoveRows(db, t, ids), None)
  }

  function Delete(db: Db, actor: Actor, t: Token): Reply {
    var denied := Managed(db, actor, t);
    if denied.Some? then Reply(db, denied) else Reply(DeleteRows(db, t), None)
  }

  function UrlsOf(ss: seq<Source>): set<Url> {
    set s | s in ss && s.kind.External? && s.kind.url.Some? :: s.kind.url.value
  }

  function ExternalIds(urls: set<Url>): set<Id> {
    set u | u in urls :: ExternalId(u)
  }

  /** URLs not skipped are fetched again; each leaves a cache row, and those that fail lose their source. */
  function Refresh(db: Db, actor: Actor, t: Token, skipped: set<Url>, unreachable: set<Url>): Reply {
    var denied := Managed(db, actor, t);
    if denied.Some? then Reply(db, denied)
    else
      var fetched := UrlsOf(Rows(db, t)) - skipped;
      var cached := db.(cache := db.cache + fetched);
      var failed := fetched * unreachable;
      Reply(if failed != {} then RemoveRows(cached, t, ExternalIds(failed)) else cached, None)
  }

  // ------------------------------------------------------------------
  // Runs
  // ------------------------------------------------------------------

  datatype Call =
    | CreateCall(actor: Actor, token: Token, description: string, reqs: seq<Request>, unreachable: set<Url>)
    | AddCall(actor: Actor, token: Token, reqs: seq<Request>, unreachable: set<Url>)
    | ReplaceCall(actor: Actor, token: Token, reqs: seq<Request>, unreachable: set<Url>)
    | RemoveCall(actor: Actor, token: Token, ids: set<Id>)
    | DeleteCall(actor: Actor, token: Token)
    | RefreshCall(actor: Actor, token: Token, skipped: set<Url>, unreachable: set<Url>)

  /** New tokens are drawn until one is unused, so a used one never reaches creation. */
  function Step(st: Settings, db: Db, call: Call): Db {
    match call
    case CreateCall(actor, t, description, reqs, unreachable) =>
      if t in db.subs then db else Create(st, db, actor, t, description, reqs, unreachable).db
    case AddCall(actor, t, reqs, unreachable) => Add(st, db, actor, t, reqs, unreachable).db
    case ReplaceCall(actor, t, reqs, unreachable) => Replace(st, db, actor, t, reqs, unreachable).db
    case RemoveCall(actor, t, ids) => Remove(db, actor, t, ids).db
    case DeleteCall(actor, t) => Delete(db, actor, t).db
    case RefreshCall(actor, t, skipped, unreachable) => Refresh(db, actor, t, skipped, unreachable).db
  }

  function Run(st: Settings, db: Db, calls: seq<Call>): Db {
    if calls == [] then db else Step(st, Run(st, db, calls[..|calls| - 1]), calls[|calls| - 1])
  }

  const EMPTY_DB := Db(map[], map[], {})
}
