/**
 What every sequence of service calls keeps: keyed rows, bounded subscriptions,
 an acyclic reference graph, and a cache that mirrors the live external URLs.
 */
module SourceStoreProperties {
  import opened Graphs
  import opened Collections
  import opened Subscriptions
  import opened AdmissionCheck
  import opened AdmissionProperties
  import opened SourceStore

  // ------------------------------------------------------------------
  // The invariant
  // ------------------------------------------------------------------

  /** The id of a row is the digest of what the row holds. */
  predicate RowOk(s: Source) {
    match s.kind
    case Config(hash, _, _) => s.id == ConfigId(hash)
    case External(url) => url.Some? && s.id == ExternalId(url.value)
    case Internal(target) => target.Some? && s.id.InternalId?
  }

  ghost predicate DistinctIds(ss: seq<Source>) {
    forall i, j :: 0 <= i < j < |ss| ==> ss[i].id != ss[j].id
  }

  ghost predicate RowsOk(ss: seq<Source>) {
    DistinctIds(ss) && forall s :: s in ss ==> RowOk(s)
  }

  ghost predicate RowsValid(db: Db) {
    forall t :: t in db.subs ==> RowsOk(db.subs[t].sources)
  }

  ghost predicate Limited(st: Settings, db: Db) {
    forall t :: t in db.subs ==> |db.subs[t].sources| <= st.maxSources
  }

  ghost predicate CacheHeld(db: Db) {
    forall u :: u in db.cache <==> Holders(db, ExternalId(u)) != {}
  }

  ghost predicate Inv(st: Settings, db: Db) {
    RowsValid(db) && Limited(st, db) && CacheHeld(db) && Acyclic(ReferenceGraph(db.subs))
  }

  /** Some source of some subscription is the external URL `u`. */
  ghost predicate Referenced(db: Db, u: Url) {
    exists t, s :: t in db.subs && s in db.subs[t].sources && s.kind == External(Some(u))
  }

  // ------------------------------------------------------------------
  // Row lists
  // ------------------------------------------------------------------

  lemma {:induction false} IdsCount(ss: seq<Source>)
    requires DistinctIds(ss)
    ensures |Ids(ss)| == |ss|
  {
    if ss != [] {
      var rest := ss[..|ss| - 1];
      var last := ss[|ss| - 1];
      IdsCount(rest);
      assert ss == rest + [last];
      assert Ids(ss) == Ids(rest) + {last.id};
      assert last.id !in Ids(rest);
    }
  }

  lemma {:induction false} UpdatedRows(ss: seq<Source>, id: Id, req: Request, order: nat)
    ensures var us := UpdateRows(ss, id, req, order);
            |us| == |ss| && forall i :: 0 <= i < |ss| ==> us[i] == UpdateIf(ss[i], id, req, order)
  {
    if ss != [] {
      UpdatedRows(ss[1..], id, req, order);
    }
  }

  /** Same ids and same kinds, position by position. */
  ghost predicate SameKeys(ss: seq<Source>, us: seq<Source>) {
    |us| == |ss| && forall i :: 0 <= i < |ss| ==> us[i].id == ss[i].id && us[i].kind == ss[i].kind
  }

  lemma SameKeysSameIds(ss: seq<Source>, us: seq<Source>)
    requires SameKeys(ss, us)
    ensures Ids(us) == Ids(ss)
  {
    forall i | 0 <= i < |ss|
      ensures ss[i].id in Ids(us) && us[i].id in Ids(ss)
    {
      assert us[i] in us && ss[i] in ss;
    }
  }

  lemma SameKeysRowsOk(ss: seq<Source>, us: seq<Source>)
    requires SameKeys(ss, us) && RowsOk(ss)
    ensures RowsOk(us)
  {
    forall i | 0 <= i < |us|
      ensures RowOk(us[i])
    {
      assert RowOk(ss[i]);
    }
  }

  lemma SameKeysSameReferences(ss: seq<Source>, us: seq<Source>, s: Source, v: Token)
    requires SameKeys(ss, us) && s in us && RefersTo(s, v)
    ensures exists r :: r in ss && RefersTo(r, v)
  {
    var i :| 0 <= i < |us| && us[i] == s;
    assert RefersTo(ss[i], v);
  }

  lemma {:induction false} SelectKeepsDistinct(ss: seq<Source>, keep: Source -> bool)
    requires DistinctIds(ss)
    ensures DistinctIds(Select(ss, keep)) && |Select(ss, keep)| <= |ss|
  {
    if ss != [] {
      SelectKeepsDistinct(ss[1..], keep);
      SelectElements(ss[1..], keep);
      var kept := Select(ss[1..], keep);
      forall i | 0 <= i < |kept|
        ensures kept[i].id != ss[0].id
      {
        assert kept[i] in kept;
      }
    }
  }

  lemma SelectKeepsRowsOk(ss: seq<Source>, keep: Source -> bool)
    requires RowsOk(ss)
    ensures RowsOk(Select(ss, keep)) && |Select(ss, keep)| <= |ss|
  {
    SelectKeepsDistinct(ss, keep);
    SelectElements(ss, keep);
  }

  // ------------------------------------------------------------------
  // Reference graphs of changed stores
  // ------------------------------------------------------------------

  ghost predicate HasReference(store: Store, u: Token, v: Token) {
    u in store && exists s :: s in store[u].sources && RefersTo(s, v)
  }

  lemma FewerReferences(a: Store, b: Store)
    requires forall u, v :: HasReference(b, u, v) ==> HasReference(a, u, v)
    requires Acyclic(ReferenceGraph(a))
    ensures Acyclic(ReferenceGraph(b))
  {
    forall u, v | v in Refs(ReferenceGraph(b), u)
      ensures v in Refs(ReferenceGraph(a), u)
    {
      ReferenceGraphEdges(b, u, v);
      assert HasReference(b, u, v);
      ReferenceGraphEdges(a, u, v);
    }
    FewerReferencesStayAcyclic(ReferenceGraph(a), ReferenceGraph(b));
  }

  lemma OneMoreReference(max: int, a: Store, b: Store, t: Token, target: Token)
    requires forall u, v :: HasReference(b, u, v) ==> HasReference(a, u, v) || (u == t && v == target)
    requires Acyclic(ReferenceGraph(a)) && Accepts(ReferenceGraph(a), max, AsWritten, t, target)
    ensures Acyclic(ReferenceGraph(b))
  {
    var g, h := ReferenceGraph(a), ReferenceGraph(b);
    forall u, v | v in Refs(h, u)
      ensures v in Refs(g, u) || (u == t && v == target)
    {
      ReferenceGraphEdges(b, u, v);
      assert HasReference(b, u, v);
      ReferenceGraphEdges(a, u, v);
    }
    AcceptedReferenceKeepsAcyclic(g, h, max, t, target);
  }

  // ------------------------------------------------------------------
  // Adding
  // ------------------------------------------------------------------

  lemma CommentKeepsInv(st: Settings, db: Db, t: Token, hash: Hash, comment: string)
    requires t in db.subs && Inv(st, db)
    ensures Inv(st, WithComment(db, t, hash, comment)) && Rows(WithComment(db, t, hash, comment), t) == Rows(db, t)
  {
    var next := WithComment(db, t, hash, comment);
    assert ReferenceGraph(next.subs) == ReferenceGraph(db.subs);
    forall id
      ensures Holders(next, id) == Holders(db, id)
    {
    }
  }

  lemma UpdateKeepsInv(st: Settings, db: Db, t: Token, id: Id, req: Request, order: nat)
    requires t in db.subs && Inv(st, db)
    ensures Inv(st, WithRows(db, t, UpdateRows(Rows(db, t), id, req, order)))
  {
    var next := WithRows(db, t, UpdateRows(Rows(db, t), id, req, order));
    UpdatedRows(Rows(db, t), id, req, order);
    SameKeysSameIds(Rows(db, t), Rows(next, t));
    SameKeysRowsOk(Rows(db, t), Rows(next, t));
    forall id
      ensures Holders(next, id) == Holders(db, id)
    {
    }
    forall u, v | HasReference(next.subs, u, v)
      ensures HasReference(db.subs, u, v)
    {
      var s :| s in next.subs[u].sources && RefersTo(s, v);
      if u == t {
        SameKeysSameReferences(Rows(db, t), Rows(next, t), s, v);
      }
    }
    FewerReferences(db.subs, next.subs);
  }

  function UrlOf(s: Source): set<Url> {
    if s.id.ExternalId? then {s.id.url} else {}
  }

  lemma AppendedRowsOk(ss: seq<Source>, row: Source)
    requires RowsOk(ss) && row.id !in Ids(ss) && RowOk(row)
    ensures RowsOk(ss + [row])
  {
    forall i | 0 <= i < |ss|
      ensures ss[i].id != row.id
    {
      assert ss[i] in ss;
    }
  }

  function Appended(db: Db, t: Token, row: Source): Db
    requires t in db.subs
  {
    WithRows(db, t, Rows(db, t) + [row]).(cache := db.cache + UrlOf(row))
  }

  lemma AppendKeepsCache(db: Db, t: Token, row: Source)
    requires t in db.subs && CacheHeld(db)
    ensures CacheHeld(Appended(db, t, row))
  {
    var next := Appended(db, t, row);
    assert Ids(Rows(next, t)) == Ids(Rows(db, t)) + {row.id};
    forall u
      ensures Holders(next, ExternalId(u)) == Holders(db, ExternalId(u)) + if row.id == ExternalId(u) then {t} else {}
    {
    }
  }

  lemma AppendKeepsAcyclic(max: int, db: Db, t: Token, row: Source)
    requires t in db.subs && Acyclic(ReferenceGraph(db.subs)) && RowOk(row)
    requires row.kind.Internal? ==> Accepts(ReferenceGraph(db.subs), max, AsWritten, t, row.kind.target.value)
    ensures Acyclic(ReferenceGraph(Appended(db, t, row).subs))
  {
    var next := Appended(db, t, row);
    forall u, v | HasReference(next.subs, u, v)
      ensures HasReference(db.subs, u, v) || (u == t && RefersTo(row, v))
    {
      var s :| s in next.subs[u].sources && RefersTo(s, v);
    }
    if row.kind.Internal? {
      OneMoreReference(max, db.subs, next.subs, t, row.kind.target.value);
    } else {
      FewerReferences(db.subs, next.subs);
    }
  }

  lemma AppendKeepsInv(st: Settings, db: Db, t: Token, row: Source)
    requires t in db.subs && Inv(st, db)
    requires row.id !in Ids(Rows(db, t)) && RowOk(row) && |Rows(db, t)| < st.maxSources
    requires row.kind.Internal? ==> Accepts(ReferenceGraph(db.subs), st.maxDepth, AsWritten, t, row.kind.target.value)
    ensures Inv(st, Appended(db, t, row))
  {
    AppendedRowsOk(Rows(db, t), row);
    AppendKeepsCache(db, t, row);
    AppendKeepsAcyclic(st.maxDepth, db, t, row);
  }

  lemma AddConfigKeepsInv(st: Settings, db: Db, t: Token, req: Request, order: nat)
    requires t in db.subs && Inv(st, db) && req.data.ConfigData? && |Rows(db, t)| < st.maxSources
    requires AddConfig(st, db, t, req, order).Done?
    ensures Inv(st, AddConfig(st, db, t, req, order).db)
  {
    var d := req.data;
    var id := ConfigId(d.hash);
    if id in Ids(Rows(db, t)) {
      var commented := if d.comment.Some? then WithComment(db, t, d.hash, d.comment.value) else db;
      CommentKeepsInv(st, db, t, d.hash, OrElse(d.comment, ""));
      UpdateKeepsInv(st, commented, t, id, req, order);
    } else {
      var comment := if OrElse(d.comment, "") == "" then st.domain else OrElse(d.comment, "");
      var commented := WithComment(db, t, d.hash, comment);
      CommentKeepsInv(st, db, t, d.hash, comment);
      var row := NewRow(id, Config(d.hash, d.text, true), req, order);
      AppendKeepsInv(st, commented, t, row);
      assert AddConfig(st, db, t, req, order).db == Appended(commented, t, row);
    }
  }

  lemma AddExternalKeepsInv(st: Settings, db: Db, t: Token, req: Request, order: nat, unreachable: set<Url>)
    requires t in db.subs && Inv(st, db) && req.data.ExternalData? && |Rows(db, t)| < st.maxSources
    requires AddExternal(db, t, req, order, unreachable).Done?
    ensures Inv(st, AddExternal(db, t, req, order, unreachable).db)
  {
    var url := req.data.url;
    var id := ExternalId(url);
    if id in Ids(Rows(db, t)) {
      UpdateKeepsInv(st, db, t, id, req, order);
    } else {
      var row := NewRow(id, External(Some(url)), req, order);
      AppendKeepsInv(st, db, t, row);
      assert Holders(db, id) != {} ==> db.cache + {url} == db.cache;
      assert AddExternal(db, t, req, order, unreachable).db == Appended(db, t, row);
    }
  }

  lemma AddInternalKeepsInv(st: Settings, db: Db, t: Token, req: Request, order: nat)
    requires t in db.subs && Inv(st, db) && req.data.InternalData? && |Rows(db, t)| < st.maxSources
    requires AddInternal(st, db, t, req, order).Done?
    ensures Inv(st, AddInternal(st, db, t, req, order).db)
  {
    var id := InternalId(req.data.url);
    if id in Ids(Rows(db, t)) {
      UpdateKeepsInv(st, db, t, id, req, order);
    } else {
      var row := NewRow(id, Internal(req.data.target), req, order);
      AppendKeepsInv(st, db, t, row);
      assert AddInternal(st, db, t, req, order).db == Appended(db, t, row);
    }
  }

  lemma AddOneKeepsInv(st: Settings, db: Db, t: Token, req: Request, order: nat, unreachable: set<Url>)
    requires t in db.subs && Inv(st, db) && !req.data.Blank? && |Ids(Rows(db, t))| < st.maxSources
    requires AddOne(st, db, t, req, order, unreachable).Done?
    ensures Inv(st, AddOne(st, db, t, req, order, unreachable).db)
  {
    IdsCount(Rows(db, t));
    match req.data
    case ConfigData(_, _, _, _) => AddConfigKeepsInv(st, db, t, req, order);
    case ExternalData(_) => AddExternalKeepsInv(st, db, t, req, order, unreachable);
    case InternalData(_, _) => AddInternalKeepsInv(st, db, t, req, order);
  }

  /** Adding a source updates the row with its id, or appends a new one. */
  lemma AddOneRows(st: Settings, db: Db, t: Token, req: Request, order: nat, unreachable: set<Url>, rows: seq<Source>)
    requires t in db.subs && !req.data.Blank? && !req.data.Unrecognised?
    requires var o := AddOne(st, db, t, req, order, unreachable); o.Done? && rows == Rows(o.db, t)
    ensures if RequestId(req.data) in Ids(Rows(db, t)) then
              rows == UpdateRows(Rows(db, t), RequestId(req.data), req, order)
            else rows != [] && rows == Rows(db, t) + [rows[|rows| - 1]] && rows[|rows| - 1].id == RequestId(req.data)
                 && rows[|rows| - 1].orderIndex == order
  {
  }

  /** Adding one source adds exactly its id: the service's record of stored ids stays right. */
  lemma AddOneAddsId(st: Settings, db: Db, t: Token, req: Request, order: nat, unreachable: set<Url>)
    requires t in db.subs && !req.data.Blank? && !req.data.Unrecognised?
    requires AddOne(st, db, t, req, order, unreachable).Done?
    ensures Ids(Rows(AddOne(st, db, t, req, order, unreachable).db, t)) == Ids(Rows(db, t)) + {RequestId(req.data)}
  {
    var rows := Rows(AddOne(st, db, t, req, order, unreachable).db, t);
    AddOneRows(st, db, t, req, order, unreachable, rows);
    if RequestId(req.data) in Ids(Rows(db, t)) {
      UpdatedRows(Rows(db, t), RequestId(req.data), req, order);
      SameKeysSameIds(Rows(db, t), rows);
    }
  }

  lemma {:induction false} RequestIdsOfAppend(reqs: seq<Request>, req: Request)
    requires Recognised(reqs) && !req.data.Blank? && !req.data.Unrecognised?
    ensures Recognised(reqs + [req]) && RequestIds(reqs + [req]) == RequestIds(reqs) + [RequestId(req.data)]
  {
    assert [req][0] == req && [req][1..] == [];
    if reqs == [] {
      assert reqs + [req] == [req];
    } else {
      assert (reqs + [req])[1..] == reqs[1..] + [req];
      RequestIdsOfAppend(reqs[1..], req);
    }
  }

  lemma {:induction false} AddEachKeepsInv(st: Settings, db: Db, t: Token, reqs: seq<Request>, order: nat,
                                           unreachable: set<Url>)
    requires t in db.subs && Inv(st, db)
    requires AddEach(st, db, t, reqs, order, unreachable).Done?
    ensures Inv(st, AddEach(st, db, t, reqs, order, unreachable).db)
    decreases |reqs|
  {
    if reqs != [] {
      if reqs[0].data.Blank? {
        AddEachKeepsInv(st, db, t, reqs[1..], order, unreachable);
      } else {
        AddOneKeepsInv(st, db, t, reqs[0], order, unreachable);
        AddOneKeepsSubscriptions(st, db, t, reqs[0], order, unreachable);
        AddEachKeepsInv(st, AddOne(st, db, t, reqs[0], order, unreachable).db, t, reqs[1..], order + 1, unreachable);
      }
    }
  }

  lemma AddRequestsKeepsInv(st: Settings, db: Db, t: Token, reqs: seq<Request>, reset: bool, unreachable: set<Url>)
    requires t in db.subs && Inv(st, db)
    ensures var o := AddRequests(st, db, t, reqs, reset, unreachable); o.Done? ==> Inv(st, o.db)
  {
    if AddRequests(st, db, t, reqs, reset, unreachable).Done? {
      AddEachKeepsInv(st, db, t, reqs, if reset then 0 else |Ids(Rows(db, t))|, unreachable);
    }
  }

  // ------------------------------------------------------------------
  // Removing
  // ------------------------------------------------------------------

  lemma OnlyHolder(db: Db, t: Token, id: Id)
    requires t in Holders(db, id) && |Holders(db, id)| == 1
    ensures Holders(db, id) == {t}
  {
    assert |Holders(db, id) - {t}| == 0;
  }

  /** The URLs whose cache rows go are exactly those that only subscription `t` held, through a row in `ids`. */
  lemma LastReferencesExact(db: Db, t: Token, ids: set<Id>, u: Url)
    requires t in db.subs && RowsValid(db)
    ensures u in LastReferences(db, t, ids) <==> ExternalId(u) in ids && Holders(db, ExternalId(u)) == {t}
  {
    var id := ExternalId(u);
    if u in LastReferences(db, t, ids) {
      var s :| s in Rows(db, t) && s.id in ids && s.kind.External? && s.id.ExternalId? && |Holders(db, s.id)| == 1
               && s.id.url == u;
      OnlyHolder(db, t, id);
    }
    if id in ids && Holders(db, id) == {t} {
      assert t in Holders(db, id);
      var s :| s in Rows(db, t) && s.id == id;
      assert RowOk(s);
      assert |Holders(db, s.id)| == 1;
    }
  }

  lemma RemovedIds(db: Db, t: Token, ids: set<Id>)
    requires t in db.subs
    ensures Ids(Rows(RemoveRows(db, t, ids), t)) == Ids(Rows(db, t)) - ids
  {
    SelectElements(Rows(db, t), Outside(ids));
  }

  lemma HoldersAfterRemoval(db: Db, t: Token, ids: set<Id>, id: Id)
    requires t in db.subs
    ensures Holders(RemoveRows(db, t, ids), id) == Holders(db, id) - if id in ids then {t} else {}
  {
    RemovedIds(db, t, ids);
  }

  lemma RemoveRowsKeepsInv(st: Settings, db: Db, t: Token, ids: set<Id>)
    requires t in db.subs && Inv(st, db)
    ensures Inv(st, RemoveRows(db, t, ids)) && Ids(Rows(RemoveRows(db, t, ids), t)) == Ids(Rows(db, t)) - ids
  {
    var next := RemoveRows(db, t, ids);
    SelectKeepsRowsOk(Rows(db, t), Outside(ids));
    SelectElements(Rows(db, t), Outside(ids));
    RemovedIds(db, t, ids);
    forall u
      ensures u in next.cache <==> Holders(next, ExternalId(u)) != {}
    {
      LastReferencesExact(db, t, ids, u);
      HoldersAfterRemoval(db, t, ids, ExternalId(u));
    }
    forall u, v | HasReference(next.subs, u, v)
      ensures HasReference(db.subs, u, v)
    {
      var s :| s in next.subs[u].sources && RefersTo(s, v);
    }
    FewerReferences(db.subs, next.subs);
  }

  /** After a deletion nothing refers to the subscription, and every other row of the others is still there. */
  lemma DeletedSubscriptionIsForgotten(db: Db, t: Token)
    requires t in db.subs
    ensures var next := DeleteRows(db, t);
            && next.subs.Keys == db.subs.Keys - {t} && next.owners == db.owners - {t}
            && (forall u :: !HasReference(next.subs, u, t) && t !in Refs(ReferenceGraph(next.subs), u))
            && (forall u, s :: u in next.subs ==>
                                 (s in next.subs[u].sources <==> s in db.subs[u].sources && !RefersTo(s, t)))
            && (forall u :: u in next.subs ==>
                              next.subs[u] == db.subs[u].(sources := Select(db.subs[u].sources, s => !RefersTo(s, t))))
  {
    var next := DeleteRows(db, t);
    forall u | u in next.subs
      ensures forall s :: s in next.subs[u].sources <==> s in db.subs[u].sources && !RefersTo(s, t)
    {
      SelectElements(db.subs[u].sources, NotReferringTo(t));
    }
    forall u | u in next.subs
      ensures next.subs[u] == db.subs[u].(sources := Select(db.subs[u].sources, s => !RefersTo(s, t)))
    {
      SelectAlike(db.subs[u].sources, NotReferringTo(t), s => !RefersTo(s, t));
    }
    forall u
      ensures t !in Refs(ReferenceGraph(next.subs), u)
    {
      ReferenceGraphEdges(next.subs, u, t);
    }
  }

  lemma DeleteRowsKeepsInv(st: Settings, db: Db, t: Token)
    requires t in db.subs && Inv(st, db)
    ensures Inv(st, DeleteRows(db, t))
    ensures forall u :: !HasReference(DeleteRows(db, t).subs, u, t)
  {
    var next := DeleteRows(db, t);
    forall u | u in next.subs
      ensures RowsOk(next.subs[u].sources) && |next.subs[u].sources| <= |db.subs[u].sources|
      ensures forall s :: s in next.subs[u].sources <==> s in db.subs[u].sources && !RefersTo(s, t)
    {
      SelectKeepsRowsOk(db.subs[u].sources, NotReferringTo(t));
      SelectElements(db.subs[u].sources, NotReferringTo(t));
    }
    forall u
      ensures u in next.cache <==> Holders(next, ExternalId(u)) != {}
    {
      var id := ExternalId(u);
      LastReferencesExact(db, t, Ids(Rows(db, t)), u);
      forall x | x in next.subs
        ensures x in Holders(next, id) <==> x in Holders(db, id)
      {
        assert forall s :: s in db.subs[x].sources && s.id == id ==> RowOk(s) && !RefersTo(s, t);
      }
      assert Holders(next, id) == Holders(db, id) - {t};
    }
    FewerReferences(db.subs, next.subs);
  }

  // ------------------------------------------------------------------
  // Calls and runs
  // ------------------------------------------------------------------

  lemma CreateKeepsInv(st: Settings, db: Db, actor: Actor, t: Token, description: string, reqs: seq<Request>,
                       unreachable: set<Url>)
    requires Inv(st, db) && t !in db.subs
    ensures Inv(st, Create(st, db, actor, t, description, reqs, unreachable).db)
  {
    var created := Db(db.subs[t := Subscription(description, [], map[])], db.owners[t := actor], db.cache);
    forall id
      ensures Holders(created, id) == Holders(db, id)
    {
    }
    FewerReferences(db.subs, created.subs);
    assert Inv(st, created);
    AddRequestsKeepsInv(st, created, t, reqs, false, unreachable);
  }

  lemma ReplaceKeepsInv(st: Settings, db: Db, actor: Actor, t: Token, reqs: seq<Request>, unreachable: set<Url>)
    requires Inv(st, db)
    ensures Inv(st, Replace(st, db, actor, t, reqs, unreachable).db)
  {
    if Managed(db, actor, t).None? && Recognised(reqs) {
      RemoveRowsKeepsInv(st, db, t, Obsolete(db, t, reqs));
      AddRequestsKeepsInv(st, Kept(db, t, reqs), t, reqs, true, unreachable);
    }
  }

  lemma RefreshKeepsInv(st: Settings, db: Db, actor: Actor, t: Token, skipped: set<Url>, unreachable: set<Url>)
    requires Inv(st, db)
    ensures Inv(st, Refresh(db, actor, t, skipped, unreachable).db)
  {
    if Managed(db, actor, t).None? {
      var fetched := UrlsOf(Rows(db, t)) - skipped;
      forall u | u in fetched
        ensures u in db.cache
      {
        var s :| s in Rows(db, t) && s.kind.External? && s.kind.url == Some(u);
        assert RowOk(s);
        assert t in Holders(db, ExternalId(u));
      }
      assert db.cache + fetched == db.cache;
      var cached := db.(cache := db.cache + fetched);
      assert cached == db;
      RemoveRowsKeepsInv(st, cached, t, ExternalIds(fetched * unreachable));
    }
  }

  lemma StepKeepsInv(st: Settings, db: Db, call: Call)
    requires Inv(st, db)
    ensures Inv(st, Step(st, db, call))
  {
    match call
    case CreateCall(actor, t, description, reqs, unreachable) =>
      if t !in db.subs {
        CreateKeepsInv(st, db, actor, t, description, reqs, unreachable);
      }
    case AddCall(actor, t, reqs, unreachable) =>
      if Managed(db, actor, t).None? {
        AddRequestsKeepsInv(st, db, t, reqs, false, unreachable);
      }
    case ReplaceCall(actor, t, reqs, unreachable) =>
      ReplaceKeepsInv(st, db, actor, t, reqs, unreachable);
    case RemoveCall(actor, t, ids) =>
      if Managed(db, actor, t).None? {
        RemoveRowsKeepsInv(st, db, t, ids);
      }
    case DeleteCall(actor, t) =>
      if Managed(db, actor, t).None? {
        DeleteRowsKeepsInv(st, db, t);
      }
    case RefreshCall(actor, t, skipped, unreachable) =>
      RefreshKeepsInv(st, db, actor, t, skipped, unreachable);
  }

  lemma {:induction false} RunKeepsInv(st: Settings, calls: seq<Call>)
    ensures Inv(st, Run(st, EMPTY_DB, calls))
  {
    if calls == [] {
      forall u
        ensures Holders(EMPTY_DB, ExternalId(u)) == {}
      {
      }
      EmptyGraphIsAcyclic(ReferenceGraph(EMPTY_DB.subs));
    } else {
      RunKeepsInv(st, calls[..|calls| - 1]);
      StepKeepsInv(st, Run(st, EMPTY_DB, calls[..|calls| - 1]), calls[|calls| - 1]);
    }
  }

  /** Whatever the calls, successful or refused, the internal references never form a cycle. */
  lemma ReferencesStayAcyclic(st: Settings, calls: seq<Call>)
    ensures Acyclic(ReferenceGraph(Run(st, EMPTY_DB, calls).subs))
  {
    RunKeepsInv(st, calls);
  }

  /** The cache rows are at all times exactly those of the external URLs some subscription holds. */
  lemma CacheMirrorsLiveUrls(st: Settings, calls: seq<Call>, u: Url)
    ensures u in Run(st, EMPTY_DB, calls).cache <==> Referenced(Run(st, EMPTY_DB, calls), u)
  {
    RunKeepsInv(st, calls);
    var db := Run(st, EMPTY_DB, calls);
    if Referenced(db, u) {
      var t, s :| t in db.subs && s in db.subs[t].sources && s.kind == External(Some(u));
      assert RowOk(s);
      assert t in Holders(db, ExternalId(u));
    }
    if u in db.cache {
      var t :| t in Holders(db, ExternalId(u));
      var s :| s in db.subs[t].sources && s.id == ExternalId(u);
      assert RowOk(s);
    }
  }

  /** No subscription ever holds more sources than allowed, nor two with the same id. */
  lemma SubscriptionsStayBounded(st: Settings, calls: seq<Call>, t: Token)
    requires t in Run(st, EMPTY_DB, calls).subs
    ensures var ss := Run(st, EMPTY_DB, calls).subs[t].sources; |ss| <= st.maxSources && DistinctIds(ss)
  {
    RunKeepsInv(st, calls);
  }
}
