/** What a successful replacement stores, and when the source limit refuses one. */
module ReplaceProperties {
  import opened Graphs
  import opened Collections
  import opened Subscriptions
  import opened SourceStore
  import opened SourceStoreProperties

  /** Position of the last occurrence of `id`. */
  function LastIndexOf(ids: seq<Id>, id: Id): (k: nat)
    requires id in ids
    ensures k < |ids| && ids[k] == id && id !in ids[k + 1..]
  {
    if id in ids[1..] then
      assert ids[1..][LastIndexOf(ids[1..], id) + 1..] == ids[LastIndexOf(ids[1..], id) + 2..];
      1 + LastIndexOf(ids[1..], id)
    else 0
  }

  /** The row of the request gets the index; every other row is as before. */
  lemma AddOnePlaces(st: Settings, db: Db, t: Token, req: Request, order: nat, unreachable: set<Url>)
    requires t in db.subs && !req.data.Blank? && !req.data.Unrecognised?
    requires AddOne(st, db, t, req, order, unreachable).Done?
    ensures var rows := Rows(AddOne(st, db, t, req, order, unreachable).db, t);
            && Ids(rows) == Ids(Rows(db, t)) + {RequestId(req.data)}
            && forall s :: s in rows ==> if s.id == RequestId(req.data) then s.orderIndex == order else s in Rows(db, t)
  {
    var id, before := RequestId(req.data), Rows(db, t);
    var rows := Rows(AddOne(st, db, t, req, order, unreachable).db, t);
    AddOneRows(st, db, t, req, order, unreachable, rows);
    AddOneAddsId(st, db, t, req, order, unreachable);
    UpdatedRows(before, id, req, order);
    RowsPlaced(before, rows, id, req, order);
  }

  lemma RowsPlaced(before: seq<Source>, rows: seq<Source>, id: Id, req: Request, order: nat)
    requires id in Ids(before) ==>
               |rows| == |before| && forall i :: 0 <= i < |rows| ==> rows[i] == UpdateIf(before[i], id, req, order)
    requires id !in Ids(before) ==>
               && rows != [] && rows == before + [rows[|rows| - 1]]
               && rows[|rows| - 1].id == id && rows[|rows| - 1].orderIndex == order
    ensures forall s :: s in rows ==> if s.id == id then s.orderIndex == order else s in before
  {
    forall s | s in rows
      ensures if s.id == id then s.orderIndex == order else s in before
    {
      var i :| 0 <= i < |rows| && rows[i] == s;
      if i < |before| {
        assert before[i] in before;
      }
    }
  }

  /** `after` is `before` with rows for `ids`, each indexed from `order` on by its last occurrence. */
  ghost predicate Placed(before: seq<Source>, after: seq<Source>, ids: seq<Id>, order: nat) {
    && Ids(after) == Ids(before) + Elements(ids)
    && forall s :: s in after ==> if s.id in ids then s.orderIndex == order + LastIndexOf(ids, s.id) else s in before
  }

  lemma PlacedInTurn(before: seq<Source>, m: seq<Source>, after: seq<Source>, ids: seq<Id>, order: nat)
    requires ids != [] && Placed(m, after, ids[1..], order + 1)
    requires Ids(m) == Ids(before) + {ids[0]}
    requires forall s :: s in m ==> if s.id == ids[0] then s.orderIndex == order else s in before
    ensures Placed(before, after, ids, order)
  {
    assert ids == [ids[0]] + ids[1..];
    assert Elements(ids) == {ids[0]} + Elements(ids[1..]);
  }

  lemma {:induction false} AddEachPlaces(st: Settings, db: Db, t: Token, reqs: seq<Request>, order: nat,
                                         unreachable: set<Url>, o: Outcome)
    requires t in db.subs && Recognised(reqs)
    requires o == AddEach(st, db, t, reqs, order, unreachable) && o.Done?
    ensures t in o.db.subs && Placed(Rows(db, t), Rows(o.db, t), RequestIds(reqs), order)
    decreases |reqs|
  {
    if reqs != [] {
      var m := AddOne(st, db, t, reqs[0], order, unreachable).db;
      AddOneKeepsSubscriptions(st, db, t, reqs[0], order, unreachable);
      AddOnePlaces(st, db, t, reqs[0], order, unreachable);
      AddEachPlaces(st, m, t, reqs[1..], order + 1, unreachable, o);
      assert RequestIds(reqs[1..]) == RequestIds(reqs)[1..];
      PlacedInTurn(Rows(db, t), Rows(m, t), Rows(o.db, t), RequestIds(reqs), order);
    }
  }

  lemma {:induction false} InsertKeepsDistinct(s: Source, ss: seq<Source>)
    requires DistinctIds(ss) && s.id !in Ids(ss)
    ensures DistinctIds(Insert(s, ss))
  {
    if ss == [] || s.orderIndex <= ss[0].orderIndex {
      assert forall i :: 0 <= i < |ss| ==> ss[i] in ss;
    } else {
      assert forall x :: x in ss[1..] ==> x in ss;
      InsertKeepsDistinct(s, ss[1..]);
      InsertAddsElement(s, ss[1..]);
      var rest := Insert(s, ss[1..]);
      forall i | 0 <= i < |rest|
        ensures rest[i].id != ss[0].id
      {
        assert rest[i] in multiset(rest);
        assert ss[0] in ss;
        if rest[i] != s {
          assert rest[i] in ss[1..];
        }
      }
    }
  }

  lemma {:induction false} SortKeepsDistinct(ss: seq<Source>)
    requires DistinctIds(ss)
    ensures DistinctIds(SortByIndex(ss))
  {
    if ss != [] {
      SortKeepsDistinct(ss[1..]);
      SortByIndexKeepsElements(ss[1..]);
      forall x | x in SortByIndex(ss[1..])
        ensures x.id != ss[0].id
      {
        assert x in ss[1..];
      }
      InsertKeepsDistinct(ss[0], SortByIndex(ss[1..]));
    }
  }

  /** Rows placed from index 0 load in the order of the last occurrences of their ids. */
  lemma PlacedRowsLoadInOrder(rows: seq<Source>, ids: seq<Id>)
    requires DistinctIds(rows)
    requires forall s :: s in rows ==> s.id in ids && s.orderIndex == LastIndexOf(ids, s.id)
    ensures var loaded := SortByIndex(rows);
            && (forall s :: s in loaded <==> s in rows)
            && forall i, j :: 0 <= i < j < |loaded| ==> LastIndexOf(ids, loaded[i].id) < LastIndexOf(ids, loaded[j].id)
  {
    var loaded := SortByIndex(rows);
    SortByIndexSorts(rows);
    SortByIndexKeepsElements(rows);
    SortKeepsDistinct(rows);
    forall i, j | 0 <= i < j < |loaded|
      ensures LastIndexOf(ids, loaded[i].id) < LastIndexOf(ids, loaded[j].id)
    {
      PlacedApart(rows, ids, loaded[i], loaded[j]);
    }
  }

  lemma PlacedApart(rows: seq<Source>, ids: seq<Id>, r: Source, s: Source)
    requires forall s :: s in rows ==> s.id in ids && s.orderIndex == LastIndexOf(ids, s.id)
    requires r in rows && s in rows && r.id != s.id && r.orderIndex <= s.orderIndex
    ensures LastIndexOf(ids, r.id) < LastIndexOf(ids, s.id)
  {
  }

  lemma KeptIds(st: Settings, db: Db, t: Token, reqs: seq<Request>)
    requires Inv(st, db) && t in db.subs && Recognised(reqs)
    ensures t in Kept(db, t, reqs).subs
    ensures Ids(Rows(Kept(db, t, reqs), t)) == Ids(Rows(db, t)) * Elements(RequestIds(reqs))
  {
    RemoveRowsKeepsInv(st, db, t, Obsolete(db, t, reqs));
  }

  /**
   After a successful replacement the stored ids are exactly those requested,
   each indexed by its last occurrence in the request, so that loading by index
   lists them in the order of their last occurrences.
   */
  lemma ReplacedRowsFollowTheRequest(st: Settings, db: Db, actor: Actor, t: Token, reqs: seq<Request>,
                                     unreachable: set<Url>)
    requires Inv(st, db) && Replace(st, db, actor, t, reqs, unreachable).error.None?
    ensures Recognised(reqs) && t in Replace(st, db, actor, t, reqs, unreachable).db.subs
    ensures var rows, ids := Rows(Replace(st, db, actor, t, reqs, unreachable).db, t), RequestIds(reqs);
            && Ids(rows) == Elements(ids)
            && (forall s :: s in rows ==> s.id in ids && s.orderIndex == LastIndexOf(ids, s.id))
            && var loaded := SortByIndex(rows);
            && (forall s :: s in loaded <==> s in rows)
            && forall i, j :: 0 <= i < j < |loaded| ==> LastIndexOf(ids, loaded[i].id) < LastIndexOf(ids, loaded[j].id)
  {
    var kept, ids := Kept(db, t, reqs), RequestIds(reqs);
    KeptIds(st, db, t, reqs);
    var o := AddEach(st, kept, t, reqs, 0, unreachable);
    AddEachPlaces(st, kept, t, reqs, 0, unreachable, o);
    ReplaceKeepsInv(st, db, actor, t, reqs, unreachable);
    var rows := Rows(o.db, t);
    assert Ids(rows) == Elements(ids);
    forall s | s in rows
      ensures s.id in ids && s.orderIndex == LastIndexOf(ids, s.id)
    {
      assert s.id in Ids(rows);
    }
    PlacedRowsLoadInOrder(rows, ids);
  }

  // ------------------------------------------------------------------
  // The source limit
  // ------------------------------------------------------------------

  /** An outcome that is not an error of some source itself. */
  predicate OnlyLimited(o: Outcome) {
    o.Done? || o.error == TooManySources
  }

  lemma SourcesAreNotLimited(st: Settings, db: Db, t: Token, req: Request, order: nat, unreachable: set<Url>)
    requires t in db.subs && !req.data.Blank?
    ensures OnlyLimited(AddOne(st, db, t, req, order, unreachable)) ==> AddOne(st, db, t, req, order, unreachable).Done?
  {
  }

  /** Where no source is refused on its own account, what decides is the limit, tested before each request. */
  lemma {:induction false} AddedExactlyWhenRoom(st: Settings, db: Db, t: Token, reqs: seq<Request>, order: nat,
                                                unreachable: set<Url>,
                                                o: Outcome, ids: seq<Id>)
    requires t in db.subs && Recognised(reqs) && o == AddEach(st, db, t, reqs, order, unreachable)
    requires ids == RequestIds(reqs) && OnlyLimited(o)
    ensures o.Done? <==> RoomFor(Ids(Rows(db, t)), ids, st.maxSources)
    decreases |reqs|
  {
    if reqs != [] {
      RoomInTurn(Ids(Rows(db, t)), ids, st.maxSources);
      if |Ids(Rows(db, t))| < st.maxSources {
        SourcesAreNotLimited(st, db, t, reqs[0], order, unreachable);
        AddOneKeepsSubscriptions(st, db, t, reqs[0], order, unreachable);
        AddOneAddsId(st, db, t, reqs[0], order, unreachable);
        var m := AddOne(st, db, t, reqs[0], order, unreachable).db;
        AddedExactlyWhenRoom(st, m, t, reqs[1..], order + 1, unreachable, o, ids[1..]);
      }
    }
  }

  /** Fewer than `max` ids are stored before the last of `ids` is added to `before`. */
  predicate RoomFor(before: set<Id>, ids: seq<Id>, max: nat) {
    ids == [] || |before + Elements(ids[..|ids| - 1])| < max
  }

  lemma RoomInTurn(before: set<Id>, ids: seq<Id>, max: nat)
    requires ids != []
    ensures RoomFor(before, ids, max) <==> |before| < max && RoomFor(before + {ids[0]}, ids[1..], max)
  {
    var early := ids[..|ids| - 1];
    if early == [] {
      assert before + Elements(early) == before;
    } else {
      assert ids[1..][..|ids| - 2] == early[1..];
      assert early == [ids[0]] + early[1..];
      assert before + {ids[0]} + Elements(early[1..]) == before + Elements(early);
      SubsetSize(before, before + Elements(early));
    }
  }

  /**
   A replacement in which no source is refused on its own account succeeds
   exactly when the limit exceeds the number of rows kept and of distinct ids
   met before the last request: the limit is tested before each request, even
   one that adds no row.
   */
  lemma ReplacementIsLimitedExactlyWhen(st: Settings, db: Db, actor: Actor, t: Token, reqs: seq<Request>,
                                        unreachable: set<Url>)
    requires Inv(st, db) && Managed(db, actor, t).None? && Recognised(reqs)
    requires Replace(st, db, actor, t, reqs, unreachable).error in {None, Some(TooManySources)}
    ensures var kept := Ids(Rows(db, t)) * Elements(RequestIds(reqs));
            Replace(st, db, actor, t, reqs, unreachable).error == Some(TooManySources) <==>
            |kept| >= st.maxSources || !RoomFor(kept, RequestIds(reqs), st.maxSources)
  {
    KeptIds(st, db, t, reqs);
    var kept := Kept(db, t, reqs);
    var o := AddEach(st, kept, t, reqs, 0, unreachable);
    if |Ids(Rows(kept, t))| < st.maxSources {
      AddedExactlyWhenRoom(st, kept, t, reqs, 0, unreachable, o, RequestIds(reqs));
    }
  }

  /** Configs in valid form: nothing but the limit can refuse them. */
  predicate ValidConfigs(reqs: seq<Request>) {
    forall i :: 0 <= i < |reqs| ==> reqs[i].data.ConfigData? && reqs[i].data.valid
  }

  lemma {:induction false} ValidConfigsOnlyLimited(st: Settings, db: Db, t: Token, reqs: seq<Request>, order: nat,
                                                   unreachable: set<Url>)
    requires t in db.subs && ValidConfigs(reqs)
    ensures OnlyLimited(AddEach(st, db, t, reqs, order, unreachable))
    decreases |reqs|
  {
    if reqs != [] && |Ids(Rows(db, t))| < st.maxSources {
      AddOneKeepsSubscriptions(st, db, t, reqs[0], order, unreachable);
      ValidConfigsOnlyLimited(st, AddOne(st, db, t, reqs[0], order, unreachable).db, t, reqs[1..], order + 1,
                              unreachable);
    }
  }

  /** For valid configs that is the whole condition of success. */
  lemma ConfigReplacementSucceedsExactlyWhen(st: Settings, db: Db, actor: Actor, t: Token, reqs: seq<Request>,
                                             unreachable: set<Url>)
    requires Inv(st, db) && Managed(db, actor, t).None? && ValidConfigs(reqs)
    ensures var kept := Ids(Rows(db, t)) * Elements(RequestIds(reqs));
            Replace(st, db, actor, t, reqs, unreachable).error.None? <==>
            |kept| < st.maxSources && RoomFor(kept, RequestIds(reqs), st.maxSources)
  {
    KeptIds(st, db, t, reqs);
    ValidConfigsOnlyLimited(st, Kept(db, t, reqs), t, reqs, 0, unreachable);
    ReplacementIsLimitedExactlyWhen(st, db, actor, t, reqs, unreachable);
  }

  /** A subscription already at the limit cannot be replaced by the very sources it holds. */
  lemma FullSubscriptionCannotBeReplacedByItself(st: Settings, db: Db, actor: Actor, t: Token, reqs: seq<Request>,
                                                 unreachable: set<Url>)
    requires Inv(st, db) && Managed(db, actor, t).None? && Recognised(reqs)
    requires |Rows(db, t)| == st.maxSources && Elements(RequestIds(reqs)) == Ids(Rows(db, t))
    ensures Replace(st, db, actor, t, reqs, unreachable) == Reply(db, Some(TooManySources))
  {
    IdsCount(Rows(db, t));
  }
}
