/**
 The stored data: subscriptions, each with its sources and its comments.

 Tokens, URLs and digests are opaque identifiers, represented by numbers; two
 are equal exactly when the texts they stand for are.
 */
module Subscriptions {
  import opened Graphs
  import opened Collections

  type Hash = nat
  type Url = nat

  datatype Option<+T> = None | Some(value: T)

  /** A source id is the digest of a text, and the text settles the source type. */
  datatype Id = ConfigId(hash: Hash) | ExternalId(url: Url) | InternalId(url: Url)

  datatype Kind =
    | Config(hash: Hash, data: string, loaded: bool)
    | External(url: Option<Url>)
    | Internal(target: Option<Token>)

  datatype Source = Source(id: Id, kind: Kind, isHidden: bool, maxDepth: int, orderIndex: int)

  type Comments = map<Hash, string>

  datatype Subscription = Subscription(description: string, sources: seq<Source>, comments: Comments)

  type Store = map<Token, Subscription>

  // ------------------------------------------------------------------
  // Ordering by index
  // ------------------------------------------------------------------

  function Insert(s: Source, ss: seq<Source>): seq<Source> {
    if ss == [] || s.orderIndex <= ss[0].orderIndex then [s] + ss else [ss[0]] + Insert(s, ss[1..])
  }

  /** Stable sort by `orderIndex`. */
  function SortByIndex(ss: seq<Source>): seq<Source> {
    if ss == [] then [] else Insert(ss[0], SortByIndex(ss[1..]))
  }

  ghost predicate Ordered(ss: seq<Source>) {
    forall i, j :: 0 <= i < j < |ss| ==> ss[i].orderIndex <= ss[j].orderIndex
  }

  lemma {:induction false} InsertAddsElement(s: Source, ss: seq<Source>)
    ensures multiset(Insert(s, ss)) == multiset{s} + multiset(ss)
  {
    if ss != [] && s.orderIndex > ss[0].orderIndex {
      InsertAddsElement(s, ss[1..]);
      assert ss == [ss[0]] + ss[1..];
    }
  }

  lemma OrderedCons(first: Source, rest: seq<Source>)
    requires Ordered(rest) && forall x :: x in rest ==> first.orderIndex <= x.orderIndex
    ensures Ordered([first] + rest)
  {
  }

  lemma {:induction false} InsertKeepsOrder(s: Source, ss: seq<Source>)
    requires Ordered(ss)
    ensures Ordered(Insert(s, ss))
  {
    if ss == [] || s.orderIndex <= ss[0].orderIndex {
      OrderedCons(s, ss);
    } else {
      var rest := Insert(s, ss[1..]);
      InsertKeepsOrder(s, ss[1..]);
      InsertAddsElement(s, ss[1..]);
      forall x | x in rest
        ensures ss[0].orderIndex <= x.orderIndex
      {
        assert x in multiset(rest);
      }
      OrderedCons(ss[0], rest);
    }
  }

  lemma {:induction false} SortByIndexSorts(ss: seq<Source>)
    ensures Ordered(SortByIndex(ss)) && multiset(SortByIndex(ss)) == multiset(ss)
  {
    if ss != [] {
      SortByIndexSorts(ss[1..]);
      InsertKeepsOrder(ss[0], SortByIndex(ss[1..]));
      InsertAddsElement(ss[0], SortByIndex(ss[1..]));
      assert ss == [ss[0]] + ss[1..];
    }
  }

  /** Sorting neither loses nor invents a source. */
  lemma SortByIndexKeepsElements(ss: seq<Source>)
    ensures forall s :: s in SortByIndex(ss) <==> s in ss
  {
    SortByIndexSorts(ss);
    forall s
      ensures s in SortByIndex(ss) <==> s in ss
    {
      assert s in SortByIndex(ss) <==> s in multiset(SortByIndex(ss));
      assert s in ss <==> s in multiset(ss);
    }
  }

  lemma {:induction false} SelectInsert(s: Source, ss: seq<Source>, keep: Source -> bool)
    requires Ordered(ss)
    ensures Select(Insert(s, ss), keep) == if keep(s) then Insert(s, Select(ss, keep)) else Select(ss, keep)
  {
    if ss == [] {
      assert Select([s], keep) == if keep(s) then [s] + Select([s][1..], keep) else Select([s][1..], keep);
    } else if s.orderIndex <= ss[0].orderIndex {
      assert ([s] + ss)[1..] == ss;
      SelectElements(ss, keep);
      var kept := Select(ss, keep);
      if kept != [] {
        assert kept[0] in kept;
        var i :| 0 <= i < |ss| && ss[i] == kept[0];
        assert s.orderIndex <= ss[i].orderIndex;
      }
    } else {
      SelectInsert(s, ss[1..], keep);
      var rest := Insert(s, ss[1..]);
      assert ([ss[0]] + rest)[0] == ss[0] && ([ss[0]] + rest)[1..] == rest;
      if keep(ss[0]) {
        var kept := Select(ss[1..], keep);
        assert ([ss[0]] + kept)[1..] == kept;
      }
    }
  }

  /** Selecting before or after the sort gives the same sequence: the sort is stable. */
  lemma {:induction false} SelectSorted(ss: seq<Source>, keep: Source -> bool)
    ensures Select(SortByIndex(ss), keep) == SortByIndex(Select(ss, keep))
  {
    if ss != [] {
      SelectSorted(ss[1..], keep);
      SortByIndexSorts(ss[1..]);
      SelectInsert(ss[0], SortByIndex(ss[1..]), keep);
      if keep(ss[0]) {
        var kept := Select(ss[1..], keep);
        assert ([ss[0]] + kept)[1..] == kept;
      }
    }
  }

  function WithIndex(k: int): Source -> bool {
    (s: Source) => s.orderIndex == k
  }

  lemma {:induction false} EqualIndexesStay(ss: seq<Source>, k: int)
    requires forall s :: s in ss ==> s.orderIndex == k
    ensures SortByIndex(ss) == ss
  {
    if ss != [] {
      assert forall s :: s in ss[1..] ==> s in ss;
      EqualIndexesStay(ss[1..], k);
      assert ss == [ss[0]] + ss[1..];
    }
  }

  /** Sources with the same index keep their order. */
  lemma SortByIndexIsStable(ss: seq<Source>, k: int)
    ensures Select(SortByIndex(ss), WithIndex(k)) == Select(ss, WithIndex(k))
  {
    SelectSorted(ss, WithIndex(k));
    SelectElements(ss, WithIndex(k));
    EqualIndexesStay(Select(ss, WithIndex(k)), k);
  }

  // ------------------------------------------------------------------
  // The reference graph of a store
  // ------------------------------------------------------------------

  /** Targets of the internal sources, in the order given. */
  function Targets(ss: seq<Source>): seq<Token> {
    if ss == [] then []
    else (if ss[0].kind.Internal? && ss[0].kind.target.Some? then [ss[0].kind.target.value] else []) + Targets(ss[1..])
  }

  /** Repositories load the sources of a subscription ordered by index. */
  function ReferenceGraph(store: Store): Graph {
    map t | t in store :: Targets(SortByIndex(store[t].sources))
  }

  predicate RefersTo(s: Source, v: Token) {
    s.kind.Internal? && s.kind.target == Some(v)
  }

  lemma {:induction false} TargetsAreReferences(ss: seq<Source>, v: Token)
    ensures v in Targets(ss) <==> exists s :: s in ss && RefersTo(s, v)
  {
    if ss != [] {
      TargetsAreReferences(ss[1..], v);
      assert forall s :: s in ss[1..] ==> s in ss;
      assert ss[0] in ss;
      assert RefersTo(ss[0], v) ==> v in Targets(ss);
    }
  }

  /** The source that target `i` comes from. */
  lemma {:induction false} SourceOfTarget(ss: seq<Source>, i: nat) returns (k: nat)
    requires i < |Targets(ss)|
    ensures k < |ss| && RefersTo(ss[k], Targets(ss)[i])
  {
    var n := |Targets(ss)| - |Targets(ss[1..])|;
    if i < n {
      k := 0;
    } else {
      k := SourceOfTarget(ss[1..], i - n);
      k := k + 1;
    }
  }

  lemma {:induction false} TargetsAreInOrder(ss: seq<Source>, i: nat, j: nat) returns (k: nat, l: nat)
    requires i < j < |Targets(ss)|
    ensures k < l < |ss| && RefersTo(ss[k], Targets(ss)[i]) && RefersTo(ss[l], Targets(ss)[j])
  {
    var n := |Targets(ss)| - |Targets(ss[1..])|;
    if i < n {
      k := 0;
      l := SourceOfTarget(ss[1..], j - n);
    } else {
      k, l := TargetsAreInOrder(ss[1..], i - n, j - n);
      k := k + 1;
    }
    l := l + 1;
  }

  /** References are followed by increasing index. */
  lemma ReferencesFollowTheIndex(store: Store, u: Token, i: nat, j: nat) returns (r: Source, s: Source)
    requires u in store && i < j < |Refs(ReferenceGraph(store), u)|
    ensures r in store[u].sources && RefersTo(r, Refs(ReferenceGraph(store), u)[i])
    ensures s in store[u].sources && RefersTo(s, Refs(ReferenceGraph(store), u)[j])
    ensures r.orderIndex <= s.orderIndex
  {
    var sorted := SortByIndex(store[u].sources);
    SortByIndexSorts(store[u].sources);
    SortByIndexKeepsElements(store[u].sources);
    var k, l := TargetsAreInOrder(sorted, i, j);
    r, s := sorted[k], sorted[l];
  }

  lemma ReferenceGraphEdges(store: Store, u: Token, v: Token)
    ensures v in Refs(ReferenceGraph(store), u) <==> u in store && exists s :: s in store[u].sources && RefersTo(s, v)
  {
    if u in store {
      SortByIndexKeepsElements(store[u].sources);
      TargetsAreReferences(SortByIndex(store[u].sources), v);
    }
  }
}
