/**
 Directed graphs of subscription references: which token refers to which, in
 the order the references are loaded. A token that is referred to but has no
 entry is a dangling reference.
 */
module Graphs {
  type Token = nat
  type Graph = map<Token, seq<Token>>

  function Refs(g: Graph, u: Token): seq<Token> {
    if u in g then g[u] else []
  }

  /** A non-empty sequence of tokens, each referring to the next one. */
  ghost predicate Walk(g: Graph, p: seq<Token>) {
    && p != []
    && forall i :: 0 <= i < |p| - 1 ==> p[i + 1] in Refs(g, p[i])
  }

  ghost predicate WalkBetween(g: Graph, p: seq<Token>, u: Token, v: Token) {
    Walk(g, p) && p[0] == u && p[|p| - 1] == v
  }

  ghost predicate Reaches(g: Graph, u: Token, v: Token) {
    exists p :: WalkBetween(g, p, u, v)
  }

  /** `u` reaches `v` by at least one reference. */
  ghost predicate StrictlyReaches(g: Graph, u: Token, v: Token) {
    exists p :: WalkBetween(g, p, u, v) && |p| >= 2
  }

  ghost predicate Acyclic(g: Graph) {
    forall u :: !StrictlyReaches(g, u, u)
  }

  ghost predicate Closed(g: Graph, s: set<Token>) {
    forall u, v :: u in s && v in Refs(g, u) ==> v in s
  }

  /** Every reference of `h` is one of `g`, or the reference `s -> t`. */
  ghost predicate AddsAtMost(g: Graph, h: Graph, s: Token, t: Token) {
    forall u, v :: v in Refs(h, u) ==> v in Refs(g, u) || (u == s && v == t)
  }

  ghost predicate Within(h: Graph, g: Graph) {
    forall u, v :: v in Refs(h, u) ==> v in Refs(g, u)
  }

  lemma ReachesSelf(g: Graph, u: Token)
    ensures Reaches(g, u, u)
  {
    assert WalkBetween(g, [u], u, u);
  }

  lemma JoinWalks(g: Graph, p: seq<Token>, q: seq<Token>, u: Token, v: Token, w: Token)
    requires WalkBetween(g, p, u, v) && WalkBetween(g, q, v, w)
    ensures WalkBetween(g, p + q[1..], u, w)
  {
    var r := p + q[1..];
    forall i | 0 <= i < |r| - 1
      ensures r[i + 1] in Refs(g, r[i])
    {
      if i >= |p| - 1 {
        assert r[i] == q[i - |p| + 1] && r[i + 1] == q[i - |p| + 2];
      }
    }
  }

  lemma ReachesTransitive(g: Graph, u: Token, v: Token, w: Token)
    requires Reaches(g, u, v) && Reaches(g, v, w)
    ensures Reaches(g, u, w)
  {
    var p :| WalkBetween(g, p, u, v);
    var q :| WalkBetween(g, q, v, w);
    JoinWalks(g, p, q, u, v, w);
  }

  lemma StepReaches(g: Graph, u: Token, v: Token, w: Token)
    requires Reaches(g, u, v) && w in Refs(g, v)
    ensures StrictlyReaches(g, u, w)
  {
    var p :| WalkBetween(g, p, u, v);
    var q := [v, w];
    JoinWalks(g, p, q, u, v, w);
    assert |p + q[1..]| >= 2;
  }

  lemma {:induction false} ClosedContainsWalk(g: Graph, s: set<Token>, p: seq<Token>, i: nat)
    requires Closed(g, s) && Walk(g, p) && p[0] in s && i < |p|
    ensures p[i] in s
  {
    if i > 0 {
      ClosedContainsWalk(g, s, p, i - 1);
    }
  }

  lemma ClosedContainsReachable(g: Graph, s: set<Token>, u: Token, v: Token)
    requires Closed(g, s) && u in s && Reaches(g, u, v)
    ensures v in s
  {
    var p :| WalkBetween(g, p, u, v);
    ClosedContainsWalk(g, s, p, |p| - 1);
  }

  lemma WalkStaysAway(g: Graph, p: seq<Token>, s: Token)
    requires Walk(g, p) && !Reaches(g, p[0], s)
    ensures s !in p
  {
    forall i | 0 <= i < |p|
      ensures p[i] != s
    {
      assert WalkBetween(g, p[..i + 1], p[0], p[i]);
    }
  }

  lemma FirstStep(g: Graph, p: seq<Token>)
    requires Walk(g, p) && |p| >= 2
    ensures p[1] in Refs(g, p[0])
  {
    assert p[0 + 1] in Refs(g, p[0]);
  }

  lemma EmptyGraphIsAcyclic(g: Graph)
    requires g == map[]
    ensures Acyclic(g)
  {
    forall p | Walk(g, p) && |p| >= 2
      ensures false
    {
      FirstStep(g, p);
    }
  }

  lemma FewerReferencesStayAcyclic(g: Graph, h: Graph)
    requires Acyclic(g) && Within(h, g)
    ensures Acyclic(h)
  {
    forall u | StrictlyReaches(h, u, u)
      ensures false
    {
      var p :| WalkBetween(h, p, u, u) && |p| >= 2;
      assert WalkBetween(g, p, u, u);
      assert StrictlyReaches(g, u, u);
    }
  }

  /** A walk that uses the added reference starts with a walk of `g` to its source. */
  lemma {:induction false} UntilAdded(g: Graph, h: Graph, s: Token, t: Token, p: seq<Token>)
    requires AddsAtMost(g, h, s, t) && Walk(h, p)
    ensures Walk(g, p) || Reaches(g, p[0], s)
  {
    if |p| > 1 {
      if p[1] in Refs(g, p[0]) {
        var rest := p[1..];
        UntilAdded(g, h, s, t, rest);
        if Reaches(g, rest[0], s) {
          assert WalkBetween(g, [p[0], rest[0]], p[0], rest[0]);
          ReachesTransitive(g, p[0], rest[0], s);
        } else {
          assert forall i :: 0 < i < |p| ==> p[i] == rest[i - 1];
        }
      } else {
        ReachesSelf(g, s);
      }
    }
  }

  /** A walk that uses the added reference ends with a walk of `g` from its target. */
  lemma {:induction false} AfterAdded(g: Graph, h: Graph, s: Token, t: Token, p: seq<Token>)
    requires AddsAtMost(g, h, s, t) && Walk(h, p)
    ensures Walk(g, p) || Reaches(g, t, p[|p| - 1])
  {
    if |p| > 1 {
      var last := |p| - 1;
      if p[last] in Refs(g, p[last - 1]) {
        var rest := p[..last];
        AfterAdded(g, h, s, t, rest);
        if Reaches(g, t, rest[last - 1]) {
          assert WalkBetween(g, [p[last - 1], p[last]], p[last - 1], p[last]);
          ReachesTransitive(g, t, p[last - 1], p[last]);
        } else {
          assert forall i :: 0 <= i < |p| ==> i < last ==> p[i] == rest[i];
        }
      } else {
        ReachesSelf(g, t);
      }
    }
  }

  /** A reference whose target does not reach its source closes no cycle. */
  lemma AddedReferenceStaysAcyclic(g: Graph, h: Graph, s: Token, t: Token)
    requires Acyclic(g) && AddsAtMost(g, h, s, t) && !Reaches(g, t, s)
    ensures Acyclic(h)
  {
    forall u | StrictlyReaches(h, u, u)
      ensures false
    {
      var p :| WalkBetween(h, p, u, u) && |p| >= 2;
      UntilAdded(g, h, s, t, p);
      AfterAdded(g, h, s, t, p);
      if Walk(g, p) {
        assert WalkBetween(g, p, u, u);
        assert StrictlyReaches(g, u, u);
      } else {
        ReachesTransitive(g, t, u, s);
      }
    }
  }

  // ------------------------------------------------------------------
  // Lengths of walks
  // ------------------------------------------------------------------

  /** No walk makes more than `max` steps. */
  ghost predicate ShortWalks(g: Graph, max: nat) {
    forall p :: Walk(g, p) ==> |p| <= max + 1
  }

  /** No walk to `s`, one step more and a walk from `t` make more than `max` steps together. */
  ghost predicate ShortThrough(g: Graph, s: Token, t: Token, max: nat) {
    forall p, q :: Walk(g, p) && p[|p| - 1] == s && Walk(g, q) && q[0] == t ==> |p| + |q| <= max + 1
  }

  /** A walk takes an added reference that closes no cycle at most once. */
  lemma {:induction false} CutAtAdded(g: Graph, h: Graph, s: Token, t: Token, p: seq<Token>) returns (i: nat)
    requires AddsAtMost(g, h, s, t) && !Reaches(g, t, s) && Walk(h, p)
    ensures i < |p| && Walk(g, p[..i + 1])
    ensures i + 1 < |p| ==> p[i] == s && p[i + 1] == t && Walk(g, p[i + 1..])
  {
    i := 0;
    if |p| > 1 {
      FirstStep(h, p);
      var rest := p[1..];
      var j := CutAtAdded(g, h, s, t, rest);
      if p[1] in Refs(g, p[0]) {
        i := j + 1;
        var q := p[..i + 1];
        assert forall k :: 0 < k < |q| ==> q[k] == rest[..j + 1][k - 1];
        assert p[i + 1..] == rest[j + 1..];
      } else {
        if j + 1 < |rest| {
          assert WalkBetween(g, rest[..j + 1], t, s);
        }
        assert rest[..j + 1] == rest;
      }
    }
  }

  lemma WalkOverAdded(g: Graph, h: Graph, p: seq<Token>, q: seq<Token>)
    requires Within(g, h) && Walk(g, p) && Walk(g, q) && q[0] in Refs(h, p[|p| - 1])
    ensures Walk(h, p + q)
  {
    var r := p + q;
    forall i | 0 <= i < |r| - 1
      ensures r[i + 1] in Refs(h, r[i])
    {
      if i >= |p| {
        assert r[i] == q[i - |p|] && r[i + 1] == q[i - |p| + 1];
      } else if i < |p| - 1 {
        assert r[i] == p[i] && r[i + 1] == p[i + 1];
      }
    }
  }

  lemma CutWalkIsShort(g: Graph, s: Token, t: Token, max: nat, p: seq<Token>, q: seq<Token>)
    requires ShortThrough(g, s, t, max) && Walk(g, p) && p[|p| - 1] == s && Walk(g, q) && q[0] == t
    ensures |p| + |q| <= max + 1
  {
  }

  lemma WalkStaysShort(g: Graph, s: Token, t: Token, max: nat, p: seq<Token>, i: nat)
    requires ShortWalks(g, max) && ShortThrough(g, s, t, max) && i < |p| && Walk(g, p[..i + 1])
    requires i + 1 < |p| ==> p[i] == s && p[i + 1] == t && Walk(g, p[i + 1..])
    ensures |p| <= max + 1
  {
    if i + 1 < |p| {
      CutWalkIsShort(g, s, t, max, p[..i + 1], p[i + 1..]);
    } else {
      assert p[..i + 1] == p;
    }
  }

  lemma WalksStayShort(g: Graph, h: Graph, s: Token, t: Token, max: nat)
    requires ShortWalks(g, max) && ShortThrough(g, s, t, max)
    requires AddsAtMost(g, h, s, t) && !Reaches(g, t, s)
    ensures ShortWalks(h, max)
  {
    forall p | Walk(h, p)
      ensures |p| <= max + 1
    {
      var i := CutAtAdded(g, h, s, t, p);
      WalkStaysShort(g, s, t, max, p, i);
    }
  }

  lemma WalksThroughAreShort(g: Graph, h: Graph, s: Token, t: Token, max: nat)
    requires ShortWalks(h, max) && Within(g, h) && t in Refs(h, s)
    ensures ShortThrough(g, s, t, max)
  {
    forall p, q | Walk(g, p) && p[|p| - 1] == s && Walk(g, q) && q[0] == t
      ensures |p| + |q| <= max + 1
    {
      WalkOverAdded(g, h, p, q);
    }
  }

  /** Adding a reference that closes no cycle keeps walks short exactly when those through it are. */
  lemma AddedReferenceKeepsWalksShortExactlyWhen(g: Graph, h: Graph, s: Token, t: Token, max: nat)
    requires ShortWalks(g, max) && !Reaches(g, t, s)
    requires Within(g, h) && AddsAtMost(g, h, s, t) && t in Refs(h, s)
    ensures ShortWalks(h, max) <==> ShortThrough(g, s, t, max)
  {
    if ShortThrough(g, s, t, max) {
      WalksStayShort(g, h, s, t, max);
    } else if ShortWalks(h, max) {
      WalksThroughAreShort(g, h, s, t, max);
    }
  }
}
