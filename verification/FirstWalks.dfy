/**
 First walks: the way a depth-first search in index order first comes to a
 token. They tell, from the graph alone, what the circular-reference check
 accepts.
 */
module FirstWalks {
  import opened Graphs
  import opened AdmissionCheck
  import opened AdmissionProperties

  // ------------------------------------------------------------------
  // First walks
  // ------------------------------------------------------------------

  /** Reference `k` of `u` is `v`, and no reference before it leads to `w`. */
  ghost predicate FirstAt(g: Graph, u: Token, k: nat, v: Token, w: Token) {
    k < |Refs(g, u)| && Refs(g, u)[k] == v && forall j :: 0 <= j < k ==> !Reaches(g, Refs(g, u)[j], w)
  }

  ghost predicate FirstToward(g: Graph, u: Token, v: Token, w: Token) {
    exists k :: FirstAt(g, u, k, v, w)
  }

  /** A walk that at each token takes the first reference leading to its end. */
  ghost predicate FirstWalk(g: Graph, p: seq<Token>) {
    Walk(g, p) && forall i :: 0 <= i < |p| - 1 ==> FirstToward(g, p[i], p[i + 1], p[|p| - 1])
  }

  ghost predicate FirstWalkTo(g: Graph, t: Token, p: seq<Token>, u: Token) {
    FirstWalk(g, p) && p[0] == t && p[|p| - 1] == u
  }

  /** Nothing `t` reaches lies on a cycle or in `away`. */
  ghost predicate Clear(g: Graph, t: Token, away: set<Token>) {
    forall u :: Reaches(g, t, u) ==> u !in away && !StrictlyReaches(g, u, u)
  }

  /** Each reference below `t` starts at a token whose first walk from `t` makes fewer than `max` steps. */
  ghost predicate RoomBelow(g: Graph, t: Token, max: int) {
    max >= 0 && forall p :: FirstWalk(g, p) && p[0] == t && Refs(g, p[|p| - 1]) != [] ==> |p| <= max
  }

  lemma WalkSuffix(g: Graph, p: seq<Token>)
    requires Walk(g, p) && |p| >= 2
    ensures Walk(g, p[1..]) && WalkBetween(g, p[1..], p[1], p[|p| - 1])
  {
    assert forall i :: 0 <= i < |p[1..]| ==> p[1..][i] == p[i + 1];
  }

  lemma FirstWalkSuffix(g: Graph, p: seq<Token>)
    requires FirstWalk(g, p) && |p| >= 2
    ensures FirstWalk(g, p[1..])
  {
    WalkSuffix(g, p);
    var q := p[1..];
    forall i | 0 <= i < |q| - 1
      ensures FirstToward(g, q[i], q[i + 1], q[|q| - 1])
    {
      assert FirstToward(g, p[i + 1], p[i + 2], p[|p| - 1]);
    }
  }

  /** Between two tokens there is at most one first walk, unless its end lies on a cycle. */
  lemma {:induction false} FirstWalksAgree(g: Graph, t: Token, u: Token, p: seq<Token>, q: seq<Token>)
    requires FirstWalkTo(g, t, p, u) && FirstWalkTo(g, t, q, u) && !StrictlyReaches(g, u, u)
    ensures p == q
    decreases |p|
  {
    if |p| == 1 || |q| == 1 {
      assert |p| >= 2 ==> WalkBetween(g, p, u, u);
      assert |q| >= 2 ==> WalkBetween(g, q, u, u);
    } else {
      SameFirstStep(g, p, q);
      FirstWalkSuffix(g, p);
      FirstWalkSuffix(g, q);
      FirstWalksAgree(g, p[1], u, p[1..], q[1..]);
      assert p == [t] + p[1..] && q == [t] + q[1..];
    }
  }

  lemma SameFirstStep(g: Graph, p: seq<Token>, q: seq<Token>)
    requires FirstWalk(g, p) && FirstWalk(g, q) && |p| >= 2 && |q| >= 2
    requires p[0] == q[0] && p[|p| - 1] == q[|q| - 1]
    ensures p[1] == q[1]
  {
    var u := p[|p| - 1];
    assert FirstToward(g, p[0], p[0 + 1], u) && FirstToward(g, q[0], q[0 + 1], u);
    var k: nat :| FirstAt(g, p[0], k, p[1], u);
    var l: nat :| FirstAt(g, q[0], l, q[1], u);
    WalkSuffix(g, p);
    WalkSuffix(g, q);
    assert Reaches(g, p[1], u) && Reaches(g, q[1], u);
  }

  // ------------------------------------------------------------------
  // The search that explores each token once
  // ------------------------------------------------------------------

  /** The tokens being explored, from `t` on; of each, the references before number `ks[i]` are done. */
  ghost predicate Trail(g: Graph, t: Token, p: seq<Token>, ks: seq<nat>, done: set<Token>) {
    && |ks| == |p| && (p != [] ==> p[0] == t && FirstWalk(g, p)) && Closed(g, done)
    && forall i :: 0 <= i < |p| ==> TrailAt(g, p, ks[i], done, i)
  }

  ghost predicate TrailAt(g: Graph, p: seq<Token>, k: nat, done: set<Token>, i: nat)
    requires i < |p|
  {
    && k <= |Refs(g, p[i])| && (i + 1 < |p| ==> k < |Refs(g, p[i])| && Refs(g, p[i])[k] == p[i + 1])
    && forall j :: 0 <= j < k ==> Refs(g, p[i])[j] in done
  }

  /** `v` comes next: it is `t` itself, or the current reference of the last token. */
  ghost predicate Next(g: Graph, t: Token, p: seq<Token>, ks: seq<nat>, v: Token)
    requires |ks| == |p|
  {
    if p == [] then v == t
    else ks[|p| - 1] < |Refs(g, p[|p| - 1])| && Refs(g, p[|p| - 1])[ks[|p| - 1]] == v
  }

  /** Every token done has a first walk, with room for its references. */
  ghost predicate Recorded(g: Graph, t: Token, max: int, done: set<Token>) {
    forall u :: u in done ==> HasRoom(g, t, max, u)
  }

  ghost predicate HasRoom(g: Graph, t: Token, max: int, u: Token) {
    exists q :: FirstWalkTo(g, t, q, u) && (Refs(g, u) != [] ==> |q| <= max)
  }

  function Tokens(p: seq<Token>): set<Token> {
    set u | u in p
  }

  lemma ExtendTrail(g: Graph, t: Token, p: seq<Token>, ks: seq<nat>, done: set<Token>, v: Token)
    requires Trail(g, t, p, ks, done) && Next(g, t, p, ks, v) && v !in done
    ensures Trail(g, t, p + [v], ks + [0], done)
  {
    var q := p + [v];
    forall i | 0 <= i < |q| - 1
      ensures FirstToward(g, q[i], q[i + 1], v) && q[i + 1] in Refs(g, q[i])
    {
      assert TrailAt(g, p, ks[i], done, i);
      forall j | 0 <= j < ks[i]
        ensures !Reaches(g, Refs(g, p[i])[j], v)
      {
        if Reaches(g, Refs(g, p[i])[j], v) {
          ClosedContainsReachable(g, done, Refs(g, p[i])[j], v);
        }
      }
      assert FirstAt(g, q[i], ks[i], q[i + 1], v);
    }
    forall i | 0 <= i < |q|
      ensures TrailAt(g, q, (ks + [0])[i], done, i)
    {
      if i < |p| {
        assert TrailAt(g, p, ks[i], done, i);
      }
    }
  }

  lemma TrailGrows(g: Graph, t: Token, p: seq<Token>, ks: seq<nat>, done: set<Token>, more: set<Token>)
    requires Trail(g, t, p, ks, done) && done <= more && Closed(g, more)
    ensures Trail(g, t, p, ks, more)
  {
    forall i | 0 <= i < |p|
      ensures TrailAt(g, p, ks[i], more, i)
    {
      assert TrailAt(g, p, ks[i], done, i);
    }
  }

  lemma TrailAdvances(g: Graph, t: Token, p: seq<Token>, ks: seq<nat>, done: set<Token>, v: Token)
    requires p != [] && Trail(g, t, p, ks, done) && Next(g, t, p, ks, v) && v in done
    ensures Trail(g, t, p, ks[|p| - 1 := ks[|p| - 1] + 1], done)
  {
    var n := |p| - 1;
    var ls := ks[n := ks[n] + 1];
    forall i | 0 <= i < |p|
      ensures TrailAt(g, p, ls[i], done, i)
    {
      assert TrailAt(g, p, ks[i], done, i);
    }
  }

  lemma CycleThrough(g: Graph, p: seq<Token>, i: nat, v: Token)
    requires Walk(g, p) && i < |p| && p[i] == v && v in Refs(g, p[|p| - 1])
    ensures StrictlyReaches(g, v, v)
  {
    assert WalkBetween(g, p[i..], v, p[|p| - 1]);
    StepReaches(g, v, p[|p| - 1], v);
  }

  /** Below a clear token, what comes next is neither on the trail nor away. */
  lemma NextIsNew(g: Graph, t: Token, away: set<Token>, p: seq<Token>, ks: seq<nat>, done: set<Token>, v: Token)
    requires Clear(g, t, away) && Trail(g, t, p, ks, done) && Next(g, t, p, ks, v)
    ensures v !in away + Tokens(p)
  {
    ReachesSelf(g, t);
    if p != [] {
      assert WalkBetween(g, p, t, p[|p| - 1]);
      StepReaches(g, t, p[|p| - 1], v);
      var q :| WalkBetween(g, q, t, v) && |q| >= 2;
      forall i | 0 <= i < |p|
        ensures p[i] != v
      {
        if p[i] == v {
          CycleThrough(g, p, i, v);
        }
      }
    }
  }

  /** What an exploration leaves: its token done with all below, or proof that some reference has no room. */
  ghost predicate Settled(g: Graph, t: Token, max: int, m: Memo, o: Outcome) {
    if o.verdict.Accepted? then
      && m.checked.Keys <= o.memo.checked.Keys && Closed(g, o.memo.checked.Keys)
      && Recorded(g, t, max, o.memo.checked.Keys)
    else o.verdict.TooDeep? && !RoomBelow(g, t, max)
  }

  lemma {:induction false} ExploreFollowsFirstWalks(g: Graph, max: int, t: Token, away: set<Token>,
                                                    p: seq<Token>, ks: seq<nat>, v: Token, m: Memo, o: Outcome)
    requires max >= 0 && Clear(g, t, away) && Recorded(g, t, max, m.checked.Keys)
    requires Trail(g, t, p, ks, m.checked.Keys) && Next(g, t, p, ks, v)
    requires o == Explore(g, max, Always, v, away + Tokens(p), m, |p|)
    ensures Settled(g, t, max, m, o)
    ensures o.verdict.Accepted? ==> |p| <= max && v in o.memo.checked.Keys
    decreases max - |p|, 0, 0
  {
    NextIsNew(g, t, away, p, ks, m.checked.Keys, v);
    if |p| > max {
      assert FirstWalk(g, p) && Refs(g, p[|p| - 1]) != [];
    } else if v !in m.checked {
      var loaded := m.(loads := m.loads + multiset{v});
      assert away + Tokens(p) + {v} == away + Tokens(p + [v]);
      var below := ExploreAll(g, max, Always, Refs(g, v), away + Tokens(p + [v]), loaded, |p| + 1);
      ExtendTrail(g, t, p, ks, m.checked.Keys, v);
      EnterFollowsFirstWalks(g, max, t, away, p + [v], ks + [0], v, loaded, below, max - |p|, o);
    }
  }

  lemma {:induction false} EnterFollowsFirstWalks(g: Graph, max: int, t: Token, away: set<Token>, q: seq<Token>,
                                                  ks: seq<nat>, v: Token, m: Memo, below: Outcome,
                                                  budget: int, o: Outcome)
    requires 0 < |q| <= max + 1 && Clear(g, t, away) && Recorded(g, t, max, m.checked.Keys)
    requires Trail(g, t, q, ks, m.checked.Keys) && q[|q| - 1] == v && ks[|q| - 1] == 0
    requires below == ExploreAll(g, max, Always, Refs(g, v), away + Tokens(q), m, |q|)
    requires !below.verdict.Accepted? ==> o == below
    requires below.verdict.Accepted? ==>
               o == Outcome(Accepted, below.memo.(checked := below.memo.checked[v := budget]))
    ensures Settled(g, t, max, m, o)
    ensures o.verdict.Accepted? ==> v in o.memo.checked.Keys
    decreases max - |q|, 2, 0
  {
    assert Refs(g, v)[0..] == Refs(g, v);
    ExploreAllFollowsFirstWalks(g, max, t, away, q, ks, Refs(g, v), m, below);
    if below.verdict.Accepted? {
      TokenDone(g, t, max, q, v, below.memo.checked.Keys);
      assert o.memo.checked.Keys == below.memo.checked.Keys + {v};
    }
  }

  lemma TokenDone(g: Graph, t: Token, max: int, q: seq<Token>, v: Token, done: set<Token>)
    requires FirstWalkTo(g, t, q, v) && (Refs(g, v) != [] ==> |q| <= max)
    requires Recorded(g, t, max, done) && Closed(g, done) && forall u :: u in Refs(g, v) ==> u in done
    ensures Recorded(g, t, max, done + {v}) && Closed(g, done + {v})
  {
    assert HasRoom(g, t, max, v);
  }

  lemma {:induction false} ExploreAllFollowsFirstWalks(g: Graph, max: int, t: Token, away: set<Token>,
                                                       p: seq<Token>, ks: seq<nat>, ts: seq<Token>, m: Memo, o: Outcome)
    requires max >= 0 && Clear(g, t, away) && Recorded(g, t, max, m.checked.Keys)
    requires p != [] && Trail(g, t, p, ks, m.checked.Keys)
    requires ks[|p| - 1] <= |Refs(g, p[|p| - 1])| && ts == Refs(g, p[|p| - 1])[ks[|p| - 1]..]
    requires o == ExploreAll(g, max, Always, ts, away + Tokens(p), m, |p|)
    ensures Settled(g, t, max, m, o)
    ensures o.verdict.Accepted? && ts != [] ==> |p| <= max
    ensures o.verdict.Accepted? ==> forall v :: v in Refs(g, p[|p| - 1]) ==> v in o.memo.checked.Keys
    decreases max - |p|, 1, |ts|
  {
    var n := |p| - 1;
    if ts == [] {
      assert TrailAt(g, p, ks[n], m.checked.Keys, n);
    } else {
      var first := Explore(g, max, Always, ts[0], away + Tokens(p), m, |p|);
      ExploreFollowsFirstWalks(g, max, t, away, p, ks, ts[0], m, first);
      if first.verdict.Accepted? {
        TrailGrows(g, t, p, ks, m.checked.Keys, first.memo.checked.Keys);
        TrailAdvances(g, t, p, ks, first.memo.checked.Keys, ts[0]);
        ExploreAllFollowsFirstWalks(g, max, t, away, p, ks[n := ks[n] + 1], ts[1..], first.memo, o);
      }
    }
  }

  /** Below a clear token the search that explores each token once fails only by depth, and exactly for want of room. */
  lemma OnceSearchAcceptsExactlyWhen(g: Graph, max: int, t: Token, away: set<Token>)
    requires Clear(g, t, away)
    ensures var verdict := Explore(g, max, Always, t, away, EMPTY_MEMO, 0).verdict;
            if RoomBelow(g, t, max) then verdict.Accepted? else verdict.TooDeep?
  {
    var o := Explore(g, max, Always, t, away, EMPTY_MEMO, 0);
    if max >= 0 {
      assert away + Tokens([]) == away;
      ExploreFollowsFirstWalks(g, max, t, away, [], [], t, EMPTY_MEMO, o);
      if o.verdict.Accepted? {
        forall p | FirstWalk(g, p) && p[0] == t && Refs(g, p[|p| - 1]) != []
          ensures |p| <= max
        {
          RecordedWalk(g, t, max, o.memo.checked.Keys, away, p);
        }
      }
    }
  }

  lemma RecordedWalk(g: Graph, t: Token, max: int, done: set<Token>, away: set<Token>, p: seq<Token>)
    requires Clear(g, t, away) && Closed(g, done) && t in done && Recorded(g, t, max, done)
    requires FirstWalk(g, p) && p[0] == t && Refs(g, p[|p| - 1]) != []
    ensures |p| <= max
  {
    var u := p[|p| - 1];
    assert WalkBetween(g, p, t, u);
    ClosedContainsReachable(g, done, t, u);
    assert HasRoom(g, t, max, u);
    var q :| FirstWalkTo(g, t, q, u) && (Refs(g, u) != [] ==> |q| <= max);
    FirstWalksAgree(g, t, u, p, q);
  }

  // ------------------------------------------------------------------
  // What the check accepts
  // ------------------------------------------------------------------

  lemma {:induction false} RankFalls(g: Graph, max: int, checked: map<Token, int>, rank: map<Token, nat>, p: seq<Token>)
    requires Ranked(g, max, checked, rank) && Walk(g, p) && p[0] in rank
    ensures p[|p| - 1] in rank && (|p| >= 2 ==> rank[p[|p| - 1]] < rank[p[0]])
    decreases |p|
  {
    if |p| >= 2 {
      FirstStep(g, p);
      assert RankedToken(g, max, checked, rank, p[0]);
      WalkSuffix(g, p);
      RankFalls(g, max, checked, rank, p[1..]);
    }
  }

  lemma AcceptedTargetIsClear(g: Graph, max: int, edited: Token, target: Token)
    requires Accepts(g, max, AsWritten, edited, target)
    ensures Clear(g, target, {edited})
  {
    var o, once := Check(g, max, AsWritten, edited, target), Check(g, max, Always, edited, target);
    var rank := SameAsOnce(g, max, target, {edited}, EMPTY_MEMO, EMPTY_MEMO, 0, map[], o, once);
    AcceptedTargetDoesNotReachEdited(g, max, AsWritten, edited, target);
    forall u | Reaches(g, target, u)
      ensures !StrictlyReaches(g, u, u)
    {
      var p :| WalkBetween(g, p, target, u);
      RankFalls(g, max, o.memo.checked, rank, p);
      if StrictlyReaches(g, u, u) {
        var q :| WalkBetween(g, q, u, u) && |q| >= 2;
        RankFalls(g, max, o.memo.checked, rank, q);
      }
    }
  }

  /**
   The check accepts exactly the targets below which there is no cycle, no way
   back to the edited subscription, and room for every reference where the
   search first comes to it.
   */
  lemma AcceptsExactlyWhen(g: Graph, max: int, edited: Token, target: Token)
    ensures Accepts(g, max, AsWritten, edited, target) <==> Clear(g, target, {edited}) && RoomBelow(g, target, max)
  {
    BudgetTestIsWithoutEffect(g, max, edited, target);
    if Accepts(g, max, AsWritten, edited, target) {
      AcceptedTargetIsClear(g, max, edited, target);
    }
    if Clear(g, target, {edited}) {
      OnceSearchAcceptsExactlyWhen(g, max, target, {edited});
    }
  }

  /** It decides like plain search unless room at the first visits hides a walk that is too long. */
  lemma DecidesLikePlainSearchExactlyWhen(g: Graph, max: int, edited: Token, target: Token)
    ensures (Accepts(g, max, AsWritten, edited, target) <==> Accepts(g, max, Never, edited, target)) <==>
            (Clear(g, target, {edited}) && RoomBelow(g, target, max) ==>
               forall p :: Walk(g, p) && p[0] == target ==> |p| <= max + 1)
  {
    AcceptsExactlyWhen(g, max, edited, target);
    PlainSearchAcceptsExactlyBoundedWalks(g, max, edited, target);
    if Accepts(g, max, Never, edited, target) {
      PlainAcceptedIsAccepted(g, max, edited, target);
    }
    if Clear(g, target, {edited}) {
      forall p | Walk(g, p) && p[0] == target
        ensures edited !in p
      {
        WalkStaysAway(g, p, edited);
      }
    }
  }
}
