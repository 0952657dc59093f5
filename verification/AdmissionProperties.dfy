/**
 What the circular-reference check guarantees: it keeps the graph acyclic, its
 memo is compared with plain depth-first search, and its work is bounded.
 */
module AdmissionProperties {
  import opened Graphs
  import opened AdmissionCheck

  // ------------------------------------------------------------------
  // Acyclicity
  // ------------------------------------------------------------------

  /** Memoised tokens refer only to memoised tokens, and the edited one is not among them. */
  ghost predicate SafeMemo(g: Graph, edited: Token, m: Memo) {
    Closed(g, m.checked.Keys) && edited !in m.checked.Keys
  }

  lemma {:induction false} ExploreKeepsMemoSafe(g: Graph, max: int, policy: Policy, edited: Token,
                                                t: Token, visited: set<Token>, m: Memo, depth: nat)
    requires edited in visited && SafeMemo(g, edited, m)
    requires Explore(g, max, policy, t, visited, m, depth).verdict.Accepted?
    ensures var after := Explore(g, max, policy, t, visited, m, depth).memo;
            SafeMemo(g, edited, after) && m.checked.Keys <= after.checked.Keys && t in after.checked.Keys
    decreases max - depth, 0, 0
  {
    if !Reusable(policy, m.checked, t, max - depth) {
      var loaded := m.(loads := m.loads + multiset{t});
      ExploreAllKeepsMemoSafe(g, max, policy, edited, Refs(g, t), visited + {t}, loaded, depth + 1);
    }
  }

  lemma {:induction false} ExploreAllKeepsMemoSafe(g: Graph, max: int, policy: Policy, edited: Token,
                                                   ts: seq<Token>, visited: set<Token>, m: Memo, depth: nat)
    requires edited in visited && SafeMemo(g, edited, m)
    requires ExploreAll(g, max, policy, ts, visited, m, depth).verdict.Accepted?
    ensures var after := ExploreAll(g, max, policy, ts, visited, m, depth).memo;
            && SafeMemo(g, edited, after) && m.checked.Keys <= after.checked.Keys
            && forall t :: t in ts ==> t in after.checked.Keys
    decreases max - depth, 1, |ts|
  {
    if ts != [] {
      ExploreKeepsMemoSafe(g, max, policy, edited, ts[0], visited, m, depth);
      var o := Explore(g, max, policy, ts[0], visited, m, depth);
      ExploreAllKeepsMemoSafe(g, max, policy, edited, ts[1..], visited, o.memo, depth);
      assert forall t :: t in ts ==> t == ts[0] || t in ts[1..];
    }
  }

  /** However the memo is reused, an accepted target never leads back to the edited subscription. */
  lemma AcceptedTargetDoesNotReachEdited(g: Graph, max: int, policy: Policy, edited: Token, target: Token)
    requires Accepts(g, max, policy, edited, target)
    ensures !Reaches(g, target, edited)
  {
    ExploreKeepsMemoSafe(g, max, policy, edited, target, {edited}, EMPTY_MEMO, 0);
    var after := Check(g, max, policy, edited, target).memo;
    if Reaches(g, target, edited) {
      ClosedContainsReachable(g, after.checked.Keys, target, edited);
    }
  }

  /** Adding an accepted reference to an acyclic graph leaves it acyclic. */
  lemma AcceptedReferenceKeepsAcyclic(g: Graph, h: Graph, max: int, edited: Token, target: Token)
    requires Acyclic(g) && Accepts(g, max, AsWritten, edited, target)
    requires AddsAtMost(g, h, edited, target)
    ensures Acyclic(h)
  {
    AcceptedTargetDoesNotReachEdited(g, max, AsWritten, edited, target);
    AddedReferenceStaysAcyclic(g, h, edited, target);
  }

  // ------------------------------------------------------------------
  // Plain search, and when reuse is exact
  // ------------------------------------------------------------------

  /** Every walk from `t` avoids `s` and makes at most `b` steps. */
  ghost predicate Fits(g: Graph, s: Token, t: Token, b: int)
    decreases b
  {
    b >= 0 && t != s && forall v :: v in Refs(g, t) ==> Fits(g, s, v, b - 1)
  }

  lemma {:induction false} FitsBoundsWalks(g: Graph, s: Token, t: Token, b: int, p: seq<Token>)
    requires Fits(g, s, t, b) && Walk(g, p) && p[0] == t
    ensures |p| <= b + 1 && s !in p
    decreases |p|
  {
    if |p| > 1 {
      assert p[1] in Refs(g, p[0]);
      FitsBoundsWalks(g, s, p[1], b - 1, p[1..]);
      assert p == [t] + p[1..];
    }
  }

  lemma {:induction false} BoundedWalksFit(g: Graph, s: Token, t: Token, b: int)
    requires forall p :: Walk(g, p) && p[0] == t ==> |p| <= b + 1 && s !in p
    ensures Fits(g, s, t, b)
    decreases b
  {
    assert Walk(g, [t]);
    forall v | v in Refs(g, t)
      ensures Fits(g, s, v, b - 1)
    {
      assert Walk(g, [t, v]) && [t, v][0] == t;
      forall p | Walk(g, p) && p[0] == v
        ensures |p| <= b && s !in p
      {
        var q := [t] + p;
        assert forall i :: 0 <= i < |p| ==> q[i + 1] == p[i];
        assert Walk(g, q);
        assert s !in q;
        assert forall x :: x in p ==> x in q;
      }
      BoundedWalksFit(g, s, v, b - 1);
    }
  }

  lemma {:induction false} FitsWithMore(g: Graph, s: Token, t: Token, b: int, c: int)
    requires Fits(g, s, t, b) && b <= c
    ensures Fits(g, s, t, c)
    decreases b
  {
    forall v | v in Refs(g, t)
      ensures Fits(g, s, v, c - 1)
    {
      FitsWithMore(g, s, v, b - 1, c - 1);
    }
  }

  lemma {:induction false} FitsAlongWalk(g: Graph, s: Token, t: Token, b: int, p: seq<Token>)
    requires Fits(g, s, t, b) && Walk(g, p) && p[0] == t
    ensures Fits(g, s, p[|p| - 1], b - (|p| - 1))
    decreases |p|
  {
    if |p| > 1 {
      assert p[1] in Refs(g, p[0]);
      FitsAlongWalk(g, s, p[1], b - 1, p[1..]);
    }
  }

  lemma {:induction false} FitsHasNoCycle(g: Graph, s: Token, t: Token, b: int)
    requires Fits(g, s, t, b)
    ensures !StrictlyReaches(g, t, t)
    decreases b
  {
    if StrictlyReaches(g, t, t) {
      var p :| WalkBetween(g, p, t, t) && |p| >= 2;
      FitsAlongWalk(g, s, t, b, p);
      FitsHasNoCycle(g, s, t, b - (|p| - 1));
    }
  }

  /** The tokens being explored other than the edited one all lead to `t`. */
  ghost predicate LeadTo(g: Graph, edited: Token, visited: set<Token>, t: Token) {
    forall w :: w in visited && w != edited ==> StrictlyReaches(g, w, t)
  }

  lemma LeadOn(g: Graph, edited: Token, visited: set<Token>, t: Token, v: Token)
    requires LeadTo(g, edited, visited, t) && v in Refs(g, t)
    ensures LeadTo(g, edited, visited + {t}, v)
  {
    forall w | w in visited + {t} && w != edited
      ensures StrictlyReaches(g, w, v)
    {
      ReachesSelf(g, t);
      if w in visited {
        var p :| WalkBetween(g, p, w, t) && |p| >= 2;
      }
      StepReaches(g, w, t, v);
    }
  }

  /** A target whose walks all fit is accepted, whatever the memo says and however it is reused. */
  lemma {:induction false} FittingTargetAccepted(g: Graph, max: int, policy: Policy, edited: Token,
                                                 t: Token, visited: set<Token>, m: Memo, depth: nat)
    requires Fits(g, edited, t, max - depth) && LeadTo(g, edited, visited, t)
    ensures Explore(g, max, policy, t, visited, m, depth).verdict.Accepted?
    decreases max - depth, 0, 0
  {
    FitsHasNoCycle(g, edited, t, max - depth);
    if !Reusable(policy, m.checked, t, max - depth) {
      forall v | v in Refs(g, t)
        ensures Fits(g, edited, v, max - (depth + 1)) && LeadTo(g, edited, visited + {t}, v)
      {
        LeadOn(g, edited, visited, t, v);
      }
      var loaded := m.(loads := m.loads + multiset{t});
      FittingTargetsAccepted(g, max, policy, edited, Refs(g, t), visited + {t}, loaded, depth + 1);
    }
  }

  lemma {:induction false} FittingTargetsAccepted(g: Graph, max: int, policy: Policy, edited: Token,
                                                  ts: seq<Token>, visited: set<Token>, m: Memo, depth: nat)
    requires forall v :: v in ts ==> Fits(g, edited, v, max - depth) && LeadTo(g, edited, visited, v)
    ensures ExploreAll(g, max, policy, ts, visited, m, depth).verdict.Accepted?
    decreases max - depth, 1, |ts|
  {
    if ts != [] {
      assert ts[0] in ts;
      FittingTargetAccepted(g, max, policy, edited, ts[0], visited, m, depth);
      var o := Explore(g, max, policy, ts[0], visited, m, depth);
      assert forall v :: v in ts[1..] ==> v in ts;
      FittingTargetsAccepted(g, max, policy, edited, ts[1..], visited, o.memo, depth);
    }
  }

  /** Every memoised token fits the budget it was verified with. */
  ghost predicate ExactMemo(g: Graph, edited: Token, m: Memo) {
    forall u :: u in m.checked ==> Fits(g, edited, u, m.checked[u])
  }

  predicate SoundPolicy(policy: Policy) {
    policy == Never || policy == NoMoreBudget
  }

  lemma {:induction false} SoundReuseFits(g: Graph, max: int, policy: Policy, edited: Token,
                                          t: Token, visited: set<Token>, m: Memo, depth: nat)
    requires SoundPolicy(policy) && edited in visited && ExactMemo(g, edited, m)
    requires Explore(g, max, policy, t, visited, m, depth).verdict.Accepted?
    ensures Fits(g, edited, t, max - depth)
    ensures ExactMemo(g, edited, Explore(g, max, policy, t, visited, m, depth).memo)
    decreases max - depth, 0, 0
  {
    if Reusable(policy, m.checked, t, max - depth) {
      FitsWithMore(g, edited, t, m.checked[t], max - depth);
    } else {
      var loaded := m.(loads := m.loads + multiset{t});
      SoundReuseAllFit(g, max, policy, edited, Refs(g, t), visited + {t}, loaded, depth + 1);
    }
  }

  lemma {:induction false} SoundReuseAllFit(g: Graph, max: int, policy: Policy, edited: Token,
                                            ts: seq<Token>, visited: set<Token>, m: Memo, depth: nat)
    requires SoundPolicy(policy) && edited in visited && ExactMemo(g, edited, m)
    requires ExploreAll(g, max, policy, ts, visited, m, depth).verdict.Accepted?
    ensures forall v :: v in ts ==> Fits(g, edited, v, max - depth)
    ensures ExactMemo(g, edited, ExploreAll(g, max, policy, ts, visited, m, depth).memo)
    decreases max - depth, 1, |ts|
  {
    if ts != [] {
      SoundReuseFits(g, max, policy, edited, ts[0], visited, m, depth);
      var o := Explore(g, max, policy, ts[0], visited, m, depth);
      SoundReuseAllFit(g, max, policy, edited, ts[1..], visited, o.memo, depth);
      assert forall v :: v in ts ==> v == ts[0] || v in ts[1..];
    }
  }

  /**
   Plain search accepts exactly the targets from which every walk makes at
   most `max` steps and misses the edited subscription.
   */
  lemma PlainSearchAcceptsExactlyBoundedWalks(g: Graph, max: int, edited: Token, target: Token)
    ensures Accepts(g, max, Never, edited, target) <==>
            forall p :: Walk(g, p) && p[0] == target ==> |p| <= max + 1 && edited !in p
  {
    if Accepts(g, max, Never, edited, target) {
      SoundReuseFits(g, max, Never, edited, target, {edited}, EMPTY_MEMO, 0);
      forall p | Walk(g, p) && p[0] == target
        ensures |p| <= max + 1 && edited !in p
      {
        FitsBoundsWalks(g, edited, target, max, p);
      }
    } else if forall p :: Walk(g, p) && p[0] == target ==> |p| <= max + 1 && edited !in p {
      BoundedWalksFit(g, edited, target, max);
      FittingTargetAccepted(g, max, Never, edited, target, {edited}, EMPTY_MEMO, 0);
    }
  }

  /** Reusing only results verified with no more budget changes no verdict of plain search. */
  lemma ReuseWithNoMoreBudgetIsExact(g: Graph, max: int, edited: Token, target: Token)
    ensures Accepts(g, max, NoMoreBudget, edited, target) <==> Accepts(g, max, Never, edited, target)
  {
    forall policy | SoundPolicy(policy)
      ensures Accepts(g, max, policy, edited, target) <==> Fits(g, edited, target, max)
    {
      if Accepts(g, max, policy, edited, target) {
        SoundReuseFits(g, max, policy, edited, target, {edited}, EMPTY_MEMO, 0);
      } else if Fits(g, edited, target, max) {
        FittingTargetAccepted(g, max, policy, edited, target, {edited}, EMPTY_MEMO, 0);
      }
    }
    assert SoundPolicy(Never) && SoundPolicy(NoMoreBudget);
  }

  /** The check as written rejects no target that plain search accepts. */
  lemma PlainAcceptedIsAccepted(g: Graph, max: int, edited: Token, target: Token)
    requires Accepts(g, max, Never, edited, target)
    ensures Accepts(g, max, AsWritten, edited, target)
  {
    SoundReuseFits(g, max, Never, edited, target, {edited}, EMPTY_MEMO, 0);
    FittingTargetAccepted(g, max, AsWritten, edited, target, {edited}, EMPTY_MEMO, 0);
  }

  // ------------------------------------------------------------------
  // What the memo test as written amounts to
  // ------------------------------------------------------------------

  /**
   The memo as the code leaves it: finished tokens refer to finished tokens
   that finished earlier (`rank`) and were verified with nearly as much budget.
   */
  ghost predicate Ranked(g: Graph, max: int, checked: map<Token, int>, rank: map<Token, nat>) {
    rank.Keys == checked.Keys && forall u :: u in checked ==> RankedToken(g, max, checked, rank, u)
  }

  ghost predicate RankedToken(g: Graph, max: int, checked: map<Token, int>, rank: map<Token, nat>, u: Token)
    requires u in checked && u in rank
  {
    && 0 <= checked[u] <= max && rank[u] < |rank|
    && forall v {:trigger v in Refs(g, u)} ::
         v in Refs(g, u) ==>
           v in checked && v in rank && rank[v] < rank[u] && checked[v] >= checked[u] - 1 >= 0
  }

  /** The memo only gained: no entry is lost or lowered. */
  ghost predicate Raised(before: map<Token, int>, checked: map<Token, int>) {
    forall u :: u in before ==> u in checked && checked[u] >= before[u]
  }

  ghost predicate Untouched(before: map<Token, int>, checked: map<Token, int>, visited: set<Token>) {
    forall u :: u in visited && u in before ==> u in checked && checked[u] == before[u]
  }

  /** Nothing being explored is below `t` in the order of first completion. */
  ghost predicate Above(rank: map<Token, nat>, visited: set<Token>, t: Token) {
    t in rank && forall w :: w in visited && w in rank ==> rank[w] > rank[t]
  }

  lemma RaisingKeepsRanking(g: Graph, max: int, checked: map<Token, int>, rank: map<Token, nat>, t: Token, b: int)
    requires Ranked(g, max, checked, rank) && t in rank && checked[t] <= b <= max
    requires forall v :: v in Refs(g, t) ==> v in checked && checked[v] >= b - 1 >= 0
    ensures Ranked(g, max, checked[t := b], rank) && Raised(checked, checked[t := b])
  {
    assert RankedToken(g, max, checked, rank, t);
    forall u | u in checked
      ensures RankedToken(g, max, checked[t := b], rank, u)
    {
      assert RankedToken(g, max, checked, rank, u);
    }
  }

  lemma FinishingExtendsRanking(g: Graph, max: int, checked: map<Token, int>, rank: map<Token, nat>, t: Token, b: int)
    requires Ranked(g, max, checked, rank) && t !in rank && 0 <= b <= max
    requires forall v :: v in Refs(g, t) ==> v in checked && checked[v] >= b - 1 >= 0
    ensures Ranked(g, max, checked[t := b], rank[t := |rank|]) && Raised(checked, checked[t := b])
  {
    var after := rank[t := |rank|];
    assert after.Keys == rank.Keys + {t};
    assert |after| == |after.Keys| && |rank| == |rank.Keys|;
    var raised := checked[t := b];
    forall u | u in raised
      ensures RankedToken(g, max, raised, after, u)
    {
      if u != t {
        assert RankedToken(g, max, checked, rank, u);
      } else {
        forall v | v in Refs(g, t)
          ensures v in rank && rank[v] < |rank|
        {
          assert RankedToken(g, max, checked, rank, v);
        }
      }
    }
  }

  /** A finished token is above whatever it refers to. */
  lemma ReferencesAreAbove(g: Graph, max: int, checked: map<Token, int>, rank: map<Token, nat>, visited: set<Token>,
                           t: Token)
    requires Ranked(g, max, checked, rank) && Above(rank, visited, t)
    ensures forall v :: v in Refs(g, t) ==> Above(rank, visited + {t}, v)
    ensures Refs(g, t) != [] ==> checked[t] >= 1
  {
    assert RankedToken(g, max, checked, rank, t);
    if Refs(g, t) != [] {
      assert Refs(g, t)[0] in Refs(g, t);
    }
  }

  /** A finished token is accepted again, by the memo or by a renewed search, and nothing new finishes. */
  lemma {:induction false} FinishedTokenAcceptedAgain(g: Graph, max: int, t: Token, visited: set<Token>, m: Memo,
                                                      depth: nat, rank: map<Token, nat>, o: Outcome)
    requires o == Explore(g, max, AsWritten, t, visited, m, depth)
    requires Ranked(g, max, m.checked, rank) && depth <= max && Above(rank, visited, t)
    ensures o.verdict.Accepted? && Ranked(g, max, o.memo.checked, rank) && Raised(m.checked, o.memo.checked)
    ensures o.memo.checked[t] >= max - depth && Untouched(m.checked, o.memo.checked, visited)
    decreases max - depth, 0, 1
  {
    if !Reusable(AsWritten, m.checked, t, max - depth) {
      var loaded := m.(loads := m.loads + multiset{t});
      var below := ExploreAll(g, max, AsWritten, Refs(g, t), visited + {t}, loaded, depth + 1);
      ReferencesAcceptedAgain(g, max, t, visited, loaded, depth, rank, below);
      FinishedAgain(g, max, m.checked, below.memo.checked, o.memo.checked, rank, visited, t, max - depth);
    }
  }

  lemma {:induction false} ReferencesAcceptedAgain(g: Graph, max: int, t: Token, visited: set<Token>, m: Memo,
                                                   depth: nat, rank: map<Token, nat>, below: Outcome)
    requires below == ExploreAll(g, max, AsWritten, Refs(g, t), visited + {t}, m, depth + 1)
    requires Ranked(g, max, m.checked, rank) && depth <= max && Above(rank, visited, t) && m.checked[t] < max - depth
    ensures below.verdict.Accepted? && Ranked(g, max, below.memo.checked, rank)
    ensures Raised(m.checked, below.memo.checked) && Untouched(m.checked, below.memo.checked, visited + {t})
    ensures forall v :: v in Refs(g, t) ==> v in below.memo.checked && below.memo.checked[v] >= max - depth - 1 >= 0
    decreases max - depth, 0, 0
  {
    ReferencesAreAbove(g, max, m.checked, rank, visited, t);
    FinishedTokensAcceptedAgain(g, max, Refs(g, t), visited + {t}, m, depth + 1, rank, below);
  }

  lemma FinishedAgain(g: Graph, max: int, before: map<Token, int>, checked: map<Token, int>, after: map<Token, int>,
                      rank: map<Token, nat>, visited: set<Token>, t: Token, b: int)
    requires Ranked(g, max, checked, rank) && Above(rank, visited, t) && t in before && before[t] <= b <= max
    requires checked[t] <= b && after == checked[t := b]
    requires Raised(before, checked) && Untouched(before, checked, visited + {t})
    requires forall v :: v in Refs(g, t) ==> v in checked && checked[v] >= b - 1 >= 0
    ensures Ranked(g, max, after, rank) && Raised(before, after) && Untouched(before, after, visited)
  {
    RaisingKeepsRanking(g, max, checked, rank, t, b);
  }

  /** The same for a sequence of tokens. */
  lemma {:induction false} FinishedTokensAcceptedAgain(g: Graph, max: int, ts: seq<Token>, visited: set<Token>, m: Memo,
                                                       depth: nat, rank: map<Token, nat>, o: Outcome)
    requires o == ExploreAll(g, max, AsWritten, ts, visited, m, depth)
    requires Ranked(g, max, m.checked, rank) && (ts == [] || depth <= max)
    requires forall t :: t in ts ==> Above(rank, visited, t)
    ensures o.verdict.Accepted? && Ranked(g, max, o.memo.checked, rank) && Raised(m.checked, o.memo.checked)
    ensures Untouched(m.checked, o.memo.checked, visited)
    ensures forall t :: t in ts ==> t in rank && o.memo.checked[t] >= max - depth
    decreases max - depth, 1, |ts|
  {
    if ts != [] {
      assert ts[0] in ts;
      var first := Explore(g, max, AsWritten, ts[0], visited, m, depth);
      FinishedTokenAcceptedAgain(g, max, ts[0], visited, m, depth, rank, first);
      assert forall t :: t in ts[1..] ==> t in ts;
      FinishedTokensAcceptedAgain(g, max, ts[1..], visited, first.memo, depth, rank, o);
      assert forall t :: t in ts ==> t == ts[0] || t in ts[1..];
    }
  }

  /** The two runs stay in step: `once` has finished the same tokens, none of them being explored. */
  ghost predicate InStep(g: Graph, max: int, m: Memo, once: Memo, rank: map<Token, nat>, visited: set<Token>) {
    Ranked(g, max, m.checked, rank) && once.checked.Keys == rank.Keys && visited !! rank.Keys
  }

  lemma FinishInStep(g: Graph, max: int, m: Memo, once: Memo, rank: map<Token, nat>, visited: set<Token>, t: Token,
                     b: int)
    requires InStep(g, max, m, once, rank, visited + {t}) && t !in visited && 0 <= b <= max
    requires forall v :: v in Refs(g, t) ==> v in rank && m.checked[v] >= b - 1 >= 0
    ensures InStep(g, max, m.(checked := m.checked[t := b]), once.(checked := once.checked[t := b]),
                   rank[t := |rank|], visited)
    ensures Raised(m.checked, m.checked[t := b])
  {
    FinishingExtendsRanking(g, max, m.checked, rank, t, b);
  }

  /** The check as written and the one that expands each token once run in step. */
  lemma {:induction false} SameAsOnce(g: Graph, max: int, t: Token, visited: set<Token>, m: Memo, once: Memo,
                                      depth: nat,
                                      rank: map<Token, nat>, o: Outcome, p: Outcome) returns (after: map<Token, nat>)
    requires o == Explore(g, max, AsWritten, t, visited, m, depth)
    requires p == Explore(g, max, Always, t, visited, once, depth)
    requires InStep(g, max, m, once, rank, visited)
    ensures o.verdict == p.verdict
    ensures o.verdict.Accepted? ==>
              && InStep(g, max, o.memo, p.memo, after, visited) && Raised(m.checked, o.memo.checked)
              && t in after && o.memo.checked[t] >= max - depth >= 0
    decreases max - depth, 0, 0
  {
    after := rank;
    if depth > max || t in visited {
    } else if t in rank {
      FinishedTokenAcceptedAgain(g, max, t, visited, m, depth, rank, o);
    } else {
      var loadedM := m.(loads := m.loads + multiset{t});
      var loadedOnce := once.(loads := once.loads + multiset{t});
      var below := ExploreAll(g, max, AsWritten, Refs(g, t), visited + {t}, loadedM, depth + 1);
      var belowOnce := ExploreAll(g, max, Always, Refs(g, t), visited + {t}, loadedOnce, depth + 1);
      after := SameAsOnceForAll(g, max, Refs(g, t), visited + {t}, loadedM, loadedOnce, depth + 1, rank, below,
                                belowOnce);
      if below.verdict.Accepted? {
        FinishInStep(g, max, below.memo, belowOnce.memo, after, visited, t, max - depth);
        after := after[t := |after|];
      }
    }
  }

  lemma {:induction false} SameAsOnceForAll(g: Graph, max: int, ts: seq<Token>, visited: set<Token>, m: Memo,
                                            once: Memo, depth: nat,
                                            rank: map<Token, nat>, o: Outcome, p: Outcome)
    returns (after: map<Token, nat>)
    requires o == ExploreAll(g, max, AsWritten, ts, visited, m, depth)
    requires p == ExploreAll(g, max, Always, ts, visited, once, depth)
    requires InStep(g, max, m, once, rank, visited)
    ensures o.verdict == p.verdict
    ensures o.verdict.Accepted? ==>
              && InStep(g, max, o.memo, p.memo, after, visited) && Raised(m.checked, o.memo.checked)
              && forall t :: t in ts ==> t in after && o.memo.checked[t] >= max - depth >= 0
    decreases max - depth, 1, |ts|
  {
    after := rank;
    if ts != [] {
      var first := Explore(g, max, AsWritten, ts[0], visited, m, depth);
      var firstOnce := Explore(g, max, Always, ts[0], visited, once, depth);
      after := SameAsOnce(g, max, ts[0], visited, m, once, depth, rank, first, firstOnce);
      if first.verdict.Accepted? {
        after := SameAsOnceForAll(g, max, ts[1..], visited, first.memo, firstOnce.memo, depth, after, o, p);
        assert forall t :: t in ts ==> t == ts[0] || t in ts[1..];
      }
    }
  }

  /**
   The budget stored in the memo never matters: the check as written gives,
   error and all, the verdict of a search that expands every token once.
   */
  lemma BudgetTestIsWithoutEffect(g: Graph, max: int, edited: Token, target: Token)
    ensures Check(g, max, AsWritten, edited, target).verdict == Check(g, max, Always, edited, target).verdict
  {
    var o, p := Check(g, max, AsWritten, edited, target), Check(g, max, Always, edited, target);
    var _ := SameAsOnce(g, max, target, {edited}, EMPTY_MEMO, EMPTY_MEMO, 0, map[], o, p);
  }

  // ------------------------------------------------------------------
  // Work
  // ------------------------------------------------------------------

  function Verified(m: Memo, u: Token): int {
    if u in m.checked then m.checked[u] else -1
  }

  ghost predicate LoadsBounded(m: Memo, max: int) {
    forall u :: m.loads[u] <= if max >= 0 then max + 1 else 0
  }

  /** Each load of a token that is not being explored raised its memo entry. */
  ghost predicate LoadsPaidFor(m: Memo, visited: set<Token>, max: int) {
    LoadsBounded(m, max) && forall u :: u !in visited ==> m.loads[u] <= Verified(m, u) + 1
  }

  ghost predicate LoadsKept(m: Memo, after: Memo, visited: set<Token>) {
    forall u :: u in visited ==> after.loads[u] == m.loads[u]
  }

  lemma {:induction false} ExploreBoundsLoads(g: Graph, max: int, t: Token, visited: set<Token>, m: Memo, depth: nat,
                                              o: Outcome)
    requires o == Explore(g, max, AsWritten, t, visited, m, depth)
    requires LoadsPaidFor(m, visited, max)
    ensures LoadsBounded(o.memo, max) && LoadsKept(m, o.memo, visited)
    ensures o.verdict.Accepted? ==> LoadsPaidFor(o.memo, visited, max)
    decreases max - depth, 0, 0
  {
    if depth <= max && t !in visited && !Reusable(AsWritten, m.checked, t, max - depth) {
      var loaded := m.(loads := m.loads + multiset{t});
      assert LoadsPaidFor(loaded, visited + {t}, max);
      var below := ExploreAll(g, max, AsWritten, Refs(g, t), visited + {t}, loaded, depth + 1);
      ExploreAllBoundsLoads(g, max, Refs(g, t), visited + {t}, loaded, depth + 1, below);
      assert below.memo.loads[t] == m.loads[t] + 1 <= Verified(m, t) + 2 <= max - depth + 1;
    }
  }

  lemma {:induction false} ExploreAllBoundsLoads(g: Graph, max: int, ts: seq<Token>, visited: set<Token>, m: Memo,
                                                 depth: nat, o: Outcome)
    requires o == ExploreAll(g, max, AsWritten, ts, visited, m, depth)
    requires LoadsPaidFor(m, visited, max)
    ensures LoadsBounded(o.memo, max) && LoadsKept(m, o.memo, visited)
    ensures o.verdict.Accepted? ==> LoadsPaidFor(o.memo, visited, max)
    decreases max - depth, 1, |ts|
  {
    if ts != [] {
      var first := Explore(g, max, AsWritten, ts[0], visited, m, depth);
      ExploreBoundsLoads(g, max, ts[0], visited, m, depth, first);
      if first.verdict.Accepted? {
        ExploreAllBoundsLoads(g, max, ts[1..], visited, first.memo, depth, o);
      }
    }
  }

  /** One check, accepted or not, loads no token more than `max + 1` times. */
  lemma EachTokenLoadedFewTimes(g: Graph, max: nat, edited: Token, target: Token, u: Token)
    ensures Check(g, max, AsWritten, edited, target).memo.loads[u] <= max + 1
  {
    ExploreBoundsLoads(g, max, target, {edited}, EMPTY_MEMO, 0, Check(g, max, AsWritten, edited, target));
  }

  // ------------------------------------------------------------------
  // A graph on which the memo hides an excessive depth
  // ------------------------------------------------------------------

  /** From 1, token 2 is reached first at depth 1 and again, through 3, at depth 2; 5 is two steps below it. */
  const SHARED_SUBTREE: Graph := map[1 := [2, 3], 2 := [4], 3 := [2], 4 := [5], 5 := []]

  lemma SharedSubtreeFirstSearch(m: Memo)
    requires m.checked == map[]
    ensures var o := Explore(SHARED_SUBTREE, 3, AsWritten, 2, {0, 1}, m, 1);
            o.verdict.Accepted? && 2 in o.memo.checked && o.memo.checked[2] == 2
  {
    var g := SHARED_SUBTREE;
    assert Fits(g, 0, 5, 0) && Fits(g, 0, 4, 1) && Fits(g, 0, 2, 2);
    assert WalkBetween(g, [1, 2], 1, 2);
    FittingTargetAccepted(g, 3, AsWritten, 0, 2, {0, 1}, m, 1);
  }

  lemma SharedSubtreeSecondSearch(m: Memo)
    requires 2 in m.checked && m.checked[2] == 2
    ensures ExploreAll(SHARED_SUBTREE, 3, AsWritten, [3], {0, 1}, m, 1).verdict.Accepted?
  {
    var g, at3 := SHARED_SUBTREE, m.(loads := m.loads + multiset{3});
    assert Explore(g, 3, AsWritten, 2, {0, 1} + {3}, at3, 2) == Outcome(Accepted, at3);
    assert ExploreAll(g, 3, AsWritten, [2], {0, 1} + {3}, at3, 2).verdict.Accepted?;
    assert Explore(g, 3, AsWritten, 3, {0, 1}, m, 1).verdict.Accepted?;
  }

  lemma SharedSubtreeAccepted()
    ensures Accepts(SHARED_SUBTREE, 3, AsWritten, 0, 1)
  {
    var g, m := SHARED_SUBTREE, EMPTY_MEMO.(loads := EMPTY_MEMO.loads + multiset{1});
    assert {0} + {1} == {0, 1} && Refs(g, 1) == [2, 3] && [2, 3][1..] == [3];
    SharedSubtreeFirstSearch(m);
    SharedSubtreeSecondSearch(Explore(g, 3, AsWritten, 2, {0, 1}, m, 1).memo);
    assert ExploreAll(g, 3, AsWritten, Refs(g, 1), {0} + {1}, m, 1).verdict.Accepted?;
  }

  /** The walk through both references is four steps long. */
  lemma SharedSubtreeLongWalk()
    ensures Walk(SHARED_SUBTREE, [1, 3, 2, 4, 5])
  {
  }

  lemma SharedSubtreeRejected()
    ensures !Accepts(SHARED_SUBTREE, 3, Never, 0, 1)
  {
    SharedSubtreeLongWalk();
    PlainSearchAcceptsExactlyBoundedWalks(SHARED_SUBTREE, 3, 0, 1);
  }

  /** With the default limit of 3 the check accepts a target that plain search rejects. */
  lemma SharedSubtreeEscapesDepthLimit()
    ensures Accepts(SHARED_SUBTREE, 3, AsWritten, 0, 1)
    ensures !Accepts(SHARED_SUBTREE, 3, Never, 0, 1)
  {
    SharedSubtreeAccepted();
    SharedSubtreeRejected();
  }
}
