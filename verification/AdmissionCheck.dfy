/**
 The circular-reference check of the subscription service: a depth-first
 search from the target of a new reference, with a memo of finished tokens.
 */
module AdmissionCheck {
  import opened Graphs

  /**
   When a memo entry for a token may stand in for exploring it again. The code
   uses `AsWritten`; the others are the yardsticks it is compared with.
   */
  datatype Policy =
    | AsWritten      // verified with at least the budget left now
    | NoMoreBudget   // verified with at most the budget left now
    | Always         // verified at all
    | Never          // plain depth-first search

  datatype Verdict = Accepted | Circular(token: Token) | TooDeep(depth: int)

  /** `checked` is the memo; `loads` counts how often each token was loaded. */
  datatype Memo = Memo(checked: map<Token, int>, loads: multiset<Token>)

  datatype Outcome = Outcome(verdict: Verdict, memo: Memo)

  predicate Reusable(policy: Policy, checked: map<Token, int>, t: Token, budget: int) {
    match policy
    case AsWritten => (if t in checked then checked[t] else -1) >= budget
    case NoMoreBudget => t in checked && checked[t] <= budget
    case Always => t in checked
    case Never => false
  }

  function Explore(g: Graph, max: int, policy: Policy, t: Token, visited: set<Token>, m: Memo, depth: nat): Outcome
    decreases max - depth, 0, 0
  {
    if depth > max then Outcome(TooDeep(depth), m)
    else if t in visited then Outcome(Circular(t), m)
    else if Reusable(policy, m.checked, t, max - depth) then Outcome(Accepted, m)
    else
      var loaded := m.(loads := m.loads + multiset{t});
      var o := ExploreAll(g, max, policy, Refs(g, t), visited + {t}, loaded, depth + 1);
      if o.verdict.Accepted? then Outcome(Accepted, o.memo.(checked := o.memo.checked[t := max - depth])) else o
  }

  function ExploreAll(g: Graph, max: int, policy: Policy, ts: seq<Token>, visited: set<Token>, m: Memo,
                      depth: nat): Outcome
    decreases max - depth, 1, |ts|
  {
    if ts == [] then Outcome(Accepted, m)
    else
      var o := Explore(g, max, policy, ts[0], visited, m, depth);
      if o.verdict.Accepted? then ExploreAll(g, max, policy, ts[1..], visited, o.memo, depth) else o
  }

  const EMPTY_MEMO := Memo(map[], multiset{})

  /** The check made before `edited` gets a reference to `target`. */
  function Check(g: Graph, max: int, policy: Policy, edited: Token, target: Token): Outcome {
    Explore(g, max, policy, target, {edited}, EMPTY_MEMO, 0)
  }

  predicate Accepts(g: Graph, max: int, policy: Policy, edited: Token, target: Token) {
    Check(g, max, policy, edited, target).verdict.Accepted?
  }

  // ------------------------------------------------------------------
  // The check as the service runs it
  // ------------------------------------------------------------------

  class ReferenceChecker {
    const graph: Graph
    const maxDepth: int
    var visited: set<Token>
    var checked: map<Token, int>
    ghost var loads: multiset<Token>

    constructor (graph: Graph, maxDepth: int, edited: Token)
      ensures this.graph == graph && this.maxDepth == maxDepth
      ensures visited == {edited} && CurrentMemo() == EMPTY_MEMO
    {
      this.graph, this.maxDepth := graph, maxDepth;
      visited, checked, loads := {edited}, map[], multiset{};
    }

    ghost function CurrentMemo(): Memo
      reads this
    {
      Memo(checked, loads)
    }

    method CheckCircularReference(target: Token, depth: nat) returns (verdict: Verdict)
      modifies this
      ensures visited == old(visited)
      ensures Outcome(verdict, CurrentMemo()) ==
              Explore(graph, maxDepth, AsWritten, target, old(visited), old(CurrentMemo()), depth)
      decreases maxDepth - depth
    {
      if depth > maxDepth {
        return TooDeep(depth);
      }
      if target in visited {
        return Circular(target);
      }
      var budget := maxDepth - depth;
      if (if target in checked then checked[target] else -1) >= budget {
        return Accepted;
      }
      loads := loads + multiset{target};
      if target !in graph {
        checked := checked[target := budget];
        return Accepted;
      }
      visited := visited + {target};
      verdict := Accepted;
      ghost var inside, loaded := visited, CurrentMemo();
      for i := 0 to |graph[target]|
        invariant visited == inside && verdict.Accepted?
        invariant ExploreAll(graph, maxDepth, AsWritten, graph[target], inside, loaded, depth + 1) ==
                  ExploreAll(graph, maxDepth, AsWritten, graph[target][i..], inside, CurrentMemo(), depth + 1)
      {
        verdict := CheckCircularReference(graph[target][i], depth + 1);
        assert graph[target][i..][1..] == graph[target][i + 1..];
        if !verdict.Accepted? {
          break;
        }
      }
      visited := visited - {target};
      if verdict.Accepted? {
        checked := checked[target := budget];
      }
    }
  }
}
