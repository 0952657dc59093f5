/** The errors of the circular-reference check tell the truth about the graph. */
module AdmissionVerdicts {
  import opened Graphs
  import opened AdmissionCheck
  import opened AdmissionProperties
  import opened FirstWalks

  /** `p` is the way from `target` to where the search is; `v` comes next. */
  ghost predicate OnTheWay(g: Graph, target: Token, p: seq<Token>, v: Token) {
    Walk(g, p + [v]) && (p + [v])[0] == target
  }

  /** A circle is a way back to the edited subscription or a cycle below the target; too deep is a walk too long. */
  ghost predicate Justified(g: Graph, max: int, edited: Token, target: Token, verdict: Verdict) {
    match verdict
    case Accepted => true
    case Circular(t) => Reaches(g, target, t) && (t == edited || StrictlyReaches(g, t, t))
    case TooDeep(depth) => depth > max && exists p :: Walk(g, p) && p[0] == target && |p| == depth + 1
  }

  lemma MetAgain(g: Graph, target: Token, p: seq<Token>, v: Token)
    requires OnTheWay(g, target, p, v)
    ensures Reaches(g, target, v) && (v in p ==> StrictlyReaches(g, v, v))
  {
    var q := p + [v];
    assert WalkBetween(g, q, target, v);
    if v in p {
      var i :| 0 <= i < |p| && p[i] == v;
      assert WalkBetween(g, q[i..], v, v);
    }
  }

  lemma OneStepOn(g: Graph, target: Token, p: seq<Token>, v: Token, x: Token)
    requires OnTheWay(g, target, p, v) && x in Refs(g, v)
    ensures OnTheWay(g, target, p + [v], x)
  {
    var q, r := p + [v], p + [v] + [x];
    forall i | 0 <= i < |r| - 1
      ensures r[i + 1] in Refs(g, r[i])
    {
      if i < |p| {
        assert r[i] == q[i] && r[i + 1] == q[i + 1];
      }
    }
  }

  lemma {:induction false} ExploreIsJustified(g: Graph, max: int, edited: Token, target: Token, p: seq<Token>, v: Token,
                                              visited: set<Token>, m: Memo, o: Outcome)
    requires OnTheWay(g, target, p, v) && visited == {edited} + Tokens(p)
    requires o == Explore(g, max, AsWritten, v, visited, m, |p|)
    ensures Justified(g, max, edited, target, o.verdict)
    decreases max - |p|, 0, 0
  {
    if |p| > max {
      assert Walk(g, p + [v]) && (p + [v])[0] == target && |p + [v]| == |p| + 1;
    } else if v in visited {
      MetAgain(g, target, p, v);
    } else if !Reusable(AsWritten, m.checked, v, max - |p|) {
      var loaded := m.(loads := m.loads + multiset{v});
      forall x | x in Refs(g, v)
        ensures OnTheWay(g, target, p + [v], x)
      {
        OneStepOn(g, target, p, v, x);
      }
      assert visited + {v} == {edited} + Tokens(p + [v]);
      ExploreAllIsJustified(g, max, edited, target, p + [v], Refs(g, v), visited + {v}, loaded,
                            ExploreAll(g, max, AsWritten, Refs(g, v), visited + {v}, loaded, |p| + 1));
    }
  }

  lemma {:induction false} ExploreAllIsJustified(g: Graph, max: int, edited: Token, target: Token, p: seq<Token>,
                                                 ts: seq<Token>, visited: set<Token>, m: Memo, o: Outcome)
    requires (forall x :: x in ts ==> OnTheWay(g, target, p, x)) && visited == {edited} + Tokens(p)
    requires o == ExploreAll(g, max, AsWritten, ts, visited, m, |p|)
    ensures Justified(g, max, edited, target, o.verdict)
    decreases max - |p|, 1, |ts|
  {
    if ts != [] {
      var first := Explore(g, max, AsWritten, ts[0], visited, m, |p|);
      assert ts[0] in ts;
      ExploreIsJustified(g, max, edited, target, p, ts[0], visited, m, first);
      if first.verdict.Accepted? {
        assert forall x :: x in ts[1..] ==> x in ts;
        ExploreAllIsJustified(g, max, edited, target, p, ts[1..], visited, first.memo, o);
      }
    }
  }

  /** Whatever the check reports is there in the graph. */
  lemma VerdictsAreTrue(g: Graph, max: int, edited: Token, target: Token)
    ensures Justified(g, max, edited, target, Check(g, max, AsWritten, edited, target).verdict)
  {
    assert [] + [target] == [target] && {edited} + Tokens([]) == {edited};
    ExploreIsJustified(g, max, edited, target, [], target, {edited}, EMPTY_MEMO,
                       Check(g, max, AsWritten, edited, target));
  }
}
