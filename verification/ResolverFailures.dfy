/** Failure isolation: a source whose fetch fails might as well not be there. */
module ResolverFailures {
  import opened Graphs
  import opened Collections
  import opened Subscriptions
  import opened Resolver
  import opened ResolverInvariants

  /** Sources of `t` that are fetched successfully, or need no fetch. */
  function Succeeds(w: World, t: Token): Source -> bool {
    (s: Source) => s.kind.Config? || (t, s.id) !in w.failing
  }

  /** The same world with every failing source deleted from the store. */
  function WithoutFailing(w: World): World {
    World(map t | t in w.store :: w.store[t].(sources := Select(w.store[t].sources, Succeeds(w, t))), w.content, {})
  }

  /** Equal but for the truncation flag. */
  ghost predicate Alike(a: Progress, b: Progress) {
    a.(truncated := false) == b.(truncated := false)
  }

  lemma EligibleWithoutFailing(w: World, t: Token, depth: nat)
    requires t in w.store
    ensures EligibleSources(WithoutFailing(w).store[t], depth) ==
            Select(EligibleSources(w.store[t], depth), Succeeds(w, t))
  {
    var eligible := EligibleAt(depth);
    SelectTwice(w.store[t].sources, Succeeds(w, t), eligible);
    SelectSorted(Select(w.store[t].sources, eligible), Succeeds(w, t));
  }

  lemma {:induction false} AddLinesAlike(lines: seq<Line>, s: Source, a1: Progress, a2: Progress)
    requires Alike(a1, a2)
    ensures Alike(AddLines(lines, s, a1), AddLines(lines, s, a2))
  {
    if lines != [] {
      var e := LineEntry(lines[0], s);
      AddLinesAlike(lines[1..], s, AddEntry(e, a1), AddEntry(e, a2));
    }
  }

  lemma EnteringKeepsAlike(w: World, lim: Limits, t: Token, a1: Progress, a2: Progress)
    requires Alike(a1, a2) && t in w.store
    ensures Alike(Describe(lim, w.store[t], a1.(visited := a1.visited + {t})),
                  Describe(lim, WithoutFailing(w).store[t], a2.(visited := a2.visited + {t})))
  {
  }

  lemma {:induction false} VisitAlike(w: World, lim: Limits, t: Token, depth: nat,
                                      a1: Progress, a2: Progress, b1: Progress, b2: Progress)
    requires Alike(a1, a2)
    requires b1 == Visit(w, lim, t, depth, a1) && b2 == Visit(WithoutFailing(w), lim, t, depth, a2)
    ensures Alike(b1, b2)
    decreases lim.maxDepth - depth, 0, 0
  {
    if |a1.configs| < lim.maxConfigs && depth <= lim.maxDepth && t !in a1.visited && t in w.store {
      EligibleWithoutFailing(w, t, depth);
      var e1 := Describe(lim, w.store[t], a1.(visited := a1.visited + {t}));
      var e2 := Describe(lim, WithoutFailing(w).store[t], a2.(visited := a2.visited + {t}));
      EnteringKeepsAlike(w, lim, t, a1, a2);
      ApplyAllAlike(w, lim, t, EligibleSources(w.store[t], depth), depth, e1, e2, b1, b2);
    }
  }

  lemma {:induction false} ApplyAllAlike(w: World, lim: Limits, t: Token, ss: seq<Source>, depth: nat,
                                         a1: Progress, a2: Progress, b1: Progress, b2: Progress)
    requires depth <= lim.maxDepth && Alike(a1, a2)
    requires b1 == ApplyAll(w, lim, t, ss, depth, a1)
    requires b2 == ApplyAll(WithoutFailing(w), lim, t, Select(ss, Succeeds(w, t)), depth, a2)
    ensures Alike(b1, b2)
    decreases lim.maxDepth - depth - 1, 1, |ss|
  {
    if ss != [] && |a1.configs| < lim.maxConfigs {
      var m1 := ApplySource(w, lim, t, ss[0], depth, a1);
      if Succeeds(w, t)(ss[0]) {
        var m2 := ApplySource(WithoutFailing(w), lim, t, ss[0], depth, a2);
        ApplySourceAlike(w, lim, t, ss[0], depth, a1, a2, m1, m2);
        var kept := Select(ss[1..], Succeeds(w, t));
        assert ([ss[0]] + kept)[0] == ss[0] && ([ss[0]] + kept)[1..] == kept;
        ApplyAllAlike(w, lim, t, ss[1..], depth, m1, m2, b1, b2);
      } else {
        ApplyAllAlike(w, lim, t, ss[1..], depth, m1, a2, b1, b2);
      }
    }
  }

  lemma SameFetch(w: World, t: Token, s: Source)
    requires !s.kind.Config? && Succeeds(w, t)(s)
    ensures Fetch(WithoutFailing(w), t, s) == Fetch(w, t, s) && !Fetch(w, t, s).Failed?
  {
  }

  lemma {:induction false} ApplySourceAlike(w: World, lim: Limits, t: Token, s: Source, depth: nat,
                                            a1: Progress, a2: Progress, b1: Progress, b2: Progress)
    requires depth <= lim.maxDepth && |a1.configs| < lim.maxConfigs && Alike(a1, a2) && Succeeds(w, t)(s)
    requires b1 == ApplySource(w, lim, t, s, depth, a1) && b2 == ApplySource(WithoutFailing(w), lim, t, s, depth, a2)
    ensures Alike(b1, b2)
    decreases lim.maxDepth - depth - 1, 0, 1
  {
    if !s.kind.Config? {
      SameFetch(w, t, s);
      match Fetch(w, t, s)
      case Failed =>
      case Lines(lines) =>
        AddLinesAlike(Take(lines, lim.maxConfigs - |a1.configs|), s, a1, a2);
      case CommentMap(c) =>
        if s.kind.target.Some? {
          VisitAlike(w, lim, s.kind.target.value, depth + 1, MergeInto(c, a1), MergeInto(c, a2), b1, b2);
        }
    }
  }

  /**
   Failing fetches lose only their own sources: configs, description and
   everything else but the truncation flag are those of the store without them.
   */
  lemma FailuresAreIsolated(w: World, lim: Limits, root: Token)
    ensures Resolve(w, lim, root).configs == Resolve(WithoutFailing(w), lim, root).configs
    ensures Alike(Resolve(w, lim, root), Resolve(WithoutFailing(w), lim, root))
  {
    assert StoredComments(w, root) == StoredComments(WithoutFailing(w), root);
    VisitAlike(w, lim, root, 0, Start(w, lim, root), Start(WithoutFailing(w), lim, root),
               Resolve(w, lim, root), Resolve(WithoutFailing(w), lim, root));
  }

  // ------------------------------------------------------------------
  // The truncation flag
  // ------------------------------------------------------------------

  /** The visit comes upon a failing source after the result has become full. */
  predicate VisitMeetsFailing(w: World, lim: Limits, t: Token, depth: nat, a: Progress)
    decreases lim.maxDepth - depth, 0, 0
  {
    && !Full(lim, a) && depth <= lim.maxDepth && t !in a.visited && t in w.store
    && SourcesMeetFailing(w, lim, t, EligibleSources(w.store[t], depth), depth,
                          Describe(lim, w.store[t], a.(visited := a.visited + {t})))
  }

  predicate SourcesMeetFailing(w: World, lim: Limits, t: Token, ss: seq<Source>, depth: nat, a: Progress)
    requires depth <= lim.maxDepth
    decreases lim.maxDepth - depth - 1, 1, |ss|
  {
    && ss != []
    && if Full(lim, a) then exists i :: 0 <= i < |ss| && !Succeeds(w, t)(ss[i])
       else SourceMeetsFailing(w, lim, t, ss[0], depth, a)
            || SourcesMeetFailing(w, lim, t, ss[1..], depth, ApplySource(w, lim, t, ss[0], depth, a))
  }

  predicate SourceMeetsFailing(w: World, lim: Limits, t: Token, s: Source, depth: nat, a: Progress)
    requires depth <= lim.maxDepth
    decreases lim.maxDepth - depth - 1, 0, 1
  {
    && s.kind.Internal? && s.kind.target.Some? && Succeeds(w, t)(s)
    && VisitMeetsFailing(w, lim, s.kind.target.value, depth + 1, MergeInto(StoredComments(w, s.kind.target.value), a))
  }

  /**
   From `a`, the run with the failing sources ends flagged if the other one does or
   a failing source was met when full.
   */
  ghost predicate FlagTold(lim: Limits, a: Progress, b1: Progress, b2: Progress, met: bool) {
    && (b1.truncated <==> a.truncated || b2.truncated || met)
    && (met ==> Full(lim, b1))
  }

  lemma {:induction false} VisitTellsFlag(w: World, lim: Limits, t: Token, depth: nat,
                                          a1: Progress, a2: Progress, b1: Progress, b2: Progress)
    requires Alike(a1, a2) && (a2.truncated ==> a1.truncated)
    requires b1 == Visit(w, lim, t, depth, a1) && b2 == Visit(WithoutFailing(w), lim, t, depth, a2)
    ensures FlagTold(lim, a1, b1, b2, VisitMeetsFailing(w, lim, t, depth, a1))
    decreases lim.maxDepth - depth, 0, 0
  {
    if !Full(lim, a1) && depth <= lim.maxDepth && t !in a1.visited && t in w.store {
      EligibleWithoutFailing(w, t, depth);
      var e1 := Describe(lim, w.store[t], a1.(visited := a1.visited + {t}));
      var e2 := Describe(lim, WithoutFailing(w).store[t], a2.(visited := a2.visited + {t}));
      EnteringKeepsAlike(w, lim, t, a1, a2);
      SourcesTellFlag(w, lim, t, EligibleSources(w.store[t], depth), depth, e1, e2, b1, b2);
    }
  }

  lemma NoneSelected(w: World, t: Token, ss: seq<Source>)
    ensures Select(ss, Succeeds(w, t)) == [] && ss != [] ==> exists i :: 0 <= i < |ss| && !Succeeds(w, t)(ss[i])
  {
    if ss != [] && Succeeds(w, t)(ss[0]) {
      SelectElements(ss, Succeeds(w, t));
      assert ss[0] in ss;
    }
  }

  lemma {:induction false} SourcesTellFlag(w: World, lim: Limits, t: Token, ss: seq<Source>, depth: nat,
                                           a1: Progress, a2: Progress, b1: Progress, b2: Progress)
    requires depth <= lim.maxDepth && Alike(a1, a2) && (a2.truncated ==> a1.truncated)
    requires b1 == ApplyAll(w, lim, t, ss, depth, a1)
    requires b2 == ApplyAll(WithoutFailing(w), lim, t, Select(ss, Succeeds(w, t)), depth, a2)
    ensures FlagTold(lim, a1, b1, b2, SourcesMeetFailing(w, lim, t, ss, depth, a1))
    decreases lim.maxDepth - depth - 1, 1, |ss|
  {
    if ss == [] {
    } else if Full(lim, a1) {
      NoneSelected(w, t, ss);
    } else {
      var m1 := ApplySource(w, lim, t, ss[0], depth, a1);
      ApplySourceKeeps(w, lim, t, ss[0], depth, a1, m1);
      ApplyAllKeeps(w, lim, t, ss[1..], depth, m1, b1);
      if Succeeds(w, t)(ss[0]) {
        var m2 := ApplySource(WithoutFailing(w), lim, t, ss[0], depth, a2);
        var kept := Select(ss[1..], Succeeds(w, t));
        assert ([ss[0]] + kept)[0] == ss[0] && ([ss[0]] + kept)[1..] == kept;
        ApplySourceAlike(w, lim, t, ss[0], depth, a1, a2, m1, m2);
        SourceTellsFlag(w, lim, t, ss[0], depth, a1, a2, m1, m2);
        ApplyAllKeeps(WithoutFailing(w), lim, t, kept, depth, m2, b2);
        SourcesTellFlag(w, lim, t, ss[1..], depth, m1, m2, b1, b2);
      } else {
        assert !SourceMeetsFailing(w, lim, t, ss[0], depth, a1);
        SourcesTellFlag(w, lim, t, ss[1..], depth, m1, a2, b1, b2);
      }
    }
  }

  lemma {:induction false} SourceTellsFlag(w: World, lim: Limits, t: Token, s: Source, depth: nat,
                                           a1: Progress, a2: Progress, b1: Progress, b2: Progress)
    requires depth <= lim.maxDepth && !Full(lim, a1) && Alike(a1, a2) && (a2.truncated ==> a1.truncated)
    requires Succeeds(w, t)(s)
    requires b1 == ApplySource(w, lim, t, s, depth, a1) && b2 == ApplySource(WithoutFailing(w), lim, t, s, depth, a2)
    ensures FlagTold(lim, a1, b1, b2, SourceMeetsFailing(w, lim, t, s, depth, a1))
    decreases lim.maxDepth - depth - 1, 0, 1
  {
    if !s.kind.Config? {
      assert Fetch(WithoutFailing(w), t, s) == Fetch(w, t, s);
      match Fetch(w, t, s)
      case Failed =>
      case Lines(lines) =>
        LinesOnlyAppend(Take(lines, lim.maxConfigs - |a1.configs|), s, a1);
        LinesOnlyAppend(Take(lines, lim.maxConfigs - |a1.configs|), s, a2);
      case CommentMap(c) =>
        if s.kind.target.Some? {
          VisitTellsFlag(w, lim, s.kind.target.value, depth + 1, MergeInto(c, a1), MergeInto(c, a2), b1, b2);
        }
    }
  }

  /**
   The failing sources can only set the flag, and only in a full result: the
   flags differ exactly when the run without them ends unflagged and, with
   them, a failing source is met after the result has become full.
   */
  lemma TruncationFlagsDifferExactlyWhen(w: World, lim: Limits, root: Token)
    ensures var b1, b2 := Resolve(w, lim, root), Resolve(WithoutFailing(w), lim, root);
            var met := VisitMeetsFailing(w, lim, root, 0, Start(w, lim, root));
            && (b2.truncated ==> b1.truncated)
            && (!Full(lim, b1) ==> b1.truncated == b2.truncated)
            && (b1.truncated != b2.truncated <==> !b2.truncated && Full(lim, b2) && met)
  {
    assert StoredComments(w, root) == StoredComments(WithoutFailing(w), root);
    FailuresAreIsolated(w, lim, root);
    VisitTellsFlag(w, lim, root, 0, Start(w, lim, root), Start(WithoutFailing(w), lim, root),
                   Resolve(w, lim, root), Resolve(WithoutFailing(w), lim, root));
  }

  /** A store of one subscription holding one config and, last, one failing URL. */
  function OneFailing(): World {
    World(map[1 := Subscription("", [Source(ConfigId(7), Config(7, "c", true), false, 3, 0),
                                     Source(ExternalId(8), External(Some(8)), false, 3, 1)], map[])],
          map[], {(1, ExternalId(8))})
  }

  /** The truncation flag can tell the two apart: a failing source met when the result is full sets it. */
  lemma TruncationFlagMayDiffer()
    ensures Resolve(OneFailing(), Limits(3, 1, ""), 1).truncated
    ensures !Resolve(WithoutFailing(OneFailing()), Limits(3, 1, ""), 1).truncated
  {
    var w, lim := OneFailing(), Limits(3, 1, "");
    var all := w.store[1].sources;
    var config, url := all[0], all[1];
    SelectAll(all, EligibleAt(0));
    assert SortByIndex([url]) == [url] by { assert [url][1..] == []; }
    assert all[1..] == [url];
    assert SortByIndex(all) == [config, url];
    assert Select(all, Succeeds(w, 1)) == [config] by {
      assert Select([url], Succeeds(w, 1)) == Select([url][1..], Succeeds(w, 1));
    }
    EligibleWithoutFailing(w, 1, 0);
    var a := Start(w, lim, 1).(visited := {} + {1});
    var b := ApplySource(w, lim, 1, config, 0, a);
    assert |b.configs| == 1;
    assert [config, url][1..] == [url];
    assert ApplyAll(w, lim, 1, [config, url], 0, a) == ApplyAll(w, lim, 1, [url], 0, b);
    var w' := WithoutFailing(w);
    assert ApplySource(w', lim, 1, config, 0, a) == b;
    assert ApplyAll(w', lim, 1, [config], 0, a) == ApplyAll(w', lim, 1, [], 0, b) by { assert [config][1..] == []; }
    assert StoredComments(w', 1) == StoredComments(w, 1);
  }
}
